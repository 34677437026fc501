/**
 What the Homework3 and Homework4 scripts share: the fifteen validated fields of
 the registration form, the verdict each validator produces, the error slots the
 verdicts are written to (a field-to-message map; empty text means valid), the
 aggregation that refreshes a list of slots, and the two modes of the action button.
 */
module Registration {
  import opened Chars
  import opened Masks

  datatype FieldId =
    | FirstName | MiddleInitial | LastName | Dob | Ssn | Email | Phone
    | Address1 | Address2 | City | State | Zip | UserId | Password | Confirm

  /** The order in which `validateAll` lists its fifteen validators. */
  const ValidationOrder: seq<FieldId> :=
    [ FirstName, MiddleInitial, LastName, Dob, Ssn, Email, Phone,
      Address1, Address2, City, State, Zip, UserId, Password, Confirm ]

  /** `validateAll` runs the validator of every field. */
  lemma ValidationOrderCovers()
    ensures forall f :: f in ValidationOrder
  {
    forall f ensures f in ValidationOrder {
      match f
      case FirstName => assert ValidationOrder[0] == f;
      case MiddleInitial => assert ValidationOrder[1] == f;
      case LastName => assert ValidationOrder[2] == f;
      case Dob => assert ValidationOrder[3] == f;
      case Ssn => assert ValidationOrder[4] == f;
      case Email => assert ValidationOrder[5] == f;
      case Phone => assert ValidationOrder[6] == f;
      case Address1 => assert ValidationOrder[7] == f;
      case Address2 => assert ValidationOrder[8] == f;
      case City => assert ValidationOrder[9] == f;
      case State => assert ValidationOrder[10] == f;
      case Zip => assert ValidationOrder[11] == f;
      case UserId => assert ValidationOrder[12] == f;
      case Password => assert ValidationOrder[13] == f;
      case Confirm => assert ValidationOrder[14] == f;
    }
  }

  /** The `id` attribute of each input; the local store is keyed by it. */
  function ElementId(f: FieldId): string {
    match f
    case FirstName => "firstname"
    case MiddleInitial => "mi"
    case LastName => "lastname"
    case Dob => "dob"
    case Ssn => "ssn"
    case Email => "email"
    case Phone => "phone"
    case Address1 => "address1"
    case Address2 => "address2"
    case City => "city"
    case State => "state"
    case Zip => "zip"
    case UserId => "userid"
    case Password => "password"
    case Confirm => "confirm"
  }

  /** Distinct fields have distinct element ids. */
  lemma ElementIdInjective(f: FieldId, g: FieldId)
    ensures ElementId(f) == ElementId(g) ==> f == g
  {
  }

  /** The current text of every validated field. */
  datatype Form = Form(
    firstName: string, mi: string, lastName: string, dob: string,
    ssn: string, email: string, phone: string,
    address1: string, address2: string, city: string, state: string, zip: string,
    userId: string, password: string, confirm: string)

  function Get(form: Form, f: FieldId): string {
    match f
    case FirstName => form.firstName
    case MiddleInitial => form.mi
    case LastName => form.lastName
    case Dob => form.dob
    case Ssn => form.ssn
    case Email => form.email
    case Phone => form.phone
    case Address1 => form.address1
    case Address2 => form.address2
    case City => form.city
    case State => form.state
    case Zip => form.zip
    case UserId => form.userId
    case Password => form.password
    case Confirm => form.confirm
  }

  /** Writing one field: reading it back gives the new text, every other field is untouched. */
  function Set(form: Form, f: FieldId, v: string): (r: Form)
    ensures Get(r, f) == v
    ensures forall g :: g != f ==> Get(r, g) == Get(form, g)
  {
    match f
    case FirstName => form.(firstName := v)
    case MiddleInitial => form.(mi := v)
    case LastName => form.(lastName := v)
    case Dob => form.(dob := v)
    case Ssn => form.(ssn := v)
    case Email => form.(email := v)
    case Phone => form.(phone := v)
    case Address1 => form.(address1 := v)
    case Address2 => form.(address2 := v)
    case City => form.(city := v)
    case State => form.(state := v)
    case Zip => form.(zip := v)
    case UserId => form.(userId := v)
    case Password => form.(password := v)
    case Confirm => form.(confirm := v)
  }

  /** Writing back what is already there changes nothing. */
  lemma SetSame(form: Form, f: FieldId)
    ensures Set(form, f, Get(form, f)) == form
  {
  }

  /** The text of an error slot that reports a failure: never empty, so an
      empty slot always means a passing field. */
  type Message = m: string | m != "" witness "?"

  /** A validator's outcome: pass, or fail with the message for the field's error slot. */
  datatype Verdict = Pass | Fail(message: Message)

  function Judge(ok: bool, message: Message): (v: Verdict)
    ensures v.Pass? <==> ok
  {
    if ok then Pass else Fail(message)
  }

  /** The text `setError`/`clearError` leave in the slot. */
  function Shown(v: Verdict): string {
    match v
    case Pass => ""
    case Fail(m) => m
  }

  /** The error slots of the form. */
  type Errors = map<FieldId, string>

  /** Every listed field's verdict is a pass: the `every(Boolean)` over the
      results, one field at a time. */
  predicate AllListed(fields: seq<FieldId>, verdict: FieldId -> Verdict)
    decreases |fields|
  {
    |fields| == 0 || (verdict(fields[0]).Pass? && AllListed(fields[1..], verdict))
  }

  lemma {:induction false} AllListedMeaning(fields: seq<FieldId>, verdict: FieldId -> Verdict)
    ensures AllListed(fields, verdict) <==> forall f :: f in fields ==> verdict(f).Pass?
    decreases |fields|
  {
    if |fields| > 0 {
      AllListedMeaning(fields[1..], verdict);
      assert forall f :: f in fields <==> f == fields[0] || f in fields[1..];
    }
  }

  /** The slots of the listed fields, each showing its field's verdict. */
  function Slots(fields: seq<FieldId>, verdict: FieldId -> Verdict): (m: Errors)
    ensures forall f :: f in m <==> f in fields
  {
    map f | f in fields :: Shown(verdict(f))
  }

  /** Writing the first listed slot, then the slots of the rest, writes the
      slots of the whole list. */
  lemma SlotsCons(fields: seq<FieldId>, verdict: FieldId -> Verdict, errs: Errors)
    requires |fields| > 0
    ensures errs[fields[0] := Shown(verdict(fields[0]))] + Slots(fields[1..], verdict)
            == errs + Slots(fields, verdict)
  {
    var f := fields[0];
    var a := errs[f := Shown(verdict(f))] + Slots(fields[1..], verdict);
    var b := errs + Slots(fields, verdict);
    assert forall g :: g in fields <==> g == f || g in fields[1..];
    assert a.Keys == b.Keys;
    forall g | g in a
      ensures a[g] == b[g]
    {
    }
  }

  /** Run the validators of `fields` in order, each writing its slot, and
      conjoin their results. Every validator runs whatever the earlier ones
      returned, so the listed slots end up overwritten with their verdicts and
      every other slot keeps its text. */
  function Refresh(fields: seq<FieldId>, verdict: FieldId -> Verdict, errs: Errors): (r: (bool, Errors))
    ensures r.0 == AllListed(fields, verdict)
    ensures r.1 == errs + Slots(fields, verdict)
    decreases |fields|
  {
    if |fields| == 0 then
      assert errs + Slots(fields, verdict) == errs;
      (true, errs)
    else
      var f := fields[0];
      var v := verdict(f);
      var rest := Refresh(fields[1..], verdict, errs[f := Shown(v)]);
      SlotsCons(fields, verdict, errs);
      (v.Pass? && rest.0, rest.1)
  }

  /** Slots written from verdicts that agree on the listed fields are the same slots. */
  lemma SlotsSame(fields: seq<FieldId>, v1: FieldId -> Verdict, v2: FieldId -> Verdict)
    requires forall f :: f in fields ==> v1(f) == v2(f)
    ensures Slots(fields, v1) == Slots(fields, v2)
  {
  }

  /** Writing the same slots twice leaves what the first write left. */
  lemma MergeAgain(errs: Errors, slots: Errors)
    ensures errs + slots + slots == errs + slots
  {
  }

  /** Running the same validators again, on a form where they reach the same
      verdicts, reproduces the outcome and leaves the slots as they are. */
  lemma RefreshAgain(fields: seq<FieldId>, v1: FieldId -> Verdict, v2: FieldId -> Verdict, errs: Errors)
    requires forall f :: f in fields ==> v1(f) == v2(f)
    ensures Refresh(fields, v2, Refresh(fields, v1, errs).1) == Refresh(fields, v1, errs)
  {
    AllListedMeaning(fields, v1);
    AllListedMeaning(fields, v2);
    SlotsSame(fields, v1, v2);
    MergeAgain(errs, Slots(fields, v1));
  }

  /** A listed field's slot, after the listed slots are written, shows its verdict. */
  lemma SlotsLookup(fields: seq<FieldId>, verdict: FieldId -> Verdict, errs: Errors, f: FieldId)
    requires f in fields
    ensures f in errs + Slots(fields, verdict)
    ensures (errs + Slots(fields, verdict))[f] == Shown(verdict(f))
  {
    assert f in Slots(fields, verdict);
  }

  /** A slot is empty exactly when its verdict passes. */
  lemma ShownEmpty(v: Verdict)
    ensures Shown(v) == "" <==> v.Pass?
  {
  }

  /** The masks that run on each keystroke before the validators see the field. */
  function Masked(f: FieldId, text: string): (r: string)
    ensures f == Ssn ==> r == MaskSsn(text)
    ensures f == Phone ==> r == MaskPhone(text)
    ensures f == Email ==> r == MaskEmail(text)
    ensures f !in {Ssn, Phone, Email} ==> r == text
  {
    match f
    case Ssn => MaskSsn(text)
    case Phone => MaskPhone(text)
    case Email => MaskEmail(text)
    case _ => text
  }

  /** Masking is a no-op on a value the field already holds after an input. */
  lemma MaskedIdempotent(f: FieldId, text: string)
    ensures Masked(f, Masked(f, text)) == Masked(f, text)
  {
    MaskSsnIdempotent(text);
    MaskPhoneIdempotent(text);
    MaskEmailIdempotent(text);
  }

  // ---------------------------------------------------------------- running a suite

  /** What `vEmail` writes back into its field: `value.trim().toLowerCase()`. */
  function NormalEmail(text: string): (r: string)
    ensures Unpadded(r)
    ensures forall i :: 0 <= i < |r| ==> !IsUpper(r[i])
    ensures |r| <= |text|
  {
    TrimToLower(text);
    ToLower(Trim(text))
  }

  /** The normalised email is the lower-cased text between a run of leading
      and a run of trailing white space of the input. */
  lemma NormalEmailSlice(text: string)
    ensures exists i, j :: 0 <= i <= j <= |text| && AllSpace(text[..i]) && AllSpace(text[j..])
                           && NormalEmail(text) == ToLower(text[i..j])
  {
    TrimSlice(text);
  }

  /** Normalising the email again changes nothing. */
  lemma NormalEmailIdempotent(text: string)
    ensures NormalEmail(NormalEmail(text)) == NormalEmail(text)
  {
    TrimLowerIdempotent(text);
  }

  /** The only write a validator makes to the form: when the email validator is
      among those run, it stores the normalised email back into the field. */
  function Settle(fields: seq<FieldId>, form: Form): (r: Form)
    ensures forall g :: g != Email ==> Get(r, g) == Get(form, g)
    ensures Email in fields ==> r.email == NormalEmail(form.email)
    ensures Email !in fields ==> r == form
  {
    if Email in fields then Set(form, Email, NormalEmail(form.email)) else form
  }

  /** Normalising the email a second time writes what is already there. */
  lemma SettleIdempotent(fields: seq<FieldId>, form: Form)
    ensures Settle(fields, Settle(fields, form)) == Settle(fields, form)
  {
    if Email in fields {
      var x := NormalEmail(form.email);
      NormalEmailIdempotent(form.email);
      assert Settle(fields, form) == form.(email := x);
      assert Settle(fields, form.(email := x)) == form.(email := x).(email := x);
    }
  }

  /** The validators of one revision, for one environment: the verdict each
      field's validator reaches on a form. */
  type Suite = (FieldId, Form) -> Verdict

  /** The write-back of the email changes no verdict of the suite: no other
      validator reads the email, and the email's own verdict is taken on the
      normalised text. */
  ghost predicate SettleStable(suite: Suite) {
    forall form: Form, g: FieldId :: suite(g, Set(form, Email, NormalEmail(form.email))) == suite(g, form)
  }

  /** Whatever validators ran, the form they leave behind gets the verdicts the
      incoming form got. */
  lemma SettleKeepsVerdicts(suite: Suite, fields: seq<FieldId>, form: Form)
    requires SettleStable(suite)
    ensures forall g :: suite(g, Settle(fields, form)) == suite(g, form)
  {
  }

  /** The verdicts of the suite on one form, as one function. */
  function VerdictsOf(suite: Suite, form: Form): (verdict: FieldId -> Verdict)
    ensures forall f :: verdict(f) == suite(f, form)
  {
    f => suite(f, form)
  }

  /** Every validator of the suite passes. */
  ghost predicate AllPass(suite: Suite, form: Form) {
    forall f: FieldId :: suite(f, form).Pass?
  }

  datatype Outcome = Outcome(ok: bool, form: Form, errs: Errors)

  /** Run the validators of `fields` in order; each sets its slot, the email
      validator normalises its field, and the result is the conjunction of the
      verdicts. */
  function RunValidators(suite: Suite, fields: seq<FieldId>, form: Form, errs: Errors): (r: Outcome)
    ensures r.ok <==> forall f :: f in fields ==> suite(f, form).Pass?
    ensures r.errs == errs + Slots(fields, VerdictsOf(suite, form))
    ensures r.form == Settle(fields, form)
  {
    var verdict := VerdictsOf(suite, form);
    AllListedMeaning(fields, verdict);
    var (ok, e) := Refresh(fields, verdict, errs);
    Outcome(ok, Settle(fields, form), e)
  }

  /** The slots `RunValidators` leaves: each listed field shows its verdict on
      the incoming form, every other slot keeps its text. */
  lemma RunValidatorsSlots(suite: Suite, fields: seq<FieldId>, form: Form, errs: Errors)
    ensures var r := RunValidators(suite, fields, form, errs);
            && (forall f :: f in fields ==> f in r.errs && r.errs[f] == Shown(suite(f, form)))
            && (forall f :: f !in fields ==> (f in r.errs <==> f in errs))
            && (forall f :: f !in fields && f in errs ==> r.errs[f] == errs[f])
  {
  }

  /** `validateAll`: every validator runs, whatever the earlier ones returned;
      true exactly when the whole form is valid. */
  function ValidateAll(suite: Suite, form: Form, errs: Errors): (r: Outcome)
    ensures r.ok <==> AllPass(suite, form)
    ensures r.form == Settle(ValidationOrder, form)
  {
    ValidationOrderCovers();
    RunValidators(suite, ValidationOrder, form, errs)
  }

  /** After `validateAll` every slot is written and shows its field's verdict. */
  lemma ValidateAllShows(suite: Suite, form: Form, errs: Errors)
    ensures var r := ValidateAll(suite, form, errs);
            forall f: FieldId :: f in r.errs && r.errs[f] == Shown(suite(f, form))
  {
    var r := ValidateAll(suite, form, errs);
    var verdict := VerdictsOf(suite, form);
    assert r.errs == errs + Slots(ValidationOrder, verdict);
    forall f: FieldId
      ensures f in r.errs && r.errs[f] == Shown(suite(f, form))
    {
      ValidationOrderCovers();
      SlotsLookup(ValidationOrder, verdict, errs, f);
    }
  }

  /** After `validateAll` a slot is empty exactly when its field is valid, so
      the result is true exactly when every slot is empty. */
  lemma ValidateAllSlots(suite: Suite, form: Form, errs: Errors)
    ensures var r := ValidateAll(suite, form, errs);
            && (forall f: FieldId :: f in r.errs && (r.errs[f] == "" <==> suite(f, form).Pass?))
            && (r.ok <==> forall f: FieldId :: f in r.errs && r.errs[f] == "")
  {
    ValidateAllShows(suite, form, errs);
    forall f: FieldId {
      ShownEmpty(suite(f, form));
    }
  }

  /** Validating the form `validateAll` leaves behind reproduces its outcome:
      running every validator again, as the review table does, shows the same
      result and writes the same slots. */
  lemma ValidateAllIdempotent(suite: Suite, form: Form, errs: Errors)
    requires SettleStable(suite)
    ensures var r := ValidateAll(suite, form, errs);
            ValidateAll(suite, r.form, r.errs) == r
  {
    var r := ValidateAll(suite, form, errs);
    var v1, v2 := VerdictsOf(suite, form), VerdictsOf(suite, r.form);
    SettleKeepsVerdicts(suite, ValidationOrder, form);
    assert forall f :: v1(f) == v2(f);
    RefreshAgain(ValidationOrder, v1, v2, errs);
    SettleIdempotent(ValidationOrder, form);
  }

  // ---------------------------------------------------------------- the action button

  /** The two faces of the action button. */
  datatype Mode = Review | Submit

  /** The page as the validators see it: the fields, the error slots, the button. */
  datatype Page = Page(form: Form, errs: Errors, mode: Mode)

  /** The button offers Submit only for a form on which every validator passes. */
  ghost predicate Consistent(suite: Suite, s: Page) {
    s.mode == Submit ==> AllPass(suite, s.form)
  }

  /** The Review click: validate everything; Submit for a valid form, Review otherwise. */
  function ReviewClick(suite: Suite, s: Page): (r: Page)
    ensures r.mode == Submit <==> AllPass(suite, s.form)
    ensures r.form == Settle(ValidationOrder, s.form)
  {
    var o := ValidateAll(suite, s.form, s.errs);
    Page(o.form, o.errs, if o.ok then Submit else Review)
  }

  /** The submit guard: an invalid form is held back and the button returns to
      Review; a valid one is sent on with the button as it was. */
  function Guard(suite: Suite, s: Page): (r: (Page, bool))
    ensures r.1 <==> AllPass(suite, s.form)
    ensures r.1 ==> r.0.mode == s.mode
    ensures !r.1 ==> r.0.mode == Review
    ensures r.0.form == Settle(ValidationOrder, s.form)
  {
    var o := ValidateAll(suite, s.form, s.errs);
    (Page(o.form, o.errs, if o.ok then s.mode else Review), o.ok)
  }

  /** The Review click and the submit guard keep the button honest, and the
      guard lets a form through only when every validator passes on it, before
      and after the email write-back. */
  lemma ButtonSafe(suite: Suite, s: Page)
    requires SettleStable(suite)
    requires Consistent(suite, s)
    ensures Consistent(suite, ReviewClick(suite, s))
    ensures Consistent(suite, Guard(suite, s).0)
    ensures Guard(suite, s).1 ==> AllPass(suite, Guard(suite, s).0.form)
  {
    SettleKeepsVerdicts(suite, ValidationOrder, s.form);
  }
}
