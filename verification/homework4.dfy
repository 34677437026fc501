/**
 The Homework4 revision of the registration page. Its validators keep most
 Homework3 rules under the one message "Invalid" and revise four of them: the
 date of birth, the address lines, the ZIP code and the password. Inputs no
 longer run validators; they only apply the masks, save the field to the local
 store when remember-me is on, and return the button to Review. A valid
 submission settles the remember-me cookie.
 */
module Homework4 {
  import opened Options
  import opened Chars
  import opened Regex
  import opened Patterns
  import opened Dates
  import opened Registration
  import Homework3

  const Invalid: Message := "Invalid"
  const Required: Message := "Required"
  const Mismatch: Message := "Mismatch"

  // ---------------------------------------------------------------- revised validators

  /** Date of birth: present, and neither after today nor before the day 120
      years ago. There is no check that the text reads as a date: for text the
      parser cannot read both comparisons are false, and the field passes. */
  function VDob(text: string, env: Env): (v: Verdict)
    ensures AllSpace(text) ==> v == Fail(Required)
    ensures !AllSpace(text) ==> (v.Pass? || v == Fail(Invalid))
    ensures v.Pass? <==>
              && !AllSpace(text)
              && (env.parseDob(text).Some? ==> InWindow(env.parseDob(text).value, env.today))
  {
    TrimEmpty(text);
    if Trim(text) == "" then Fail(Required)
    else match env.parseDob(text)
      case None => Pass
      case Some(d) =>
        InWindowOrder(d, env.today);
        Judge(!Before(env.today, d) && !Before(d, Oldest(env.today)), Invalid)
  }

  /** Address line 1: 2 to 30 characters once trimmed, any characters. */
  function VAddress1(text: string): Verdict {
    Judge(2 <= |Trim(text)| <= 30, Invalid)
  }

  /** Address line 2: blank, or 2 to 30 characters once trimmed. */
  function VAddress2(text: string): Verdict {
    Judge(Trim(text) == "" || 2 <= |Trim(text)| <= 30, Invalid)
  }

  /** ZIP: five digits, optionally followed by `-` and four digits, once trimmed. */
  function VZip(text: string): Verdict {
    Judge(IsFiveDigits(Trim(text)) || IsZipPlus4(Trim(text)), Invalid)
  }

  lemma VZipRegex(text: string)
    ensures VZip(text).Pass? <==> MatchesSome(ZipPlus4Alternatives, Trim(text))
  {
    ZipPlus4Meaning(Trim(text));
  }

  /** Password: strong; the user ID is no longer consulted. */
  function VPassword(pw: string): Verdict {
    Judge(Homework3.StrongPassword(pw), Invalid)
  }

  lemma VPasswordRegex(pw: string)
    ensures VPassword(pw).Pass? <==>
              |pw| >= 8 && Finds(UpperPattern, pw) && Finds(LowerPattern, pw) && Finds(DigitPattern, pw)
  {
    UpperMeaning(pw);
    LowerMeaning(pw);
    DigitMeaning(pw);
  }

  /** The second field a validator reads: the password for its confirmation,
      the field itself otherwise. */
  function Partner(f: FieldId): (g: FieldId)
    ensures g == f || (f == Confirm && g == Password)
  {
    if f == Confirm then Password else f
  }

  /** The validator of field f. The rules this revision keeps are the
      Homework3 rules, shown with the new messages. */
  function Validate(f: FieldId, text: string, other: string, env: Env): Verdict {
    match f
    case FirstName => Judge(Homework3.VName(text).Pass?, Invalid)
    case MiddleInitial => Judge(Homework3.VMiddleInitial(text).Pass?, Invalid)
    case LastName => Judge(Homework3.VName(text).Pass?, Invalid)
    case Dob => VDob(text, env)
    case Ssn => Judge(Homework3.VSsn(text).Pass?, Invalid)
    case Email => Judge(Homework3.VEmail(text).Pass?, Invalid)
    case Phone => Judge(Homework3.VPhone(text).Pass?, Invalid)
    case Address1 => VAddress1(text)
    case Address2 => VAddress2(text)
    case City => Judge(Homework3.VCity(text).Pass?, Invalid)
    case State => Judge(text != "", Required)
    case Zip => VZip(text)
    case UserId => Judge(Homework3.VUserId(text).Pass?, Invalid)
    case Password => VPassword(text)
    case Confirm => Judge(other == text && |text| > 0, Mismatch)
  }

  function Check(f: FieldId, form: Form, env: Env): Verdict {
    Validate(f, Get(form, f), Get(form, Partner(f)), env)
  }

  /** The Homework4 validators for one environment, as a suite. */
  function Validators(env: Env): (suite: Suite)
    ensures forall f, form :: suite(f, form) == Check(f, form, env)
  {
    (f, form) => Check(f, form, env)
  }

  lemma CheckFrame(f: FieldId, a: Form, b: Form, env: Env)
    requires Get(a, f) == Get(b, f) && Get(a, Partner(f)) == Get(b, Partner(f))
    ensures Check(f, a, env) == Check(f, b, env)
  {
  }

  lemma CheckEmail(form: Form, env: Env)
    ensures Check(Email, form, env) == Judge(Homework3.VEmail(form.email).Pass?, Invalid)
  {
  }

  /** Writing the normalised email back leaves every Homework4 verdict as it was. */
  lemma ValidatorsSettleStable(env: Env)
    ensures SettleStable(Validators(env))
  {
    forall form: Form, g: FieldId
      ensures Check(g, Set(form, Email, NormalEmail(form.email)), env) == Check(g, form, env)
    {
      if g == Email {
        SettledEmail(form, env);
      } else {
        CheckFrame(g, Set(form, Email, NormalEmail(form.email)), form, env);
      }
    }
  }

  /** The email validator judges the normalised email as it judged the text. */
  lemma SettledEmail(form: Form, env: Env)
    ensures Check(Email, Set(form, Email, NormalEmail(form.email)), env) == Check(Email, form, env)
  {
    var settled := Set(form, Email, NormalEmail(form.email));
    assert Get(settled, Email) == NormalEmail(form.email);
    Homework3.EmailVerdictNormal(form.email);
    SameEmailVerdict(settled, form, env);
  }

  /** Two forms whose emails get the same Homework3 verdict get the same email check. */
  lemma SameEmailVerdict(a: Form, b: Form, env: Env)
    requires Homework3.VEmail(a.email) == Homework3.VEmail(b.email)
    ensures Check(Email, a, env) == Check(Email, b, env)
  {
    CheckEmail(a, env);
    CheckEmail(b, env);
  }

  // ---------------------------------------------------------------- what changed since Homework3

  /** A non-blank date of birth the parser cannot read: Homework3 reports it,
      Homework4 lets it pass. */
  lemma DobUnreadable(text: string, env: Env)
    requires !AllSpace(text) && env.parseDob(text).None?
    ensures VDob(text, env) == Pass
    ensures Homework3.VDob(text, env) == Fail(Homework3.DobInvalid)
  {
  }

  /** On a date it can read, Homework4 passes exactly the dates Homework3 passes. */
  lemma DobReadable(text: string, env: Env)
    requires env.parseDob(text).Some?
    ensures VDob(text, env).Pass? <==> Homework3.VDob(text, env).Pass?
  {
  }

  /** Every ZIP Homework3 accepts, Homework4 accepts; a ZIP+4 only Homework4 does. */
  lemma ZipWidened(text: string)
    ensures Homework3.VZip(text).Pass? ==> VZip(text).Pass?
    ensures IsZipPlus4(Trim(text)) ==> VZip(text).Pass? && !Homework3.VZip(text).Pass?
  {
  }

  /** Every address Homework3 accepts, Homework4 accepts; Homework4 also
      accepts a line break inside the address. */
  lemma AddressWidened(text: string)
    ensures Homework3.VAddress1(text).Pass? ==> VAddress1(text).Pass?
    ensures Homework3.VAddress2(text).Pass? ==> VAddress2(text).Pass?
  {
  }

  lemma AddressLineBreak()
    ensures VAddress1("a\nb").Pass? && !Homework3.VAddress1("a\nb").Pass?
  {
    TrimUnpadded("a\nb");
    assert IsLineTerminator("a\nb"[1]);
  }

  /** A password Homework3 accepts, Homework4 accepts; a password equal to the
      user ID now passes as well. */
  lemma PasswordWidened(pw: string, userId: string)
    ensures Homework3.VPassword(pw, userId).Pass? ==> VPassword(pw).Pass?
    ensures Homework3.StrongPassword(pw) && Trim(userId) == pw && pw != "" ==>
              VPassword(pw).Pass? && !Homework3.VPassword(pw, userId).Pass?
  {
  }

  // ---------------------------------------------------------------- remember-me

  /** The cookie jar and the local store, as maps from key to text. */
  datatype Storage = Storage(cookies: map<string, string>, local: map<string, string>)

  /** The fields the input listener saves to the local store. */
  const LocalFields: seq<FieldId> :=
    [FirstName, MiddleInitial, LastName, Dob, Email, Phone, Address1, Address2, City, State, Zip, UserId]

  /** The decision on a valid submission: with remember-me on, the trimmed first
      name becomes the `fname` cookie when it is not blank; with it off, the
      cookie is deleted and the local store emptied. */
  function Remember(on: bool, firstName: string, st: Storage): (r: Storage)
    ensures on && Trim(firstName) != "" ==> "fname" in r.cookies && r.cookies["fname"] == Trim(firstName)
    ensures on ==> r.local == st.local
    ensures on && Trim(firstName) == "" ==> r == st
    ensures !on ==> "fname" !in r.cookies && r.local == map[]
    ensures forall k :: k != "fname" ==> (k in r.cookies <==> k in st.cookies)
    ensures forall k :: k != "fname" && k in st.cookies ==> r.cookies[k] == st.cookies[k]
  {
    if on then
      var fn := Trim(firstName);
      if fn != "" then st.(cookies := st.cookies["fname" := fn]) else st
    else Storage(st.cookies - {"fname"}, map[])
  }

  /** Submitting the same first name again stores nothing new. */
  lemma RememberIdempotent(on: bool, firstName: string, st: Storage)
    ensures Remember(on, firstName, Remember(on, firstName, st)) == Remember(on, firstName, st)
  {
    var r := Remember(on, firstName, st);
    var r2 := Remember(on, firstName, r);
    assert r2.cookies == r.cookies;
  }

  // ---------------------------------------------------------------- events

  /** The page, the remember-me checkbox, and the browser's storage. */
  datatype Session = Session(page: Page, remember: bool, store: Storage)

  datatype Event =
    | Click                               // the action button
    | Enter                               // Enter in a text field (implicit submission)
    | Input(field: FieldId, text: string) // the user changes a validated field to `text`
    | Health(value: string)               // the health slider moves
    | RememberMe(on: bool)                // the remember-me checkbox changes
    | OtherInput                          // any other control of the form changes
    | Submission                          // the form is submitted
    | FullReset(after: Form, checked: bool) // the reset button; its default action leaves the fields `after`
                                          // and the remember-me checkbox `checked`

  datatype Reaction = Reaction(state: Session, sent: bool)

  /** The `input` listener of the form: an edit returns the button to Review. */
  function Edited(s: Session): (r: Session)
    ensures r.page.mode == Review
    ensures r.page.form == s.page.form && r.page.errs == s.page.errs
    ensures r.remember == s.remember && r.store == s.store
  {
    s.(page := s.page.(mode := Review))
  }

  /** The input listeners of one field: the mask, the local store when
      remember-me is on and the field is one it keeps, then the form's listener. */
  function Type(s: Session, f: FieldId, text: string): (r: Session)
    ensures r.page.form == Set(s.page.form, f, Masked(f, text))
    ensures r.page.errs == s.page.errs && r.page.mode == Review && r.remember == s.remember
    ensures r.store.cookies == s.store.cookies
    ensures s.remember && f in LocalFields ==>
              r.store.local == s.store.local[ElementId(f) := Masked(f, text)]
    ensures !(s.remember && f in LocalFields) ==> r.store.local == s.store.local
  {
    var v := Masked(f, text);
    var local := if s.remember && f in LocalFields then s.store.local[ElementId(f) := v] else s.store.local;
    Edited(Session(s.page.(form := Set(s.page.form, f, v)), s.remember, s.store.(local := local)))
  }

  /** The submit listener: an invalid form is held back and the button returns
      to Review; a valid one goes on, and remember-me settles the storage. */
  function OnSubmit(suite: Suite, s: Session): (r: Reaction)
    ensures r.sent <==> AllPass(suite, s.page.form)
    ensures !r.sent ==> r.state.store == s.store && r.state.page.mode == Review
    ensures r.sent ==> r.state.store == Remember(s.remember, r.state.page.form.firstName, s.store)
  {
    var g := Guard(suite, s.page);
    var store := if g.1 then Remember(s.remember, g.0.form.firstName, s.store) else s.store;
    Reaction(Session(g.0, s.remember, store), g.1)
  }

  /** One event. The click listener cancels the Review click's own submission,
      so only a click in Submit mode, Enter in Submit mode, or a submission by
      other means reaches the submit listener. */
  function Step(suite: Suite, s: Session, e: Event): Reaction
  {
    match e
    case Click =>
      if s.page.mode == Submit then OnSubmit(suite, s)
      else Reaction(s.(page := ReviewClick(suite, s.page)), false)
    case Enter =>
      if s.page.mode == Submit then OnSubmit(suite, s) else Reaction(s, false)
    case Input(f, text) => Reaction(Type(s, f, text), false)
    case Health(value) =>
      var local := if s.remember then s.store.local["health" := value] else s.store.local;
      Reaction(Edited(s.(store := s.store.(local := local))), false)
    case RememberMe(on) => Reaction(Edited(s.(remember := on)), false)
    case OtherInput => Reaction(Edited(s), false)
    case Submission => OnSubmit(suite, s)
    case FullReset(after, checked) =>
      var store := if s.remember then s.store else Storage(s.store.cookies - {"fname"}, map[]);
      Reaction(Session(s.page.(form := after), checked, store), false)
  }

  /** Only a click, Enter or a submission can send the form; any input in the
      form returns the button to Review. */
  lemma StepEffects(suite: Suite, s: Session, e: Event)
    ensures Step(suite, s, e).sent ==> e.Click? || e.Enter? || e.Submission?
    ensures (e.Input? || e.Health? || e.RememberMe? || e.OtherInput?) ==>
              !Step(suite, s, e).sent && Step(suite, s, e).state.page.mode == Review
  {
    match e
    case Click =>
    case Enter =>
    case Input(f, text) =>
    case Health(value) =>
    case RememberMe(on) =>
    case OtherInput =>
    case Submission =>
    case FullReset(after, checked) =>
  }

  /** The remember-me decision writes no cookie but `fname`. */
  lemma RememberKeepsCookies(on: bool, firstName: string, st: Storage)
    ensures Remember(on, firstName, st).cookies - {"fname"} == st.cookies - {"fname"}
  {
    var m := st.cookies;
    if on && Trim(firstName) != "" {
      assert m["fname" := Trim(firstName)] - {"fname"} == m - {"fname"};
    } else if !on {
      assert (m - {"fname"}) - {"fname"} == m - {"fname"};
    }
  }

  /** The submit listener writes no cookie but `fname`. */
  lemma OnSubmitKeepsCookies(suite: Suite, s: Session)
    ensures OnSubmit(suite, s).state.store.cookies - {"fname"} == s.store.cookies - {"fname"}
  {
    var r := OnSubmit(suite, s);
    var st := r.state.store;
    if r.sent {
      var fn := r.state.page.form.firstName;
      assert st == Remember(s.remember, fn, s.store);
      RememberKeepsCookies(s.remember, fn, s.store);
    } else {
      assert st == s.store;
    }
  }

  /** No event touches a cookie other than `fname`. */
  lemma StepKeepsCookies(suite: Suite, s: Session, e: Event)
    ensures Step(suite, s, e).state.store.cookies - {"fname"} == s.store.cookies - {"fname"}
  {
    var m := s.store.cookies;
    match e
    case Click => OnSubmitKeepsCookies(suite, s);
    case Enter => OnSubmitKeepsCookies(suite, s);
    case Submission => OnSubmitKeepsCookies(suite, s);
    case FullReset(after, checked) =>
      assert (m - {"fname"}) - {"fname"} == m - {"fname"};
    case Input(f, text) => StepKeepsStore(suite, s, e);
    case Health(value) => StepKeepsStore(suite, s, e);
    case RememberMe(on) => StepKeepsStore(suite, s, e);
    case OtherInput => StepKeepsStore(suite, s, e);
  }

  /** An input anywhere in the form leaves the cookies as they were. */
  lemma StepKeepsStore(suite: Suite, s: Session, e: Event)
    requires e.Input? || e.Health? || e.RememberMe? || e.OtherInput?
    ensures Step(suite, s, e).state.store.cookies == s.store.cookies
  {
  }

  /** Enter before the button reads Submit is swallowed. */
  lemma EnterInReview(suite: Suite, s: Session)
    requires s.page.mode == Review
    ensures Step(suite, s, Enter) == Reaction(s, false)
  {
  }

  /** A form is sent on only when every validator passes on it, whatever the
      button says: the submit listener validates again. */
  lemma SentOnlyValid(suite: Suite, s: Session, e: Event)
    ensures Step(suite, s, e).sent ==> AllPass(suite, s.page.form)
    ensures Step(suite, s, e).sent <==> (e.Submission? || ((e.Click? || e.Enter?) && s.page.mode == Submit)) && AllPass(suite, s.page.form)
  {
  }

  /** The reset button changes the fields but not the button: a button that
      read Submit still does, although the fields it was reviewed on are gone.
      The storage is settled by the checkbox as it was before the reset; the
      checkbox itself then takes the state the reset gives it. */
  lemma ResetKeepsMode(suite: Suite, s: Session, after: Form, checked: bool)
    ensures Step(suite, s, FullReset(after, checked)).state.page == s.page.(form := after)
    ensures !Step(suite, s, FullReset(after, checked)).sent
    ensures Step(suite, s, FullReset(after, checked)).state.remember == checked
    ensures s.remember ==> Step(suite, s, FullReset(after, checked)).state.store == s.store
    ensures !s.remember ==> Step(suite, s, FullReset(after, checked)).state.store == Remember(false, "", s.store)
  {
  }

  /** Every event but the reset keeps the button honest, and a form is sent on
      only when every validator passes on it, before and after the email is
      normalised. */
  lemma StepSafe(suite: Suite, s: Session, e: Event)
    requires SettleStable(suite)
    requires Consistent(suite, s.page) && !e.FullReset?
    ensures Consistent(suite, Step(suite, s, e).state.page)
    ensures Step(suite, s, e).sent ==> AllPass(suite, s.page.form) && AllPass(suite, Step(suite, s, e).state.page.form)
  {
    StepEffects(suite, s, e);
    if e.Click? || e.Enter? || e.Submission? {
      ButtonSafe(suite, s.page);
    }
  }

  /** While remember-me is off nothing is written to the local store, and a
      valid submission empties it. */
  lemma ForgetfulWhenOff(suite: Suite, s: Session, e: Event)
    requires !s.remember && !e.RememberMe?
    ensures Step(suite, s, e).state.store.local.Keys <= s.store.local.Keys
    ensures Step(suite, s, e).sent ==> Step(suite, s, e).state.store.local == map[]
  {
  }
}
