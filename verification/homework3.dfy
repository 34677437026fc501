/**
 The Homework3 revision of the registration page: fifteen validators, each
 writing its field's error slot; `validateAll`, which runs all of them without
 short-circuiting; and the event handlers that drive the Review/Submit button.
 The page is the text of the fields, the error slots, and the button mode.
 */
module Homework3 {
  import opened Options
  import opened Chars
  import opened Regex
  import opened Patterns
  import opened Masks
  import opened Dates
  import opened Registration

  const NameMessage: Message := "1\U{2013}30 letters, apostrophes, dashes only."
  const InitialMessage: Message := "Leave blank or enter 1 letter."
  const DobRequired: Message := "Date of birth is required."
  const DobInvalid: Message := "Enter a valid date (YYYY-MM-DD)."
  const DobFuture: Message := "DOB cannot be in the future."
  const DobTooOld: Message := "DOB cannot be more than 120 years ago."
  const SsnMessage: Message := "Enter exactly 9 digits."
  const EmailMessage: Message := "Use a valid email like name@domain.tld."
  const PhoneMessage: Message := "Format must be (123) 456-7890."
  const Address1Message: Message := "2\U{2013}30 characters."
  const Address2Message: Message := "2\U{2013}30 characters or leave blank."
  const CityMessage: Message := "2\U{2013}30 letters/spaces."
  const StateMessage: Message := "Please select a state."
  const ZipMessage: Message := "5 digits required."
  const UserIdMessage: Message := "5\U{2013}20 chars, start with letter; " + "letters/digits/_/- only."
  const PasswordMessage: Message := "8+ chars with upper, lower, digit; " + "cannot equal User ID."
  const ConfirmMessage: Message := "Passwords must match."

  // ---------------------------------------------------------------- validators
  //
  // Each validator is written with the meaning of its regular expression; the
  // lemma after it proves that meaning equal to what the expression itself
  // accepts.

  /** First and last name: the trimmed text is 1 to 30 letters, apostrophes and dashes. */
  function VName(text: string): Verdict {
    Judge(IsNameText(Trim(text)), NameMessage)
  }

  lemma VNameRegex(text: string)
    ensures VName(text).Pass? <==> Matches(NamePattern, Trim(text))
  {
    NameMeaning(Trim(text));
  }

  /** Middle initial: blank, or exactly one letter once trimmed. */
  function VMiddleInitial(text: string): Verdict {
    Judge(Trim(text) == "" || IsInitial(Trim(text)), InitialMessage)
  }

  lemma VMiddleInitialRegex(text: string)
    ensures VMiddleInitial(text).Pass? <==> Trim(text) == "" || Matches(InitialPattern, Trim(text))
  {
    InitialMeaning(Trim(text));
  }

  /** A blank middle initial is accepted whatever whitespace it holds. */
  lemma VMiddleInitialBlank(text: string)
    requires AllSpace(text)
    ensures VMiddleInitial(text) == Pass
  {
    TrimEmpty(text);
  }

  /** Date of birth: present, readable, not after today and not before the day
      120 years ago; each failure has its own message. */
  function VDob(text: string, env: Env): (v: Verdict)
    ensures v.Pass? <==>
              && !AllSpace(text)
              && env.parseDob(text).Some?
              && InWindow(env.parseDob(text).value, env.today)
    ensures AllSpace(text) ==> v == Fail(DobRequired)
    ensures !AllSpace(text) && env.parseDob(text).None? ==> v == Fail(DobInvalid)
    ensures !AllSpace(text) && env.parseDob(text).Some? && Before(env.today, env.parseDob(text).value) ==>
              v == Fail(DobFuture)
    ensures && !AllSpace(text) && env.parseDob(text).Some?
            && !Before(env.today, env.parseDob(text).value)
            && Before(env.parseDob(text).value, Oldest(env.today)) ==>
              v == Fail(DobTooOld)
  {
    TrimEmpty(text);
    if Trim(text) == "" then Fail(DobRequired)
    else match env.parseDob(text)
      case None => Fail(DobInvalid)
      case Some(d) =>
        InWindowOrder(d, env.today);
        if Before(env.today, d) then Fail(DobFuture)
        else if Before(d, Oldest(env.today)) then Fail(DobTooOld)
        else Pass
  }

  /** SSN: the field's digits, separators dropped, are exactly nine. */
  function VSsn(text: string): Verdict {
    Judge(|Digits(text)| == 9, SsnMessage)
  }

  lemma VSsnRegex(text: string)
    ensures VSsn(text).Pass? <==> Matches(SsnPattern, Digits(text))
  {
    NineDigitsMeaning(Digits(text));
  }

  /** Email: the normalised text is `local@host.tld`. */
  function VEmail(text: string): Verdict {
    Judge(IsEmailText(NormalEmail(text)), EmailMessage)
  }

  lemma VEmailRegex(text: string)
    ensures VEmail(text).Pass? <==> Matches(EmailPattern, NormalEmail(text))
  {
    EmailMeaning(NormalEmail(text));
  }

  /** The email verdict is the same before and after the write-back. */
  lemma EmailVerdictNormal(text: string)
    ensures VEmail(NormalEmail(text)) == VEmail(text)
  {
    NormalEmailIdempotent(text);
  }

  /** Phone: exactly the shape the phone mask produces for ten digits. */
  function VPhone(text: string): Verdict {
    Judge(IsPhoneText(text), PhoneMessage)
  }

  lemma VPhoneRegex(text: string)
    ensures VPhone(text).Pass? <==> Matches(PhonePattern, text)
  {
    PhoneMeaning(text);
  }

  /** Address line 1: 2 to 30 characters on one line, once trimmed. */
  function VAddress1(text: string): Verdict {
    Judge(IsAddressText(Trim(text)), Address1Message)
  }

  lemma VAddress1Regex(text: string)
    ensures VAddress1(text).Pass? <==> Matches(AddressPattern, Trim(text))
  {
    AddressMeaning(Trim(text));
  }

  /** Address line 2: blank, or as address line 1. */
  function VAddress2(text: string): Verdict {
    Judge(Trim(text) == "" || IsAddressText(Trim(text)), Address2Message)
  }

  lemma VAddress2Regex(text: string)
    ensures VAddress2(text).Pass? <==> Trim(text) == "" || Matches(AddressPattern, Trim(text))
  {
    AddressMeaning(Trim(text));
  }

  /** City: 2 to 30 letters, dots, dashes and spaces, once trimmed. */
  function VCity(text: string): Verdict {
    Judge(IsCityText(Trim(text)), CityMessage)
  }

  lemma VCityRegex(text: string)
    ensures VCity(text).Pass? <==> Matches(CityPattern, Trim(text))
  {
    CityMeaning(Trim(text));
  }

  /** State: any option but the empty placeholder. */
  function VState(value: string): Verdict {
    Judge(value != "", StateMessage)
  }

  /** ZIP: exactly five digits once trimmed. */
  function VZip(text: string): Verdict {
    Judge(IsFiveDigits(Trim(text)), ZipMessage)
  }

  lemma VZipRegex(text: string)
    ensures VZip(text).Pass? <==> Matches(Zip5Pattern, Trim(text))
  {
    FiveDigitsMeaning(Trim(text));
  }

  /** User ID: a letter, then letters, digits, `_`, `-`; 5 to 20 characters once trimmed. */
  function VUserId(text: string): Verdict {
    Judge(IsUserIdText(Trim(text), 20), UserIdMessage)
  }

  lemma VUserIdRegex(text: string)
    ensures VUserId(text).Pass? <==> Matches(UserIdPattern, Trim(text))
  {
    UserIdMeaning(Trim(text));
  }

  /** Eight characters or more with an upper-case letter, a lower-case letter and
      a digit. */
  predicate StrongPassword(pw: string) {
    && |pw| >= 8
    && (exists i :: 0 <= i < |pw| && IsUpper(pw[i]))
    && (exists i :: 0 <= i < |pw| && IsLower(pw[i]))
    && (exists i :: 0 <= i < |pw| && IsDigit(pw[i]))
  }

  /** Password: strong, and different from the trimmed user ID when one is given. */
  function VPassword(pw: string, userId: string): Verdict {
    Judge(StrongPassword(pw) && (Trim(userId) == "" || pw != Trim(userId)), PasswordMessage)
  }

  lemma VPasswordRegex(pw: string, userId: string)
    ensures VPassword(pw, userId).Pass? <==>
              && |pw| >= 8
              && Finds(UpperPattern, pw) && Finds(LowerPattern, pw) && Finds(DigitPattern, pw)
              && (Trim(userId) == "" || pw != Trim(userId))
  {
    UpperMeaning(pw);
    LowerMeaning(pw);
    DigitMeaning(pw);
  }

  /** Confirmation: the same text as the password, and not empty. */
  function VPasswordMatch(pw: string, confirm: string): Verdict {
    Judge(pw == confirm && |confirm| > 0, ConfirmMessage)
  }

  /** The second field a validator reads: the user ID for the password, the
      password for its confirmation; the field itself otherwise. */
  function Partner(f: FieldId): (g: FieldId)
    ensures g == f || (f == Password && g == UserId) || (f == Confirm && g == Password)
  {
    match f
    case Password => UserId
    case Confirm => Password
    case _ => f
  }

  /** The validator of field f, given the field's text and its partner's. Every
      failure shows a message, so an empty slot means a passing field. */
  function Validate(f: FieldId, text: string, other: string, env: Env): Verdict
  {
    match f
    case FirstName => VName(text)
    case MiddleInitial => VMiddleInitial(text)
    case LastName => VName(text)
    case Dob => VDob(text, env)
    case Ssn => VSsn(text)
    case Email => VEmail(text)
    case Phone => VPhone(text)
    case Address1 => VAddress1(text)
    case Address2 => VAddress2(text)
    case City => VCity(text)
    case State => VState(text)
    case Zip => VZip(text)
    case UserId => VUserId(text)
    case Password => VPassword(text, other)
    case Confirm => VPasswordMatch(other, text)
  }

  /** The validator of one field, reading the form. */
  function Check(f: FieldId, form: Form, env: Env): Verdict
  {
    Validate(f, Get(form, f), Get(form, Partner(f)), env)
  }

  /** The Homework3 validators for one environment, as a suite. */
  function Validators(env: Env): (suite: Suite)
    ensures forall f, form :: suite(f, form) == Check(f, form, env)
  {
    (f, form) => Check(f, form, env)
  }

  /** A validator's verdict depends on its own field and its partner's, nothing else. */
  lemma CheckFrame(f: FieldId, a: Form, b: Form, env: Env)
    requires Get(a, f) == Get(b, f) && Get(a, Partner(f)) == Get(b, Partner(f))
    ensures Check(f, a, env) == Check(f, b, env)
  {
  }

  lemma CheckEmail(form: Form, env: Env)
    ensures Check(Email, form, env) == VEmail(form.email)
  {
  }

  /** Writing the normalised email back leaves every Homework3 verdict as it
      was: only the email validator reads the email, and it judges the
      normalised text either way. */
  lemma ValidatorsSettleStable(env: Env)
    ensures SettleStable(Validators(env))
  {
    forall form: Form, g: FieldId
      ensures Validators(env)(g, Set(form, Email, NormalEmail(form.email))) == Validators(env)(g, form)
    {
      if g == Email {
        SettledEmail(form, env);
      } else {
        CheckFrame(g, Set(form, Email, NormalEmail(form.email)), form, env);
      }
    }
  }

  /** The email validator judges the normalised email as it judged the text. */
  lemma SettledEmail(form: Form, env: Env)
    ensures Check(Email, Set(form, Email, NormalEmail(form.email)), env) == Check(Email, form, env)
  {
    var settled := Set(form, Email, NormalEmail(form.email));
    assert Get(settled, Email) == NormalEmail(form.email);
    EmailVerdictNormal(form.email);
    SameEmailVerdict(settled, form, env);
  }

  /** Two forms whose emails get the same verdict get the same email check. */
  lemma SameEmailVerdict(a: Form, b: Form, env: Env)
    requires VEmail(a.email) == VEmail(b.email)
    ensures Check(Email, a, env) == Check(Email, b, env)
  {
    CheckEmail(a, env);
    CheckEmail(b, env);
  }

  // ---------------------------------------------------------------- review table

  /** `ssnPretty`: nine digits shown as `DDD-DD-DDDD`, anything else as `(invalid)`. */
  function SsnPretty(raw: string): (r: string)
    ensures r == "(invalid)" <==> !IsNineDigits(raw)
    ensures IsNineDigits(raw) ==> |r| == 11 && r[3] == '-' && r[6] == '-'
  {
    NineDigitsMeaning(raw);
    if !Matches(SsnPattern, raw) then "(invalid)"
    else raw[..3] + "-" + raw[3..5] + "-" + raw[5..]
  }

  /** Dropping the dashes of the pretty form gives back the nine digits. */
  lemma SsnPrettyDigits(raw: string)
    requires IsNineDigits(raw)
    ensures Digits(SsnPretty(raw)) == raw
  {
    var a, b, c := raw[..3], raw[3..5], raw[5..];
    assert SsnPretty(raw) == "" + "" + a + "-" + b + "-" + c;
    DigitsThen("", "", a);
    DigitsThen("" + "" + a, "-", b);
    DigitsThen("" + "" + a + "-" + b, "-", c);
    assert a + b + c == raw;
  }

  // ---------------------------------------------------------------- events

  datatype Event =
    | Click                              // the action button
    | Input(field: FieldId, text: string) // the user changes a validated field to `text`
    | Blur(field: FieldId)               // focus leaves a validated field
    | OtherInput                         // any other control of the form changes
    | Submission                         // the form is submitted by other means (Enter)

  /** The state after an event, and whether the browser sends the form on. */
  datatype Reaction = Reaction(state: Page, sent: bool)

  /** The validators the input listener runs for each field: a new user ID also
      re-checks the password, a new password also re-checks the confirmation. */
  function Triggered(f: FieldId): (r: seq<FieldId>)
    ensures |r| > 0 && r[0] == f
    ensures forall i :: 0 <= i < |r| ==> r[i] == f || (f == UserId && r[i] == Password) || (f == Password && r[i] == Confirm)
    ensures f == UserId ==> Password in r
    ensures f == Password ==> Confirm in r
  {
    match f
    case UserId => [UserId, Password]
    case Password => [Password, Confirm]
    case _ => [f]
  }

  /** The input listeners of one field: the mask, then the field's triggered
      validators, then the button back to Review. */
  function Edit(suite: Suite, s: Page, f: FieldId, text: string): (r: Reaction)
    ensures !r.sent && r.state.mode == Review
    ensures Get(r.state.form, f) == AfterInput(f, text)
    ensures forall g :: g != f ==> Get(r.state.form, g) == Get(s.form, g)
    ensures r.state.errs == s.errs + Slots(Triggered(f), VerdictsOf(suite, Set(s.form, f, Masked(f, text))))
  {
    var o := RunValidators(suite, Triggered(f), Set(s.form, f, Masked(f, text)), s.errs);
    Reaction(Page(o.form, o.errs, Review), false)
  }

  /** The slots an input rewrites show the verdicts on the form as the input
      leaves it. */
  lemma EditShows(suite: Suite, s: Page, f: FieldId, text: string)
    requires SettleStable(suite)
    ensures var r := Edit(suite, s, f, text);
            forall g :: g in Triggered(f) ==> g in r.state.errs && r.state.errs[g] == Shown(suite(g, r.state.form))
  {
    var form := Set(s.form, f, Masked(f, text));
    SettleKeepsVerdicts(suite, Triggered(f), form);
    RunValidatorsSlots(suite, Triggered(f), form, s.errs);
  }

  /** What an input leaves in its field: the masked text, except that the
      email validator replaces the email by its trimmed, lower-cased form. */
  function AfterInput(f: FieldId, text: string): (v: string)
    ensures Masked(f, v) == v
    ensures f != Email ==> v == Masked(f, text)
    ensures f == Email ==> v == NormalEmail(text)
  {
    TrimToLower(text);
    ToLowerIdempotent(Trim(text));
    MaskedIdempotent(f, text);
    if f == Email then
      var v := NormalEmail(MaskEmail(text));
      LowerIsMaskFixed(v);
      v
    else Masked(f, text)
  }

  /** Leaving a field re-dispatches its input event; right after an input this
      changes nothing. */
  lemma BlurAfterInput(suite: Suite, s: Page, f: FieldId, text: string)
    requires SettleStable(suite)
    ensures var r := Edit(suite, s, f, text).state;
            Edit(suite, r, f, Get(r.form, f)) == Reaction(r, false)
  {
    var r := Edit(suite, s, f, text).state;
    var form := Set(s.form, f, Masked(f, text));
    var v := Get(r.form, f);
    assert v == AfterInput(f, text);
    SetSame(r.form, f);
    assert Set(r.form, f, Masked(f, v)) == r.form;
    SettleIdempotent(Triggered(f), form);
    SettleKeepsVerdicts(suite, Triggered(f), form);
    SlotsSame(Triggered(f), VerdictsOf(suite, r.form), VerdictsOf(suite, form));
    MergeAgain(s.errs, Slots(Triggered(f), VerdictsOf(suite, form)));
  }

  /** One event. A click in Review validates the form; for a valid form the
      listener has made the button a submit button before the browser's default
      action for the click runs, and it does not cancel that action, so the same
      click submits the form and the submit guard runs. A click in Submit mode
      submits the form too. */
  function Step(suite: Suite, s: Page, e: Event): Reaction
  {
    match e
    case Click =>
      if s.mode == Submit then var g := Guard(suite, s); Reaction(g.0, g.1)
      else
        var p := ReviewClick(suite, s);
        if p.mode == Submit then var g := Guard(suite, p); Reaction(g.0, g.1)
        else Reaction(p, false)
    case Input(f, text) => Edit(suite, s, f, text)
    case Blur(f) => Edit(suite, s, f, Get(s.form, f))
    case OtherInput => Reaction(s, false)
    case Submission => var g := Guard(suite, s); Reaction(g.0, g.1)
  }

  /** Only a click or a submission sends the form; an input or a blur returns
      the button to Review; any other input in the form changes nothing. */
  lemma StepEffects(suite: Suite, s: Page, e: Event)
    ensures Step(suite, s, e).sent ==> e.Click? || e.Submission?
    ensures (e.Input? || e.Blur?) ==> Step(suite, s, e).state.mode == Review
    ensures e.OtherInput? ==> Step(suite, s, e) == Reaction(s, false)
  {
    match e
    case Click =>
    case Input(f, text) =>
    case Blur(f) =>
    case OtherInput =>
    case Submission =>
  }

  /** A click, in either mode, sends the form exactly when every validator
      passes on it, and leaves the button reading Submit exactly then. */
  lemma ClickSends(suite: Suite, s: Page)
    requires SettleStable(suite)
    ensures Step(suite, s, Click).sent <==> AllPass(suite, s.form)
    ensures Step(suite, s, Click).state.mode == Submit <==> AllPass(suite, s.form)
  {
    SettleKeepsVerdicts(suite, ValidationOrder, s.form);
  }

  /** Every event keeps the button honest, and a form is sent on only when every
      validator passes on it, before and after the email is normalised. */
  lemma StepSafe(suite: Suite, s: Page, e: Event)
    requires SettleStable(suite)
    requires Consistent(suite, s)
    ensures Consistent(suite, Step(suite, s, e).state)
    ensures Step(suite, s, e).sent ==> AllPass(suite, s.form) && AllPass(suite, Step(suite, s, e).state.form)
  {
    StepEffects(suite, s, e);
    if e.Click? {
      ClickSafe(suite, s);
    } else if e.Submission? {
      ButtonSafe(suite, s);
    }
  }

  /** A click keeps the button honest, and sends on only a form on which every
      validator passes. */
  lemma ClickSafe(suite: Suite, s: Page)
    requires SettleStable(suite)
    requires Consistent(suite, s)
    ensures Consistent(suite, Step(suite, s, Click).state)
    ensures Step(suite, s, Click).sent ==> AllPass(suite, s.form) && AllPass(suite, Step(suite, s, Click).state.form)
  {
    ButtonSafe(suite, s);
    if s.mode == Review {
      var p := ReviewClick(suite, s);
      ButtonSafe(suite, p);
      SettleKeepsVerdicts(suite, ValidationOrder, s.form);
      if p.mode == Submit {
        var g := Guard(suite, p);
        assert Step(suite, s, Click) == Reaction(g.0, g.1);
      } else {
        assert Step(suite, s, Click) == Reaction(p, false);
      }
    } else {
      var g := Guard(suite, s);
      assert Step(suite, s, Click) == Reaction(g.0, g.1);
    }
  }

  /** The page after a sequence of events, and the forms sent on along the way. */
  function Run(suite: Suite, s: Page, events: seq<Event>): (r: (Page, seq<Form>))
    ensures |r.1| <= |events|
    ensures (forall i :: 0 <= i < |events| ==> !events[i].Click? && !events[i].Submission?) ==> r.1 == []
    decreases |events|
  {
    if |events| == 0 then (s, [])
    else
      var step := Step(suite, s, events[0]);
      var rest := Run(suite, step.state, events[1..]);
      (rest.0, (if step.sent then [step.state.form] else []) + rest.1)
  }

  /** Over any sequence of events from a page with the button honest, the button
      stays honest and every form the browser sends passes every validator. */
  lemma {:induction false} RunSafe(suite: Suite, s: Page, events: seq<Event>)
    requires SettleStable(suite)
    requires Consistent(suite, s)
    ensures Consistent(suite, Run(suite, s, events).0)
    ensures forall form :: form in Run(suite, s, events).1 ==> AllPass(suite, form)
    decreases |events|
  {
    if |events| > 0 {
      var step := Step(suite, s, events[0]);
      StepSafe(suite, s, events[0]);
      RunSafe(suite, step.state, events[1..]);
    }
  }
}
