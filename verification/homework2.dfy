/**
 The Homework2 revision of the registration page. Its submit listener checks
 only that the two password fields match; the Review button fills a table of
 eight rows, each with the value shown, a verdict and an error message, and
 never submits. Every value is read trimmed, except the state selector's.
 */
module Homework2 {
  import opened Options
  import opened Chars
  import opened Regex
  import opened Patterns
  import opened Masks
  import opened Dates
  import opened Registration

  const NameError := "ERROR: Missing name info"
  const MissingDob := "ERROR: Missing DOB"
  const FutureDob := "ERROR: Cannot be in the future"
  const TooOld := "ERROR: Too old"
  const SsnError := "ERROR: Must be 9 digits"
  const EmailError := "ERROR: Invalid email"
  const PhoneError := "ERROR: Invalid phone format"
  const AddressError := "ERROR: Missing or invalid address"
  const UserIdError := "ERROR: Invalid User ID"
  const PasswordError := "ERROR: Invalid or mismatched password"

  // ---------------------------------------------------------------- the submit guard

  /** `passwordsMatch`: the password is not empty and the confirmation repeats
      it exactly, untrimmed. */
  predicate PasswordsMatch(form: Form) {
    form.password != "" && form.password == form.confirm
  }

  // ---------------------------------------------------------------- the review rows

  /** One row of the review table: its label, the value it shows, whether it
      passes, and the message shown when it does not. */
  datatype Row = Row(heading: string, shown: string, ok: bool, message: string)

  /** The headings of the eight rows, in table order. */
  const Headings := ["First, MI, Last Name", "Date of Birth", "SSN", "Email", "Phone", "Address", "User ID", "Password"]

  /** The status cell: `PASS`, or the row's message. */
  function Status(r: Row): string {
    if r.ok then "PASS" else r.message
  }

  /** Names: the trimmed first and last names are both present; the middle
      initial is shown but not checked. */
  function NameRow(form: Form): (r: Row)
    ensures r.heading == Headings[0]
    ensures r.ok <==> !AllSpace(form.firstName) && !AllSpace(form.lastName)
    ensures !r.ok ==> Status(r) == NameError
  {
    TrimEmpty(form.firstName);
    TrimEmpty(form.lastName);
    var first, mi, last := Trim(form.firstName), Trim(form.mi), Trim(form.lastName);
    Row(Headings[0], first + " " + mi + " " + last, first != "" && last != "", NameError)
  }

  /** Date of birth: present and readable, not after today and not before the
      day 120 years ago. Text the parser cannot read fails both comparisons
      and is reported as too old. */
  function DobRow(text: string, env: Env): (r: Row)
    ensures r.heading == Headings[1]
    ensures r.ok <==>
              && !AllSpace(text)
              && env.parseDob(Trim(text)).Some?
              && InWindow(env.parseDob(Trim(text)).value, env.today)
    ensures AllSpace(text) ==> Status(r) == MissingDob
    ensures !AllSpace(text) && env.parseDob(Trim(text)).None? ==> Status(r) == TooOld
    ensures !AllSpace(text) && env.parseDob(Trim(text)).Some? && Before(env.today, env.parseDob(Trim(text)).value) ==>
              Status(r) == FutureDob
    ensures && !AllSpace(text) && env.parseDob(Trim(text)).Some?
            && !Before(env.today, env.parseDob(Trim(text)).value)
            && Before(env.parseDob(Trim(text)).value, Oldest(env.today)) ==>
              Status(r) == TooOld
    ensures r.shown == if AllSpace(text) then "(none)" else Trim(text)
  {
    TrimEmpty(text);
    var dob := Trim(text);
    if dob == "" then Row(Headings[1], "(none)", false, MissingDob)
    else match env.parseDob(dob)
      case None => Row(Headings[1], dob, false, TooOld)
      case Some(d) =>
        InWindowOrder(d, env.today);
        var ok := !Before(env.today, d) && !Before(d, Oldest(env.today));
        Row(Headings[1], dob, ok, if ok then "" else if Before(env.today, d) then FutureDob else TooOld)
  }

  /** SSN: the trimmed text is nine digits, and only then is it hidden. */
  function SsnRow(text: string): (r: Row)
    ensures r.heading == Headings[2]
    ensures r.ok <==> IsNineDigits(Trim(text))
    ensures r.ok ==> r.shown == "*********"
    ensures !r.ok ==> r.shown == Trim(text) && Status(r) == SsnError
  {
    var ssn := Trim(text);
    var ok := IsNineDigits(ssn);
    Row(Headings[2], if ok then "*********" else ssn, ok, if ok then "PASS" else SsnError)
  }

  lemma SsnRowRegex(text: string)
    ensures SsnRow(text).ok <==> Matches(SsnPattern, Trim(text))
  {
    NineDigitsMeaning(Trim(text));
  }

  /** The SSN mask leaves text the row accepts exactly when nine digits were typed. */
  lemma SsnRowAfterMask(raw: string)
    ensures SsnRow(MaskSsn(raw)).ok <==> |Digits(raw)| >= 9
  {
    var m := MaskSsn(raw);
    DigitsTrimmed(m);
    assert IsNineDigits(m) <==> |Digits(raw)| >= 9;
  }

  /** A string of digits has no white space to trim. */
  lemma DigitsTrimmed(m: string)
    requires AllDigits(m)
    ensures Trim(m) == m
  {
    if |m| > 0 {
      assert IsDigit(m[0]) && IsDigit(m[|m| - 1]);
    }
    TrimUnpadded(m);
  }

  /** Email: somewhere in the trimmed text, a character, `@`, at least one
      character, `.`, and a character, all on one line. */
  function EmailRow(text: string): (r: Row)
    ensures r.heading == Headings[3]
    ensures r.ok <==> IsLooseEmail(Trim(text))
    ensures r.shown == Trim(text)
  {
    var email := Trim(text);
    var ok := IsLooseEmail(email);
    Row(Headings[3], email, ok, if ok then "PASS" else EmailError)
  }

  lemma EmailRowRegex(text: string)
    ensures EmailRow(text).ok <==> Finds(LooseEmailPattern, Trim(text))
  {
    LooseEmailMeaning(Trim(text));
  }

  /** Phone: the trimmed text is `(DDD) DDD-DDDD`. */
  function PhoneRow(text: string): (r: Row)
    ensures r.heading == Headings[4]
    ensures r.ok <==> IsPhoneText(Trim(text))
  {
    var phone := Trim(text);
    var ok := IsPhoneText(phone);
    Row(Headings[4], phone, ok, if ok then "PASS" else PhoneError)
  }

  lemma PhoneRowRegex(text: string)
    ensures PhoneRow(text).ok <==> Matches(PhonePattern, Trim(text))
  {
    PhoneMeaning(Trim(text));
  }

  /** Once ten digits have been typed, the phone mask leaves text the row accepts. */
  lemma PhoneRowAfterMask(raw: string)
    requires |Digits(raw)| >= 10
    ensures PhoneRow(MaskPhone(raw)).ok
  {
    MaskPhoneComplete(raw);
    PhoneTextTrimmed(MaskPhone(raw));
  }

  /** Phone text has nothing for trim to remove. */
  lemma PhoneTextTrimmed(s: string)
    requires IsPhoneText(s)
    ensures Trim(s) == s
  {
    assert s[10..][3] == s[13];
    TrimUnpadded(s);
  }

  /** Address: the trimmed first line and city are present, a state is
      selected, and the trimmed ZIP begins with five digits; what follows them
      is not looked at. */
  function AddressRow(form: Form): (r: Row)
    ensures r.heading == Headings[5]
    ensures r.ok <==>
              && !AllSpace(form.address1) && !AllSpace(form.city) && form.state != ""
              && |Trim(form.zip)| >= 5 && AllDigits(Trim(form.zip)[..5])
  {
    TrimEmpty(form.address1);
    TrimEmpty(form.city);
    var a1, a2, city, zip := Trim(form.address1), Trim(form.address2), Trim(form.city), Trim(form.zip);
    var ok := a1 != "" && city != "" && form.state != "" && |zip| >= 5 && AllDigits(zip[..5]);
    Row(Headings[5], a1 + "<br>" + a2 + "<br>" + city + ", " + form.state + " " + zip, ok,
        if ok then "PASS" else AddressError)
  }

  lemma AddressRowRegex(form: Form)
    ensures AddressRow(form).ok <==>
              !AllSpace(form.address1) && !AllSpace(form.city) && form.state != "" &&
              MatchesPrefix(Zip5Pattern, Trim(form.zip))
  {
    ZipPrefixMeaning(Trim(form.zip));
  }

  /** User ID: the trimmed text, shown lower-cased, is a letter followed by 4
      to 29 letters, digits, `_` or `-`; the check ignores case. */
  function UserIdRow(text: string): (r: Row)
    ensures r.heading == Headings[6]
    ensures r.ok <==> IsUserIdText(ToLower(Trim(text)), 30)
    ensures r.shown == ToLower(Trim(text))
  {
    var uid := ToLower(Trim(text));
    var ok := IsUserIdText(uid, 30);
    Row(Headings[6], uid, ok, if ok then "PASS" else UserIdError)
  }

  lemma LowerCharKind(c: char)
    ensures IsLetter(LowerChar(c)) <==> IsLetter(c)
    ensures IsIdChar(LowerChar(c)) <==> IsIdChar(c)
  {
  }

  /** Lower-casing does not change whether the row passes: it passes exactly
      when the trimmed text as typed matches the case-insensitive expression. */
  lemma UserIdRowRegex(text: string)
    ensures UserIdRow(text).ok <==> IsUserIdText(Trim(text), 30)
    ensures UserIdRow(text).ok <==> Matches(LooseUserIdPattern, Trim(text))
  {
    var t := Trim(text);
    var u := ToLower(t);
    forall i | 0 <= i < |t| ensures (IsLetter(u[i]) <==> IsLetter(t[i])) && (IsIdChar(u[i]) <==> IsIdChar(t[i])) {
      LowerCharKind(t[i]);
    }
    LooseUserIdMeaning(t);
  }

  /** Password: the trimmed password has at least 8 characters, an upper-case
      letter, a lower-case letter, a digit and one of the listed special
      characters, no `"`, and equals the trimmed confirmation. */
  predicate StrongPassword(p: string) {
    && |p| >= 8
    && (exists i :: 0 <= i < |p| && IsUpper(p[i]))
    && (exists i :: 0 <= i < |p| && IsLower(p[i]))
    && (exists i :: 0 <= i < |p| && IsDigit(p[i]))
    && (exists i :: 0 <= i < |p| && IsSpecial(p[i]))
    && '"' !in p
  }

  function PasswordRow(form: Form): (r: Row)
    ensures r.heading == Headings[7]
    ensures r.ok <==> StrongPassword(Trim(form.password)) && Trim(form.password) == Trim(form.confirm)
    ensures r.shown == "********"
  {
    var p1, p2 := Trim(form.password), Trim(form.confirm);
    var ok := StrongPassword(p1) && p1 == p2;
    Row(Headings[7], "********", ok, if ok then "PASS" else PasswordError)
  }

  lemma PasswordRowRegex(form: Form)
    ensures PasswordRow(form).ok <==>
              var p1 := Trim(form.password);
              && |p1| >= 8
              && Finds(UpperPattern, p1) && Finds(LowerPattern, p1) && Finds(DigitPattern, p1)
              && Finds(SpecialPattern, p1) && p1 == Trim(form.confirm) && !Finds(QuotePattern, p1)
  {
    var p1 := Trim(form.password);
    UpperMeaning(p1);
    LowerMeaning(p1);
    DigitMeaning(p1);
    SpecialMeaning(p1);
    QuoteMeaning(p1);
  }

  /** `review()`: the eight rows, in the order the table lists them. */
  function Review(form: Form, env: Env): (rows: seq<Row>)
    ensures |rows| == 8
    ensures rows[0].heading == Headings[0] && rows[1].heading == Headings[1]
    ensures rows[2].heading == Headings[2] && rows[3].heading == Headings[3]
    ensures rows[4].heading == Headings[4] && rows[5].heading == Headings[5]
    ensures rows[6].heading == Headings[6] && rows[7].heading == Headings[7]
  {
    [ NameRow(form), DobRow(form.dob, env), SsnRow(form.ssn), EmailRow(form.email),
      PhoneRow(form.phone), AddressRow(form), UserIdRow(form.userId), PasswordRow(form) ]
  }

  // ---------------------------------------------------------------- events

  /** The page: the fields, the review table, and whether the password
      mismatch notice is displayed. */
  datatype Screen = Screen(form: Form, rows: seq<Row>, mismatchShown: bool)

  datatype Event =
    | ReviewClick                          // the Review button
    | Input(field: FieldId, text: string)  // the user changes a field to `text`
    | Submission                           // the form is submitted

  /** The input masks of this revision: SSN and phone only. */
  function Masked(f: FieldId, text: string): (r: string)
    ensures f == Ssn ==> r == MaskSsn(text)
    ensures f == Phone ==> r == MaskPhone(text)
    ensures f != Ssn && f != Phone ==> r == text
  {
    if f == Ssn then MaskSsn(text) else if f == Phone then MaskPhone(text) else text
  }

  datatype Reaction = Reaction(state: Screen, sent: bool)

  function Step(s: Screen, e: Event, env: Env): (r: Reaction)
    ensures !e.Input? ==> r.state.form == s.form
    ensures e.Input? ==> r.state.form == Set(s.form, e.field, Masked(e.field, e.text))
    ensures e.ReviewClick? ==> r.state.rows == Review(s.form, env)
    ensures !e.ReviewClick? ==> r.state.rows == s.rows
  {
    match e
    case ReviewClick => Reaction(s.(rows := Review(s.form, env)), false)
    case Input(f, text) =>
      var form := Set(s.form, f, Masked(f, text));
      var shown := if f == Password || f == Confirm then !PasswordsMatch(form) else s.mismatchShown;
      Reaction(Screen(form, s.rows, shown), false)
    case Submission =>
      Reaction(s.(mismatchShown := !PasswordsMatch(s.form)), PasswordsMatch(s.form))
  }

  /** The form is sent exactly on a submission whose passwords match; the
      Review button never sends it. */
  lemma SentOnlyMatching(s: Screen, e: Event, env: Env)
    ensures Step(s, e, env).sent <==> e.Submission? && PasswordsMatch(s.form)
  {
  }

  /** After an edit of either password field, or a submission, the notice is
      displayed exactly when the passwords do not match. */
  lemma MismatchNotice(s: Screen, e: Event, env: Env)
    requires e.Submission? || (e.Input? && (e.field == Password || e.field == Confirm))
    ensures Step(s, e, env).state.mismatchShown <==> !PasswordsMatch(Step(s, e, env).state.form)
  {
  }

  /** The submit guard does not look at the review rows: a form on which every
      row fails is sent. */
  lemma SubmitIgnoresRows(env: Env)
    ensures var form := Form("", "", "", "", "", "", "", "", "", "", "", "", "", "x", "x");
            && Step(Screen(form, [], false), Submission, env).sent
            && !NameRow(form).ok && !DobRow(form.dob, env).ok && !SsnRow(form.ssn).ok
            && !EmailRow(form.email).ok && !PhoneRow(form.phone).ok && !AddressRow(form).ok
            && !UserIdRow(form.userId).ok && !PasswordRow(form).ok
  {
    assert AllSpace("");
    TrimUnpadded("");
    TrimUnpadded("x");
  }

  /** The row trims the passwords and the guard does not: a confirmation with a
      trailing space passes the row and is refused on submit. */
  lemma PasswordRowVersusGuard()
    ensures var form := Form("", "", "", "", "", "", "", "", "", "", "", "", "", "Abcdef1!", "Abcdef1! ");
            PasswordRow(form).ok && !PasswordsMatch(form)
  {
    SampleStrong();
    SampleTrim();
  }

  lemma SampleStrong()
    ensures StrongPassword("Abcdef1!")
  {
    var p := "Abcdef1!";
    assert SpecialList[0] == '!';
    assert IsUpper(p[0]) && IsLower(p[1]) && IsDigit(p[6]) && IsSpecial(p[7]);
  }

  lemma SampleTrim()
    ensures Trim("Abcdef1!") == "Abcdef1!" && Trim("Abcdef1! ") == "Abcdef1!"
  {
    var p := "Abcdef1!";
    assert Unpadded(p);
    TrimUnpadded(p);
    TrimPadded("", p, " ");
    assert "" + p + " " == "Abcdef1! ";
  }
}
