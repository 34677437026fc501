# Patient registration form: a Dafny model

The repository holds three revisions (Homework2, Homework3 and Homework4) of
the script behind one patient-registration web form. Each revision wraps a
small, sequential core in browser glue. This project models that core as pure
Dafny functions over `seq<char>` and proves what the scripts promise about it.

What the core does:

- **Input masks.** On every keystroke the SSN field keeps only its digits (at
  most nine). The phone field is re-punctuated as `(DDD) DDD-DDDD` over at most
  ten digits. Homework3 and Homework4 also lower-case the email.
- **Validators.** There is one per field. Each regular expression is written
  out as data (module `Regex`, a sequence of character-class runs). Its meaning
  is proved equal to a plain character-level predicate (module `Patterns`).
- **`validateAll`.** It runs all fifteen validators without short-circuiting.
  Each validator writes its field's error slot, modelled as a field-to-message
  map. The email validator writes the trimmed, lower-cased email back into its
  field. The result is the conjunction of the verdicts.
- **The Review/Submit button.**
  - A click in Review validates the form. The button moves to Submit only for a
    valid form.
  - In Homework3 that same click then submits a valid form. The listener turns
    the button into a submit button and does not cancel the click, so the
    browser's default action for it submits the form. Homework4 cancels the
    Review click, so a valid form waits for a second click.
  - Any edit returns the button to Review.
  - The submit listener validates again and cancels an invalid submission.
  - Homework4 also swallows Enter while the button reads Review.
- **Homework4's extras.**
  - the `getCookie` lookup over the `document.cookie` text;
  - the `code|name` line parser of the fetched state list;
  - the remember-me decision on a valid submission;
  - the input listeners that save fields to the local store.

Modelling choices:

- **Shared structure.** Homework3 and Homework4 share one data model and one
  aggregator (module `Registration`).
- **Suites.** The aggregator and the button machine are proved once for any
  *suite*, meaning any function from field and form to a verdict. The only
  assumption is `SettleStable`: writing the normalised email back changes no
  verdict. Each revision then instantiates the suite with its own fifteen
  validators and proves `SettleStable` for them.
- **Dates.** A date is an abstract `(year, month, day)` triple, ordered
  lexicographically. Today's date and the reading of the date field's text are
  given from outside in `Dates.Env`. `parseDob` stands for the revision's
  `new Date(...)` call: `text + "T00:00:00"` in Homework3 and Homework4, and the
  trimmed text in Homework2. It returns `None` where JavaScript yields an
  invalid date.
- **Whitespace and case.** Whitespace is the ECMAScript WhiteSpace and
  LineTerminator list, which `trim` and `\s` share. Case folding is ASCII only.
- **Storage.** `document.cookie` and `localStorage` are maps from key to text,
  except where the cookie text itself is parsed.

Behaviour of the scripts worth noting:

- **Unreadable date of birth.** The three revisions differ:
  - Homework3 reports it with its own message.
  - Homework4 has no such branch: both comparisons with an invalid date are
    false, so a non-blank unreadable date passes (`Homework4.DobUnreadable`).
  - Homework2 reports it as "Too old".
- **Homework2 SSN row.** Homework2's review row tests the trimmed text as typed
  against `^\d{9}$`; it does not strip separators first.
- **Address line 1.** Homework3's `^.{2,30}$` refuses line terminators.
  Homework4 counts only the length (`Homework4.AddressLineBreak`).
- **Review, then submit (Homework3).** One click on a valid form both builds
  the review and submits it (`Homework3.ClickSends`). Every form sent is still
  valid (`Homework3.RunSafe`).
- **The reset button.** Homework4's reset button changes the fields without an
  input event, so a Submit button stays Submit (`Homework4.ResetKeepsMode`).
  The submit listener still validates again, so only valid forms are sent
  (`Homework4.SentOnlyValid`).

## Model

| member | source | states |
|---|---|---|
| Chars.TrimEmpty | Homework3/scripts.js:73 | `isEmpty`: the trimmed text is empty exactly when every character is whitespace |
| Chars.JoinSplit | Homework4/scripts.js:63 | joining the pieces of `split(sep)` with the separator gives back the text |
| Chars.SplitJoin | Homework4/scripts.js:115 | splitting a join of separator-free pieces gives back exactly those pieces |
| Chars.SplitHead | Homework4/scripts.js:118 | the first piece of `split(sep)` is the text up to the first separator; when there is one, the other pieces are the split of the text after it |
| Patterns.NameMeaning | Homework3/scripts.js:105 | `^[A-Za-z'\-]{1,30}$` accepts exactly 1 to 30 letters, apostrophes and dashes |
| Patterns.InitialMeaning | Homework3/scripts.js:113 | `^[A-Za-z]$` accepts exactly one ASCII letter |
| Patterns.NineDigitsMeaning | Homework3/scripts.js:141 | `^\d{9}$` accepts exactly nine digits |
| Patterns.EmailMeaning | Homework3/scripts.js:149 | the email expression accepts exactly: the first `@` has a non-empty, whitespace-free local part before it; after it come only domain characters; the last `.` has something before it and at least two letters after it |
| Patterns.PhoneMeaning | Homework3/scripts.js:157 | `^\(\d{3}\) \d{3}-\d{4}$` accepts exactly the fourteen-character text `(DDD) DDD-DDDD` |
| Patterns.AddressMeaning | Homework3/scripts.js:165 | `^.{2,30}$` accepts exactly 2 to 30 characters with no line terminator |
| Patterns.CityMeaning | Homework3/scripts.js:181 | `^[A-Za-z.\-\s]{2,30}$` accepts exactly 2 to 30 letters, dots, dashes and whitespace |
| Patterns.FiveDigitsMeaning | Homework3/scripts.js:196 | `^\d{5}$` accepts exactly five digits |
| Patterns.UserIdMeaning | Homework3/scripts.js:204 | `^[A-Za-z][A-Za-z0-9_-]{4,19}$` accepts exactly a letter followed by 4 to 19 letters, digits, `_` or `-` |
| Patterns.UpperMeaning | Homework3/scripts.js:213 | `/[A-Z]/` finds a match exactly when some character is an upper-case letter |
| Patterns.LowerMeaning | Homework3/scripts.js:213 | `/[a-z]/` finds a match exactly when some character is a lower-case letter |
| Patterns.DigitMeaning | Homework3/scripts.js:213 | `/\d/` finds a match exactly when some character is a digit |
| Patterns.ZipPlus4Meaning | Homework4/scripts.js:190 | `^\d{5}(-\d{4})?$` accepts exactly five digits, or five digits, `-` and four digits |
| Patterns.ZipPrefixMeaning | Homework2/scripts.js:105 | the unanchored-at-the-end `^\d{5}` accepts exactly a text of at least five characters whose first five are digits |
| Patterns.LooseEmailMeaning | Homework2/scripts.js:96 | `/.+@.+\..+/` finds a match exactly when the text has an `@` and a later `.`, each with a character before and after, with no line terminator from the character before the `@` to the character after the `.` |
| Patterns.LooseUserIdMeaning | Homework2/scripts.js:109 | `/^[a-z][a-z0-9_-]{4,29}$/i` accepts exactly a letter of either case followed by 4 to 29 letters, digits, `_` or `-` |
| Patterns.SpecialMeaning | Homework2/scripts.js:114 | the special-character class finds a match exactly when some character is one of ``!@#%^&*()-_=+\/><.,`~`` |
| Patterns.QuoteMeaning | Homework2/scripts.js:114 | `/"/` finds a match exactly when the text contains `"` |
| Masks.MaskSsn | Homework3/scripts.js:78-80 | the SSN mask leaves only digits, at most nine, and exactly min(9, digits typed) of them |
| Masks.MaskSsnPrefix | Homework3/scripts.js:78-80 | the masked SSN is the first digits of the input, in their order |
| Masks.MaskSsnIdempotent | Homework3/scripts.js:78-80 | masking an already masked SSN changes nothing |
| Masks.MaskSsnIgnoresSeparators | Homework3/scripts.js:78-80 | non-digits typed anywhere do not change the masked SSN |
| Masks.FormatPhoneDigits | Homework3/scripts.js:87-90 | stripping the punctuation the phone mask inserts gives back exactly the digits it formatted |
| Masks.MaskPhone | Homework3/scripts.js:85-92 | the phone mask is at most 14 characters; its digits are exactly the first ten (or fewer) digits of the input; it is empty exactly when the input has no digit, and otherwise ends in a digit, so punctuation appears only once the next digit is typed |
| Masks.PhonePrefix | Homework3/scripts.js:86-91 | the mask of the first n of ten digits is a prefix of the mask of all ten, so `(`, `) ` and `-` sit where the full number's do |
| Masks.MaskPhoneIdempotent | Homework3/scripts.js:85-92 | masking an already masked phone number changes nothing |
| Masks.FormatPhoneFull | Homework3/scripts.js:87-90 | ten digits are formatted as text the phone validator accepts |
| Masks.MaskPhoneComplete | Homework3/scripts.js:85-92 | the masked phone text passes the phone format exactly when at least ten digits were typed |
| Masks.MaskEmail | Homework3/scripts.js:97-99 | the email mask keeps the length, turns each upper-case letter into its own lower-case letter (code point plus 32) and changes no other character |
| Masks.MaskEmailIdempotent | Homework3/scripts.js:97-99 | lower-casing the email again changes nothing |
| Dates.YearsEarlier | Homework3/scripts.js:133 | `setFullYear(getFullYear() - n)` lowers the year by exactly n and keeps month and day; for n > 0 the date is earlier |
| Dates.InWindowOrder | Homework3/scripts.js:134-135 | a date lies in the accepted window exactly when it is neither after today nor before the day 120 years ago |
| Dates.WindowBounds | Homework3/scripts.js:132-135 | today and the day 120 years ago both lie in the window |
| Registration.ValidationOrderCovers | Homework3/scripts.js:228-232 | `validateAll` lists the validator of every one of the fifteen fields |
| Registration.ElementIdInjective | Homework4/scripts.js:237-241 | distinct fields save under distinct local-store keys |
| Registration.AllListedMeaning | Homework3/scripts.js:233 | `every(Boolean)` over the results is true exactly when every listed verdict passes |
| Registration.Refresh | Homework3/scripts.js:227-234 | running the listed validators one after another returns their conjunction; every listed slot ends up showing its verdict and every other slot keeps its text |
| Registration.RefreshAgain | Homework3/scripts.js:227-234 | re-running the validators on a form with the same verdicts reproduces the result and leaves the slots as they are |
| Registration.ShownEmpty | Homework3/scripts.js:65-70 | a slot is empty exactly when its validator passed |
| Registration.MaskedIdempotent | Homework3/scripts.js:76-100 | masking a masked value again changes nothing, in every field |
| Registration.NormalEmail | Homework3/scripts.js:148 | the email write-back is trimmed, has no upper-case letter and is no longer than the text |
| Registration.NormalEmailSlice | Homework3/scripts.js:148 | the email write-back is the lower-cased slice of the text between a whitespace prefix and a whitespace suffix |
| Registration.NormalEmailIdempotent | Homework3/scripts.js:148 | normalising the email twice is normalising it once |
| Registration.Settle | Homework3/scripts.js:148 | the validators write back only the email, and only when the email validator runs |
| Registration.SettleIdempotent | Homework3/scripts.js:148 | a second write-back writes what is already there |
| Registration.RunValidators | Homework3/scripts.js:227-234 | running a list of validators is true exactly when each listed verdict passes; it writes exactly the listed slots and leaves the settled form |
| Registration.RunValidatorsSlots | Homework3/scripts.js:227-234 | after a run, each listed slot shows its verdict on the incoming form; every other slot is present and unchanged exactly as before |
| Registration.ValidateAll | Homework3/scripts.js:227-234 | `validateAll` is true exactly when every validator passes, and leaves the email normalised |
| Registration.ValidateAllShows | Homework3/scripts.js:227-234 | after `validateAll`, all fifteen slots are written, none skipped by an earlier failure, and each shows its field's verdict |
| Registration.ValidateAllSlots | Homework3/scripts.js:227-234 | after `validateAll` a slot is empty exactly when its field is valid, and the result is true exactly when every slot is empty |
| Registration.ValidateAllIdempotent | Homework3/scripts.js:227-234 | validating the form `validateAll` leaves behind gives the same result and the same slots |
| Registration.ReviewClick | Homework3/scripts.js:307-322 | a click in Review moves the button to Submit exactly when every validator passes |
| Registration.Guard | Homework3/scripts.js:363-373 | the submit guard lets the form through exactly when every validator passes; a cancelled submission puts the button in Review, and a passing one leaves it as it was |
| Registration.ButtonSafe | Homework3/scripts.js:307-373 | the click and the guard keep "Submit implies a valid form", and the guard lets through only forms that are valid before and after the write-back |
| Homework3.VNameRegex | Homework3/scripts.js:103-109 | the name validator passes exactly when its expression accepts the trimmed text |
| Homework3.VMiddleInitialRegex | Homework3/scripts.js:111-117 | the middle initial passes exactly when the trimmed text is empty or one letter |
| Homework3.VMiddleInitialBlank | Homework3/scripts.js:111-117 | a middle initial of whitespace only passes |
| Homework3.VDob | Homework3/scripts.js:127-137 | the date of birth passes exactly when it is non-blank, readable and in the window; blank, unreadable, future and too-old dates each get their own message |
| Homework3.VSsnRegex | Homework3/scripts.js:139-145 | the SSN passes exactly when its digits, separators dropped, are nine |
| Homework3.VEmailRegex | Homework3/scripts.js:147-153 | the email passes exactly when the expression accepts the trimmed, lower-cased text |
| Homework3.EmailVerdictNormal | Homework3/scripts.js:147-153 | the email verdict is the same before and after its own write-back |
| Homework3.VPhoneRegex | Homework3/scripts.js:155-161 | the phone passes exactly when the expression accepts the untrimmed text |
| Homework3.VAddress1Regex | Homework3/scripts.js:163-169 | address line 1 passes exactly when the expression accepts the trimmed text |
| Homework3.VAddress2Regex | Homework3/scripts.js:171-177 | address line 2 passes exactly when the trimmed text is empty or accepted |
| Homework3.VCityRegex | Homework3/scripts.js:179-185 | the city passes exactly when the expression accepts the trimmed text |
| Homework3.VZipRegex | Homework3/scripts.js:194-200 | the ZIP passes exactly when the trimmed text is five digits |
| Homework3.VUserIdRegex | Homework3/scripts.js:202-208 | the user ID passes exactly when the expression accepts the trimmed text |
| Homework3.VPasswordRegex | Homework3/scripts.js:210-217 | the password passes exactly when it has 8+ characters with upper, lower and digit, and differs from the trimmed user ID when that is non-blank |
| Homework3.Partner | Homework3/scripts.js:210-224 | a validator reads its own field and, for the password, the user ID, or, for the confirmation, the password |
| Homework3.CheckFrame | Homework3/scripts.js:103-224 | a verdict changes only with its own field and its partner field |
| Homework3.ValidatorsSettleStable | Homework3/scripts.js:147-153 | the email write-back changes none of the fifteen Homework3 verdicts |
| Homework3.SsnPretty | Homework3/scripts.js:237-240 | `ssnPretty` shows `(invalid)` exactly for text that is not nine digits, and `DDD-DD-DDDD` otherwise |
| Homework3.SsnPrettyDigits | Homework3/scripts.js:237-240 | dropping the dashes of the pretty SSN gives back the nine digits |
| Homework3.Triggered | Homework3/scripts.js:337-353 | an input re-runs its own field's validator first; a user-ID edit also re-runs the password's, a password edit also the confirmation's, and no other validator runs |
| Homework3.Edit | Homework3/scripts.js:330-356 | an input masks the field and leaves it as `AfterInput`; it changes no other field, rewrites exactly the triggered slots, returns the button to Review and sends nothing |
| Homework3.EditShows | Homework3/scripts.js:336-355 | after an input, each triggered slot shows the verdict on the form as the input leaves it |
| Homework3.AfterInput | Homework3/scripts.js:336-355 | what an input leaves in its field: the masked text, or for the email its trimmed, lower-cased text; either way a fixed point of the field's mask |
| Homework3.BlurAfterInput | Homework3/scripts.js:357-359 | leaving a field right after an input re-runs the input and changes nothing |
| Homework3.StepSafe | Homework3/scripts.js:307-373 | every event keeps "Submit implies valid", and a form is sent only when valid before and after the write-back |
| Homework3.StepEffects | Homework3/scripts.js:307-373 | only a click or a submission sends the form; an input or a blur returns the button to Review; any other input in the form changes nothing |
| Homework3.ClickSends | Homework3/scripts.js:300-322 | a click in either mode sends the form exactly when every validator passes, and leaves the button on Submit exactly then |
| Homework3.ClickSafe | Homework3/scripts.js:300-322 | a click keeps "Submit implies valid", and the form it sends passes every validator before and after the write-back |
| Homework3.Run | Homework3/scripts.js:307-373 | over a sequence of events no more forms are sent than events occur, and none without a click or a submission |
| Homework3.RunSafe | Homework3/scripts.js:307-373 | over any sequence of events, the button stays honest and every form sent passes every validator |
| Homework4.VDob | Homework4/scripts.js:174-182 | a blank date is "Required"; otherwise the date fails with "Invalid" exactly when it is readable and outside the window |
| Homework4.VZipRegex | Homework4/scripts.js:190 | the ZIP passes exactly when the ZIP+4 expression accepts the trimmed text |
| Homework4.VPasswordRegex | Homework4/scripts.js:192-197 | the password passes exactly when it has 8+ characters with upper, lower and digit |
| Homework4.Partner | Homework4/scripts.js:198 | only the confirmation reads a second field, the password |
| Homework4.CheckFrame | Homework4/scripts.js:171-198 | a verdict changes only with its own field and its partner field |
| Homework4.ValidatorsSettleStable | Homework4/scripts.js:184 | the email write-back changes none of the fifteen Homework4 verdicts |
| Homework4.DobUnreadable | Homework4/scripts.js:176-181 | a non-blank unreadable date passes in Homework4 and fails in Homework3 |
| Homework4.DobReadable | Homework4/scripts.js:176-181 | on a readable date both revisions accept the same dates |
| Homework4.ZipWidened | Homework4/scripts.js:190 | every ZIP Homework3 accepts is accepted; a ZIP+4 is accepted only by Homework4 |
| Homework4.AddressWidened | Homework4/scripts.js:186-187 | every address line Homework3 accepts is accepted |
| Homework4.AddressLineBreak | Homework4/scripts.js:186 | an address with a line break inside is accepted by Homework4 and refused by Homework3 |
| Homework4.PasswordWidened | Homework4/scripts.js:192-197 | every password Homework3 accepts is accepted; a strong password equal to the user ID now passes |
| Homework4.Remember | Homework4/scripts.js:328-334 | on a valid submission with remember-me on, a non-blank trimmed first name becomes the `fname` cookie and the local store is kept; with it off, `fname` is deleted and the local store emptied; other cookies are untouched |
| Homework4.RememberIdempotent | Homework4/scripts.js:328-334 | settling the storage twice for the same submission is settling it once |
| Homework4.Edited | Homework4/scripts.js:317-319 | any input in the form returns the button to Review and changes nothing else |
| Homework4.Type | Homework4/scripts.js:208-242 | an input masks its field; with remember-me on it saves the masked value under the field's element id for the twelve remembered fields, and otherwise leaves the local store alone; cookies and slots are untouched, and the button returns to Review |
| Homework4.OnSubmit | Homework4/scripts.js:321-335 | a submission goes through exactly when every validator passes; a cancelled one leaves the storage alone and the button in Review; a passing one settles remember-me |
| Homework4.EnterInReview | Homework4/scripts.js:311-315 | Enter while the button reads Review changes nothing and sends nothing |
| Homework4.SentOnlyValid | Homework4/scripts.js:293-335 | the form is sent exactly on a submission, or on a click or an Enter in a text field (implicit submission) in Submit, of a valid form, whatever the button said |
| Homework4.ResetKeepsMode | Homework4/scripts.js:337-343 | the reset button replaces the fields, keeps the slots and the button mode, and sends nothing; the checkbox then takes the reset's state; with remember-me on the storage is untouched, with it off `fname` is deleted and the local store emptied |
| Homework4.StepSafe | Homework4/scripts.js:293-326 | every event except the reset keeps "Submit implies valid"; a form is sent only when valid before and after the write-back |
| Homework4.StepEffects | Homework4/scripts.js:293-343 | only a click, Enter or a submission can send the form; any input in the form returns the button to Review and sends nothing |
| Homework4.StepKeepsCookies | Homework4/scripts.js:321-343 | no event adds, removes or changes a cookie other than `fname` |
| Homework4.ForgetfulWhenOff | Homework4/scripts.js:237-252 | with remember-me off, no event other than the checkbox itself adds a key to the local store, and a sent form leaves it empty |
| Cookies.FindCookieHit | Homework4/scripts.js:64-67 | the first trimmed piece starting with `name=` decides the result: what follows the key |
| Cookies.FindCookieMiss | Homework4/scripts.js:64-68 | with no piece starting with `name=` the result is the empty text |
| Cookies.EntryKey | Homework4/scripts.js:66 | for a well-formed cookie, `name=value` starts with `n=` exactly when the name is n, and then the rest is the value |
| Cookies.EntryTrim | Homework4/scripts.js:65 | trimming a piece of a well-formed cookie text gives back its `name=value` |
| Cookies.FindCookieLookup | Homework4/scripts.js:64-68 | over the pieces of a jar, the loop finds the value of the first cookie with the name |
| Cookies.GetCookieText | Homework4/scripts.js:61-69 | `getCookie(name)` on the `; `-separated text of well-formed cookies returns the first value with that name, or the empty text |
| States.NonBlank | Homework4/scripts.js:115 | the kept lines are non-empty and trimmed, at most as many as the input, and none is kept exactly when every line is blank |
| States.NonBlankAppend | Homework4/scripts.js:115 | filtering a concatenation of lines filters each part |
| States.NonBlankLine | Homework4/scripts.js:115 | one line is kept, as its trimmed text, exactly when it is not all whitespace |
| States.NonBlankClean | Homework4/scripts.js:115 | lines that are already trimmed and non-empty pass through unchanged |
| States.ParseLine | Homework4/scripts.js:118 | the code is the text up to the first `\|` (the whole line when there is none); the name is the text after it up to the next `\|` or the end, and empty for a line without `\|` |
| States.ParseStates | Homework4/scripts.js:115-122 | the selector holds the placeholder option of empty value, then one option per non-blank line; no parsed option holds a `\|` |
| States.ParseStatesLines | Homework4/scripts.js:115-122 | a text made of lines gives the placeholder and then, in order, the parse of each non-blank line, trimmed |
| States.LineParses | Homework4/scripts.js:118-121 | the line `code\|name` of a listable option is clean and parses back to that option |
| States.ParseStatesText | Homework4/scripts.js:115-122 | parsing a states file that lists options one per line gives the placeholder followed by exactly those options, in order |
| Homework2.NameRow | Homework2/scripts.js:78-79 | the name row passes exactly when the first and last names are not blank; the middle initial is not checked |
| Homework2.DobRow | Homework2/scripts.js:81-89 | the DOB row passes exactly for a non-blank, readable date in the window; blank shows "Missing DOB", future "Cannot be in the future", readable but before the window "Too old", unreadable "Too old" |
| Homework2.SsnRow | Homework2/scripts.js:91-93 | the SSN row passes exactly when the trimmed text is nine digits, and only then shows asterisks |
| Homework2.SsnRowRegex | Homework2/scripts.js:92 | the SSN row passes exactly when `^\d{9}$` accepts the trimmed text |
| Homework2.SsnRowAfterMask | Homework2/scripts.js:24-28 | after the SSN mask the row passes exactly when nine digits were typed |
| Homework2.EmailRow | Homework2/scripts.js:95-97 | the email row passes exactly when the trimmed text has the loose `x@y.z` shape |
| Homework2.EmailRowRegex | Homework2/scripts.js:96 | the email row passes exactly when `/.+@.+\..+/` finds a match in the trimmed text |
| Homework2.PhoneRow | Homework2/scripts.js:99-101 | the phone row passes exactly when the trimmed text is `(DDD) DDD-DDDD` |
| Homework2.PhoneRowRegex | Homework2/scripts.js:100 | the phone row passes exactly when the phone expression accepts the trimmed text |
| Homework2.PhoneRowAfterMask | Homework2/scripts.js:30-40 | once ten digits are typed, the phone mask leaves text the phone row accepts |
| Homework2.AddressRow | Homework2/scripts.js:103-106 | the address row passes exactly when line 1 and the city are not blank, a state is chosen and the trimmed ZIP begins with five digits |
| Homework2.AddressRowRegex | Homework2/scripts.js:105 | the same, with `^\d{5}` in place of the five-digit prefix |
| Homework2.UserIdRow | Homework2/scripts.js:108-110 | the user ID row shows the trimmed, lower-cased ID and passes exactly when that is a letter followed by 4 to 29 ID characters |
| Homework2.UserIdRowRegex | Homework2/scripts.js:108-109 | lower-casing does not matter: the row passes exactly when the case-insensitive expression accepts the trimmed ID as typed |
| Homework2.PasswordRow | Homework2/scripts.js:112-115 | the password row passes exactly when the trimmed password has 8+ characters with upper, lower, digit and special, no `"`, and equals the trimmed confirmation |
| Homework2.PasswordRowRegex | Homework2/scripts.js:113-114 | the same, stated with the script's five expressions |
| Homework2.Review | Homework2/scripts.js:76-116 | the review table has eight rows, in the order names, DOB, SSN, email, phone, address, user ID, password |
| Homework2.Step | Homework2/scripts.js:47-65 | an input masks its field, a review click refills the table, and neither a click nor a submission changes a field |
| Homework2.SentOnlyMatching | Homework2/scripts.js:58-65 | the form is sent exactly on a submission whose untrimmed password is non-empty and equals the confirmation; the Review button never sends |
| Homework2.MismatchNotice | Homework2/scripts.js:47-56 | after editing either password field, or submitting, the mismatch notice shows exactly when the passwords do not match |
| Homework2.SubmitIgnoresRows | Homework2/scripts.js:58-65 | a form whose every review row fails is still sent when its passwords match |
| Homework2.PasswordRowVersusGuard | Homework2/scripts.js:112-114 | the row trims the passwords and the guard does not: a confirmation with a trailing space passes the row and is refused on submit |

## Left out

- Header date text, error-slot element creation, styles, `aria-invalid`,
  focus, scrolling and `reportValidity`: display only. The slots are a
  field-to-message map.
- The browser's constraint validation. Every revision sets `dobField.max` to
  today (Homework2/scripts.js:20, Homework3/scripts.js:21,
  Homework4/scripts.js:52), and the page's HTML may add `required` or `pattern`
  attributes, which are not part of this model. The browser checks these
  before it fires `submit` and can block a submission, for example one with a
  future date of birth. No send condition here accounts for that check.
- Homework2.SentOnlyMatching: "exactly" describes the submit listener. The
  browser may still block a form the listener would pass, because of the
  constraint validation above.
- Homework4.SentOnlyValid: the same holds. The browser may block a valid form
  for an HTML constraint. Every form sent is still valid. The `Enter` event is
  Enter in a text field, where the browser submits the form implicitly; Enter
  on a control without implicit submission (a `<select>`, say) is not modelled.
- The Homework3 review table (`buildReview`, `addRow`, `statusCell`): HTML
  built from verdicts the model already has. Only `ssnPretty` is modelled.
  Homework2's table HTML is also left out; its rows are modelled as data.
- JavaScript `Date` parsing and `setFullYear` arithmetic: replaced by
  `Dates.Env` and the abstract date order. No calendar or time zone is
  modelled.
- `fetch`, `async` and the failures they swallow: `loadStates` is modelled as a
  function of the fetched text. `loadHistory` and the medical-history
  checkboxes (their JSON in the local store) are not modelled.
- `repopulateLocal` and its `setTimeout`: it runs once after load from
  asynchronous timing, and its health-slider and history parts need the DOM.
- The welcome modal and its Not-Me button (Homework4 lines 79-109): dialog
  display, `form.reset()` to HTML defaults that are not part of this model, and
  a storage reset that is the same as `Remember(false, …)`.
- `setCookie` and `deleteCookie`: cookie writes are map updates. The 48-hour
  expiry and the cookie path are not modelled.
- The reset button's effect on the form: `FullReset(after, checked)` takes the
  fields and the remember-me state that the browser's default action leaves.
  The HTML that would fix them is not part of this model.
- Where the remember-me checkbox and the health slider sit: their input events
  are taken to reach the form's `input` listener, as for any control inside
  the form.
- Unicode `toLowerCase`: ASCII only.
- String lengths: the model counts Unicode scalar values. JavaScript's
  `length`, `.` and `{m,n}` count UTF-16 code units, so text outside the Basic
  Multilingual Plane is measured differently. For example, one emoji is one
  character here and two in JavaScript, so an address line of one emoji fails
  the length rules here and passes them in the scripts.
- Dates.YearsEarlier: keeps 29 February when the earlier year has no such day,
  where `setFullYear` moves to 1 March. Dates are abstract ordered triples.
- Homework2's `get` for a missing element: every element is taken to exist.
- Homework3.Run: states a bound on the forms sent and that nothing is sent
  without a click or a submission. What the sent forms satisfy is stated by
  `Homework3.RunSafe`.
- Homework2.Review: states the number and order of the rows. Each row's rule
  is the contract of its own row function.
- Homework4.Edited: states only the button change. Which events reach the
  form's `input` listener is a modelling choice (see above).
