/**
 The regular expressions of the three revisions, transliterated into `Regex`
 patterns, each with a lemma stating in plain character terms which texts it
 accepts. Validators test the pattern; their contracts speak the plain terms.
 */
module Patterns {
  import opened Chars
  import opened Regex

  // ---------------------------------------------------------------- classes

  const Letters := AnyOf([Span('A', 'Z'), Span('a', 'z')])                   // [A-Za-z]
  const Digit := AnyOf([DigitEscape])                                         // \d
  const UpperChars := AnyOf([Span('A', 'Z')])                                 // [A-Z]
  const LowerChars := AnyOf([Span('a', 'z')])                                 // [a-z]
  const NameChars := AnyOf([Span('A', 'Z'), Span('a', 'z'), Single('\''), Single('-')])  // [A-Za-z'\-]
  const LocalChars := NoneOf([SpaceEscape, Single('@')])                      // [^\s@]
  const DomainChars :=                                                        // [A-Za-z0-9.-]
    AnyOf([Span('A', 'Z'), Span('a', 'z'), Span('0', '9'), Single('.'), Single('-')])
  const CityChars :=                                                          // [A-Za-z.\-\s]
    AnyOf([Span('A', 'Z'), Span('a', 'z'), Single('.'), Single('-'), SpaceEscape])
  const IdChars :=                                                            // [A-Za-z0-9_-]
    AnyOf([Span('A', 'Z'), Span('a', 'z'), Span('0', '9'), Single('_'), Single('-')])
  /** `[a-z]` under the `i` flag. */
  const LooseIdHead := AnyOf([Span('a', 'z'), Span('A', 'Z')])
  /** `[a-z0-9_-]` under the `i` flag. */
  const LooseIdChars :=
    AnyOf([Span('a', 'z'), Span('0', '9'), Single('_'), Single('-'), Span('A', 'Z')])
  /** The characters of the special-character class `[!@#%^&*()\-\_=+\\\/><\.,`~]`. */
  const SpecialList := "!@#%^&*()-_=+\\/><.,`~"
  /** The class itself: one literal item per character of `SpecialList`. */
  const SpecialChars := AnyOf(seq(|SpecialList|, i requires 0 <= i < |SpecialList| => Single(SpecialList[i])))

  predicate IsNameChar(c: char) { IsLetter(c) || c == '\'' || c == '-' }
  predicate IsDomainChar(c: char) { IsLetter(c) || IsDigit(c) || c == '.' || c == '-' }
  predicate IsCityChar(c: char) { IsLetter(c) || c == '.' || c == '-' || IsSpace(c) }
  predicate IsIdChar(c: char) { IsLetter(c) || IsDigit(c) || c == '_' || c == '-' }
  predicate IsSpecial(c: char) { c in SpecialList }

  lemma LettersHas(c: char)
    ensures Has(Letters, c) <==> IsLetter(c)
  {
    if IsUpper(c) { assert ItemHas(Letters.items[0], c); }
    if IsLower(c) { assert ItemHas(Letters.items[1], c); }
  }

  lemma LooseIdHeadHas(c: char)
    ensures Has(LooseIdHead, c) <==> IsLetter(c)
  {
    if IsLower(c) { assert ItemHas(LooseIdHead.items[0], c); }
    if IsUpper(c) { assert ItemHas(LooseIdHead.items[1], c); }
  }

  lemma DigitHas(c: char)
    ensures Has(Digit, c) <==> IsDigit(c)
  {
    if IsDigit(c) { assert ItemHas(Digit.items[0], c); }
  }

  lemma UpperHas(c: char)
    ensures Has(UpperChars, c) <==> IsUpper(c)
  {
    if IsUpper(c) { assert ItemHas(UpperChars.items[0], c); }
  }

  lemma LowerHas(c: char)
    ensures Has(LowerChars, c) <==> IsLower(c)
  {
    if IsLower(c) { assert ItemHas(LowerChars.items[0], c); }
  }

  lemma NameCharsHas(c: char)
    ensures Has(NameChars, c) <==> IsNameChar(c)
  {
    if IsUpper(c) { assert ItemHas(NameChars.items[0], c); }
    if IsLower(c) { assert ItemHas(NameChars.items[1], c); }
    if c == '\'' { assert ItemHas(NameChars.items[2], c); }
    if c == '-' { assert ItemHas(NameChars.items[3], c); }
  }

  lemma LocalCharsHas(c: char)
    ensures Has(LocalChars, c) <==> !IsSpace(c) && c != '@'
  {
    if IsSpace(c) { assert ItemHas(LocalChars.items[0], c); }
    if c == '@' { assert ItemHas(LocalChars.items[1], c); }
  }

  lemma DomainCharsHas(c: char)
    ensures Has(DomainChars, c) <==> IsDomainChar(c)
  {
    if IsUpper(c) { assert ItemHas(DomainChars.items[0], c); }
    if IsLower(c) { assert ItemHas(DomainChars.items[1], c); }
    if IsDigit(c) { assert ItemHas(DomainChars.items[2], c); }
    if c == '.' { assert ItemHas(DomainChars.items[3], c); }
    if c == '-' { assert ItemHas(DomainChars.items[4], c); }
  }

  lemma CityCharsHas(c: char)
    ensures Has(CityChars, c) <==> IsCityChar(c)
  {
    if IsUpper(c) { assert ItemHas(CityChars.items[0], c); }
    if IsLower(c) { assert ItemHas(CityChars.items[1], c); }
    if c == '.' { assert ItemHas(CityChars.items[2], c); }
    if c == '-' { assert ItemHas(CityChars.items[3], c); }
    if IsSpace(c) { assert ItemHas(CityChars.items[4], c); }
  }

  lemma IdCharsHas(c: char)
    ensures Has(IdChars, c) <==> IsIdChar(c)
  {
    if IsUpper(c) { assert ItemHas(IdChars.items[0], c); }
    if IsLower(c) { assert ItemHas(IdChars.items[1], c); }
    if IsDigit(c) { assert ItemHas(IdChars.items[2], c); }
    if c == '_' { assert ItemHas(IdChars.items[3], c); }
    if c == '-' { assert ItemHas(IdChars.items[4], c); }
  }

  lemma LooseIdCharsHas(c: char)
    ensures Has(LooseIdChars, c) <==> IsIdChar(c)
  {
    if IsLower(c) { assert ItemHas(LooseIdChars.items[0], c); }
    if IsDigit(c) { assert ItemHas(LooseIdChars.items[1], c); }
    if c == '_' { assert ItemHas(LooseIdChars.items[2], c); }
    if c == '-' { assert ItemHas(LooseIdChars.items[3], c); }
    if IsUpper(c) { assert ItemHas(LooseIdChars.items[4], c); }
  }

  lemma SpecialCharsHas(c: char)
    ensures Has(SpecialChars, c) <==> IsSpecial(c)
  {
    var items := SpecialChars.items;
    if IsSpecial(c) {
      var k :| 0 <= k < |SpecialList| && SpecialList[k] == c;
      assert ItemHas(items[k], c);
    }
    if Has(SpecialChars, c) {
      var k :| 0 <= k < |items| && ItemHas(items[k], c);
      assert c == SpecialList[k];
    }
  }

  // ---------------------------------------------------------------- patterns

  const NamePattern := [Between(NameChars, 1, 30)]                 // ^[A-Za-z'\-]{1,30}$
  const InitialPattern := [One(Letters)]                            // ^[A-Za-z]$
  const SsnPattern := [Times(Digit, 9)]                             // ^\d{9}$
  const PhonePattern :=                                             // ^\(\d{3}\) \d{3}-\d{4}$
    [Lit('('), Times(Digit, 3), Lit(')'), Lit(' '), Times(Digit, 3), Lit('-'), Times(Digit, 4)]
  /** The part of the email expression after the `@`: `[A-Za-z0-9.-]+\.[A-Za-z]{2,}`. */
  const HostPattern := [AtLeast(DomainChars, 1), Lit('.')] + [AtLeast(Letters, 2)]
  const EmailPattern := [AtLeast(LocalChars, 1), Lit('@')] + HostPattern  // ^[^\s@]+@…$
  const AddressPattern := [Between(Dot, 2, 30)]                     // ^.{2,30}$
  const CityPattern := [Between(CityChars, 2, 30)]                  // ^[A-Za-z.\-\s]{2,30}$
  const Zip5Pattern := [Times(Digit, 5)]                            // ^\d{5}$, and ^\d{5} unanchored at the end
  /** `^\d{5}(-\d{4})?$`, the optional group written as two alternatives. */
  const ZipPlus4Alternatives := [Zip5Pattern, [Times(Digit, 5), Lit('-'), Times(Digit, 4)]]
  const UserIdPattern := [One(Letters), Between(IdChars, 4, 19)]   // ^[A-Za-z][A-Za-z0-9_-]{4,19}$
  const LooseUserIdPattern := [One(LooseIdHead), Between(LooseIdChars, 4, 29)]  // /^[a-z][a-z0-9_-]{4,29}$/i
  const UpperPattern := [One(UpperChars)]                           // /[A-Z]/
  const LowerPattern := [One(LowerChars)]                           // /[a-z]/
  const DigitPattern := [One(Digit)]                                // /\d/
  const SpecialPattern := [One(SpecialChars)]
  const QuotePattern := [Lit('"')]                                  // /"/
  /** `/.+@.+\..+/`, searched without anchors. */
  const LooseEmailPattern := [AtLeast(Dot, 1), Lit('@')] + ([AtLeast(Dot, 1), Lit('.')] + [AtLeast(Dot, 1)])

  // ---------------------------------------------------------------- meanings

  predicate IsNameText(s: string) { 1 <= |s| <= 30 && forall i :: 0 <= i < |s| ==> IsNameChar(s[i]) }
  predicate IsInitial(s: string) { |s| == 1 && IsLetter(s[0]) }
  predicate IsNineDigits(s: string) { |s| == 9 && AllDigits(s) }
  predicate IsFiveDigits(s: string) { |s| == 5 && AllDigits(s) }

  /** `(DDD) DDD-DDDD`, position by position. */
  predicate IsPhoneText(s: string) {
    && |s| == 14
    && s[0] == '(' && AllDigits(s[1..4]) && s[4] == ')' && s[5] == ' '
    && AllDigits(s[6..9]) && s[9] == '-' && AllDigits(s[10..])
  }

  /** After the `@`: domain characters only, the last `.` preceded by something
      and followed by at least two letters. */
  predicate IsHostText(t: string) {
    && (forall i :: 0 <= i < |t| ==> IsDomainChar(t[i]))
    && var d := LastIndexOf(t, '.');
    && d >= 1 && |t| - d - 1 >= 2
    && forall i :: d < i < |t| ==> IsLetter(t[i])
  }

  /** local@host, split at the first `@`, with a non-empty local part free of whitespace. */
  predicate IsEmailText(s: string) {
    var a := IndexOf(s, '@');
    && a >= 1
    && (forall i :: 0 <= i < a ==> !IsSpace(s[i]))
    && IsHostText(s[a + 1..])
  }

  predicate IsAddressText(s: string) {
    2 <= |s| <= 30 && forall i :: 0 <= i < |s| ==> !IsLineTerminator(s[i])
  }

  predicate IsCityText(s: string) { 2 <= |s| <= 30 && forall i :: 0 <= i < |s| ==> IsCityChar(s[i]) }

  predicate IsZipPlus4(s: string) {
    |s| == 10 && AllDigits(s[..5]) && s[5] == '-' && AllDigits(s[6..])
  }

  /** A letter, then only letters, digits, `_` and `-`, between 5 and maxLen characters. */
  predicate IsUserIdText(s: string, maxLen: nat) {
    && 5 <= |s| <= maxLen
    && IsLetter(s[0])
    && forall i :: 1 <= i < |s| ==> IsIdChar(s[i])
  }

  /** An `@` at a and a `.` at d, each with a character before and after on the same line. */
  predicate LooseEmailAt(s: string, a: int, d: int) {
    && 1 <= a && a + 1 < d && d + 1 < |s|
    && s[a] == '@' && s[d] == '.'
    && !IsLineTerminator(s[a - 1])
    && (forall m :: a < m < d ==> !IsLineTerminator(s[m]))
    && !IsLineTerminator(s[d + 1])
  }

  predicate IsLooseEmail(s: string) {
    exists a, d :: 0 <= a < |s| && 0 <= d < |s| && LooseEmailAt(s, a, d)
  }

  lemma NameMeaning(s: string)
    ensures Matches(NamePattern, s) <==> IsNameText(s)
  {
    MatchesSingle(NamePattern[0], s);
    forall i | 0 <= i < |s| { NameCharsHas(s[i]); }
  }

  lemma InitialMeaning(s: string)
    ensures Matches(InitialPattern, s) <==> IsInitial(s)
  {
    MatchesSingle(InitialPattern[0], s);
    if |s| == 1 { LettersHas(s[0]); }
  }

  lemma NineDigitsMeaning(s: string)
    ensures Matches(SsnPattern, s) <==> IsNineDigits(s)
  {
    MatchesSingle(SsnPattern[0], s);
    forall i | 0 <= i < |s| { DigitHas(s[i]); }
  }

  lemma FiveDigitsMeaning(s: string)
    ensures Matches(Zip5Pattern, s) <==> IsFiveDigits(s)
  {
    MatchesSingle(Zip5Pattern[0], s);
    forall i | 0 <= i < |s| { DigitHas(s[i]); }
  }

  lemma AllInDigit(s: string)
    ensures AllIn(s, Digit) <==> AllDigits(s)
  {
    forall i | 0 <= i < |s| { DigitHas(s[i]); }
  }

  lemma AllInLit(s: string, c: char)
    requires |s| == 1
    ensures AllIn(s, Lit(c).cls) <==> s[0] == c
  {
    LitHas(c, s[0]);
  }

  /** The last three runs of the phone pattern, `\d{3}-\d{4}`, read from offset 6. */
  lemma PhoneTailMeaning(s: string)
    requires 6 <= |s|
    ensures Matches(PhonePattern[4..], s[6..]) <==>
              |s| == 14 && AllDigits(s[6..9]) && s[9] == '-' && AllDigits(s[10..])
  {
    var p := PhonePattern;
    FixedStep(p, s, 4, 6);
    if 9 <= |s| {
      AllInDigit(s[6..9]);
      FixedStep(p, s, 5, 9);
      if 10 <= |s| {
        AllInLit(s[9..10], '-');
        FixedStep(p, s, 6, 10);
        if 14 <= |s| {
          AllInDigit(s[10..14]);
          assert p[7..] == [];
          if |s| == 14 {
            assert |s[10..14]| == |s[10..]| == 4;
            forall k | 0 <= k < 4 ensures s[10..14][k] == s[10..][k] {
              assert s[10..14][k] == s[10 + k];
            }
            assert s[10..14] == s[10..];
          }
        }
      }
    }
  }

  lemma PhoneMeaning(s: string)
    ensures Matches(PhonePattern, s) <==> IsPhoneText(s)
  {
    var p := PhonePattern;
    assert p[0..] == p && s[0..] == s;
    FixedStep(p, s, 0, 0);
    if 1 <= |s| {
      AllInLit(s[0..1], '(');
      FixedStep(p, s, 1, 1);
      if 4 <= |s| {
        AllInDigit(s[1..4]);
        FixedStep(p, s, 2, 4);
        if 5 <= |s| {
          AllInLit(s[4..5], ')');
          FixedStep(p, s, 3, 5);
          if 6 <= |s| {
            AllInLit(s[5..6], ' ');
            PhoneTailMeaning(s);
          }
        }
      }
    }
  }

  lemma HostMeaning(t: string)
    ensures Matches(HostPattern, t) <==> IsHostText(t)
  {
    var dom := AtLeast(DomainChars, 1);
    var tld := AtLeast(Letters, 2);
    if Matches(HostPattern, t) {
      var k := RunLitElim(dom, '.', [tld], t);
      MatchesSingle(tld, t[k + 1..]);
      AllInSlice(t, 0, k, DomainChars);
      AllInSlice(t, k + 1, |t|, Letters);
      assert t[..k] == t[0..k] && t[k + 1..] == t[k + 1..|t|];
      forall i | 0 <= i < |t| ensures IsDomainChar(t[i]) && (i > k ==> IsLetter(t[i])) {
        DomainCharsHas(t[i]);
        LettersHas(t[i]);
      }
      var d := LastIndexOf(t, '.');
      LastIndexOfLast(t, '.');
      assert d >= 0 by { assert t[k] == '.'; }
      assert d == k;
    }
    if IsHostText(t) {
      var d := LastIndexOf(t, '.');
      LastIndexOfLast(t, '.');
      forall i | 0 <= i < |t| ensures (i < d ==> Has(DomainChars, t[i])) && (i > d ==> Has(Letters, t[i])) {
        DomainCharsHas(t[i]);
        LettersHas(t[i]);
      }
      AllInSlice(t, 0, d, DomainChars);
      AllInSlice(t, d + 1, |t|, Letters);
      assert t[..d] == t[0..d] && t[d + 1..] == t[d + 1..|t|];
      assert RunAccepts(dom, t[..d]);
      MatchesSingle(tld, t[d + 1..]);
      RunLitIntro(dom, '.', [tld], t, d);
    }
  }

  lemma EmailMeaning(s: string)
    ensures Matches(EmailPattern, s) <==> IsEmailText(s)
  {
    var local := AtLeast(LocalChars, 1);
    if Matches(EmailPattern, s) {
      var k := RunLitElim(local, '@', HostPattern, s);
      var a := IndexOf(s, '@');
      IndexOfFirst(s, '@');
      forall i | 0 <= i < k ensures !IsSpace(s[i]) && s[i] != '@' {
        assert s[..k][i] == s[i];
        LocalCharsHas(s[i]);
      }
      assert a == k;
      HostMeaning(s[k + 1..]);
    }
    if IsEmailText(s) {
      var a := IndexOf(s, '@');
      IndexOfFirst(s, '@');
      forall i | 0 <= i < a ensures Has(LocalChars, s[..a][i]) {
        assert s[..a][i] == s[i];
        LocalCharsHas(s[i]);
      }
      HostMeaning(s[a + 1..]);
      RunLitIntro(local, '@', HostPattern, s, a);
    }
  }

  lemma AddressMeaning(s: string)
    ensures Matches(AddressPattern, s) <==> IsAddressText(s)
  {
    MatchesSingle(AddressPattern[0], s);
  }

  lemma CityMeaning(s: string)
    ensures Matches(CityPattern, s) <==> IsCityText(s)
  {
    MatchesSingle(CityPattern[0], s);
    forall i | 0 <= i < |s| { CityCharsHas(s[i]); }
  }

  lemma ZipPlus4Meaning(s: string)
    ensures MatchesSome(ZipPlus4Alternatives, s) <==> IsFiveDigits(s) || IsZipPlus4(s)
  {
    FiveDigitsMeaning(s);
    var p := ZipPlus4Alternatives[1];
    assert p[0..] == p && s[0..] == s;
    FixedStep(p, s, 0, 0);
    if 5 <= |s| {
      AllInDigit(s[..5]);
      assert s[0..5] == s[..5];
      FixedStep(p, s, 1, 5);
      if 6 <= |s| {
        AllInLit(s[5..6], '-');
        FixedStep(p, s, 2, 6);
        if 10 <= |s| {
          AllInDigit(s[6..10]);
          assert p[3..] == [];
          assert |s| == 10 ==> s[6..10] == s[6..];
        }
      }
    }
    if IsFiveDigits(s) {
      assert Matches(ZipPlus4Alternatives[0], s);
    }
    if IsZipPlus4(s) {
      assert Matches(ZipPlus4Alternatives[1], s);
    }
  }

  lemma ZipPrefixMeaning(s: string)
    ensures MatchesPrefix(Zip5Pattern, s) <==> |s| >= 5 && AllDigits(s[..5])
  {
    if MatchesPrefix(Zip5Pattern, s) {
      var j :| 0 <= j <= |s| && Matches(Zip5Pattern, s[..j]);
      FiveDigitsMeaning(s[..j]);
      assert s[..j] == s[..5];
    }
    if |s| >= 5 && AllDigits(s[..5]) {
      FiveDigitsMeaning(s[..5]);
    }
  }

  /** Shared by both user id expressions: one head class, then a bounded tail class. */
  lemma UserIdShape(p: Pattern, s: string, maxTail: nat)
    requires |p| == 2 && p[0] == One(p[0].cls) && p[1] == Between(p[1].cls, 4, maxTail)
    requires forall c :: Has(p[0].cls, c) <==> IsLetter(c)
    requires forall c :: Has(p[1].cls, c) <==> IsIdChar(c)
    ensures Matches(p, s) <==> IsUserIdText(s, maxTail + 1)
  {
    assert p[0..] == p && s[0..] == s;
    FixedStep(p, s, 0, 0);
    if 1 <= |s| {
      assert p[1..] == [p[1]];
      MatchesSingle(p[1], s[1..]);
      assert AllIn(s[1..], p[1].cls) <==> forall i :: 1 <= i < |s| ==> IsIdChar(s[i]) by {
        forall i | 1 <= i < |s| ensures s[1..][i - 1] == s[i] { }
      }
    }
  }

  lemma UserIdMeaning(s: string)
    ensures Matches(UserIdPattern, s) <==> IsUserIdText(s, 20)
  {
    forall c ensures (Has(Letters, c) <==> IsLetter(c)) && (Has(IdChars, c) <==> IsIdChar(c)) {
      LettersHas(c);
      IdCharsHas(c);
    }
    UserIdShape(UserIdPattern, s, 19);
  }

  lemma LooseUserIdMeaning(s: string)
    ensures Matches(LooseUserIdPattern, s) <==> IsUserIdText(s, 30)
  {
    forall c ensures (Has(LooseIdHead, c) <==> IsLetter(c)) && (Has(LooseIdChars, c) <==> IsIdChar(c)) {
      LooseIdHeadHas(c);
      LooseIdCharsHas(c);
    }
    UserIdShape(LooseUserIdPattern, s, 29);
  }

  lemma UpperMeaning(s: string)
    ensures Finds(UpperPattern, s) <==> exists i :: 0 <= i < |s| && IsUpper(s[i])
  {
    FindsOne(UpperChars, s);
    forall i | 0 <= i < |s| { UpperHas(s[i]); }
  }

  lemma LowerMeaning(s: string)
    ensures Finds(LowerPattern, s) <==> exists i :: 0 <= i < |s| && IsLower(s[i])
  {
    FindsOne(LowerChars, s);
    forall i | 0 <= i < |s| { LowerHas(s[i]); }
  }

  lemma DigitMeaning(s: string)
    ensures Finds(DigitPattern, s) <==> exists i :: 0 <= i < |s| && IsDigit(s[i])
  {
    FindsOne(Digit, s);
    forall i | 0 <= i < |s| { DigitHas(s[i]); }
  }

  lemma SpecialMeaning(s: string)
    ensures Finds(SpecialPattern, s) <==> exists i :: 0 <= i < |s| && IsSpecial(s[i])
  {
    FindsOne(SpecialChars, s);
    forall i | 0 <= i < |s| { SpecialCharsHas(s[i]); }
  }

  lemma QuoteMeaning(s: string)
    ensures Finds(QuotePattern, s) <==> '"' in s
  {
    FindsOne(Lit('"').cls, s);
    forall i | 0 <= i < |s| { LitHas('"', s[i]); }
  }

  /** The cut points of a whole-text match of `.+@.+\..+`. */
  lemma LooseEmailCuts(u: string) returns (a: int, d: int)
    requires Matches(LooseEmailPattern, u)
    ensures LooseEmailAt(u, a, d)
  {
    var any := AtLeast(Dot, 1);
    var rest := [any, Lit('.')] + [any];
    var k1 := RunLitElim(any, '@', rest, u);
    var v := u[k1 + 1..];
    var k2 := RunLitElim(any, '.', [any], v);
    MatchesSingle(any, v[k2 + 1..]);
    a := k1;
    d := a + 1 + k2;
    assert u[..k1][k1 - 1] == u[a - 1];
    assert v[k2 + 1..][0] == u[d + 1];
    assert v[..k2] == u[a + 1..d];
    AllInSlice(u, a + 1, d, Dot);
  }

  /** Cut points found in a slice are cut points of the whole text. */
  lemma LooseEmailAtSlice(s: string, i: nat, j: nat, a: int, d: int)
    requires i <= j <= |s| && LooseEmailAt(s[i..j], a, d)
    ensures LooseEmailAt(s, i + a, i + d)
  {
    var u := s[i..j];
    forall m | i + a < m < i + d ensures !IsLineTerminator(s[m]) {
      assert u[m - i] == s[m];
    }
  }

  lemma LooseEmailFound(s: string)
    requires Finds(LooseEmailPattern, s)
    ensures IsLooseEmail(s)
  {
    var i, j :| 0 <= i <= j <= |s| && Matches(LooseEmailPattern, s[i..j]);
    var a, d := LooseEmailCuts(s[i..j]);
    LooseEmailAtSlice(s, i, j, a, d);
  }

  lemma LooseEmailFinds(s: string, a: int, d: int)
    requires LooseEmailAt(s, a, d)
    ensures Finds(LooseEmailPattern, s)
  {
    var any := AtLeast(Dot, 1);
    var rest := [any, Lit('.')] + [any];
    var u := s[a - 1..d + 2];
    var v := u[2..];
    assert v == s[a + 1..d + 2];
    assert v[..d - a - 1] == s[a + 1..d];
    AllInSlice(s, a + 1, d, Dot);
    assert v[d - a..] == [s[d + 1]];
    MatchesSingle(any, v[d - a..]);
    RunLitIntro(any, '.', [any], v, d - a - 1);
    assert u[..1] == [s[a - 1]];
    RunLitIntro(any, '@', rest, u, 1);
    assert Matches(LooseEmailPattern, s[a - 1..d + 2]);
  }

  lemma LooseEmailMeaning(s: string)
    ensures Finds(LooseEmailPattern, s) <==> IsLooseEmail(s)
  {
    if Finds(LooseEmailPattern, s) {
      LooseEmailFound(s);
    }
    if IsLooseEmail(s) {
      var a, d :| 0 <= a < |s| && 0 <= d < |s| && LooseEmailAt(s, a, d);
      LooseEmailFinds(s, a, d);
    }
  }
}
