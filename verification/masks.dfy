/**
 The input masks applied on each keystroke, before any validator reads the
 field: the SSN mask (digits only, at most nine) and the progressive phone mask
 `(DDD) DDD-DDDD` over at most ten digits, which every revision applies, and the
 lower-casing of the email, which Homework3 and Homework4 also apply.
 */
module Masks {
  import opened Chars
  import opened Patterns

  /** `value.replace(/\D/g, '').slice(0, 9)`. */
  function MaskSsn(raw: string): (r: string)
    ensures AllDigits(r) && |r| <= 9
    ensures |r| == Min(9, |Digits(raw)|)
  {
    Take(Digits(raw), 9)
  }

  /** The mask keeps the first nine digits of the input, in their order. */
  lemma MaskSsnPrefix(raw: string)
    ensures MaskSsn(raw) == Digits(raw)[..|MaskSsn(raw)|]
  {
  }

  /** Re-applying the SSN mask to its own output changes nothing. */
  lemma MaskSsnIdempotent(raw: string)
    ensures MaskSsn(MaskSsn(raw)) == MaskSsn(raw)
  {
    DigitsOfDigits(MaskSsn(raw));
  }

  /** Separators typed between the digits do not reach the field value. */
  lemma MaskSsnIgnoresSeparators(a: string, sep: string, b: string)
    requires forall i :: 0 <= i < |sep| ==> !IsDigit(sep[i])
    ensures MaskSsn(a + sep + b) == MaskSsn(a + b)
  {
    DigitsAppend(a + sep, b);
    DigitsAppend(a, sep);
    DigitsAppend(a, b);
    DigitsOfNonDigits(sep);
    assert Digits(a) + [] == Digits(a);
  }

  /** The formatting step of the phone mask, for at most ten digits:
      `(` and up to three digits, then `) ` and up to three, then `-` and the rest. */
  function FormatPhone(v: string): (r: string)
    requires |v| <= 10
  {
    var head := if |v| > 0 then "(" + v[..Min(3, |v|)] else "";
    var mid := if |v| >= 4 then head + ") " + v[3..Min(6, |v|)] else head;
    if |v| >= 7 then mid + "-" + v[6..] else mid
  }

  /** Appending punctuation and then digits adds exactly those digits. */
  lemma DigitsThen(x: string, punct: string, d: string)
    requires forall i :: 0 <= i < |punct| ==> !IsDigit(punct[i])
    requires AllDigits(d)
    ensures Digits(x + punct + d) == Digits(x) + d
  {
    DigitsAppend(x + punct, d);
    DigitsAppend(x, punct);
    DigitsOfNonDigits(punct);
    DigitsOfDigits(d);
    assert Digits(x) + [] == Digits(x);
  }

  /** Stripping the punctuation of a formatted phone number gives back its digits. */
  lemma FormatPhoneDigits(v: string)
    requires |v| <= 10 && AllDigits(v)
    ensures Digits(FormatPhone(v)) == v
  {
    if |v| == 0 {
    } else if |v| <= 3 {
      assert v[..Min(3, |v|)] == v;
      assert FormatPhone(v) == "" + "(" + v;
      DigitsThen("", "(", v);
    } else if |v| <= 6 {
      FormatPhoneDigitsTwo(v);
    } else {
      FormatPhoneDigitsThree(v);
    }
  }

  lemma FormatPhoneDigitsTwo(v: string)
    requires 4 <= |v| <= 6 && AllDigits(v)
    ensures Digits(FormatPhone(v)) == v
  {
    var a, b := v[..3], v[3..];
    assert FormatPhone(v) == ("" + "(" + a) + ") " + b;
    DigitsThen("", "(", a);
    DigitsThen("" + "(" + a, ") ", b);
    assert a + b == v;
  }

  lemma FormatPhoneDigitsThree(v: string)
    requires 7 <= |v| <= 10 && AllDigits(v)
    ensures Digits(FormatPhone(v)) == v
  {
    var a, b, c := v[..3], v[3..6], v[6..];
    FormatPhoneShape(v);
    assert AllDigits(a) && AllDigits(b) && AllDigits(c);
    DigitsThen("", "(", a);
    DigitsThen("(" + a, ") ", b);
    DigitsThen("(" + a + ") " + b, "-", c);
    assert "" + "(" + a == "(" + a;
    assert a + b + c == v;
  }

  lemma FormatPhoneShape(v: string)
    requires 7 <= |v| <= 10
    ensures FormatPhone(v) == "(" + v[..3] + ") " + v[3..6] + "-" + v[6..]
  {
    assert Min(3, |v|) == 3 && Min(6, |v|) == 6;
  }

  /** The phone mask: at most ten digits of the input, re-punctuated. */
  function MaskPhone(raw: string): (r: string)
    ensures |r| <= 14
    ensures Digits(r) == Take(Digits(raw), 10)
    ensures r == "" <==> Digits(raw) == ""
    ensures r != "" ==> IsDigit(r[|r| - 1])
  {
    var v := Take(Digits(raw), 10);
    assert AllDigits(v);
    FormatPhoneDigits(v);
    FormatPhone(v)
  }

  /** Typing more digits only extends the masked text: the punctuation of a
      partial number sits where the full number's does. */
  lemma PhonePrefix(w: string, n: nat)
    requires |w| == 10 && n <= 10
    ensures FormatPhone(w[..n]) <= FormatPhone(w)
  {
    FormatPhoneShape(w);
    var v := w[..n];
    assert v[..Min(3, |v|)] == w[..Min(3, n)];
    if n >= 4 { assert v[3..Min(6, |v|)] == w[3..Min(6, n)]; }
    if n >= 7 { assert v[6..] == w[6..n]; }
  }

  /** Masking an already masked phone value is a no-op. */
  lemma MaskPhoneIdempotent(raw: string)
    ensures MaskPhone(MaskPhone(raw)) == MaskPhone(raw)
  {
  }

  /** Ten digits format to the shape `(DDD) DDD-DDDD`. */
  lemma FormatPhoneFull(v: string)
    requires |v| == 10 && AllDigits(v)
    ensures IsPhoneText(FormatPhone(v))
  {
    var r := FormatPhone(v);
    assert r == "(" + v[..3] + ") " + v[3..6] + "-" + v[6..];
    assert r[1..4] == v[..3] && r[6..9] == v[3..6] && r[10..] == v[6..];
  }

  /** Fewer than ten digits format to fewer than fourteen characters. */
  lemma FormatPhoneShort(v: string)
    requires |v| < 10
    ensures |FormatPhone(v)| < 14
  {
  }

  /** Ten digits or more produce exactly the shape the phone validator accepts,
      and fewer digits never do. */
  lemma MaskPhoneComplete(raw: string)
    ensures IsPhoneText(MaskPhone(raw)) <==> |Digits(raw)| >= 10
  {
    var d := Digits(raw);
    var v := Take(d, 10);
    if |v| == 10 {
      assert forall i :: 0 <= i < |v| ==> v[i] == d[i];
      FormatPhoneFull(v);
    } else {
      FormatPhoneShort(v);
    }
  }

  /** `value.toLowerCase()` on every keystroke in the email field. */
  function MaskEmail(raw: string): (r: string)
    ensures |r| == |raw|
    ensures forall i :: 0 <= i < |r| ==> !IsUpper(r[i])
    ensures forall i :: 0 <= i < |r| ==> !IsUpper(raw[i]) ==> r[i] == raw[i]
    ensures forall i :: 0 <= i < |r| ==> IsUpper(raw[i]) ==> r[i] as int == raw[i] as int + 32
  {
    ToLower(raw)
  }

  /** A text without upper-case letters is left alone by the email mask. */
  lemma LowerIsMaskFixed(t: string)
    requires forall i :: 0 <= i < |t| ==> !IsUpper(t[i])
    ensures MaskEmail(t) == t
  {
  }

  lemma MaskEmailIdempotent(raw: string)
    ensures MaskEmail(MaskEmail(raw)) == MaskEmail(raw)
  {
    ToLowerIdempotent(raw);
  }
}
