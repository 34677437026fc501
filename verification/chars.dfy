/**
 Character classes and the JavaScript string primitives the form scripts rely on:
 `trim`, `toLowerCase`, `replace(/\D/g, '')` and `slice(0, n)`.
 Case folding is ASCII only; the whitespace set is the ECMAScript
 WhiteSpace and LineTerminator list that both `trim` and `\s` use.
 */
module Chars {

  predicate IsDigit(c: char) { '0' <= c <= '9' }
  predicate IsUpper(c: char) { 'A' <= c <= 'Z' }
  predicate IsLower(c: char) { 'a' <= c <= 'z' }
  predicate IsLetter(c: char) { IsUpper(c) || IsLower(c) }

  /** The characters a regular-expression `.` refuses to match. */
  predicate IsLineTerminator(c: char) {
    c == '\n' || c == '\r' || c == '\U{2028}' || c == '\U{2029}'
  }

  /** What `String.prototype.trim` removes and what `\s` matches. */
  predicate IsSpace(c: char) {
    || c == '\t' || c == '\U{B}' || c == '\U{C}' || c == ' '
    || c == '\U{A0}' || c == '\U{1680}' || ('\U{2000}' <= c <= '\U{200A}')
    || c == '\U{202F}' || c == '\U{205F}' || c == '\U{3000}' || c == '\U{FEFF}'
    || IsLineTerminator(c)
  }

  predicate AllDigits(s: string) { forall i :: 0 <= i < |s| ==> IsDigit(s[i]) }
  predicate AllSpace(s: string) { forall i :: 0 <= i < |s| ==> IsSpace(s[i]) }

  /** No whitespace at either end: a value `trim` leaves alone. */
  predicate Unpadded(s: string) {
    |s| > 0 ==> !IsSpace(s[0]) && !IsSpace(s[|s| - 1])
  }

  function Min(a: int, b: int): int { if a <= b then a else b }

  /** `s.slice(0, n)`: the first n characters, or all of s when it is shorter. */
  function Take(s: string, n: nat): (r: string)
    ensures |r| == Min(n, |s|)
    ensures r == s[..|r|]
  {
    if |s| <= n then s else s[..n]
  }

  // ---------------------------------------------------------------- trim

  /** `s` without its leading whitespace. */
  function TrimStart(s: string): (r: string)
    ensures |r| <= |s|
  {
    if |s| > 0 && IsSpace(s[0]) then TrimStart(s[1..]) else s
  }

  /** `s` without its trailing whitespace. */
  function TrimEnd(s: string): (r: string)
    ensures |r| <= |s|
  {
    if |s| > 0 && IsSpace(s[|s| - 1]) then TrimEnd(s[..|s| - 1]) else s
  }

  /** TrimStart cuts s into a whitespace prefix and a suffix that does not
      start with whitespace. */
  lemma {:induction false} TrimStartSplit(s: string)
    ensures var r := TrimStart(s);
            && r == s[|s| - |r|..]
            && AllSpace(s[..|s| - |r|])
            && (|r| > 0 ==> !IsSpace(r[0]))
    decreases |s|
  {
    if |s| > 0 && IsSpace(s[0]) {
      TrimStartSplit(s[1..]);
      assert TrimStart(s) == TrimStart(s[1..]);
      var k := |s| - |TrimStart(s)|;
      assert s[1..][k - 1..] == s[k..];
      forall i | 1 <= i < k ensures IsSpace(s[..k][i]) {
        assert s[..k][i] == s[1..][..k - 1][i - 1];
      }
    }
  }

  /** TrimEnd cuts s into a prefix that does not end with whitespace and a
      whitespace suffix. */
  lemma {:induction false} TrimEndSplit(s: string)
    ensures var r := TrimEnd(s);
            && r == s[..|r|]
            && AllSpace(s[|r|..])
            && (|r| > 0 ==> !IsSpace(r[|r| - 1]))
    decreases |s|
  {
    if |s| > 0 && IsSpace(s[|s| - 1]) {
      var t := s[..|s| - 1];
      TrimEndSplit(t);
      var k := |TrimEnd(s)|;
      assert t[..k] == s[..k];
      forall i | 0 <= i < |s| - k - 1 ensures IsSpace(s[k..][i]) {
        assert s[k..][i] == t[k..][i];
      }
    }
  }

  /** `s.trim()`: s without its leading and trailing whitespace. */
  function Trim(s: string): (r: string)
    ensures Unpadded(r)
    ensures |r| <= |s|
  {
    TrimStartSplit(s);
    TrimEndSplit(TrimStart(s));
    TrimEnd(TrimStart(s))
  }

  /** The trimmed text is the slice of s between a whitespace prefix and a
      whitespace suffix. */
  lemma TrimSlice(s: string)
    ensures exists i, j :: 0 <= i <= j <= |s| && Trim(s) == s[i..j] && AllSpace(s[..i]) && AllSpace(s[j..])
  {
    var a := TrimStart(s);
    var r := TrimEnd(a);
    TrimStartSplit(s);
    TrimEndSplit(a);
    var i := |s| - |a|;
    assert r == s[i..i + |r|];
    assert s[i + |r|..] == a[|r|..];
  }

  lemma {:induction false} TrimStartUnpadded(s: string)
    requires |s| == 0 || !IsSpace(s[0])
    ensures TrimStart(s) == s
  {
  }

  /** A value that is already unpadded is its own trim. */
  lemma TrimUnpadded(s: string)
    requires Unpadded(s)
    ensures Trim(s) == s
  {
    TrimStartUnpadded(s);
  }

  /** Trimming twice is trimming once. */
  lemma TrimIdempotent(s: string)
    ensures Trim(Trim(s)) == Trim(s)
  {
    TrimUnpadded(Trim(s));
  }

  lemma {:induction false} TrimStartSpaces(w: string, p: string)
    requires AllSpace(w)
    requires |p| == 0 || !IsSpace(p[0])
    ensures TrimStart(w + p) == p
  {
    if |w| == 0 {
      assert w + p == p;
    } else {
      assert (w + p)[1..] == w[1..] + p;
      TrimStartSpaces(w[1..], p);
    }
  }

  lemma {:induction false} TrimEndSpaces(p: string, w: string)
    requires AllSpace(w)
    requires |p| == 0 || !IsSpace(p[|p| - 1])
    ensures TrimEnd(p + w) == p
  {
    if |w| == 0 {
      assert p + w == p;
    } else {
      assert (p + w)[..|p + w| - 1] == p + w[..|w| - 1];
      TrimEndSpaces(p, w[..|w| - 1]);
    }
  }

  /** Whitespace around an unpadded value is exactly what trim removes. */
  lemma TrimPadded(w1: string, p: string, w2: string)
    requires AllSpace(w1) && AllSpace(w2) && Unpadded(p)
    ensures Trim(w1 + p + w2) == p
  {
    assert w1 + p + w2 == w1 + (p + w2);
    if |p| == 0 {
      assert p + w2 == w2;
      assert AllSpace(w1 + w2);
      TrimStartAllSpace(w1 + w2);
    } else {
      TrimStartSpaces(w1, p + w2);
      TrimEndSpaces(p, w2);
    }
  }

  /** The trimmed text is empty exactly when the text is all whitespace. */
  lemma TrimEmpty(text: string)
    ensures Trim(text) == "" <==> AllSpace(text)
  {
    if AllSpace(text) {
      TrimPadded(text, "", "");
      assert text + "" + "" == text;
    }
    if Trim(text) == "" {
      TrimSlice(text);
      var i, j :| 0 <= i <= j <= |text| && Trim(text) == text[i..j] && AllSpace(text[..i]) && AllSpace(text[j..]);
      forall k | 0 <= k < |text|
        ensures IsSpace(text[k])
      {
        if k < i {
          assert text[..i][k] == text[k];
        } else {
          assert text[j..][k - j] == text[k];
        }
      }
    }
  }

  lemma {:induction false} TrimStartAllSpace(w: string)
    requires AllSpace(w)
    ensures TrimStart(w) == []
  {
    if |w| > 0 {
      TrimStartAllSpace(w[1..]);
    }
  }

  // ---------------------------------------------------------------- case

  function LowerChar(c: char): (r: char)
    ensures IsUpper(c) ==> IsLower(r) && r as int == c as int + 32
    ensures !IsUpper(c) ==> r == c
  {
    if IsUpper(c) then (c as int + 32) as char else c
  }

  /** `s.toLowerCase()`, restricted to ASCII case folding. */
  function ToLower(s: string): (r: string)
    ensures |r| == |s|
    ensures forall i :: 0 <= i < |s| ==> r[i] == LowerChar(s[i])
  {
    seq(|s|, i requires 0 <= i < |s| => LowerChar(s[i]))
  }

  /** Lower-casing keeps every character's whitespace status. */
  lemma LowerCharSpace(c: char)
    ensures IsSpace(LowerChar(c)) <==> IsSpace(c)
  {
  }

  lemma ToLowerIdempotent(s: string)
    ensures ToLower(ToLower(s)) == ToLower(s)
  {
  }

  lemma {:induction false} TrimStartToLower(s: string)
    ensures TrimStart(ToLower(s)) == ToLower(TrimStart(s))
  {
    if |s| > 0 {
      LowerCharSpace(s[0]);
      assert ToLower(s)[1..] == ToLower(s[1..]);
      TrimStartToLower(s[1..]);
    }
  }

  lemma {:induction false} TrimEndToLower(s: string)
    ensures TrimEnd(ToLower(s)) == ToLower(TrimEnd(s))
  {
    if |s| > 0 {
      LowerCharSpace(s[|s| - 1]);
      assert ToLower(s)[..|s| - 1] == ToLower(s[..|s| - 1]);
      TrimEndToLower(s[..|s| - 1]);
    }
  }

  /** Trimming and lower-casing commute. */
  lemma TrimToLower(s: string)
    ensures Trim(ToLower(s)) == ToLower(Trim(s))
  {
    TrimStartToLower(s);
    TrimEndToLower(TrimStart(s));
  }

  /** The email normal form `v.trim().toLowerCase()` is a fixed point. */
  lemma TrimLowerIdempotent(s: string)
    ensures ToLower(Trim(ToLower(Trim(s)))) == ToLower(Trim(s))
  {
    TrimToLower(Trim(s));
    TrimIdempotent(s);
    ToLowerIdempotent(Trim(s));
  }

  // ---------------------------------------------------------------- digits

  /** `s.replace(/\D/g, '')`: the digits of s, in order. */
  function Digits(s: string): (r: string)
    ensures |r| <= |s|
    ensures AllDigits(r)
  {
    if |s| == 0 then []
    else (if IsDigit(s[0]) then [s[0]] else []) + Digits(s[1..])
  }

  /** Digit extraction distributes over concatenation. */
  lemma {:induction false} DigitsAppend(a: string, b: string)
    ensures Digits(a + b) == Digits(a) + Digits(b)
  {
    if |a| == 0 {
      assert a + b == b;
    } else {
      var head := if IsDigit(a[0]) then [a[0]] else [];
      assert (a + b)[0] == a[0] && (a + b)[1..] == a[1..] + b;
      assert Digits(a + b) == head + Digits(a[1..] + b);
      DigitsAppend(a[1..], b);
      assert Digits(a) == head + Digits(a[1..]);
    }
  }

  /** A string of digits is its own digit extraction. */
  lemma {:induction false} DigitsOfDigits(s: string)
    requires AllDigits(s)
    ensures Digits(s) == s
  {
    if |s| > 0 {
      DigitsOfDigits(s[1..]);
    }
  }

  /** A string with no digit contributes nothing. */
  lemma {:induction false} DigitsOfNonDigits(s: string)
    requires forall i :: 0 <= i < |s| ==> !IsDigit(s[i])
    ensures Digits(s) == []
  {
    if |s| > 0 {
      DigitsOfNonDigits(s[1..]);
    }
  }

  // ---------------------------------------------------------------- searching

  /** `s.indexOf(c)`, with -1 for absent. */
  function IndexOf(s: string, c: char): (r: int)
    ensures -1 <= r < |s|
  {
    if |s| == 0 then -1
    else if s[0] == c then 0
    else
      var k := IndexOf(s[1..], c);
      if k == -1 then -1 else k + 1
  }

  /** IndexOf finds the first occurrence, and -1 only when there is none. */
  lemma {:induction false} IndexOfFirst(s: string, c: char)
    ensures var r := IndexOf(s, c);
            && (r == -1 <==> c !in s)
            && (r >= 0 ==> s[r] == c && c !in s[..r])
    decreases |s|
  {
    if |s| > 0 && s[0] != c {
      IndexOfFirst(s[1..], c);
      var k := IndexOf(s[1..], c);
      assert s == [s[0]] + s[1..];
      assert k >= 0 ==> s[..k + 1] == [s[0]] + s[1..][..k];
    }
  }

  /** `s.lastIndexOf(c)`, with -1 for absent. */
  function LastIndexOf(s: string, c: char): (r: int)
    ensures -1 <= r < |s|
  {
    if |s| == 0 then -1
    else if s[|s| - 1] == c then |s| - 1
    else LastIndexOf(s[..|s| - 1], c)
  }

  /** LastIndexOf finds the last occurrence, and -1 only when there is none. */
  lemma {:induction false} LastIndexOfLast(s: string, c: char)
    ensures var r := LastIndexOf(s, c);
            && (r == -1 <==> c !in s)
            && (r >= 0 ==> s[r] == c && c !in s[r + 1..])
    decreases |s|
  {
    if |s| > 0 && s[|s| - 1] != c {
      var t := s[..|s| - 1];
      LastIndexOfLast(t, c);
      var k := LastIndexOf(t, c);
      assert s == t + [s[|s| - 1]];
      assert c in s <==> c in t;
      if k >= 0 {
        assert s[k] == t[k];
        assert s[k + 1..] == t[k + 1..] + [s[|s| - 1]];
      }
    }
  }

  predicate StartsWith(s: string, prefix: string) {
    |prefix| <= |s| && s[..|prefix|] == prefix
  }

  // ---------------------------------------------------------------- split / join

  /** `s.split(sep)` for a one-character separator: never empty, separator-free pieces. */
  function Split(s: string, sep: char): (r: seq<string>)
    ensures |r| > 0
    ensures forall i :: 0 <= i < |r| ==> sep !in r[i]
  {
    var k := IndexOf(s, sep);
    IndexOfFirst(s, sep);
    if k == -1 then [s]
    else [s[..k]] + Split(s[k + 1..], sep)
  }

  /** The first piece of a split is the text up to the first separator; when
      there is one, the other pieces are the split of the text after it. */
  lemma SplitHead(s: string, sep: char)
    ensures var parts := Split(s, sep);
            && parts[0] <= s
            && (|parts| == 1 <==> |parts[0]| == |s|)
            && (|parts[0]| < |s| ==> s[|parts[0]|] == sep && parts[1..] == Split(s[|parts[0]| + 1..], sep))
  {
    var k := IndexOf(s, sep);
    IndexOfFirst(s, sep);
    var parts := Split(s, sep);
    if k == -1 {
      SplitNone(s, sep);
    } else {
      var tail := Split(s[k + 1..], sep);
      SplitAt(s, sep, k);
      assert parts[0] == s[..k] && |parts| == 1 + |tail|;
      assert parts[1..] == tail;
      assert s[|parts[0]|] == s[k] == sep;
      assert s[|parts[0]| + 1..] == s[k + 1..];
    }
  }

  /** Without a separator the split is the whole string. */
  lemma SplitNone(s: string, sep: char)
    requires IndexOf(s, sep) == -1
    ensures Split(s, sep) == [s]
  {
  }

  /** Split at the first separator, when there is one. */
  lemma SplitAt(s: string, sep: char, k: int)
    requires 0 <= k == IndexOf(s, sep)
    ensures Split(s, sep) == [s[..k]] + Split(s[k + 1..], sep)
  {
  }

  /** `parts.join(sep)`. */
  function Join(parts: seq<string>, sep: char): string
    requires |parts| > 0
  {
    if |parts| == 1 then parts[0]
    else parts[0] + [sep] + Join(parts[1..], sep)
  }

  /** Joining the pieces of a split restores the string. */
  lemma {:induction false} JoinSplit(s: string, sep: char)
    ensures Join(Split(s, sep), sep) == s
    decreases |s|
  {
    var k := IndexOf(s, sep);
    IndexOfFirst(s, sep);
    if k == -1 {
      assert Split(s, sep) == [s];
    } else {
      var tail := Split(s[k + 1..], sep);
      SplitAt(s, sep, k);
      JoinSplit(s[k + 1..], sep);
      JoinCons(s[..k], tail, sep);
      assert s == s[..k] + [sep] + s[k + 1..];
    }
  }

  /** Joining a piece in front of further pieces puts a separator between. */
  lemma JoinCons(head: string, tail: seq<string>, sep: char)
    requires |tail| > 0
    ensures Join([head] + tail, sep) == head + [sep] + Join(tail, sep)
  {
    assert ([head] + tail)[1..] == tail;
  }

  /** Splitting a join of separator-free pieces gives the pieces back. */
  lemma {:induction false} SplitJoin(parts: seq<string>, sep: char)
    requires |parts| > 0
    requires forall i :: 0 <= i < |parts| ==> sep !in parts[i]
    ensures Split(Join(parts, sep), sep) == parts
    decreases |parts|
  {
    if |parts| > 1 {
      var s := Join(parts, sep);
      var p := parts[0];
      assert s == p + ([sep] + Join(parts[1..], sep));
      assert s[..|p|] == p;
      assert s[|p|] == sep;
      assert IndexOf(s, sep) == |p| by {
        assert sep !in s[..|p|];
        IndexOfFirst(s, sep);
      }
      assert s[|p| + 1..] == Join(parts[1..], sep);
      SplitJoin(parts[1..], sep);
    } else {
      IndexOfFirst(parts[0], sep);
    }
  }
}
