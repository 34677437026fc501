/**
 The fragment of JavaScript regular expressions the form scripts use, as data.

 A pattern is a sequence of runs; a run is a character class with a repetition
 bound `{lo,hi}` (`hi` possibly unbounded). `Matches` is the anchored reading
 `^…$`: some way of cutting the text into consecutive pieces, one per run, such
 that every piece has an admissible length and only characters of its class.
 None of the source's expressions use captures or look-around, so whether
 `RegExp.prototype.test` succeeds is exactly whether such a cutting exists,
 whatever order the backtracking engine tries the cuts in.
 */
module Regex {
  import opened Chars

  datatype ClassItem =
    | Single(c: char)           // a literal character, `a` or `\-`
    | Span(lo: char, hi: char)  // a range `A-Z`
    | DigitEscape               // `\d`
    | SpaceEscape               // `\s`

  datatype CharClass =
    | AnyOf(items: seq<ClassItem>)   // `[…]`
    | NoneOf(items: seq<ClassItem>)  // `[^…]`
    | Dot                            // `.`

  datatype Bound = AtMost(n: nat) | Unbounded {
    predicate Admits(k: nat) {
      match this
      case AtMost(n) => k <= n
      case Unbounded => true
    }
  }

  datatype Run = Run(cls: CharClass, lo: nat, hi: Bound)

  type Pattern = seq<Run>

  predicate ItemHas(it: ClassItem, c: char) {
    match it
    case Single(x) => c == x
    case Span(lo, hi) => lo <= c <= hi
    case DigitEscape => IsDigit(c)
    case SpaceEscape => IsSpace(c)
  }

  predicate SomeItemHas(items: seq<ClassItem>, c: char) {
    exists i :: 0 <= i < |items| && ItemHas(items[i], c)
  }

  predicate Has(cls: CharClass, c: char) {
    match cls
    case AnyOf(items) => SomeItemHas(items, c)
    case NoneOf(items) => !SomeItemHas(items, c)
    case Dot => !IsLineTerminator(c)
  }

  predicate AllIn(s: string, cls: CharClass) {
    forall i :: 0 <= i < |s| ==> Has(cls, s[i])
  }

  /** One run accepts a piece of text. */
  predicate RunAccepts(r: Run, s: string) {
    r.lo <= |s| && r.hi.Admits(|s|) && AllIn(s, r.cls)
  }

  /** `^p$` accepts s. */
  predicate Matches(p: Pattern, s: string)
    decreases |p|
  {
    if |p| == 0 then |s| == 0
    else exists k :: 0 <= k <= |s| && RunAccepts(p[0], s[..k]) && Matches(p[1..], s[k..])
  }

  /** `/p/.test(s)` with no anchor: some slice of s is accepted. */
  predicate Finds(p: Pattern, s: string) {
    exists i, j :: 0 <= i <= j <= |s| && Matches(p, s[i..j])
  }

  /** `/^p/.test(s)`: some prefix of s is accepted. */
  predicate MatchesPrefix(p: Pattern, s: string) {
    exists j :: 0 <= j <= |s| && Matches(p, s[..j])
  }

  /** `^(p1|p2|…)$`. */
  predicate MatchesSome(alternatives: seq<Pattern>, s: string) {
    exists i :: 0 <= i < |alternatives| && Matches(alternatives[i], s)
  }

  // Shorthands for the runs the expressions are made of.
  function Lit(c: char): Run { Run(AnyOf([Single(c)]), 1, AtMost(1)) }
  function One(cls: CharClass): Run { Run(cls, 1, AtMost(1)) }
  function Times(cls: CharClass, n: nat): Run { Run(cls, n, AtMost(n)) }
  function Between(cls: CharClass, lo: nat, hi: nat): Run { Run(cls, lo, AtMost(hi)) }
  function AtLeast(cls: CharClass, lo: nat): Run { Run(cls, lo, Unbounded) }

  // ---------------------------------------------------------------- lemmas

  /** A one-run pattern accepts exactly the texts the run accepts. */
  lemma MatchesSingle(r: Run, s: string)
    ensures Matches([r], s) <==> RunAccepts(r, s)
  {
    assert [r][1..] == [];
    if RunAccepts(r, s) {
      assert s[..|s|] == s;
      assert Matches([r][1..], s[|s|..]);
    }
  }

  /** A run of fixed width n consumes exactly the first n characters. */
  lemma MatchesFixed(p: Pattern, s: string)
    requires |p| > 0 && p[0].hi == AtMost(p[0].lo)
    ensures Matches(p, s) <==>
              p[0].lo <= |s| && AllIn(s[..p[0].lo], p[0].cls) && Matches(p[1..], s[p[0].lo..])
  {
    var n := p[0].lo;
    if Matches(p, s) {
      var k :| 0 <= k <= |s| && RunAccepts(p[0], s[..k]) && Matches(p[1..], s[k..]);
      assert |s[..k]| == n;
    }
    if n <= |s| && AllIn(s[..n], p[0].cls) && Matches(p[1..], s[n..]) {
      assert RunAccepts(p[0], s[..n]);
    }
  }

  /** An unanchored search for a single-character run finds any one character of its class. */
  lemma FindsOne(cls: CharClass, s: string)
    ensures Finds([One(cls)], s) <==> exists i :: 0 <= i < |s| && Has(cls, s[i])
  {
    if Finds([One(cls)], s) {
      var i, j :| 0 <= i <= j <= |s| && Matches([One(cls)], s[i..j]);
      MatchesSingle(One(cls), s[i..j]);
      assert s[i..j][0] == s[i];
    }
    if exists i :: 0 <= i < |s| && Has(cls, s[i]) {
      var i :| 0 <= i < |s| && Has(cls, s[i]);
      MatchesSingle(One(cls), s[i..i + 1]);
    }
  }

  /** The class of a literal character holds that character only. */
  lemma LitHas(x: char, c: char)
    ensures Has(Lit(x).cls, c) <==> c == x
  {
    if c == x {
      assert ItemHas([Single(x)][0], c);
    }
  }

  /** A run followed by a literal character: where the literal sits splits the text. */
  lemma RunLitIntro(r: Run, c: char, rest: Pattern, s: string, k: nat)
    requires k < |s| && RunAccepts(r, s[..k]) && s[k] == c && Matches(rest, s[k + 1..])
    ensures Matches([r, Lit(c)] + rest, s)
  {
    var p := [r, Lit(c)] + rest;
    assert p[1..] == [Lit(c)] + rest;
    var u := s[k..];
    LitHas(c, u[0]);
    assert u[..1] == [c];
    assert u[1..] == s[k + 1..];
    MatchesFixed([Lit(c)] + rest, u);
    assert ([Lit(c)] + rest)[1..] == rest;
  }

  lemma RunLitElim(r: Run, c: char, rest: Pattern, s: string) returns (k: nat)
    requires Matches([r, Lit(c)] + rest, s)
    ensures k < |s| && RunAccepts(r, s[..k]) && s[k] == c && Matches(rest, s[k + 1..])
  {
    var p := [r, Lit(c)] + rest;
    assert p[1..] == [Lit(c)] + rest;
    k :| 0 <= k <= |s| && RunAccepts(p[0], s[..k]) && Matches(p[1..], s[k..]);
    var u := s[k..];
    MatchesFixed([Lit(c)] + rest, u);
    assert ([Lit(c)] + rest)[1..] == rest;
    assert u[..1][0] == u[0];
    LitHas(c, u[0]);
    assert u[1..] == s[k + 1..];
  }

  /** `MatchesFixed` read at an offset: run j of p consumes s[off..off + width]. */
  lemma FixedStep(p: Pattern, s: string, j: nat, off: nat)
    requires j < |p| && off <= |s| && p[j].hi == AtMost(p[j].lo)
    ensures Matches(p[j..], s[off..]) <==>
              && off + p[j].lo <= |s|
              && AllIn(s[off..off + p[j].lo], p[j].cls)
              && Matches(p[j + 1..], s[off + p[j].lo..])
  {
    var n := p[j].lo;
    MatchesFixed(p[j..], s[off..]);
    assert p[j..][1..] == p[j + 1..];
    if off + n <= |s| {
      assert s[off..][..n] == s[off..off + n];
      assert s[off..][n..] == s[off + n..];
    }
  }

  /** Class membership of a slice, index by index in the whole text. */
  lemma AllInSlice(s: string, lo: nat, hi: nat, cls: CharClass)
    requires lo <= hi <= |s|
    ensures AllIn(s[lo..hi], cls) <==> forall i :: lo <= i < hi ==> Has(cls, s[i])
  {
    if forall i :: lo <= i < hi ==> Has(cls, s[i]) {
      forall m | 0 <= m < hi - lo ensures Has(cls, s[lo..hi][m]) {
        assert s[lo..hi][m] == s[lo + m];
      }
    }
    if AllIn(s[lo..hi], cls) {
      forall i | lo <= i < hi ensures Has(cls, s[i]) {
        assert s[lo..hi][i - lo] == s[i];
      }
    }
  }
}
