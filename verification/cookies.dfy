/**
 The cookie lookup of the Homework4 script. `document.cookie` reads as the
 text `name=value; name=value; …`; `getCookie(name)` splits it on `;`, trims
 each piece, and returns what follows `name=` in the first piece that starts
 with it, or the empty text when no piece does.
 */
module Cookies {
  import opened Chars

  /** The lookup over the pieces of the cookie text, `key` being `name=`. */
  function FindCookie(pieces: seq<string>, key: string): string
    decreases |pieces|
  {
    if |pieces| == 0 then ""
    else
      var c := Trim(pieces[0]);
      if StartsWith(c, key) then c[|key|..] else FindCookie(pieces[1..], key)
  }

  /** `getCookie(name)`. */
  function GetCookie(cookie: string, name: string): string {
    FindCookie(Split(cookie, ';'), name + "=")
  }

  /** The first piece that starts with the key decides the result. */
  lemma {:induction false} FindCookieHit(pieces: seq<string>, key: string, i: nat)
    requires i < |pieces| && StartsWith(Trim(pieces[i]), key)
    requires forall j :: 0 <= j < i ==> !StartsWith(Trim(pieces[j]), key)
    ensures FindCookie(pieces, key) == Trim(pieces[i])[|key|..]
    decreases i
  {
    if i > 0 {
      assert !StartsWith(Trim(pieces[0]), key);
      forall j | 0 <= j < i - 1
        ensures !StartsWith(Trim(pieces[1..][j]), key)
      {
        assert pieces[1..][j] == pieces[j + 1];
      }
      FindCookieHit(pieces[1..], key, i - 1);
    }
  }

  /** When no piece starts with the key the result is the empty text. */
  lemma {:induction false} FindCookieMiss(pieces: seq<string>, key: string)
    requires forall j :: 0 <= j < |pieces| ==> !StartsWith(Trim(pieces[j]), key)
    ensures FindCookie(pieces, key) == ""
    decreases |pieces|
  {
    if |pieces| > 0 {
      assert !StartsWith(Trim(pieces[0]), key);
      forall j | 0 <= j < |pieces| - 1
        ensures !StartsWith(Trim(pieces[1..][j]), key)
      {
        assert pieces[1..][j] == pieces[j + 1];
      }
      FindCookieMiss(pieces[1..], key);
    }
  }

  // ---------------------------------------------------------------- a cookie jar

  datatype Cookie = Cookie(name: string, value: string)

  /** A cookie the text lists unambiguously: no `=` or `;` in the name, no `;`
      in the value, and no whitespace at either end of `name=value`. */
  predicate WellFormed(c: Cookie) {
    && '=' !in c.name && ';' !in c.name && ';' !in c.value
    && (|c.name| > 0 ==> !IsSpace(c.name[0]))
    && (|c.value| > 0 ==> !IsSpace(c.value[|c.value| - 1]))
  }

  /** `name=value`. */
  function Entry(c: Cookie): string {
    c.name + "=" + c.value
  }

  /** What `document.cookie` reads for a jar: the entries separated by `; `. */
  function CookieText(jar: seq<Cookie>): string {
    if |jar| == 0 then ""
    else Join(seq(|jar|, i requires 0 <= i < |jar| => (if i == 0 then "" else " ") + Entry(jar[i])), ';')
  }

  /** The value of the first cookie with the given name, or the empty text. */
  function Lookup(jar: seq<Cookie>, name: string): string
    decreases |jar|
  {
    if |jar| == 0 then ""
    else if jar[0].name == name then jar[0].value
    else Lookup(jar[1..], name)
  }

  /** An entry starts with `name=` exactly when the cookie has that name, and
      what follows is then the value. */
  lemma EntryKey(c: Cookie, name: string)
    requires WellFormed(c) && '=' !in name
    ensures StartsWith(Entry(c), name + "=") <==> c.name == name
    ensures c.name == name ==> Entry(c)[|name + "="|..] == c.value
  {
    var e, k := Entry(c), name + "=";
    if c.name == name {
      assert e[..|k|] == k;
    }
    if StartsWith(e, k) {
      var m := |c.name|;
      assert e[|name|] == k[|name|] == '=';
      assert m <= |name|;
      assert k[m] == e[m] == '=';
      assert e[..m] == c.name && k[..m] == name;
    }
  }

  /** The pieces of a well-formed jar's text, trimmed, are its entries. */
  lemma EntryTrim(c: Cookie, lead: string)
    requires WellFormed(c) && AllSpace(lead)
    ensures Trim(lead + Entry(c)) == Entry(c)
  {
    var e := Entry(c);
    assert e[0] == if |c.name| > 0 then c.name[0] else '=';
    assert e[|e| - 1] == if |c.value| > 0 then c.value[|c.value| - 1] else '=';
    TrimPadded(lead, e, "");
    assert lead + e + "" == lead + e;
  }

  /** Looking up pieces whose trimmed texts are the jar's entries is a lookup in the jar. */
  lemma {:induction false} FindCookieLookup(pieces: seq<string>, jar: seq<Cookie>, name: string)
    requires |pieces| == |jar| && '=' !in name
    requires forall i :: 0 <= i < |jar| ==> WellFormed(jar[i]) && Trim(pieces[i]) == Entry(jar[i])
    ensures FindCookie(pieces, name + "=") == Lookup(jar, name)
    decreases |jar|
  {
    if |jar| > 0 {
      EntryKey(jar[0], name);
      FindCookieLookup(pieces[1..], jar[1..], name);
    }
  }

  /** `getCookie` on the text of a well-formed jar finds the value of the first
      cookie with that name, and the empty text when there is none. */
  lemma GetCookieText(jar: seq<Cookie>, name: string)
    requires forall i :: 0 <= i < |jar| ==> WellFormed(jar[i])
    requires '=' !in name
    ensures GetCookie(CookieText(jar), name) == Lookup(jar, name)
  {
    if |jar| == 0 {
      assert Split("", ';') == [""];
      TrimUnpadded("");
      assert FindCookie([""], name + "=") == FindCookie([], name + "=");
    } else {
      var pieces := seq(|jar|, i requires 0 <= i < |jar| => (if i == 0 then "" else " ") + Entry(jar[i]));
      forall i | 0 <= i < |jar|
        ensures ';' !in pieces[i] && Trim(pieces[i]) == Entry(jar[i])
      {
        EntryTrim(jar[i], if i == 0 then "" else " ");
      }
      SplitJoin(pieces, ';');
      FindCookieLookup(pieces, jar, name);
    }
  }
}
