/**
 The state list of the Homework4 script, taken as a function of the fetched
 text of `states.txt`: the text is cut into lines, each line trimmed, blank
 lines dropped, and every remaining line `code|name` becomes one option of the
 state selector, after a placeholder option with the empty value.
 */
module States {
  import opened Chars

  datatype StateOption = StateOption(code: string, name: string)

  /** `<option value="">-Select State-</option>`. */
  const Placeholder := StateOption("", "-Select State-")

  /** `lines.map(l => l.trim()).filter(Boolean)`: the trimmed lines that are not
      empty, in their order. */
  function NonBlank(lines: seq<string>): (r: seq<string>)
    ensures |r| <= |lines|
    ensures forall i :: 0 <= i < |r| ==> r[i] != "" && Unpadded(r[i])
    ensures r == [] <==> forall i :: 0 <= i < |lines| ==> AllSpace(lines[i])
    decreases |lines|
  {
    if |lines| == 0 then []
    else
      var t := Trim(lines[0]);
      TrimEmpty(lines[0]);
      assert forall i :: 1 <= i < |lines| ==> lines[i] == lines[1..][i - 1];
      (if t == "" then [] else [t]) + NonBlank(lines[1..])
  }

  /** Filtering a concatenation filters each part. */
  lemma {:induction false} NonBlankAppend(a: seq<string>, b: seq<string>)
    ensures NonBlank(a + b) == NonBlank(a) + NonBlank(b)
    decreases |a|
  {
    if |a| == 0 {
      assert a + b == b;
    } else {
      assert (a + b)[0] == a[0];
      assert (a + b)[1..] == a[1..] + b;
      NonBlankAppend(a[1..], b);
    }
  }

  /** One line is kept, trimmed, exactly when it is not all whitespace. */
  lemma NonBlankLine(l: string)
    ensures NonBlank([l]) == if AllSpace(l) then [] else [Trim(l)]
  {
    TrimEmpty(l);
    assert [l][1..] == [];
  }

  /** Lines that are already trimmed and not empty pass through unchanged. */
  lemma {:induction false} NonBlankClean(lines: seq<string>)
    requires forall i :: 0 <= i < |lines| ==> lines[i] != "" && Unpadded(lines[i])
    ensures NonBlank(lines) == lines
    decreases |lines|
  {
    if |lines| > 0 {
      TrimUnpadded(lines[0]);
      NonBlankClean(lines[1..]);
      assert [lines[0]] + lines[1..] == lines;
    }
  }

  /** `const [code, name] = line.split("|")`: the text before the first `|` and
      the text after it up to the next one. A line without `|` leaves `name`
      undefined, which the option shows as empty text. */
  function ParseLine(line: string): (r: StateOption)
    ensures '|' !in r.code && '|' !in r.name
    ensures r.code <= line
    ensures |r.code| == |line| ==> r.name == ""
    ensures |r.code| < |line| ==> line[|r.code|] == '|' && r.name <= line[|r.code| + 1..]
    ensures |r.code| + 1 + |r.name| < |line| ==> line[|r.code| + 1 + |r.name|] == '|'
  {
    var parts := Split(line, '|');
    SplitHead(line, '|');
    var rest := if |parts[0]| < |line| then line[|parts[0]| + 1..] else "";
    SplitHead(rest, '|');
    StateOption(parts[0], if |parts| > 1 then parts[1] else "")
  }

  /** The options of the state selector for the fetched text. */
  function ParseStates(text: string): (r: seq<StateOption>)
    ensures |r| > 0 && r[0] == Placeholder
    ensures |r| == 1 + |NonBlank(Split(text, '\n'))|
    ensures forall i :: 1 <= i < |r| ==> '|' !in r[i].code && '|' !in r[i].name
  {
    var lines := NonBlank(Split(text, '\n'));
    [Placeholder] + seq(|lines|, i requires 0 <= i < |lines| => ParseLine(lines[i]))
  }

  /** A text made of lines gives one option per line that is not blank, read
      from the trimmed line, in order. */
  lemma ParseStatesLines(lines: seq<string>)
    requires |lines| > 0
    requires forall i :: 0 <= i < |lines| ==> '\n' !in lines[i]
    ensures var kept := NonBlank(lines);
            ParseStates(Join(lines, '\n')) == [Placeholder] + seq(|kept|, i requires 0 <= i < |kept| => ParseLine(kept[i]))
  {
    SplitJoin(lines, '\n');
  }

  // ---------------------------------------------------------------- a states file

  /** An option a states file can list on one line: no `|` or line break in
      its code or name, and no whitespace at either end of `code|name`. */
  predicate Listable(o: StateOption) {
    && '|' !in o.code && '|' !in o.name && '\n' !in o.code && '\n' !in o.name
    && (|o.code| > 0 ==> !IsSpace(o.code[0]))
    && (|o.name| > 0 ==> !IsSpace(o.name[|o.name| - 1]))
  }

  /** `code|name`. */
  function Line(o: StateOption): string {
    o.code + "|" + o.name
  }

  /** A states file listing the options one per line. */
  function StatesText(options: seq<StateOption>): string {
    if |options| == 0 then ""
    else Join(seq(|options|, i requires 0 <= i < |options| => Line(options[i])), '\n')
  }

  /** A listable option's line is a clean, non-empty line that parses back to it. */
  lemma LineParses(o: StateOption)
    requires Listable(o)
    ensures Line(o) != "" && Unpadded(Line(o)) && '\n' !in Line(o)
    ensures ParseLine(Line(o)) == o
  {
    var l := Line(o);
    assert l[0] == if |o.code| > 0 then o.code[0] else '|';
    assert l[|l| - 1] == if |o.name| > 0 then o.name[|o.name| - 1] else '|';
    assert Join([o.code, o.name], '|') == l by {
      assert [o.code, o.name][1..] == [o.name];
    }
    SplitJoin([o.code, o.name], '|');
  }

  /** Reading back a states file gives the placeholder, then every listed
      option in order. */
  lemma ParseStatesText(options: seq<StateOption>)
    requires forall i :: 0 <= i < |options| ==> Listable(options[i])
    ensures ParseStates(StatesText(options)) == [Placeholder] + options
  {
    if |options| == 0 {
      assert Split("", '\n') == [""];
      TrimUnpadded("");
      assert NonBlank([""]) == [] + NonBlank([]);
    } else {
      var lines := seq(|options|, i requires 0 <= i < |options| => Line(options[i]));
      forall i | 0 <= i < |options|
        ensures lines[i] != "" && Unpadded(lines[i]) && '\n' !in lines[i]
        ensures ParseLine(lines[i]) == options[i]
      {
        LineParses(options[i]);
      }
      SplitJoin(lines, '\n');
      NonBlankClean(lines);
    }
  }
}
