/**
 * `TextWrap`: `Radius.wrapText(font, maxWidth, text)`, the greedy word wrapper. The text is
 * scanned once; at every space, newline and at the end the text since `startIndex` is
 * measured, and a line is emitted at a newline or the end, or at the last space where the
 * line still fitted once it has grown too wide. The width of a piece of text in the chosen
 * font is the oracle `measure`.
 *
 * The loop as written does not forget `lastSeparator` when it emits a line at a newline, so a
 * later line that is too wide goes back to a separator before the new `startIndex`; `Wrap`
 * takes a flag `fixed` that adds the missing reset, and `WrapText` is the loop with it.
 */
module TextWrap {
  import opened Wrappers

  /** Where the loop stands: the index `i`, `startIndex`, `lastSeparator` and the lines so far. */
  datatype WrapState = WrapState(i: nat, start: nat, lastSep: Option<nat>, lines: seq<string>)

  /** `text.slice(a, b)` for non-negative `a` and `b`: empty unless `a` comes before the clamped `b`. */
  function Slice(text: string, a: nat, b: nat): (r: string)
    ensures a < b <= |text| ==> r == text[a..b]
    ensures b <= a ==> r == []
  {
    var e := if b < |text| then b else |text|;
    if a < e then text[a..e] else []
  }

  /** `if (lastSeparator)`: an unset separator, and index 0, are falsy. */
  predicate Truthy(o: Option<nat>)
  {
    o.Some? && o.value != 0
  }

  /** What is left of the loop: each index is looked at twice at most, the second time with no separator. */
  function Remaining(text: string, st: WrapState): nat
    requires st.i <= |text| + 1
  {
    2 * (|text| + 1 - st.i) + if st.lastSep.Some? then 1 else 0
  }

  /**
   * One pass of the loop body at index `st.i`, the `i--` of the back-off included; `fixed`
   * clears `lastSeparator` when a line ends at a newline or at the end of the text.
   */
  function Step(text: string, measure: string -> real, maxWidth: real, fixed: bool, st: WrapState): (r: WrapState)
    requires st.i <= |text|
    ensures r.i <= |text| + 1 && Remaining(text, r) < Remaining(text, st)
    ensures st.i < r.i || (Truthy(st.lastSep) && r.lastSep == None && r.i == st.i)
  {
    var i := st.i;
    if i == |text| || text[i] == ' ' || text[i] == '\n' then
      if i > st.start then
        var line := Slice(text, st.start, i);
        if measure(line) < maxWidth then
          if i == |text| || text[i] == '\n' then
            WrapState(i + 1, i + 1, if fixed then None else st.lastSep, st.lines + [line])
          else
            WrapState(i + 1, st.start, Some(i), st.lines)
        else if Truthy(st.lastSep) then
          WrapState(i, st.lastSep.value + 1, None, st.lines + [Slice(text, st.start, st.lastSep.value)])
        else
          WrapState(i + 1, i + 1, st.lastSep, st.lines + [line])
      else
        WrapState(i + 1, i + 1, st.lastSep, st.lines + if i < |text| && text[i] == '\n' then [""] else [])
    else
      WrapState(i + 1, st.start, st.lastSep, st.lines)
  }

  /** The loop from `st` to its end; the lines it returns. */
  function Run(text: string, measure: string -> real, maxWidth: real, fixed: bool, st: WrapState): seq<string>
    requires st.i <= |text| + 1
    decreases Remaining(text, st)
  {
    if st.i > |text| then st.lines
    else Run(text, measure, maxWidth, fixed, Step(text, measure, maxWidth, fixed, st))
  }

  /** `wrapText` as written (`fixed` false) and with the reset (`fixed` true). */
  function Wrap(text: string, measure: string -> real, maxWidth: real, fixed: bool): (r: seq<string>)
    ensures text == [] ==> r == []
  {
    Run(text, measure, maxWidth, fixed, WrapState(0, 0, None, []))
  }

  /** The text with its spaces and newlines taken out. */
  function Strip(s: string): string
  {
    if s == [] then [] else (if s[0] == ' ' || s[0] == '\n' then [] else [s[0]]) + Strip(s[1..])
  }

  /** The lines run together. */
  function Concat(ls: seq<string>): string
  {
    if ls == [] then [] else Concat(ls[..|ls| - 1]) + ls[|ls| - 1]
  }

  /** The text from `start` on, empty once `start` is past its end. */
  function Rest(text: string, start: nat): string
  {
    if start <= |text| then text[start..] else []
  }

  /** A line with no newline in it that fits, or that holds no space to break it at. */
  predicate WellWrapped(l: string, measure: string -> real, maxWidth: real)
  {
    '\n' !in l && (measure(l) < maxWidth || ' ' !in l)
  }

  /** Every line of `lines` is well wrapped. */
  predicate AllWrapped(lines: seq<string>, measure: string -> real, maxWidth: real)
  {
    forall k :: 0 <= k < |lines| ==> WellWrapped(lines[k], measure, maxWidth)
  }

  lemma AllWrappedSnoc(lines: seq<string>, l: string, measure: string -> real, maxWidth: real)
    requires AllWrapped(lines, measure, maxWidth) && WellWrapped(l, measure, maxWidth)
    ensures AllWrapped(lines + [l], measure, maxWidth)
  {
    assert forall k :: 0 <= k < |lines| ==> (lines + [l])[k] == lines[k];
  }

  /** No `c` among the characters of `text` from `lo` up to `hi`. */
  predicate NoneIn(text: string, c: char, lo: nat, hi: nat)
  {
    forall k :: lo <= k < hi && k < |text| ==> text[k] != c
  }

  /**
   * What holds at the head of the fixed loop: no newline since `startIndex`; no space since
   * the recorded separator, or since `startIndex` when there is none; the recorded separator
   * is a space after `startIndex` up to which the line fitted; the lines so far are well
   * wrapped, and they together with the rest of the text hold all of the text but for spaces
   * and newlines.
   */
  ghost predicate Good(text: string, measure: string -> real, maxWidth: real, st: WrapState)
  {
    && st.start <= st.i <= |text| + 1
    && (st.i == |text| + 1 ==> st.start == |text| + 1)
    && (st.lastSep.Some? ==> var j := st.lastSep.value;
         st.start < j < st.i && j < |text| && text[j] == ' ' && measure(text[st.start..j]) < maxWidth)
    && NoneIn(text, ' ', if st.lastSep.Some? then st.lastSep.value + 1 else st.start, st.i)
    && NoneIn(text, '\n', st.start, st.i)
    && AllWrapped(st.lines, measure, maxWidth)
    && Strip(Concat(st.lines)) + Strip(Rest(text, st.start)) == Strip(text)
  }

  lemma {:induction false} StripAppend(a: string, b: string)
    ensures Strip(a + b) == Strip(a) + Strip(b)
    decreases |a|
  {
    if a != [] {
      var head := if a[0] == ' ' || a[0] == '\n' then [] else [a[0]];
      assert (a + b)[0] == a[0];
      assert (a + b)[1..] == a[1..] + b;
      StripAppend(a[1..], b);
      assert Strip(a + b) == head + (Strip(a[1..]) + Strip(b));
      assert head + (Strip(a[1..]) + Strip(b)) == (head + Strip(a[1..])) + Strip(b);
    } else {
      assert a + b == b;
    }
  }

  lemma {:induction false} ConcatSnoc(ls: seq<string>, l: string)
    ensures Concat(ls + [l]) == Concat(ls) + l
  {
    assert (ls + [l])[..|ls|] == ls;
  }

  /** Moving `startIndex` from `a` to just past a separator at `e` leaves out `text[a..e]` and the separator. */
  lemma {:induction false} RestSplit(text: string, a: nat, e: nat)
    requires a <= e <= |text|
    requires e < |text| ==> text[e] == ' ' || text[e] == '\n'
    ensures Strip(Rest(text, a)) == Strip(text[a..e]) + Strip(Rest(text, e + 1))
  {
    var tail := text[e..];
    assert text[a..] == text[a..e] + tail;
    StripAppend(text[a..e], tail);
    if e < |text| {
      assert tail[1..] == text[e + 1..];
      assert Strip(tail) == Strip(text[e + 1..]);
    } else {
      assert tail == [];
    }
  }

  /** Emitting `text[a..e]` as a line and moving `startIndex` past the separator at `e` keeps the text. */
  lemma {:induction false} EmitKeeps(text: string, lines: seq<string>, a: nat, e: nat)
    requires a <= e <= |text|
    requires e < |text| ==> text[e] == ' ' || text[e] == '\n'
    requires Strip(Concat(lines)) + Strip(Rest(text, a)) == Strip(text)
    ensures Strip(Concat(lines + [text[a..e]])) + Strip(Rest(text, e + 1)) == Strip(text)
  {
    var x := text[a..e];
    var done, line, rest := Strip(Concat(lines)), Strip(x), Strip(Rest(text, e + 1));
    calc {
      Strip(Concat(lines + [x])) + rest;
    == { ConcatSnoc(lines, x); }
      Strip(Concat(lines) + x) + rest;
    == { StripAppend(Concat(lines), x); }
      (done + line) + rest;
    ==
      done + (line + rest);
    == { RestSplit(text, a, e); }
      done + Strip(Rest(text, a));
    }
  }

  /** The fixed loop body keeps `Good`. */
  lemma {:induction false} StepGood(text: string, measure: string -> real, maxWidth: real, st: WrapState)
    requires st.i <= |text| && Good(text, measure, maxWidth, st)
    ensures Good(text, measure, maxWidth, Step(text, measure, maxWidth, true, st))
  {
    var i := st.i;
    var r := Step(text, measure, maxWidth, true, st);
    if i == |text| || text[i] == ' ' || text[i] == '\n' {
      if i > st.start {
        var line := text[st.start..i];
        assert Slice(text, st.start, i) == line;
        if measure(line) < maxWidth {
          if i == |text| || text[i] == '\n' {
            assert r == WrapState(i + 1, i + 1, None, st.lines + [line]);
            EmitGood(text, measure, maxWidth, st, i);
          } else {
            assert r == WrapState(i + 1, st.start, Some(i), st.lines);
            RecordGood(text, measure, maxWidth, st);
          }
        } else if Truthy(st.lastSep) {
          var j := st.lastSep.value;
          assert Slice(text, st.start, j) == text[st.start..j];
          assert r == WrapState(i, j + 1, None, st.lines + [text[st.start..j]]);
          BackOffGood(text, measure, maxWidth, st, j);
        } else {
          assert r == WrapState(i + 1, i + 1, None, st.lines + [line]);
          EmitGood(text, measure, maxWidth, st, i);
        }
      } else {
        SkipGood(text, measure, maxWidth, st);
      }
    } else {
      assert r == WrapState(i + 1, st.start, st.lastSep, st.lines);
      MoveGood(text, measure, maxWidth, st);
    }
  }

  /** A space after `startIndex` up to which the line fits is recorded. */
  lemma {:induction false} RecordGood(text: string, measure: string -> real, maxWidth: real, st: WrapState)
    requires Good(text, measure, maxWidth, st) && st.start < st.i < |text| && text[st.i] == ' '
    requires measure(text[st.start..st.i]) < maxWidth
    ensures Good(text, measure, maxWidth, WrapState(st.i + 1, st.start, Some(st.i), st.lines))
  {
    assert NoneIn(text, '\n', st.start, st.i + 1);
  }

  /** A character that is no separator is passed over. */
  lemma {:induction false} MoveGood(text: string, measure: string -> real, maxWidth: real, st: WrapState)
    requires Good(text, measure, maxWidth, st) && st.i < |text| && text[st.i] != ' ' && text[st.i] != '\n'
    ensures Good(text, measure, maxWidth, WrapState(st.i + 1, st.start, st.lastSep, st.lines))
  {
    assert NoneIn(text, ' ', if st.lastSep.Some? then st.lastSep.value + 1 else st.start, st.i + 1);
    assert NoneIn(text, '\n', st.start, st.i + 1);
  }

  /** Emitting the line up to a separator or the end at `e`, when it fits or holds no space, keeps `Good`. */
  lemma {:induction false} EmitGood(text: string, measure: string -> real, maxWidth: real, st: WrapState, e: nat)
    requires Good(text, measure, maxWidth, st) && st.start < e == st.i <= |text|
    requires e < |text| ==> text[e] == ' ' || text[e] == '\n'
    requires measure(text[st.start..e]) < maxWidth || st.lastSep == None
    ensures Good(text, measure, maxWidth, WrapState(e + 1, e + 1, None, st.lines + [text[st.start..e]]))
  {
    var line := text[st.start..e];
    var lines := st.lines + [line];
    assert '\n' !in line;
    assert measure(line) >= maxWidth ==> ' ' !in line;
    AllWrappedSnoc(st.lines, line, measure, maxWidth);
    EmitKeeps(text, st.lines, st.start, e);
  }

  /** Going back to the recorded separator, emitting the line up to it, keeps `Good`. */
  lemma {:induction false} BackOffGood(text: string, measure: string -> real, maxWidth: real, st: WrapState, j: nat)
    requires Good(text, measure, maxWidth, st) && st.i <= |text| && st.lastSep == Some(j)
    ensures Good(text, measure, maxWidth, WrapState(st.i, j + 1, None, st.lines + [text[st.start..j]]))
  {
    var line := text[st.start..j];
    var lines := st.lines + [line];
    assert '\n' !in line;
    AllWrappedSnoc(st.lines, line, measure, maxWidth);
    assert NoneIn(text, ' ', j + 1, st.i);
    assert NoneIn(text, '\n', j + 1, st.i);
    EmitKeeps(text, st.lines, st.start, j);
    var ns := WrapState(st.i, j + 1, None, lines);
    assert ns.start <= ns.i <= |text| + 1 && ns.lastSep == None && ns.lines == lines;
    assert Strip(Concat(ns.lines)) + Strip(Rest(text, ns.start)) == Strip(text);
  }

  /** A separator at `startIndex` itself moves it on, with an empty line for a newline. */
  lemma {:induction false} SkipGood(text: string, measure: string -> real, maxWidth: real, st: WrapState)
    requires Good(text, measure, maxWidth, st) && st.i <= |text| && st.i <= st.start
    requires st.i < |text| ==> text[st.i] == ' ' || text[st.i] == '\n'
    ensures var extra: seq<string> := if st.i < |text| && text[st.i] == '\n' then [""] else [];
      Good(text, measure, maxWidth, WrapState(st.i + 1, st.i + 1, st.lastSep, st.lines + extra))
  {
    var i := st.i;
    RestSplit(text, i, i);
    assert text[i..i] == [];
    if i < |text| && text[i] == '\n' {
      SkipNewline(text, measure, maxWidth, st);
    } else {
      assert st.lines + [] == st.lines;
    }
  }

  lemma {:induction false} SkipNewline(text: string, measure: string -> real, maxWidth: real, st: WrapState)
    requires Good(text, measure, maxWidth, st) && st.i == st.start < |text| && text[st.i] == '\n'
    requires Strip(Rest(text, st.i)) == Strip(Rest(text, st.i + 1))
    ensures Good(text, measure, maxWidth, WrapState(st.i + 1, st.i + 1, st.lastSep, st.lines + [""]))
  {
    ConcatSnoc(st.lines, "");
    assert Concat(st.lines) + "" == Concat(st.lines);
    AllWrappedSnoc(st.lines, "", measure, maxWidth);
  }

  /** Everything the fixed loop emits from a `Good` state on is well wrapped, and the text is kept. */
  lemma {:induction false} RunGood(text: string, measure: string -> real, maxWidth: real, st: WrapState)
    requires Good(text, measure, maxWidth, st)
    ensures var r := Run(text, measure, maxWidth, true, st);
      && AllWrapped(r, measure, maxWidth)
      && Strip(Concat(r)) == Strip(text)
    decreases Remaining(text, st)
  {
    if st.i <= |text| {
      StepGood(text, measure, maxWidth, st);
      RunGood(text, measure, maxWidth, Step(text, measure, maxWidth, true, st));
    } else {
      assert Rest(text, st.start) == [];
    }
  }

  /**
   * With the reset, no line holds a newline, a line wider than `maxWidth` holds no space, and
   * the lines hold all the text but for the spaces and newlines, each character once.
   */
  lemma {:induction false} WrapProperties(text: string, measure: string -> real, maxWidth: real)
    ensures var r := Wrap(text, measure, maxWidth, true);
      && (forall l :: l in r ==> '\n' !in l && (measure(l) < maxWidth || ' ' !in l))
      && Strip(Concat(r)) == Strip(text)
  {
    var r := Wrap(text, measure, maxWidth, true);
    RunGood(text, measure, maxWidth, WrapState(0, 0, None, []));
    forall l | l in r ensures '\n' !in l && (measure(l) < maxWidth || ' ' !in l) {
      var k :| 0 <= k < |r| && r[k] == l;
    }
  }

  /** Over characters that are neither spaces nor newlines the loop only moves on. */
  lemma {:induction false} WordRun(text: string, measure: string -> real, maxWidth: real, fixed: bool,
                                   start: nat, lastSep: Option<nat>, lines: seq<string>, i: nat, j: nat)
    requires i <= j <= |text| && forall k :: i <= k < j ==> text[k] != ' ' && text[k] != '\n'
    ensures Run(text, measure, maxWidth, fixed, WrapState(i, start, lastSep, lines))
            == Run(text, measure, maxWidth, fixed, WrapState(j, start, lastSep, lines))
    decreases j - i
  {
    if i < j {
      WordRun(text, measure, maxWidth, fixed, start, lastSep, lines, i + 1, j);
    }
  }

  /** A nonempty text with no space or newline comes back as its one line, however wide it is. */
  lemma {:induction false} OneWord(text: string, measure: string -> real, maxWidth: real, fixed: bool)
    requires text != [] && forall k :: 0 <= k < |text| ==> text[k] != ' ' && text[k] != '\n'
    ensures Wrap(text, measure, maxWidth, fixed) == [text]
  {
    WordTail(text, measure, maxWidth, fixed, 0);
  }

  lemma {:induction false} WordTail(text: string, measure: string -> real, maxWidth: real, fixed: bool, i: nat)
    requires i <= |text| && text != [] && forall k :: 0 <= k < |text| ==> text[k] != ' ' && text[k] != '\n'
    ensures Run(text, measure, maxWidth, fixed, WrapState(i, 0, None, [])) == [text]
    decreases |text| - i
  {
    if i < |text| {
      WordTail(text, measure, maxWidth, fixed, i + 1);
    } else {
      assert Slice(text, 0, i) == text;
    }
  }

  /** Two newlines give two empty lines, whatever the widths. */
  lemma {:induction false} BlankLines(measure: string -> real, maxWidth: real, fixed: bool)
    ensures Wrap("\n\n", measure, maxWidth, fixed) == ["", ""]
  {
    var s1 := WrapState(1, 1, None, [""]);
    var s2 := WrapState(2, 2, None, ["", ""]);
    assert Step("\n\n", measure, maxWidth, fixed, WrapState(0, 0, None, [])) == s1;
    assert Step("\n\n", measure, maxWidth, fixed, s1) == s2;
    assert Step("\n\n", measure, maxWidth, fixed, s2) == WrapState(3, 3, None, ["", ""]);
  }

  /** A width of one unit per character, as a fixed-pitch font has. */
  ghost predicate FixedPitch(measure: string -> real)
  {
    forall s :: measure(s) == |s| as real
  }

  /** A text whose second line is too wide for five characters. */
  const Sample: string := "a b\ncdefgh"

  /** Both ways, the first line of `Sample` is emitted at the newline; only as written is its space kept. */
  lemma {:induction false} SampleHead(measure: string -> real, fixed: bool)
    requires FixedPitch(measure)
    ensures Run(Sample, measure, 5.0, fixed, WrapState(0, 0, None, []))
            == Run(Sample, measure, 5.0, fixed, WrapState(4, 4, if fixed then None else Some(1), [Sample[..3]]))
  {
    var t := Sample;
    var s2 := WrapState(2, 0, Some(1), []);
    assert Step(t, measure, 5.0, fixed, WrapState(0, 0, None, [])) == WrapState(1, 0, None, []);
    assert |Slice(t, 0, 1)| == 1;
    assert Step(t, measure, 5.0, fixed, WrapState(1, 0, None, [])) == s2;
    assert Step(t, measure, 5.0, fixed, s2) == WrapState(3, 0, Some(1), []);
    assert Slice(t, 0, 3) == t[..3];
    assert Step(t, measure, 5.0, fixed, WrapState(3, 0, Some(1), []))
           == WrapState(4, 4, if fixed then None else Some(1), [t[..3]]);
  }

  /** Both ways, the loop then passes over the six letters of the second line. */
  lemma {:induction false} SampleWord(measure: string -> real, fixed: bool, lastSep: Option<nat>)
    ensures Run(Sample, measure, 5.0, fixed, WrapState(4, 4, lastSep, [Sample[..3]]))
            == Run(Sample, measure, 5.0, fixed, WrapState(10, 4, lastSep, [Sample[..3]]))
  {
    WordRun(Sample, measure, 5.0, fixed, 4, lastSep, [Sample[..3]], 4, 10);
  }

  /**
   * As written, with a fixed-pitch font five characters wide, the space recorded in the first
   * line of `Sample` is reused after the newline: the too-wide second line backs off to it,
   * emits an empty line, restarts inside the first line and emits a line that repeats its
   * "b" and holds the newline.
   */
  lemma {:induction false} AsWrittenRepeats(measure: string -> real)
    requires FixedPitch(measure)
    ensures var r := Wrap(Sample, measure, 5.0, false);
      && r == [Sample[..3], "", Sample[2..]]
      && '\n' in r[2]
  {
    var t := Sample;
    var s10b := WrapState(10, 2, None, [t[..3], ""]);
    SampleHead(measure, false);
    SampleWord(measure, false, Some(1));
    assert |Slice(t, 4, 10)| == 6;
    assert Step(t, measure, 5.0, false, WrapState(10, 4, Some(1), [t[..3]])) == s10b;
    assert Run(t, measure, 5.0, false, WrapState(10, 4, Some(1), [t[..3]])) == Run(t, measure, 5.0, false, s10b);
    assert Slice(t, 2, 10) == t[2..];
    var s11 := WrapState(11, 11, None, [t[..3], "", t[2..]]);
    assert Step(t, measure, 5.0, false, s10b) == s11;
    assert Run(t, measure, 5.0, false, s10b) == Run(t, measure, 5.0, false, s11);
    assert Run(t, measure, 5.0, false, s11) == s11.lines;
    assert t[2..][1] == '\n';
  }

  /** With the reset the same text wraps into its two lines. */
  lemma {:induction false} FixedDoesNotRepeat(measure: string -> real)
    requires FixedPitch(measure)
    ensures Wrap(Sample, measure, 5.0, true) == [Sample[..3], Sample[4..]]
  {
    var t := Sample;
    SampleHead(measure, true);
    SampleWord(measure, true, None);
    assert Slice(t, 4, 10) == t[4..];
    var s10, s11 := WrapState(10, 4, None, [t[..3]]), WrapState(11, 11, None, [t[..3], t[4..]]);
    assert Step(t, measure, 5.0, true, s10) == s11;
    assert Run(t, measure, 5.0, true, s10) == Run(t, measure, 5.0, true, s11);
    assert Run(t, measure, 5.0, true, s11) == s11.lines;
  }

  /**
   * The `wrapText` loop: its lines are `Wrap`'s. As written (`fixed` false) `lastSeparator`
   * survives a line that ends at a newline or at the end; with `fixed` it is cleared there,
   * and then no line holds a newline, one wider than `maxWidth` holds no space, and together
   * they hold the text but for its spaces and newlines.
   */
  method WrapText(measure: string -> real, maxWidth: real, text: string, fixed: bool) returns (lines: seq<string>)
    ensures lines == Wrap(text, measure, maxWidth, fixed)
    ensures fixed ==> forall l :: l in lines ==> '\n' !in l && (measure(l) < maxWidth || ' ' !in l)
    ensures fixed ==> Strip(Concat(lines)) == Strip(text)
  {
    lines := [];
    var length := |text|;
    var startIndex: nat := 0;
    var lastSeparator: Option<nat> := None;
    var i: int := 0;
    while i <= length
      invariant 0 <= i <= length + 1
      invariant Run(text, measure, maxWidth, fixed, WrapState(i, startIndex, lastSeparator, lines))
                == Wrap(text, measure, maxWidth, fixed)
      decreases Remaining(text, WrapState(i, startIndex, lastSeparator, lines))
    {
      ghost var st := WrapState(i, startIndex, lastSeparator, lines);
      if i == length || text[i] == ' ' || text[i] == '\n' {
        if i > startIndex {
          var width := measure(Slice(text, startIndex, i));
          if width < maxWidth {
            if i == length || text[i] == '\n' {
              lines := lines + [Slice(text, startIndex, i)];
              startIndex := i + 1;
              if fixed {
                lastSeparator := None;
              }
            } else {
              lastSeparator := Some(i);
            }
          } else {
            if lastSeparator.Some? && lastSeparator.value != 0 {
              lines := lines + [Slice(text, startIndex, lastSeparator.value)];
              startIndex := lastSeparator.value + 1;
              lastSeparator := None;
              i := i - 1;
            } else {
              lines := lines + [Slice(text, startIndex, i)];
              startIndex := i + 1;
            }
          }
        } else {
          startIndex := i + 1;
          if i < length && text[i] == '\n' {
            lines := lines + [""];
          }
        }
      }
      i := i + 1;
      assert WrapState(i, startIndex, lastSeparator, lines) == Step(text, measure, maxWidth, fixed, st);
    }
    if fixed {
      WrapProperties(text, measure, maxWidth);
    }
  }
}
