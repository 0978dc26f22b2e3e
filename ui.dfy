/**
 * `Ui`: the form layer of `radius-ui.js`. A `Widget` is a `Label` or a `Button` (a label that
 * can be switched on and off and shows focus by its colour); a `Form` lays its widgets out in
 * rows of `columns` and moves the input focus among those that are active.
 */
module Ui {
  import opened Wrappers

  /** The height a label gives itself (`totalHeight`): the assumed height of its font. */
  const TotalHeight: real := 10.0

  /** The colour of a widget's text: unset on a label, white, green (focused) or gray (disabled) on a button. */
  datatype Colour = Unset | White | Green | Gray

  class Widget {
    const isButton: bool
    // Whether game code has set an `activated` callback on the widget.
    const hasActivated: bool
    // The width `getMinimumSize` reports, from the `getTextWidth` oracle (see README, Left out).
    const minimumWidth: real
    var x: real
    var y: real
    var active: bool
    var colour: Colour
    var activatedCalls: nat

    /**
     * `new Label(text)`: an entity at the origin whose text has no colour of its own;
     * `hasActivated` says whether game code sets an `activated` handler later.
     */
    constructor Label(minimumWidth: real, hasActivated: bool)
      ensures !isButton && !Active() && colour == Unset && Position() == (0.0, TotalHeight)
      ensures this.minimumWidth == minimumWidth && this.hasActivated == hasActivated && activatedCalls == 0
    {
      isButton := false;
      this.hasActivated := hasActivated;
      this.minimumWidth := minimumWidth;
      x, y := 0.0, 0.0;
      active := false;
      colour := Unset;
      activatedCalls := 0;
    }

    /**
     * `new Button(text, activated)`: active and white. The constructor drops its `activated`
     * argument; `hasActivated` says whether game code sets an `activated` handler later.
     */
    constructor Button(minimumWidth: real, hasActivated: bool)
      ensures isButton && Active() && colour == White && Position() == (0.0, TotalHeight)
      ensures this.minimumWidth == minimumWidth && this.hasActivated == hasActivated && activatedCalls == 0
    {
      isButton := true;
      this.hasActivated := hasActivated;
      this.minimumWidth := minimumWidth;
      x, y := 0.0, 0.0;
      active := true;
      colour := White;
      activatedCalls := 0;
    }

    /** `getPosition()`: the entity's `y` is the bottom of the text, the position its top. */
    function Position(): (real, real)
      reads this`x, this`y
    {
      (x, y + TotalHeight)
    }

    /** `getActive()`: always false on a label; on a button, its `active` flag. */
    predicate Active()
      reads this`active
    {
      isButton && active
    }

    /** `getMinimumSize()` (and `getSize()`): the text width and the label height. */
    function MinimumSize(): (real, real)
    {
      (minimumWidth, TotalHeight)
    }

    /** `setPosition(x, y)`: `getPosition()` gives back the point set. */
    method SetPosition(px: real, py: real)
      modifies this`x, this`y
      ensures Position() == (px, py) && x == px && y == py - TotalHeight
    {
      x := px;
      y := py - TotalHeight;
    }

    /** `Button.setActive(active)`: the flag, with white text when on and gray when off. */
    method SetActive(a: bool)
      requires isButton
      modifies this`active, this`colour
      ensures Active() == a && colour == if a then White else Gray
    {
      active := a;
      colour := if a then White else Gray;
    }

    /** `Button.focused()`. */
    method Focused()
      requires isButton
      modifies this`colour
      ensures colour == Green
    {
      colour := Green;
    }

    /** `Button.unfocused()`. */
    method Unfocused()
      requires isButton
      modifies this`colour
      ensures colour == White
    {
      colour := White;
    }

    /** The game's `activated` callback. */
    method Activated()
      requires hasActivated
      modifies this`activatedCalls
      ensures activatedCalls == old(activatedCalls) + 1
    {
      activatedCalls := activatedCalls + 1;
    }
  }

  /** No widget appears twice. */
  predicate Distinct(cs: seq<Widget>)
  {
    forall i, j :: 0 <= i < j < |cs| ==> cs[i] != cs[j]
  }

  /** The minimum widths of the widgets, in order. */
  function Widths(cs: seq<Widget>): (ws: seq<real>)
    ensures |ws| == |cs| && forall i :: 0 <= i < |cs| ==> ws[i] == cs[i].minimumWidth
  {
    seq(|cs|, i requires 0 <= i < |cs| => cs[i].minimumWidth)
  }

  function Max(a: real, b: real): real
  {
    if a < b then b else a
  }

  /** The widest of `ws`, starting from 0 as `Math.max` over a zeroed column does. */
  function MaxOf(ws: seq<real>): (m: real)
    ensures 0.0 <= m && forall i :: 0 <= i < |ws| ==> ws[i] <= m
    ensures m == 0.0 || exists i :: 0 <= i < |ws| && ws[i] == m
  {
    if ws == [] then 0.0 else Max(MaxOf(ws[..|ws| - 1]), ws[|ws| - 1])
  }

  /** `this.columns || 1`. */
  function Cols(columns: nat): (c: nat)
    ensures c >= 1 && (columns != 0 ==> c == columns)
  {
    if columns == 0 then 1 else columns
  }

  /**
   * The padding `layoutInternal` adds to every column when a desired width is set: the
   * difference spread over the columns, with a positive one dropped unless `pad`.
   */
  function Padding(desired: real, minWidth: real, columns: nat, pad: bool): (p: real)
    requires columns >= 1
    ensures desired == 0.0 ==> p == 0.0
    ensures pad && desired != 0.0 ==> p * columns as real + minWidth == desired
    ensures !pad ==> p <= 0.0
    ensures !pad && desired != 0.0 && desired < minWidth ==> p * columns as real + minWidth == desired
    ensures !pad && desired >= minWidth ==> p == 0.0
  {
    if desired == 0.0 then 0.0
    else
      var p := (desired - minWidth) / columns as real;
      if !pad && p > 0.0 then 0.0 else p
  }

  /**
   * The column widths after the first pass and the padding. The first pass leaves `column`
   * at 0 (its post-increment is overwritten), so every widget counts toward column 0.
   */
  function ColumnWidths(widest: real, columns: nat, p: real): (cw: seq<real>)
    ensures |cw| == columns
    ensures forall c :: 0 <= c < columns ==> cw[c] == (if c == 0 then widest else 0.0) + p
  {
    seq(columns, c => (if c == 0 then widest else 0.0) + p)
  }

  /** Where the second pass puts a widget: its row, its column and its distance from the form's left edge. */
  datatype Slot = Slot(row: nat, column: nat, offset: real)

  /** How far `x` moves on after a widget in `column`: the column's width when padding, the widget's own otherwise. */
  function Advance(width: real, cw: seq<real>, pad: bool, column: nat): real
    requires column < |cw|
  {
    if pad then cw[column] else width
  }

  /**
   * The slot of the widget at `i`: row-major, `columns` to a row, each widget right of the
   * one before by that one's `Advance`, and every row starting at the left edge.
   */
  function SlotOf(ws: seq<real>, cw: seq<real>, pad: bool, columns: nat, i: nat): (s: Slot)
    requires columns >= 1 && i < |ws| && |cw| == columns
    ensures s.column < columns
  {
    if i == 0 then Slot(0, 0, 0.0)
    else
      var prev := SlotOf(ws, cw, pad, columns, i - 1);
      if prev.column >= columns - 1 then Slot(prev.row + 1, 0, 0.0)
      else Slot(prev.row, prev.column + 1, prev.offset + Advance(ws[i - 1], cw, pad, prev.column))
  }

  /** The slot after that of the widget at `i - 1`: the next column, or the start of a new row after the last. */
  lemma NextSlot(ws: seq<real>, cw: seq<real>, pad: bool, columns: nat, i: nat)
    requires columns >= 1 && 0 < i < |ws| && |cw| == columns
    ensures var prev := SlotOf(ws, cw, pad, columns, i - 1); var s := SlotOf(ws, cw, pad, columns, i);
      && (prev.column >= columns - 1 ==> s.row == prev.row + 1 && s.column == 0 && s.offset == 0.0)
      && (prev.column < columns - 1 ==>
            s.row == prev.row && s.column == prev.column + 1 && s.offset == prev.offset + Advance(ws[i - 1], cw, pad, prev.column))
  {
  }

  /** Where the widget at `i` is put: its offset right of the form, one label height down per row. */
  function Placement(fx: real, fy: real, ws: seq<real>, cw: seq<real>, pad: bool, columns: nat, i: nat): (real, real)
    requires columns >= 1 && i < |ws| && |cw| == columns
  {
    var s := SlotOf(ws, cw, pad, columns, i);
    (fx + s.offset, fy - TotalHeight * s.row as real)
  }

  /** The height of the widgets `ws` laid out in rows of `columns`. */
  function LaidOutHeight(ws: seq<real>, cw: seq<real>, pad: bool, columns: nat): real
    requires columns >= 1 && |cw| == columns
  {
    if ws == [] then 0.0 else TotalHeight * (SlotOf(ws, cw, pad, columns, |ws| - 1).row + 1) as real
  }

  /** Slots are row-major: the widget at `i` has `i` widgets before it, counted row by row. */
  lemma {:induction false} RowMajor(ws: seq<real>, cw: seq<real>, pad: bool, columns: nat, i: nat)
    requires columns >= 1 && i < |ws| && |cw| == columns
    ensures var s := SlotOf(ws, cw, pad, columns, i); s.row * columns + s.column == i
  {
    if i > 0 {
      RowMajor(ws, cw, pad, columns, i - 1);
      var prev := SlotOf(ws, cw, pad, columns, i - 1);
      if prev.column >= columns - 1 {
        assert (prev.row + 1) * columns == prev.row * columns + columns;
      }
    }
  }

  /** The widget at `i` is never given a later row than `i`. */
  lemma {:induction false} RowAtMost(ws: seq<real>, cw: seq<real>, pad: bool, columns: nat, i: nat)
    requires columns >= 1 && i < |ws| && |cw| == columns
    ensures SlotOf(ws, cw, pad, columns, i).row <= i
  {
    if i > 0 {
      RowAtMost(ws, cw, pad, columns, i - 1);
    }
  }

  /**
   * With one column every widget gets a row of its own at the form's left edge, each one
   * label height below the one before, and the form is as high as the widgets together.
   */
  lemma {:induction false} OneColumn(fx: real, fy: real, ws: seq<real>, cw: seq<real>, pad: bool, i: nat)
    requires i < |ws| && |cw| == 1
    ensures Placement(fx, fy, ws, cw, pad, 1, i) == (fx, fy - TotalHeight * i as real)
    ensures LaidOutHeight(ws, cw, pad, 1) == TotalHeight * |ws| as real
  {
    OneColumnRows(ws, cw, pad, i);
    OneColumnRows(ws, cw, pad, |ws| - 1);
  }

  lemma {:induction false} OneColumnRows(ws: seq<real>, cw: seq<real>, pad: bool, i: nat)
    requires i < |ws| && |cw| == 1
    ensures SlotOf(ws, cw, pad, 1, i) == Slot(i, 0, 0.0)
  {
    if i > 0 {
      OneColumnRows(ws, cw, pad, i - 1);
    }
  }

  function SumOf(s: seq<real>): real
  {
    if s == [] then 0.0 else SumOf(s[..|s| - 1]) + s[|s| - 1]
  }

  /** The padded columns add up to the widest widget plus the padding once per column. */
  lemma {:induction false} ColumnsSum(widest: real, columns: nat, p: real)
    requires columns >= 1
    ensures SumOf(ColumnWidths(widest, columns, p)) == widest + p * columns as real
  {
    var cw := ColumnWidths(widest, columns, p);
    var prev := cw[..columns - 1];
    assert SumOf(cw) == SumOf(prev) + cw[columns - 1];
    if columns == 1 {
      assert prev == [];
    } else {
      assert prev == ColumnWidths(widest, columns - 1, p);
      ColumnsSum(widest, columns - 1, p);
      assert p * (columns - 1) as real + p == p * columns as real;
    }
  }

  /** With `pad` and a desired width, the columns fill the desired width exactly. */
  lemma PadFills(widest: real, desired: real, columns: nat)
    requires columns >= 1 && desired != 0.0
    ensures SumOf(ColumnWidths(widest, columns, Padding(desired, widest, columns, true))) == desired
  {
    ColumnsSum(widest, columns, Padding(desired, widest, columns, true));
  }

  /** The first copy of `w` sits at `i` when none comes before it. */
  lemma ComponentIndexAt(cs: seq<Widget>, w: Widget, i: nat)
    requires i < |cs| && cs[i] == w && forall k :: 0 <= k < i ==> cs[k] != w
    ensures ComponentIndex(cs, w) == Some(i)
  {
  }

  /** The widget an `Option` holds, if any. */
  function Nodes(o: Option<Widget>): set<Widget>
  {
    if o.Some? then {o.value} else {}
  }

  function Elements(cs: seq<Widget>): set<Widget>
  {
    set w | w in cs
  }

  /**
   * A widget's colour after the focus moves from `last` to `next`: green on a button that
   * gains it, else white on a button that loses it, else as it was.
   */
  function Refocused(w: Widget, last: Option<Widget>, next: Option<Widget>, before: Colour): Colour
  {
    if w.isButton && next == Some(w) then Green
    else if w.isButton && last == Some(w) then White
    else before
  }

  /** `getComponentIndex(w)`: the first index holding `w`; none (`undefined`) when it is not there. */
  function ComponentIndex(cs: seq<Widget>, w: Widget): (r: Option<nat>)
    ensures r.Some? ==> r.value < |cs| && cs[r.value] == w && forall k :: 0 <= k < r.value ==> cs[k] != w
    ensures r.None? <==> w !in cs
  {
    if cs == [] then None
    else if cs[0] == w then Some(0)
    else match ComponentIndex(cs[1..], w)
      case None => None
      case Some(k) => Some(k + 1)
  }

  /** The `while (--i >= 0)` scan: the nearest active widget below index `start`. */
  function UpFrom(cs: seq<Widget>, start: nat): (r: Option<nat>)
    reads cs`active
    ensures r.Some? ==> r.value < start && r.value < |cs| && cs[r.value].Active()
                        && forall k :: r.value < k < start && k < |cs| ==> !cs[k].Active()
    ensures r.None? ==> forall k :: 0 <= k < start && k < |cs| ==> !cs[k].Active()
  {
    if start == 0 then None
    else if start - 1 < |cs| && cs[start - 1].Active() then Some(start - 1)
    else UpFrom(cs, start - 1)
  }

  /** The `while (++i < componentCount)` scan: the nearest active widget at index `from` or after it. */
  function DownFrom(cs: seq<Widget>, from: nat): (r: Option<nat>)
    reads cs`active
    ensures r.Some? ==> from <= r.value < |cs| && cs[r.value].Active()
                        && forall k :: from <= k < r.value ==> !cs[k].Active()
    ensures r.None? ==> forall k :: from <= k < |cs| ==> !cs[k].Active()
    decreases |cs| - from
  {
    if from >= |cs| then None
    else if cs[from].Active() then Some(from)
    else DownFrom(cs, from + 1)
  }

  /**
   * Where `moveFocusUp` starts: the focused widget's index, or past the last widget when
   * nothing is focused; none (`NaN`) when the focused widget is not in the form.
   */
  function UpStart(cs: seq<Widget>, focused: Option<Widget>): (r: Option<nat>)
    ensures r.Some? ==> r.value <= |cs|
  {
    if focused.None? then Some(|cs|) else ComponentIndex(cs, focused.value)
  }

  /**
   * The first index `moveFocusDown` looks at: the one after the focused widget's; none when
   * the focused widget is not in the form. With nothing focused, the loop as written starts
   * past the last widget (`i = components.length`, so `++i` is out of range at once); with
   * `fixed` it starts at the first widget (`i = -1`).
   */
  function DownStart(cs: seq<Widget>, focused: Option<Widget>, fixed: bool): (r: Option<nat>)
    ensures r.Some? ==> r.value <= |cs| + 1
  {
    if focused.None? then Some(if fixed then 0 else |cs| + 1)
    else match ComponentIndex(cs, focused.value)
      case None => None
      case Some(k) => Some(k + 1)
  }

  /** The index `moveFocusUp` moves the focus to, if any. */
  function UpTarget(cs: seq<Widget>, focused: Option<Widget>): Option<nat>
    reads cs`active
  {
    var start := UpStart(cs, focused);
    if start.Some? then UpFrom(cs, start.value) else None
  }

  /** The index `moveFocusDown` moves the focus to, if any: as written, or with the fixed start. */
  function DownTarget(cs: seq<Widget>, focused: Option<Widget>, fixed: bool): Option<nat>
    reads cs`active
  {
    var from := DownStart(cs, focused, fixed);
    if from.Some? then DownFrom(cs, from.value) else None
  }

  /**
   * With nothing focused, `moveFocusUp` finds the last active widget; `moveFocusDown` as written
   * finds nothing, and with the fixed start it finds the first active widget.
   */
  lemma NothingFocused(cs: seq<Widget>)
    ensures var t := UpTarget(cs, None);
      && (t.Some? ==> cs[t.value].Active() && forall k :: t.value < k < |cs| ==> !cs[k].Active())
      && (t.None? <==> forall k :: 0 <= k < |cs| ==> !cs[k].Active())
    ensures DownTarget(cs, None, false) == None
    ensures var t := DownTarget(cs, None, true);
      && (t.Some? ==> cs[t.value].Active() && forall k :: 0 <= k < t.value ==> !cs[k].Active())
      && (t.None? <==> forall k :: 0 <= k < |cs| ==> !cs[k].Active())
  {
  }

  /**
   * A label, two active buttons and a disabled one. As written, `moveFocusDown` from no focus
   * reaches nothing; with the fixed start it reaches the first button, then the second, then
   * nothing. Up from the second button reaches the first and then nothing, and with nothing
   * focused up reaches the second.
   */
  lemma {:induction false} FocusWalk(cs: seq<Widget>)
    requires |cs| == 4 && Distinct(cs)
    requires !cs[0].Active() && cs[1].Active() && cs[2].Active() && !cs[3].Active()
    ensures DownTarget(cs, None, false) == None
    ensures DownTarget(cs, None, true) == Some(1)
    ensures DownTarget(cs, Some(cs[1]), true) == Some(2) && DownTarget(cs, Some(cs[2]), true) == None
    ensures UpTarget(cs, Some(cs[2])) == Some(1) && UpTarget(cs, Some(cs[1])) == None
    ensures UpTarget(cs, None) == Some(2)
  {
    assert ComponentIndex(cs, cs[1]) == Some(1);
    assert ComponentIndex(cs, cs[2]) == Some(2);
  }

  class Form {
    var components: seq<Widget>
    var x: real
    var y: real
    // An unset desired size is 0, as `||` and `if` treat it.
    var desiredWidth: real
    var desiredHeight: real
    const columns: nat
    var focusedNode: Option<Widget>
    var minimumWidth: real
    var minimumHeight: real

    /** `new Form(x, y, desiredWidth, desiredHeight)`, with the `columns` that `Form.newFlow` sets (0 for none). */
    constructor (x: real, y: real, desiredWidth: real, desiredHeight: real, columns: nat)
      ensures this.x == x && this.y == y && this.desiredWidth == desiredWidth && this.desiredHeight == desiredHeight
      ensures this.columns == columns && components == [] && focusedNode == None
      ensures minimumWidth == 0.0 && minimumHeight == 0.0
    {
      this.x, this.y := x, y;
      this.desiredWidth, this.desiredHeight := desiredWidth, desiredHeight;
      this.columns := columns;
      components := [];
      focusedNode := None;
      minimumWidth, minimumHeight := 0.0, 0.0;
    }

    /**
     * What `layoutInternal(pad)` leaves: the minimum width is the widest widget's, the
     * minimum height a label height per row, and every widget sits at its `Placement`.
     */
    ghost predicate LaidOut(pad: bool)
      reads this, components
    {
      var cols := Cols(columns);
      var ws := Widths(components);
      var cw := ColumnWidths(MaxOf(ws), cols, Padding(desiredWidth, MaxOf(ws), cols, pad));
      && minimumWidth == MaxOf(ws)
      && minimumHeight == LaidOutHeight(ws, cw, pad, cols)
      && forall i {:trigger components[i].Position()} :: 0 <= i < |components| ==> components[i].Position() == Placement(x, y, ws, cw, pad, cols, i)
    }

    /** `layoutInternal(pad)`. */
    method LayoutInternal(pad: bool)
      requires Distinct(components)
      modifies this`minimumWidth, this`minimumHeight, components`x, components`y
      ensures LaidOut(pad)
    {
      var cols := Cols(columns);
      ghost var widest := MaxOf(Widths(components));
      var columnWidths, rowHeights := MeasureColumns(cols);
      var minWidth := 0.0;
      for column := 0 to cols
        invariant minWidth == if column == 0 then 0.0 else widest
      {
        minWidth := minWidth + columnWidths[column];
      }
      minimumWidth := minWidth;
      var padding := PadColumns(columnWidths, minWidth, pad);
      assert columnWidths[..] == ColumnWidths(widest, cols, Padding(desiredWidth, widest, cols, pad));
      minimumHeight := Place(columnWidths[..], rowHeights, pad);
    }

    /** With a desired width set, every column gets the `Padding` for it. */
    method PadColumns(columnWidths: array<real>, minWidth: real, pad: bool) returns (padding: real)
      requires columnWidths.Length >= 1
      modifies columnWidths
      ensures padding == Padding(desiredWidth, minWidth, columnWidths.Length, pad)
      ensures forall c :: 0 <= c < columnWidths.Length ==> columnWidths[c] == old(columnWidths[c]) + padding
    {
      padding := 0.0;
      if desiredWidth != 0.0 {
        padding := (desiredWidth - minWidth) / columnWidths.Length as real;
        if !pad && padding > 0.0 {
          padding := 0.0;
        }
        AddPadding(columnWidths, padding);
      }
    }

    /**
     * The first pass of `layoutInternal`: the widest widget of each column and the tallest of
     * each row. `column = column++ % columns` leaves `column` at 0, so all widths go to
     * column 0 and each widget starts a row of its own (the row sums it also keeps are never
     * read and are left out).
     */
    method MeasureColumns(cols: nat) returns (columnWidths: array<real>, rowHeights: seq<real>)
      requires cols >= 1
      ensures fresh(columnWidths) && columnWidths.Length == cols
      ensures forall c :: 0 <= c < cols ==> columnWidths[c] == if c == 0 then MaxOf(Widths(components)) else 0.0
      ensures |rowHeights| == |components| + 1
      ensures forall r :: 0 <= r < |components| ==> rowHeights[r] == TotalHeight
    {
      ghost var ws := Widths(components);
      columnWidths := new real[cols](_ => 0.0);
      rowHeights := [0.0];
      var row := 0;
      var column := 0;
      for i := 0 to |components|
        invariant column == 0 && row == i && |rowHeights| == i + 1 && rowHeights[i] == 0.0
        invariant forall r :: 0 <= r < i ==> rowHeights[r] == TotalHeight
        invariant columnWidths[0] == MaxOf(ws[..i])
        invariant forall c :: 1 <= c < cols ==> columnWidths[c] == 0.0
      {
        var minimumSize := components[i].MinimumSize();
        assert ws[..i + 1][..i] == ws[..i];
        columnWidths[column] := Max(columnWidths[column], minimumSize.0);
        rowHeights := rowHeights[row := Max(rowHeights[row], minimumSize.1)];
        var was := column;
        column := column + 1;
        column := was % cols;
        if column == 0 {
          row := row + 1;
          rowHeights := rowHeights + [0.0];
        }
      }
      assert ws[..|components|] == ws;
    }

    /** Every column gets `padding` more. */
    method AddPadding(columnWidths: array<real>, padding: real)
      modifies columnWidths
      ensures forall c :: 0 <= c < columnWidths.Length ==> columnWidths[c] == old(columnWidths[c]) + padding
    {
      for column := 0 to columnWidths.Length
        invariant forall c :: 0 <= c < column ==> columnWidths[c] == old(columnWidths[c]) + padding
        invariant forall c :: column <= c < columnWidths.Length ==> columnWidths[c] == old(columnWidths[c])
      {
        columnWidths[column] := columnWidths[column] + padding;
      }
    }

    /**
     * The second pass of `layoutInternal`: widgets go left to right, `columns` to a row, each
     * row one label height below the last; the result is the total height. A widget's
     * `setSize` does nothing on a label or button, so those calls are left out.
     */
    method Place(columnWidths: seq<real>, rowHeights: seq<real>, pad: bool) returns (totalMinimumHeight: real)
      requires Distinct(components) && |columnWidths| == Cols(columns)
      requires |rowHeights| == |components| + 1 && forall r :: 0 <= r < |components| ==> rowHeights[r] == TotalHeight
      modifies components`x, components`y
      ensures var cols := Cols(columns); var ws := Widths(components);
        && totalMinimumHeight == LaidOutHeight(ws, columnWidths, pad, cols)
        && forall i {:trigger components[i].Position()} :: 0 <= i < |components| ==> components[i].Position() == Placement(x, y, ws, columnWidths, pad, cols, i)
    {
      var cols := Cols(columns);
      ghost var ws := Widths(components);
      var px, py := x, y;
      totalMinimumHeight := 0.0;
      var column, row := -1, -1;
      for i := 0 to |components|
        invariant Placed(i, column, row, px, py, totalMinimumHeight, ws, columnWidths, pad, cols)
      {
        column, row, px, py, totalMinimumHeight :=
          PlaceNext(i, column, row, px, py, totalMinimumHeight, columnWidths, rowHeights, pad, ws, cols);
      }
      if |components| > 0 {
        RowAtMost(ws, columnWidths, pad, cols, |components| - 1);
      }
      if row >= 0 && rowHeights[row] != 0.0 {
        totalMinimumHeight := totalMinimumHeight + rowHeights[row];
      }
    }

    /**
     * The state of that loop once `i` widgets are placed: the last one's column and row, the
     * next `x` in its row, its row's `y` and the height of the rows above it.
     */
    ghost predicate Placed(i: nat, column: int, row: int, px: real, py: real, total: real,
                           ws: seq<real>, cw: seq<real>, pad: bool, cols: nat)
      reads this, components
    {
      && cols >= 1 && |cw| == cols && |ws| == |components| && i <= |components|
      && (i == 0 ==> column == -1 && row == -1 && py == y && total == 0.0)
      && (i > 0 ==> var s := SlotOf(ws, cw, pad, cols, i - 1);
          && column == s.column && row == s.row && py == y - TotalHeight * row as real
          && total == TotalHeight * row as real
          && px == x + s.offset + Advance(ws[i - 1], cw, pad, s.column))
      && forall k {:trigger components[k].Position()} :: 0 <= k < i ==> components[k].Position() == Placement(x, y, ws, cw, pad, cols, k)
    }

    /** One pass of that loop: a new row after the last column, then the widget at `i` placed. */
    method PlaceNext(i: nat, column: int, row: int, px: real, py: real, total: real,
                     columnWidths: seq<real>, rowHeights: seq<real>, pad: bool, ghost ws: seq<real>, cols: nat)
      returns (column1: int, row1: int, px1: real, py1: real, total1: real)
      requires Distinct(components) && i < |components| && ws == Widths(components)
      requires |rowHeights| == |components| + 1 && forall r :: 0 <= r < |components| ==> rowHeights[r] == TotalHeight
      requires Placed(i, column, row, px, py, total, ws, columnWidths, pad, cols)
      modifies components`x, components`y
      ensures Placed(i + 1, column1, row1, px1, py1, total1, ws, columnWidths, pad, cols)
    {
      column1, row1, px1, py1, total1 := column, row, px, py, total;
      if i > 0 {
        RowAtMost(ws, columnWidths, pad, cols, i - 1);
        NextSlot(ws, columnWidths, pad, cols, i);
      }
      if column1 == -1 || column1 >= cols - 1 {
        if row1 >= 0 {
          py1 := py1 - rowHeights[row1];
          total1 := total1 + rowHeights[row1];
        }
        px1 := x;
        column1 := 0;
        row1 := row1 + 1;
      } else {
        column1 := column1 + 1;
      }
      var componentWidth := columnWidths[column1];
      var component := components[i];
      PlaceOne(component, i, px1, py1, ws, columnWidths, pad, cols);
      if !pad {
        componentWidth := component.MinimumSize().0;
      }
      px1 := px1 + componentWidth;
    }

    /** `component.setPosition(x, y)` for the widget at `i`, which leaves the others where they are. */
    method PlaceOne(component: Widget, i: nat, px: real, py: real, ghost ws: seq<real>, ghost cw: seq<real>, pad: bool, cols: nat)
      requires Distinct(components) && i < |components| == |ws| && cols >= 1 && |cw| == cols && component == components[i]
      requires (px, py) == Placement(x, y, ws, cw, pad, cols, i)
      requires forall k {:trigger components[k].Position()} :: 0 <= k < i ==> components[k].Position() == Placement(x, y, ws, cw, pad, cols, k)
      modifies component`x, component`y
      ensures forall k {:trigger components[k].Position()} :: 0 <= k <= i ==> components[k].Position() == Placement(x, y, ws, cw, pad, cols, k)
    {
      component.SetPosition(px, py);
    }

    /**
     * `changeFocus(node)`: the node becomes the focused one; the one focused before is told it
     * lost focus and then the new one that it gained it, when they have those hooks (buttons do).
     */
    method ChangeFocus(newNode: Option<Widget>)
      modifies this`focusedNode, Nodes(focusedNode)`colour, Nodes(newNode)`colour
      ensures focusedNode == newNode
      ensures forall w :: w in Nodes(old(focusedNode)) + Nodes(newNode) ==>
                w.colour == Refocused(w, old(focusedNode), newNode, old(w.colour))
    {
      var lastFocusedNode := focusedNode;
      focusedNode := newNode;
      if lastFocusedNode.Some? && lastFocusedNode.value.isButton {
        lastFocusedNode.value.Unfocused();
      }
      if newNode.Some? && newNode.value.isButton {
        newNode.value.Focused();
      }
    }

    /** `focus(component)`. */
    method Focus(component: Widget)
      modifies this`focusedNode, Nodes(focusedNode)`colour, component`colour
      ensures focusedNode == Some(component)
      ensures forall w :: w in Nodes(old(focusedNode)) + {component} ==>
                w.colour == Refocused(w, old(focusedNode), Some(component), old(w.colour))
    {
      ChangeFocus(Some(component));
    }

    /** `unfocused()`: the form drops its focus. */
    method Unfocused()
      modifies this`focusedNode, Nodes(focusedNode)`colour
      ensures focusedNode == None
      ensures forall w :: w in Nodes(old(focusedNode)) ==> w.colour == Refocused(w, old(focusedNode), None, old(w.colour))
    {
      ChangeFocus(None);
    }

    /** `getComponentIndex(component)`. */
    method GetComponentIndex(component: Widget) returns (index: Option<nat>)
      ensures index == ComponentIndex(components, component)
    {
      var componentCount := |components|;
      for i := 0 to componentCount
        invariant forall k :: 0 <= k < i ==> components[k] != component
      {
        if components[i] == component {
          ComponentIndexAt(components, component, i);
          return Some(i);
        }
      }
      return None;
    }

    /**
     * `moveFocusUp()`: the nearest active widget above the focused one (from the bottom when
     * nothing is focused) takes the focus; the result says whether the focus moved.
     */
    method MoveFocusUp() returns (moved: bool)
      modifies this`focusedNode, Nodes(focusedNode)`colour, components`colour
      ensures var t := UpTarget(components, old(focusedNode));
        && focusedNode == (if t.Some? then Some(components[t.value]) else old(focusedNode))
        && moved == (t.Some? && Some(components[t.value]) != old(focusedNode))
        && forall w :: w in Nodes(old(focusedNode)) + Elements(components) ==>
             w.colour == if t.Some? then Refocused(w, old(focusedNode), focusedNode, old(w.colour)) else old(w.colour)
    {
      var oldNode := focusedNode;
      var newNode: Option<Widget> := None;
      var start: Option<nat>;
      if oldNode.Some? {
        start := GetComponentIndex(oldNode.value);
      } else {
        start := Some(|components|);
      }
      assert start == UpStart(components, oldNode);
      if start.Some? {
        newNode := ScanUp(start.value);
      }
      ghost var t := UpTarget(components, oldNode);
      assert newNode == if t.Some? then Some(components[t.value]) else None;
      if newNode.Some? {
        ChangeFocus(newNode);
      }
      moved := newNode.Some? && newNode != oldNode;
    }

    /**
     * `moveFocusDown()`: the nearest active widget below the focused one takes the focus. With
     * nothing focused, the code as written (`fixed` false) starts the scan past the last widget
     * and finds none; with `fixed` it starts at the first widget (see `DownStart`).
     */
    method MoveFocusDown(fixed: bool) returns (moved: bool)
      modifies this`focusedNode, Nodes(focusedNode)`colour, components`colour
      ensures var t := DownTarget(components, old(focusedNode), fixed);
        && focusedNode == (if t.Some? then Some(components[t.value]) else old(focusedNode))
        && moved == (t.Some? && Some(components[t.value]) != old(focusedNode))
        && forall w :: w in Nodes(old(focusedNode)) + Elements(components) ==>
             w.colour == if t.Some? then Refocused(w, old(focusedNode), focusedNode, old(w.colour)) else old(w.colour)
    {
      var oldNode := focusedNode;
      var newNode: Option<Widget> := None;
      var from: Option<nat>;
      if oldNode.Some? {
        var index := GetComponentIndex(oldNode.value);
        from := if index.Some? then Some(index.value + 1) else None;
      } else {
        from := Some(if fixed then 0 else |components| + 1);
      }
      assert from == DownStart(components, oldNode, fixed);
      if from.Some? {
        newNode := ScanDown(from.value);
      }
      ghost var t := DownTarget(components, oldNode, fixed);
      assert newNode == if t.Some? then Some(components[t.value]) else None;
      if newNode.Some? {
        ChangeFocus(newNode);
      }
      moved := newNode.Some? && newNode != oldNode;
    }

    /** The `while (--i >= 0)` loop of `moveFocusUp`, from `start`. */
    method ScanUp(start: nat) returns (newNode: Option<Widget>)
      requires start <= |components|
      ensures var t := UpFrom(components, start); newNode == if t.Some? then Some(components[t.value]) else None
    {
      newNode := None;
      var i: int := start - 1;
      while i >= 0
        invariant -1 <= i < start && newNode == None
        invariant UpFrom(components, start) == UpFrom(components, i + 1)
      {
        var component := components[i];
        if component.Active() {
          newNode := Some(component);
          break;
        }
        i := i - 1;
      }
    }

    /** The `while (++i < componentCount)` loop of `moveFocusDown`, looking first at `from`. */
    method ScanDown(from: nat) returns (newNode: Option<Widget>)
      ensures var t := DownFrom(components, from); newNode == if t.Some? then Some(components[t.value]) else None
    {
      newNode := None;
      var componentCount := |components|;
      var i := from;
      while i < componentCount
        invariant from <= i && newNode == None
        invariant DownFrom(components, from) == DownFrom(components, i)
        decreases componentCount - i
      {
        var component := components[i];
        if component.Active() {
          newNode := Some(component);
          break;
        }
        i := i + 1;
      }
    }

    /**
     * `focused()`: the form takes the focus by moving it down, dropping the result, and the
     * old and new focus change colour as `changeFocus` makes them. From no focus, as written
     * nothing takes it; with `fixed`, the first active widget does.
     */
    method Focused(fixed: bool)
      modifies this`focusedNode, Nodes(focusedNode)`colour, components`colour
      ensures var t := DownTarget(components, old(focusedNode), fixed);
        && focusedNode == (if t.Some? then Some(components[t.value]) else old(focusedNode))
        && forall w :: w in Nodes(old(focusedNode)) + Elements(components) ==>
             w.colour == if t.Some? then Refocused(w, old(focusedNode), focusedNode, old(w.colour)) else old(w.colour)
      ensures !fixed && old(focusedNode).None? ==> focusedNode.None?
    {
      var _ := MoveFocusDown(fixed);
    }

    /** `activate()`: the focused widget's `activated` callback runs once, when it has one. */
    method Activate() returns (handled: bool)
      modifies Nodes(focusedNode)`activatedCalls
      ensures handled == (focusedNode.Some? && focusedNode.value.hasActivated)
      ensures handled ==> focusedNode.value.activatedCalls == old(focusedNode.value.activatedCalls) + 1
      ensures !handled ==> unchanged(Nodes(focusedNode))
    {
      handled := false;
      if focusedNode.Some? && focusedNode.value.hasActivated {
        focusedNode.value.Activated();
        handled := true;
      }
    }

    /** `getActive()`: whether at least one widget is active. */
    method GetActive() returns (active: bool)
      ensures active <==> exists k :: 0 <= k < |components| && components[k].Active()
    {
      active := false;
      var componentCount := |components|;
      for i := 0 to componentCount
        invariant forall k :: 0 <= k < i ==> !components[k].Active()
      {
        if components[i].Active() {
          active := true;
          break;
        }
      }
    }

    /** `add(component)`: appended, then the form is laid out again. */
    method Add(component: Widget)
      requires Distinct(components) && component !in components
      modifies this`components, this`minimumWidth, this`minimumHeight, components`x, components`y, component`x, component`y
      ensures components == old(components) + [component] && LaidOut(false)
    {
      components := components + [component];
      LayoutInternal(false);
    }

    /** `setPosition(x, y)`: a form moved to a new point is laid out again. */
    method SetPosition(px: real, py: real)
      requires Distinct(components)
      modifies this`x, this`y, this`minimumWidth, this`minimumHeight, components`x, components`y
      ensures x == px && y == py
      ensures old(x) != px || old(y) != py ==> LaidOut(false)
      ensures old(x) == px && old(y) == py ==> unchanged(this) && unchanged(components)
    {
      if px != x || py != y {
        x, y := px, py;
        LayoutInternal(false);
      }
    }

    /** `setSize(width, height)`: a new (or still unset) desired width is laid out; the height is ignored. */
    method SetSize(width: real, height: real)
      requires Distinct(components)
      modifies this`desiredWidth, this`minimumWidth, this`minimumHeight, components`x, components`y
      ensures desiredWidth == width
      ensures old(desiredWidth) == 0.0 || old(desiredWidth) != width ==> LaidOut(false)
      ensures old(desiredWidth) != 0.0 && old(desiredWidth) == width ==> unchanged(this) && unchanged(components)
    {
      if desiredWidth == 0.0 || desiredWidth != width {
        desiredWidth := width;
        LayoutInternal(false);
      }
    }

    /** `getMinimumSize()`: laid out first while either minimum is still unset (0). */
    method GetMinimumSize() returns (size: (real, real))
      requires Distinct(components)
      modifies this`minimumWidth, this`minimumHeight, components`x, components`y
      ensures size == (minimumWidth, minimumHeight)
      ensures old(minimumWidth) == 0.0 || old(minimumHeight) == 0.0 ==> LaidOut(false)
      ensures old(minimumWidth) != 0.0 && old(minimumHeight) != 0.0 ==> unchanged(this) && unchanged(components)
    {
      if minimumWidth == 0.0 || minimumHeight == 0.0 {
        LayoutInternal(false);
      }
      size := (minimumWidth, minimumHeight);
    }

    /** `getDesiredSize()` (and `getSize()`): the desired size where set, the minimum size otherwise. */
    method GetDesiredSize() returns (size: (real, real))
      requires Distinct(components)
      modifies this`minimumWidth, this`minimumHeight, components`x, components`y
      ensures size == (if desiredWidth != 0.0 then desiredWidth else minimumWidth,
                       if desiredHeight != 0.0 then desiredHeight else minimumHeight)
      ensures old(minimumWidth) == 0.0 || old(minimumHeight) == 0.0 ==> LaidOut(false)
      ensures old(minimumWidth) != 0.0 && old(minimumHeight) != 0.0 ==> unchanged(this) && unchanged(components)
    {
      var minimumSize := GetMinimumSize();
      size := (if desiredWidth != 0.0 then desiredWidth else minimumSize.0,
               if desiredHeight != 0.0 then desiredHeight else minimumSize.1);
    }
  }

  /** `Form.newFlow(columns, x, y, desiredWidth, desiredHeight, ...widgets)`: a form with every widget added in order. */
  method NewFlow(columns: nat, x: real, y: real, desiredWidth: real, desiredHeight: real, widgets: seq<Widget>)
    returns (form: Form)
    requires Distinct(widgets)
    modifies widgets`x, widgets`y
    ensures fresh(form) && form.components == widgets && form.columns == columns && form.focusedNode == None
    ensures form.x == x && form.y == y && form.desiredWidth == desiredWidth && form.desiredHeight == desiredHeight
    ensures widgets != [] ==> form.LaidOut(false)
  {
    form := new Form(x, y, desiredWidth, desiredHeight, columns);
    for i := 0 to |widgets|
      invariant fresh(form) && form.components == widgets[..i] && form.columns == columns && form.focusedNode == None
      invariant form.x == x && form.y == y && form.desiredWidth == desiredWidth && form.desiredHeight == desiredHeight
      invariant i > 0 ==> form.LaidOut(false)
    {
      assert widgets[..i + 1] == widgets[..i] + [widgets[i]];
      form.Add(widgets[i]);
    }
    assert widgets[..|widgets|] == widgets;
  }
}
