/**
 * `Engine`: the `Radius` singleton. It owns a stack of layers (the top one is active), two
 * serializers that queue browser input between frames, and the per-frame loop that hands the
 * queued input to the frame's active layer, updates that layer and resets the timer of a
 * layer that has come back on top.
 */
module Engine {
  import opened Wrappers
  import opened Scene
  import opened Layers
  import Transform2D

  /** `keyCodeToName`: the nine keys the engine listens to. */
  function KeyName(code: int): (r: Option<string>)
    ensures r.Some? <==> code in {8, 9, 13, 27, 32, 37, 38, 39, 40}
  {
    match code
    case 8 => Some("backspace")
    case 9 => Some("tab")
    case 13 => Some("enter")
    case 27 => Some("escape")
    case 32 => Some("space")
    case 37 => Some("left")
    case 38 => Some("up")
    case 39 => Some("right")
    case 40 => Some("down")
    case _ => None
  }

  /** Different key codes get different names, so a name tells which key was pressed. */
  lemma KeyNamesDiffer(a: int, b: int)
    requires KeyName(a).Some? && KeyName(b).Some? && a != b
    ensures KeyName(a).value != KeyName(b).value
  {
  }

  /** A queue of named key codes and their states. */
  ghost predicate KeyQueue(codes: seq<int>, states: seq<bool>)
  {
    |codes| == |states| && forall k :: 0 <= k < |codes| ==> KeyName(codes[k]).Some?
  }

  /** The `keyPressed(name, pressed)` calls a key queue turns into, in arrival order. */
  function KeyCalls(codes: seq<int>, states: seq<bool>): (r: seq<(string, bool)>)
    requires KeyQueue(codes, states)
    ensures |r| == |codes|
    ensures forall k :: 0 <= k < |r| ==> r[k] == (KeyName(codes[k]).value, states[k])
  {
    if codes == [] then []
    else KeyCalls(codes[..|codes| - 1], states[..|codes| - 1])
         + [(KeyName(codes[|codes| - 1]).value, states[|codes| - 1])]
  }

  /** `KeySerializer`: key events queued between frames. */
  class KeySerializer {
    var codes: seq<int>
    var states: seq<bool>

    ghost predicate Valid()
      reads this
    {
      KeyQueue(codes, states)
    }

    constructor ()
      ensures Valid() && codes == [] && states == []
    {
      codes := [];
      states := [];
    }

    /** The `keydown` (`pressed`) or `keyup` listener: only named keys are queued. */
    method Queue(code: int, pressed: bool)
      requires Valid()
      modifies this
      ensures Valid()
      ensures codes == old(codes) + (if KeyName(code).Some? then [code] else [])
      ensures states == old(states) + (if KeyName(code).Some? then [pressed] else [])
    {
      if KeyName(code).Some? {
        codes := codes + [code];
        states := states + [pressed];
      }
    }

    /**
     * `process(keyPressed)`: the calls to make, in arrival order; the queue is emptied. The
     * caller makes the calls (the loop of `process` calls nothing else in between).
     */
    method Process() returns (keys: seq<(string, bool)>)
      requires Valid()
      modifies this`codes, this`states
      ensures Valid() && codes == [] && states == []
      ensures keys == KeyCalls(old(codes), old(states))
    {
      var count := |codes|;
      keys := [];
      if count > 0 {
        for i := 0 to count
          invariant keys == KeyCalls(codes[..i], states[..i])
        {
          assert codes[..i + 1][..i] == codes[..i] && states[..i + 1][..i] == states[..i];
          keys := keys + [(KeyName(codes[i]).value, states[i])];
        }
        assert codes[..count] == codes && states[..count] == states;
        codes := [];
        states := [];
      }
    }
  }

  /** `MouseEvent`. */
  datatype MouseKind = Down | Up | Move

  /** The payload queued with a mouse event: position and button, or position only for a move. */
  datatype Payload = ButtonPayload(x: real, y: real, button: int) | MovePayload(x: real, y: real)

  /** A call `process` makes: `mouseButtonPressed(button, pressed, x, y)` or `mouseMoved(x, y)`. */
  datatype MouseCall = ButtonCall(button: int, pressed: bool, x: real, y: real) | MoveCall(x: real, y: real)

  /** A queued payload has the shape its event gives it. */
  predicate Matches(kind: MouseKind, p: Payload)
  {
    if kind == Move then p.MovePayload? else p.ButtonPayload?
  }

  ghost predicate MouseQueue(events: seq<MouseKind>, payloads: seq<Payload>)
  {
    |events| == |payloads| && forall k :: 0 <= k < |events| ==> Matches(events[k], payloads[k])
  }

  /** The call one queued mouse event turns into. */
  function ToCall(kind: MouseKind, p: Payload): (c: MouseCall)
    requires Matches(kind, p)
    ensures c.MoveCall? <==> kind == Move
    ensures c.x == p.x && c.y == p.y
    ensures c.ButtonCall? ==> c.button == p.button && (c.pressed <==> kind == Down)
  {
    match kind
    case Down => ButtonCall(p.button, true, p.x, p.y)
    case Up => ButtonCall(p.button, false, p.x, p.y)
    case Move => MoveCall(p.x, p.y)
  }

  function MouseCalls(events: seq<MouseKind>, payloads: seq<Payload>): (r: seq<MouseCall>)
    requires MouseQueue(events, payloads)
    ensures |r| == |events|
    ensures forall k :: 0 <= k < |r| ==> r[k] == ToCall(events[k], payloads[k])
  {
    if events == [] then []
    else MouseCalls(events[..|events| - 1], payloads[..|events| - 1])
         + [ToCall(events[|events| - 1], payloads[|events| - 1])]
  }

  /** `MouseSerializer`: mouse events queued between frames. */
  class MouseSerializer {
    var events: seq<MouseKind>
    var payloads: seq<Payload>

    ghost predicate Valid()
      reads this
    {
      MouseQueue(events, payloads)
    }

    constructor ()
      ensures Valid() && events == [] && payloads == []
    {
      events := [];
      payloads := [];
    }

    /** The `mousedown` (`pressed`) or `mouseup` listener. */
    method QueueButton(pressed: bool, clientX: real, clientY: real, button: int)
      requires Valid()
      modifies this
      ensures Valid()
      ensures events == old(events) + [if pressed then Down else Up]
      ensures payloads == old(payloads) + [ButtonPayload(clientX, clientY, button)]
    {
      events := events + [if pressed then Down else Up];
      payloads := payloads + [ButtonPayload(clientX, clientY, button)];
    }

    /** The `mousemove` listener. */
    method QueueMove(clientX: real, clientY: real)
      requires Valid()
      modifies this
      ensures Valid()
      ensures events == old(events) + [Move] && payloads == old(payloads) + [MovePayload(clientX, clientY)]
    {
      events := events + [Move];
      payloads := payloads + [MovePayload(clientX, clientY)];
    }

    /** `process(mouseButtonPressed, mouseMoved)`: the calls to make, in arrival order. */
    method Process() returns (calls: seq<MouseCall>)
      requires Valid()
      modifies this`events, this`payloads
      ensures Valid() && events == [] && payloads == []
      ensures calls == MouseCalls(old(events), old(payloads))
    {
      var count := |events|;
      calls := [];
      if count > 0 {
        for i := 0 to count
          invariant calls == MouseCalls(events[..i], payloads[..i])
        {
          assert events[..i + 1][..i] == events[..i] && payloads[..i + 1][..i] == payloads[..i];
          calls := calls + [ToCall(events[i], payloads[i])];
        }
        assert events[..count] == events && payloads[..count] == payloads;
        events := [];
        payloads := [];
      }
    }
  }

  /** `getScale()`: the number of pixels per unit that fits a 640x480 area into the canvas. */
  function GetScale(width: real, height: real): (r: real)
    ensures r <= width / 640.0 && r <= height / 480.0
    ensures r == width / 640.0 || r == height / 480.0
  {
    if width / 640.0 <= height / 480.0 then width / 640.0 else height / 480.0
  }

  /** The 640x480 area, scaled, fits the canvas and fills it in one direction. */
  lemma ScaleFits(width: real, height: real)
    requires width > 0.0 && height > 0.0
    ensures var s := GetScale(width, height);
      s > 0.0 && 640.0 * s <= width && 480.0 * s <= height && (640.0 * s == width || 480.0 * s == height)
  {
    var s := GetScale(width, height);
    assert 640.0 * (width / 640.0) == width;
    assert 480.0 * (height / 480.0) == height;
  }

  /**
   * Where a canvas pixel lands in layer coordinates: the centre of the canvas is the origin,
   * `getScale()` pixels make a unit, and y grows upwards.
   */
  function LocalPoint(width: real, height: real, cx: real, cy: real): (real, real)
    requires width > 0.0 && height > 0.0
  {
    var s := GetScale(width, height);
    ((cx - width / 2.0) / s, -(cy - height / 2.0) / s)
  }

  /** The transform the loop builds each frame maps canvas pixels to `LocalPoint`. */
  lemma FrameTransformIsLocal(width: real, height: real, cx: real, cy: real)
    requires width > 0.0 && height > 0.0
    ensures Transform2D.MapPoint(Transform2D.FrameMatrix(width / 2.0, height / 2.0, 1.0 / GetScale(width, height)), cx, cy)
            == Some(LocalPoint(width, height, cx, cy))
  {
    var s := GetScale(width, height);
    ScaleFits(width, height);
    var k := 1.0 / s;
    var hw, hh := width / 2.0, height / 2.0;
    var p := LocalPoint(width, height, cx, cy);
    Transform2D.FrameMatrixMapsPoints(hw, hh, k, cx, cy);
    DivideByScale(s, k, cx - hw);
    DivideByScale(s, k, hh - cy);
    assert -(cy - hh) == hh - cy;
    assert p == ((cx - hw) / s, (hh - cy) / s);
    assert k * (cx - hw) == p.0 && k * (hh - cy) == p.1;
  }

  lemma DivideByScale(s: real, k: real, d: real)
    requires s > 0.0 && k == 1.0 / s
    ensures k * d == d / s
  {
  }

  /** One input the frame hands to its active layer, with mouse positions in layer coordinates. */
  datatype Input =
    | KeyInput(name: string, pressed: bool)
    | ButtonInput(button: int, pressed: bool, x: real, y: real)
    | MoveInput(x: real, y: real)

  /** What a game handler does to the layer stack: nothing, `pushLayer(layer)` or `popLayer()`. */
  datatype StackOp = Stay | PushOp(layer: Layer) | PopOp

  /** How a frame ends: no layer to run, the new top drawn, or no top left to draw. */
  datatype FrameEnd = Idle | Drawn(top: Layer) | Halted

  /** The layer list after a stack operation (`unshift`, `shift`). */
  function ApplyOp(list: seq<Layer>, op: StackOp): (r: seq<Layer>)
    ensures op.PushOp? ==> |r| == |list| + 1 && r[0] == op.layer && r[1..] == list
    ensures op.PopOp? ==> r == if list == [] then [] else list[1..]
    ensures op.Stay? ==> r == list
  {
    match op
    case Stay => list
    case PushOp(layer) => [layer] + list
    case PopOp => if list == [] then [] else list[1..]
  }

  /** Popping straight after a push leaves the stack as it was. */
  lemma PushThenPop(list: seq<Layer>, layer: Layer)
    ensures ApplyOp(ApplyOp(list, PushOp(layer)), PopOp) == list
  {
  }

  /** The layer has a handler for the input: a key handler for the key, or the mouse hook. */
  predicate Handles(h: Hooks, x: Input)
  {
    match x
    case KeyInput(name, _) => name in h.keyHandlers
    case ButtonInput(_, _, _, _) => h.hasMouseButton
    case MoveInput(_, _) => h.hasMouseMoved
  }

  /** The handler call `x` adds to a layer's calls. */
  function Record(c: Calls, h: Hooks, x: Input): Calls
  {
    match x
    case KeyInput(name, pressed) =>
      if name in h.keyHandlers then c.(keys := c.keys + [(h.keyHandlers[name], pressed)]) else c
    case ButtonInput(button, pressed, x, y) => c.(buttons := c.buttons + [(button, pressed, x, y)])
    case MoveInput(x, y) => c.(moves := c.moves + [(x, y)])
  }

  function RecordAll(c: Calls, h: Hooks, xs: seq<Input>): Calls
  {
    if xs == [] then c else Record(RecordAll(c, h, xs[..|xs| - 1]), h, xs[|xs| - 1])
  }

  /**
   * The inputs handed over, the layer list afterwards, and the layers the handlers' pushes
   * and pops showed, in order.
   */
  datatype Delivery = Delivery(delivered: seq<Input>, list: seq<Layer>, shown: seq<Layer>)

  /**
   * The loop's input guard: an input reaches `active` only while it is still the top of the
   * list and has a handler for it; the handler then changes the stack as `react` says.
   */
  function Deliver(active: Layer, h: Hooks, list: seq<Layer>, xs: seq<Input>,
                   react: Input -> StackOp): Delivery
  {
    if xs == [] then Delivery([], list, [])
    else
      var d := Deliver(active, h, list, xs[..|xs| - 1], react);
      var x := xs[|xs| - 1];
      if |d.list| > 0 && d.list[0] == active && Handles(h, x)
      then Delivery(d.delivered + [x], ApplyOp(d.list, react(x)), d.shown + ShownBy(d.list, react(x)))
      else d
  }

  /** Some delivered input made its handler push or pop a layer. */
  predicate AnyChange(xs: seq<Input>, react: Input -> StackOp)
  {
    xs != [] && (AnyChange(xs[..|xs| - 1], react) || !react(xs[|xs| - 1]).Stay?)
  }

  /**
   * The `shown` calls one stack operation makes on `l`: a pushed layer is shown, and so is
   * the layer a pop uncovers, each only when it has a `shown` hook.
   */
  function ShownBy(list: seq<Layer>, op: StackOp): seq<Layer>
  {
    match op
    case Stay => []
    case PushOp(layer) => if layer.hooks.hasShown then [layer] else []
    case PopOp => if |list| >= 2 && list[1].hooks.hasShown then [list[1]] else []
  }

  /** Without a push or pop among the delivered inputs, no layer is shown. */
  lemma {:induction false} NoShownWithoutChange(active: Layer, h: Hooks, list: seq<Layer>,
                                                xs: seq<Input>, react: Input -> StackOp)
    requires !AnyChange(Deliver(active, h, list, xs, react).delivered, react)
    ensures Deliver(active, h, list, xs, react).shown == []
  {
    if xs != [] {
      var zs := xs[..|xs| - 1];
      var d := Deliver(active, h, list, zs, react);
      var x := xs[|xs| - 1];
      if |d.list| > 0 && d.list[0] == active && Handles(h, x) {
        assert (d.delivered + [x])[..|d.delivered|] == d.delivered;
      }
      NoShownWithoutChange(active, h, list, zs, react);
    }
  }

  /** The inputs `active` has handlers for, in order. */
  function Handled(h: Hooks, xs: seq<Input>): seq<Input>
  {
    if xs == [] then []
    else Handled(h, xs[..|xs| - 1]) + if Handles(h, xs[|xs| - 1]) then [xs[|xs| - 1]] else []
  }

  /** Delivering `xs` and then `ys` is delivering `xs + ys`. */
  lemma {:induction false} DeliverAppend(active: Layer, h: Hooks, list: seq<Layer>, xs: seq<Input>,
                                         ys: seq<Input>, react: Input -> StackOp)
    ensures var d1 := Deliver(active, h, list, xs, react);
      var d2 := Deliver(active, h, d1.list, ys, react);
      Deliver(active, h, list, xs + ys, react) == Delivery(d1.delivered + d2.delivered, d2.list, d1.shown + d2.shown)
    decreases |ys|
  {
    if ys != [] {
      var zs := ys[..|ys| - 1];
      DeliverAppend(active, h, list, xs, zs, react);
      assert (xs + ys)[..|xs + ys| - 1] == xs + zs;
      var d1 := Deliver(active, h, list, xs, react);
      var d2 := Deliver(active, h, d1.list, zs, react);
      assert (xs + ys)[|xs + ys| - 1] == ys[|ys| - 1];
      assert (d1.delivered + d2.delivered) + [ys[|ys| - 1]] == d1.delivered + (d2.delivered + [ys[|ys| - 1]]);
      var x := ys[|ys| - 1];
      assert (d1.shown + d2.shown) + ShownBy(d2.list, react(x)) == d1.shown + (d2.shown + ShownBy(d2.list, react(x)));
    } else {
      assert xs + ys == xs;
    }
  }

  /** Once `active` is no longer on top, the rest of the frame's input is dropped. */
  lemma {:induction false} DroppedOnceOff(active: Layer, h: Hooks, list: seq<Layer>, ys: seq<Input>,
                                          react: Input -> StackOp)
    requires list == [] || list[0] != active
    ensures Deliver(active, h, list, ys, react) == Delivery([], list, [])
  {
    if ys != [] {
      DroppedOnceOff(active, h, list, ys[..|ys| - 1], react);
    }
  }

  /** While every handler leaves the stack alone, every handled input is delivered. */
  lemma {:induction false} DeliveredWhileStaying(active: Layer, h: Hooks, list: seq<Layer>,
                                                 xs: seq<Input>, react: Input -> StackOp)
    requires |list| > 0 && list[0] == active
    requires forall k :: 0 <= k < |xs| ==> react(xs[k]) == Stay
    ensures Deliver(active, h, list, xs, react) == Delivery(Handled(h, xs), list, [])
  {
    if xs != [] {
      var zs := xs[..|xs| - 1];
      assert forall k :: 0 <= k < |zs| ==> zs[k] == xs[k];
      DeliveredWhileStaying(active, h, list, zs, react);
    }
  }

  /** Without a push or pop among the delivered inputs, the stack is as it was. */
  lemma {:induction false} UnchangedWithoutChange(active: Layer, h: Hooks, list: seq<Layer>,
                                                  xs: seq<Input>, react: Input -> StackOp)
    requires !AnyChange(Deliver(active, h, list, xs, react).delivered, react)
    ensures Deliver(active, h, list, xs, react).list == list
  {
    if xs != [] {
      var zs := xs[..|xs| - 1];
      var d := Deliver(active, h, list, zs, react);
      var x := xs[|xs| - 1];
      if |d.list| > 0 && d.list[0] == active && Handles(h, x) {
        assert (d.delivered + [x])[..|d.delivered|] == d.delivered;
      }
      UnchangedWithoutChange(active, h, list, zs, react);
    }
  }

  /** What is delivered is handled, and in arrival order: a subsequence of the inputs. */
  lemma {:induction false} DeliveredAreHandled(active: Layer, h: Hooks, list: seq<Layer>,
                                               xs: seq<Input>, react: Input -> StackOp)
    ensures var d := Deliver(active, h, list, xs, react).delivered;
      forall k :: 0 <= k < |d| ==> Handles(h, d[k]) && d[k] in xs
  {
    if xs != [] {
      var zs := xs[..|xs| - 1];
      DeliveredAreHandled(active, h, list, zs, react);
      assert var dz := Deliver(active, h, list, zs, react).delivered;
        forall k :: 0 <= k < |dz| ==> Handles(h, dz[k]) && dz[k] in zs;
      var dz := Deliver(active, h, list, zs, react).delivered;
      var d := Deliver(active, h, list, xs, react).delivered;
      forall k | 0 <= k < |d| ensures Handles(h, d[k]) && d[k] in xs {
        if k < |dz| {
          assert d[k] == dz[k];
          var j :| 0 <= j < |zs| && zs[j] == dz[k];
          assert xs[j] == zs[j];
        } else {
          assert d[k] == xs[|xs| - 1];
        }
      }
    }
  }

  lemma {:induction false} RecordAllAppend(c: Calls, h: Hooks, xs: seq<Input>, ys: seq<Input>)
    ensures RecordAll(c, h, xs + ys) == RecordAll(RecordAll(c, h, xs), h, ys)
    decreases |ys|
  {
    if ys != [] {
      RecordAllAppend(c, h, xs, ys[..|ys| - 1]);
      assert (xs + ys)[..|xs + ys| - 1] == xs + ys[..|ys| - 1];
      assert (xs + ys)[|xs + ys| - 1] == ys[|ys| - 1];
    } else {
      assert xs + ys == xs;
    }
  }

  lemma {:induction false} AnyChangeAppend(xs: seq<Input>, ys: seq<Input>, react: Input -> StackOp)
    ensures AnyChange(xs + ys, react) == (AnyChange(xs, react) || AnyChange(ys, react))
    decreases |ys|
  {
    if ys != [] {
      AnyChangeAppend(xs, ys[..|ys| - 1], react);
      assert (xs + ys)[..|xs + ys| - 1] == xs + ys[..|ys| - 1];
    } else {
      assert xs + ys == xs;
    }
  }

  /** Delivering `xs + ys` is delivering `xs` and then, to the stack that leaves, `ys`. */
  lemma DeliverInTwo(active: Layer, h: Hooks, list: seq<Layer>, c: Calls, xs: seq<Input>, ys: seq<Input>,
                     react: Input -> StackOp)
    ensures var d1 := Deliver(active, h, list, xs, react);
      var d2 := Deliver(active, h, d1.list, ys, react);
      var d := Deliver(active, h, list, xs + ys, react);
      && d.list == d2.list
      && d.shown == d1.shown + d2.shown
      && RecordAll(c, h, d.delivered) == RecordAll(RecordAll(c, h, d1.delivered), h, d2.delivered)
      && AnyChange(d.delivered, react) == (AnyChange(d1.delivered, react) || AnyChange(d2.delivered, react))
      && (!AnyChange(d.delivered, react) ==> d.list == list)
  {
    var d1 := Deliver(active, h, list, xs, react);
    var d2 := Deliver(active, h, d1.list, ys, react);
    DeliverAppend(active, h, list, xs, ys, react);
    RecordAllAppend(c, h, d1.delivered, d2.delivered);
    AnyChangeAppend(d1.delivered, d2.delivered, react);
    if !AnyChange(Deliver(active, h, list, xs + ys, react).delivered, react) {
      UnchangedWithoutChange(active, h, list, xs + ys, react);
    }
  }

  /** The key inputs of a frame. */
  function KeyInputs(keys: seq<(string, bool)>): (r: seq<Input>)
    ensures |r| == |keys|
    ensures forall k :: 0 <= k < |r| ==> r[k] == KeyInput(keys[k].0, keys[k].1)
  {
    if keys == [] then []
    else KeyInputs(keys[..|keys| - 1]) + [KeyInput(keys[|keys| - 1].0, keys[|keys| - 1].1)]
  }

  /** The input one mouse call makes, at canvas position (client x - left, client y - top). */
  function MouseInput(c: MouseCall, width: real, height: real, left: real, top: real): Input
    requires width > 0.0 && height > 0.0
  {
    var p := LocalPoint(width, height, c.x - left, c.y - top);
    if c.ButtonCall? then ButtonInput(c.button, c.pressed, p.0, p.1) else MoveInput(p.0, p.1)
  }

  /** The mouse inputs of a frame. */
  function MouseInputs(calls: seq<MouseCall>, width: real, height: real, left: real, top: real): (r: seq<Input>)
    requires width > 0.0 && height > 0.0
    ensures |r| == |calls|
  {
    if calls == [] then []
    else MouseInputs(calls[..|calls| - 1], width, height, left, top)
         + [MouseInput(calls[|calls| - 1], width, height, left, top)]
  }

  /** One frame's inputs: the keys first, then the mouse events, each in arrival order. */
  function FrameInputs(codes: seq<int>, states: seq<bool>, events: seq<MouseKind>, payloads: seq<Payload>,
                       width: real, height: real, left: real, top: real): seq<Input>
    requires KeyQueue(codes, states) && MouseQueue(events, payloads) && width > 0.0 && height > 0.0
  {
    KeyInputs(KeyCalls(codes, states)) + MouseInputs(MouseCalls(events, payloads), width, height, left, top)
  }

  ghost predicate IsFrameTransform(t: array2<real>, width: real, height: real)
    requires width > 0.0 && height > 0.0
    reads t
  {
    t.Length0 == 3 && t.Length1 == 3 &&
    Transform2D.Value(t) == Transform2D.FrameMatrix(width / 2.0, height / 2.0, 1.0 / GetScale(width, height))
  }

  /** One more input through the guard: how delivery, calls and the change flag move on. */
  lemma DeliverStep(active: Layer, h: Hooks, list: seq<Layer>, xs: seq<Input>, x: Input,
                    react: Input -> StackOp, c: Calls)
    ensures var d := Deliver(active, h, list, xs, react);
      var go := |d.list| > 0 && d.list[0] == active && Handles(h, x);
      var e := Deliver(active, h, list, xs + [x], react);
      && e == (if go then Delivery(d.delivered + [x], ApplyOp(d.list, react(x)), d.shown + ShownBy(d.list, react(x)))
               else d)
      && RecordAll(c, h, e.delivered) == (if go then Record(RecordAll(c, h, d.delivered), h, x)
                                          else RecordAll(c, h, d.delivered))
      && AnyChange(e.delivered, react) == (AnyChange(d.delivered, react) || (go && !react(x).Stay?))
  {
    var d := Deliver(active, h, list, xs, react);
    assert (xs + [x])[..|xs|] == xs;
    assert (d.delivered + [x])[..|d.delivered|] == d.delivered;
  }

  lemma AppendAssoc<T>(a: seq<T>, b: seq<T>, c: seq<T>)
    ensures (a + b) + c == a + (b + c)
  {
  }

  class Radius {
    var list: seq<Layer>
    const keys: KeySerializer
    const mouse: MouseSerializer
    // The layers whose game `shown` hook has been called, in call order.
    var shown: seq<Layer>

    ghost predicate Valid()
      reads keys, mouse
    {
      keys.Valid() && mouse.Valid()
    }

    constructor ()
      ensures Valid() && list == [] && shown == []
      ensures keys.codes == [] && mouse.events == []
    {
      list := [];
      keys := new KeySerializer();
      mouse := new MouseSerializer();
      shown := [];
    }

    /** `pushLayer(layer)`: the old top is marked hidden, `layer` goes on top and is shown. */
    method PushLayer(layer: Layer)
      modifies this`list, this`shown, (if list == [] then {} else {list[0]})`hidden
      ensures list == [layer] + old(list)
      ensures old(list) != [] ==> old(list)[0].hidden
      ensures shown == old(shown) + if layer.hooks.hasShown then [layer] else []
    {
      if list != [] {
        list[0].hidden := true;
      }
      list := [layer] + list;
      if layer.hooks.hasShown {
        shown := shown + [layer];
      }
    }

    /** `popLayer()`: the top is marked hidden and removed, and the new top, if any, is shown. */
    method PopLayer()
      modifies this`list, this`shown, (if list == [] then {} else {list[0]})`hidden
      ensures list == if old(list) == [] then [] else old(list)[1..]
      ensures old(list) != [] ==> old(list)[0].hidden
      ensures shown == old(shown) + if list != [] && list[0].hooks.hasShown then [list[0]] else []
    {
      if list != [] {
        list[0].hidden := true;
      }
      list := if list == [] then [] else list[1..];
      if list != [] {
        var layer := list[0];
        if layer.hooks.hasShown {
          shown := shown + [layer];
        }
      }
    }

    /**
     * What a handler does to the stack: a push or a pop hides the old top and shows the
     * layer pushed or the layer uncovered.
     */
    method Perform(op: StackOp, ghost universe: set<Layer>)
      requires forall l :: l in list ==> l in universe
      requires op.PushOp? ==> op.layer in universe
      modifies this`list, this`shown, (if list == [] then {} else {list[0]})`hidden
      ensures forall l :: l in list ==> l in universe
      ensures list == ApplyOp(old(list), op)
      ensures shown == old(shown) + ShownBy(old(list), op)
      ensures old(list) != [] ==> old(list)[0].hidden == (old(list[0].hidden) || !op.Stay?)
    {
      match op
      case Stay =>
      case PushOp(layer) => PushLayer(layer);
      case PopOp => PopLayer();
    }

    /**
     * One input of the frame, under the loop's guard: it reaches `active` only while `active`
     * is still on top and has a handler for it, and the handler then does `react(x)`.
     */
    method Dispatch(active: Layer, x: Input, react: Input -> StackOp, ghost universe: set<Layer>)
      requires forall l :: l in list ==> l in universe
      requires forall y :: react(y).PushOp? ==> react(y).layer in universe
      modifies this`list, this`shown, active`hidden, active`calls
      ensures forall l :: l in list ==> l in universe
      ensures var go := old(list) != [] && old(list)[0] == active && Handles(active.hooks, x);
        && list == (if go then ApplyOp(old(list), react(x)) else old(list))
        && shown == old(shown) + (if go then ShownBy(old(list), react(x)) else [])
        && active.calls == (if go then Record(old(active.calls), active.hooks, x) else old(active.calls))
        && active.hidden == (old(active.hidden) || (go && !react(x).Stay?))
    {
      if list != [] && list[0] == active {
        var handled := false;
        match x {
          case KeyInput(name, pressed) =>
            handled := active.KeyPressed(name, pressed);
          case ButtonInput(button, pressed, px, py) =>
            if active.hooks.hasMouseButton {
              active.MouseButtonPressed(button, pressed, px, py);
              handled := true;
            }
          case MoveInput(mx, my) =>
            if active.hooks.hasMouseMoved {
              active.MouseMoved(mx, my);
              handled := true;
            }
        }
        if handled {
          Perform(react(x), universe);
        }
      }
    }

    /**
     * One pass of either delivery loop: when `xs` has been delivered from the stack `list0`
     * to `active`, whose calls were `calls0` and whose flag was `hidden0`, after the `shown`
     * calls `shown0`, `x` follows.
     */
    method DeliverOne(active: Layer, x: Input, ghost list0: seq<Layer>, ghost calls0: Calls, ghost hidden0: bool,
                      ghost shown0: seq<Layer>, ghost xs: seq<Input>, react: Input -> StackOp,
                      ghost universe: set<Layer>)
      requires forall l :: l in list ==> l in universe
      requires forall y :: react(y).PushOp? ==> react(y).layer in universe
      requires var d := Deliver(active, active.hooks, list0, xs, react);
        && list == d.list
        && shown == shown0 + d.shown
        && active.calls == RecordAll(calls0, active.hooks, d.delivered)
        && active.hidden == (hidden0 || AnyChange(d.delivered, react))
      modifies this`list, this`shown, active`hidden, active`calls
      ensures forall l :: l in list ==> l in universe
      ensures var d := Deliver(active, active.hooks, list0, xs + [x], react);
        && list == d.list
        && shown == shown0 + d.shown
        && active.calls == RecordAll(calls0, active.hooks, d.delivered)
        && active.hidden == (hidden0 || AnyChange(d.delivered, react))
    {
      ghost var d := Deliver(active, active.hooks, list0, xs, react);
      ghost var go := list != [] && list[0] == active && Handles(active.hooks, x);
      ghost var c := if go then ShownBy(list, react(x)) else [];
      DeliverStep(active, active.hooks, list0, xs, x, react, calls0);
      assert Deliver(active, active.hooks, list0, xs + [x], react).shown == d.shown + c;
      Dispatch(active, x, react, universe);
      AppendAssoc(shown0, d.shown, c);
    }

    /** The key part of the loop: `keySerializer.process` with the guarded `keyPressed`. */
    method DeliverKeys(active: Layer, keyCalls: seq<(string, bool)>, react: Input -> StackOp,
                       ghost universe: set<Layer>)
      requires forall l :: l in list ==> l in universe
      requires forall y :: react(y).PushOp? ==> react(y).layer in universe
      modifies this`list, this`shown, active`hidden, active`calls
      ensures forall l :: l in list ==> l in universe
      ensures var d := Deliver(active, active.hooks, old(list), KeyInputs(keyCalls), react);
        && list == d.list
        && shown == old(shown) + d.shown
        && active.calls == RecordAll(old(active.calls), active.hooks, d.delivered)
        && active.hidden == (old(active.hidden) || AnyChange(d.delivered, react))
    {
      ghost var xs: seq<Input> := [];
      for i := 0 to |keyCalls|
        invariant forall l :: l in list ==> l in universe
        invariant xs == KeyInputs(keyCalls[..i])
        invariant var d := Deliver(active, active.hooks, old(list), xs, react);
          && list == d.list
          && shown == old(shown) + d.shown
          && active.calls == RecordAll(old(active.calls), active.hooks, d.delivered)
          && active.hidden == (old(active.hidden) || AnyChange(d.delivered, react))
      {
        var x := KeyInput(keyCalls[i].0, keyCalls[i].1);
        DeliverOne(active, x, old(list), old(active.calls), old(active.hidden), old(shown), xs, react, universe);
        assert keyCalls[..i + 1][..i] == keyCalls[..i];
        xs := xs + [x];
      }
      assert keyCalls[..|keyCalls|] == keyCalls;
    }

    /**
     * The mouse part of the loop: `mouseSerializer.process` with the guarded handlers, each
     * position first taken to layer coordinates by the frame's transform `t`.
     */
    method DeliverMouse(active: Layer, mouseCalls: seq<MouseCall>, t: array2<real>,
                        width: real, height: real, left: real, top: real, react: Input -> StackOp, ghost universe: set<Layer>)
      requires width > 0.0 && height > 0.0
      requires IsFrameTransform(t, width, height)
      requires forall l :: l in list ==> l in universe
      requires forall y :: react(y).PushOp? ==> react(y).layer in universe
      modifies this`list, this`shown, active`hidden, active`calls
      ensures forall l :: l in list ==> l in universe
      ensures var xs := MouseInputs(mouseCalls, width, height, left, top);
        var d := Deliver(active, active.hooks, old(list), xs, react);
        && list == d.list
        && shown == old(shown) + d.shown
        && active.calls == RecordAll(old(active.calls), active.hooks, d.delivered)
        && active.hidden == (old(active.hidden) || AnyChange(d.delivered, react))
    {
      ghost var xs: seq<Input> := [];
      for i := 0 to |mouseCalls|
        invariant forall l :: l in list ==> l in universe
        invariant xs == MouseInputs(mouseCalls[..i], width, height, left, top)
        invariant var d := Deliver(active, active.hooks, old(list), xs, react);
          && list == d.list
          && shown == old(shown) + d.shown
          && active.calls == RecordAll(old(active.calls), active.hooks, d.delivered)
          && active.hidden == (old(active.hidden) || AnyChange(d.delivered, react))
      {
        var x := LocalInput(mouseCalls[i], t, width, height, left, top);
        DeliverOne(active, x, old(list), old(active.calls), old(active.hidden), old(shown), xs, react, universe);
        assert mouseCalls[..i + 1][..i] == mouseCalls[..i];
        xs := xs + [x];
      }
      assert mouseCalls[..|mouseCalls|] == mouseCalls;
    }

    /** A mouse call with its position taken to layer coordinates by the frame's transform. */
    method LocalInput(c: MouseCall, t: array2<real>, width: real, height: real, left: real, top: real)
      returns (x: Input)
      requires width > 0.0 && height > 0.0
      requires IsFrameTransform(t, width, height)
      ensures x == MouseInput(c, width, height, left, top)
    {
      FrameTransformIsLocal(width, height, c.x - left, c.y - top);
      var p := Transform2D.TransformPoint(t, c.x - left, c.y - top);
      x := if c.ButtonCall? then ButtonInput(c.button, c.pressed, p.value.0, p.value.1)
           else MoveInput(p.value.0, p.value.1);
    }

    /**
     * One iteration of `loop` at time `now`, for a canvas whose client rectangle starts at
     * (left, top). The queued input goes, keys first, to the layer on top at the start of
     * the frame while it stays on top; that layer is updated; if it was hidden, the layer
     * now on top has its timer reset and its `hidden` flag cleared. No other layer of
     * `universe` changes.
     */
    method Frame(now: real, width: real, height: real, left: real, top: real, react: Input -> StackOp, ghost universe: set<Layer>)
      returns (r: FrameEnd)
      requires Valid() && width > 0.0 && height > 0.0
      requires forall l :: l in list ==> l in universe
      requires forall y :: react(y).PushOp? ==> react(y).layer in universe
      requires list != [] ==> Distinct(list[0].entities)
      requires list != [] && Delta(list[0].lastUpdate, now).Some? ==>
                 Updatable(StatesOf(list[0].entities), Delta(list[0].lastUpdate, now).value)
      modifies this`list, this`shown, keys`codes, keys`states, mouse`events, mouse`payloads
      modifies universe`hidden, universe`lastUpdate, (if list == [] then {} else {list[0]})`calls
      modifies if list == [] then [] else list[0].entities
      ensures old(list) == [] ==> r == Idle && list == [] && shown == old(shown) && unchanged(keys, mouse)
      ensures old(list) != [] ==> FrameWith(old(list)[0], now, width, height, left, top, react, r)
      ensures forall l :: l in universe && (old(list) == [] || l != old(list)[0]) && (list == [] || l != list[0]) ==>
                l.hidden == old(l.hidden) && l.lastUpdate == old(l.lastUpdate)
    {
      if list == [] {
        r := Idle;
        return;
      }
      r := ActiveFrame(now, width, height, left, top, react, universe);
    }

    /** `loop` when there is a layer on top. */
    method ActiveFrame(now: real, width: real, height: real, left: real, top: real, react: Input -> StackOp,
                       ghost universe: set<Layer>) returns (r: FrameEnd)
      requires Valid() && width > 0.0 && height > 0.0 && list != []
      requires forall l :: l in list ==> l in universe
      requires forall y :: react(y).PushOp? ==> react(y).layer in universe
      requires Distinct(list[0].entities)
      requires Delta(list[0].lastUpdate, now).Some? ==>
                 Updatable(StatesOf(list[0].entities), Delta(list[0].lastUpdate, now).value)
      modifies this`list, this`shown, keys`codes, keys`states, mouse`events, mouse`payloads
      modifies universe`hidden, universe`lastUpdate, {list[0]}`calls, list[0].entities
      ensures FrameWith(old(list)[0], now, width, height, left, top, react, r)
      ensures forall l :: l in universe && l != old(list)[0] && (list == [] || l != list[0]) ==>
                l.hidden == old(l.hidden) && l.lastUpdate == old(l.lastUpdate)
    {
      var activeLayer := list[0];
      ghost var states0, last0 := StatesOf(activeLayer.entities), activeLayer.lastUpdate;
      HandleInput(activeLayer, width, height, left, top, react, universe);
      StatesKept(activeLayer.entities);
      assert StatesOf(activeLayer.entities) == states0 && activeLayer.lastUpdate == last0;
      r := UpdateAndDraw(activeLayer, now);
    }

    /**
     * What one iteration of `loop` at time `now` did, for a canvas of the given size whose client
     * rectangle starts at (left, top), when `active` was on top at its start. The queued input
     * went, keys first, to `active` while it stayed on top, and the queues are empty; the
     * pushes and pops it caused showed their layers in order; `active` was updated; if it got
     * hidden, the layer now on top has its timer reset and its `hidden` flag cleared, and
     * otherwise the stack is as it was; when `active` is no longer on top it keeps the timer
     * `now` and the flag it got.
     */
    twostate predicate FrameWith(active: Layer, now: real, width: real, height: real, left: real, top: real,
                                 react: Input -> StackOp, new r: FrameEnd)
      requires old(Valid()) && width > 0.0 && height > 0.0
      reads this, keys, mouse, list, active, active.entities
    {
      var xs := FrameInputs(old(keys.codes), old(keys.states), old(mouse.events), old(mouse.payloads),
                            width, height, left, top);
      var d := Deliver(active, active.hooks, old(list), xs, react);
      var wasHidden := old(active.hidden) || AnyChange(d.delivered, react);
      && keys.codes == [] && keys.states == [] && mouse.events == [] && mouse.payloads == []
      && list == d.list
      && shown == old(shown) + d.shown
      && active.calls == RecordAll(old(active.calls), active.hooks, d.delivered)
      && StatesOf(active.entities) == Stepped(old(StatesOf(active.entities)), Delta(old(active.lastUpdate), now))
      && r == (if list == [] then Halted else Drawn(list[0]))
      && (list != [] && wasHidden ==> list[0].lastUpdate == None && !list[0].hidden)
      && (!wasHidden ==> list == old(list) && active.lastUpdate == Some(now) && !active.hidden)
      && (list == [] || list[0] != active ==> active.lastUpdate == Some(now) && active.hidden == wasHidden)
    }

    /** The input half of the frame, for the layer `active` on top at its start. */
    method HandleInput(active: Layer, width: real, height: real, left: real, top: real,
                       react: Input -> StackOp, ghost universe: set<Layer>)
      requires Valid() && width > 0.0 && height > 0.0 && list != [] && list[0] == active
      requires forall l :: l in list ==> l in universe
      requires forall y :: react(y).PushOp? ==> react(y).layer in universe
      modifies this`list, this`shown, keys`codes, keys`states, mouse`events, mouse`payloads
      modifies active`hidden, active`calls
      ensures Valid()
      ensures forall l :: l in list ==> l in universe
      ensures keys.codes == [] && keys.states == [] && mouse.events == [] && mouse.payloads == []
      ensures var xs := FrameInputs(old(keys.codes), old(keys.states), old(mouse.events), old(mouse.payloads),
                                    width, height, left, top);
        var d := Deliver(active, active.hooks, old(list), xs, react);
        && list == d.list
        && shown == old(shown) + d.shown
        && active.calls == RecordAll(old(active.calls), active.hooks, d.delivered)
        && active.hidden == (old(active.hidden) || AnyChange(d.delivered, react))
        && (!AnyChange(d.delivered, react) ==> list == old(list))
    {
      ghost var h := active.hooks;
      ghost var xs := KeyInputs(KeyCalls(keys.codes, keys.states));
      ghost var ys := MouseInputs(MouseCalls(mouse.events, mouse.payloads), width, height, left, top);
      ghost var list0, calls0, shown0 := list, active.calls, shown;
      ghost var d1 := Deliver(active, h, list0, xs, react);
      ghost var d2 := Deliver(active, h, d1.list, ys, react);
      DeliverInTwo(active, h, list0, calls0, xs, ys, react);
      HandleKeys(active, react, universe);
      HandleMouse(active, width, height, left, top, react, universe);
      AppendAssoc(shown0, d1.shown, d2.shown);
    }

    /** `keySerializer.process(...)`: the queued keys go through the guard to `active`. */
    method HandleKeys(active: Layer, react: Input -> StackOp, ghost universe: set<Layer>)
      requires Valid()
      requires forall l :: l in list ==> l in universe
      requires forall y :: react(y).PushOp? ==> react(y).layer in universe
      modifies this`list, this`shown, keys`codes, keys`states, active`hidden, active`calls
      ensures Valid()
      ensures forall l :: l in list ==> l in universe
      ensures keys.codes == [] && keys.states == []
      ensures var xs := KeyInputs(KeyCalls(old(keys.codes), old(keys.states)));
        var d := Deliver(active, active.hooks, old(list), xs, react);
        && list == d.list
        && shown == old(shown) + d.shown
        && active.calls == RecordAll(old(active.calls), active.hooks, d.delivered)
        && active.hidden == (old(active.hidden) || AnyChange(d.delivered, react))
    {
      var keyCalls := keys.Process();
      DeliverKeys(active, keyCalls, react, universe);
    }

    /**
     * `mouseSerializer.process(...)`: the queued mouse events, taken to layer coordinates for a
     * canvas of the given size, go through the guard to `active`.
     */
    method HandleMouse(active: Layer, width: real, height: real, left: real, top: real,
                       react: Input -> StackOp, ghost universe: set<Layer>)
      requires Valid() && width > 0.0 && height > 0.0
      requires forall l :: l in list ==> l in universe
      requires forall y :: react(y).PushOp? ==> react(y).layer in universe
      modifies this`list, this`shown, mouse`events, mouse`payloads, active`hidden, active`calls
      ensures Valid()
      ensures forall l :: l in list ==> l in universe
      ensures mouse.events == [] && mouse.payloads == []
      ensures var xs := MouseInputs(MouseCalls(old(mouse.events), old(mouse.payloads)), width, height, left, top);
        var d := Deliver(active, active.hooks, old(list), xs, react);
        && list == d.list
        && shown == old(shown) + d.shown
        && active.calls == RecordAll(old(active.calls), active.hooks, d.delivered)
        && active.hidden == (old(active.hidden) || AnyChange(d.delivered, react))
    {
      ScaleFits(width, height);
      var transform := Transform2D.FrameTransform(width, height, 1.0 / GetScale(width, height));
      var mouseCalls := mouse.Process();
      DeliverMouse(active, mouseCalls, transform, width, height, left, top, react, universe);
    }

    /**
     * The rest of the frame: `active` is updated and the new top is drawn (when there is none,
     * `draw` is called on `undefined` and the loop stops); if `active` got hidden, the new top
     * has its timer reset and its `hidden` flag cleared.
     */
    method UpdateAndDraw(active: Layer, now: real) returns (r: FrameEnd)
      requires Distinct(active.entities)
      requires Delta(active.lastUpdate, now).Some? ==>
                 Updatable(StatesOf(active.entities), Delta(active.lastUpdate, now).value)
      modifies active`lastUpdate, active.entities
      modifies (if list == [] then {} else {list[0]})`lastUpdate, (if list == [] then {} else {list[0]})`hidden
      ensures StatesOf(active.entities) == Stepped(old(StatesOf(active.entities)), Delta(old(active.lastUpdate), now))
      ensures unchanged(keys, mouse)
      ensures r == (if list == [] then Halted else Drawn(list[0]))
      ensures list != [] && old(active.hidden) ==> list[0].lastUpdate == None && !list[0].hidden
      ensures !old(active.hidden) ==> active.lastUpdate == Some(now) && active.hidden == old(active.hidden)
      ensures list == [] || list[0] != active ==> active.lastUpdate == Some(now) && active.hidden == old(active.hidden)
      ensures list != [] && !old(active.hidden) && list[0] != active ==> unchanged(list[0])
      ensures forall l: Layer :: old(allocated(l)) && l != active && (list == [] || l != list[0]) ==>
                l.hidden == old(l.hidden) && l.lastUpdate == old(l.lastUpdate)
    {
      active.Update(now);
      label Updated:
      if list == [] {
        r := Halted;
        return;
      }
      var top := list[0];
      r := Drawn(top);
      if active.hidden {
        top.lastUpdate := None;
        top.hidden := false;
        StatesKept@Updated(active.entities);
      }
    }
  }
}
