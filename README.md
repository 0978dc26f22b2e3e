# Radius, the AvoisionJS engine, in Dafny

This project models **Radius**, the small browser game engine that AvoisionJS is built on
(`js/radius.js`), and its form layer (`js/radius-ui.js`). It also proves properties of the model.

The engine parts modelled:

- **`Event`**: an ordered list of listener callbacks. While `fire` runs, the list is locked.
  Removals made from inside a callback are queued and applied after the loop. Additions are
  appended at once, but the running loop does not reach them.
- **`Transform2D`**: 3x3 homogeneous matrices held in arrays and built in place by
  `multiply`, `translate` and `scale`, plus point transformation.
- **`Entity`**: a node with a pose and children. `updateChildren` updates every child and
  splices out those that are dead afterwards.
- **`ScriptedEntity`**: a keyframe animator. `update(ms)` advances a timer, crosses at most one
  step boundary, interpolates the pose linearly and, at the end of a non-repeating script,
  clears its `update` slot and runs its `endedCallback`.
- **`Ghost`**: a two-keyframe fade/scale script that marks itself dead when it ends.
- **`Layer`**: an entity list with its own `lastUpdate` clock. The per-frame step is clamped
  (more than 100 ms becomes 50 ms). Key handlers are looked up by key name.
- **The serializers**: key and mouse events are queued between frames and drained in arrival
  order by `process`.
- **The `Radius` singleton**: a layer stack (`pushLayer`, `popLayer`), the per-frame loop,
  `getScale` and `wrapText`. The loop:
  - hands the queued input to the layer that was on top at the start of the frame, and only
    while that layer stays on top;
  - maps mouse positions to layer coordinates through the frame transform;
  - updates that layer;
  - resets the timer of the layer now on top when the starting layer got hidden during the
    frame.

The form layer parts modelled:

- **`Label` and `Button`**: positioned widgets. A button can be switched on and off and shows
  focus by the colour of its text.
- **`Form`**:
  - lays its widgets out in rows of `columns` (`layoutInternal`). As written, the first pass's
    `column = column++ % columns` leaves `column` at 0, so column 0 is as wide as the widest
    widget, every other column starts at 0, and every widget opens a row of its own height;
  - moves the input focus among the active widgets (`changeFocus`, `moveFocusUp`,
    `moveFocusDown`);
  - activates the focused widget;
  - lays itself out again when its position, width or contents change.

The source is imperative, so the model is too:

- Each object the source updates in place is a `class` whose methods carry `modifies` clauses.
- Its loops are `while`/`for` loops with invariants.
- Each method is proved against a specification function, and lemmas state the properties of
  those functions.

Dafny modules, one per component:

- `Wrappers` (`Option`)
- `Events`
- `Transform2D`
- `Scene` (Entity, ScriptedEntity, Ghost)
- `Layers`
- `Engine` (serializers, layer stack, frame loop, `getScale`)
- `TextWrap` (`wrapText`)
- `Ui` (Label, Button, Form)

Outside collaborators become parameters or logs:

- `Date.now()` is the `now` argument of `Layer.Update`.
- The canvas size and its client rectangle are arguments of `Radius.Frame`.
- `getTextWidth` is an oracle: the `measure` function of `wrapText`, and a widget's
  `minimumWidth`.
- Calls into game code (key and mouse handlers, an entity's own `update`, `endedCallback`,
  `ghostEnded`, `activated`) are logged on the object that receives them. The layers whose `shown` runs are logged, in
  call order, on the engine.
- What an input handler does to the layer stack is the `react` argument: one push, one pop
  or nothing, given by the input.
- What a listener does to its own event while it fires is the `reentry` argument: a list of
  additions and removals.
- Coordinates and times are `real`.

## Model

| member | source | states |
|---|---|---|
| Events.Event.constructor | js/radius.js:1-5 | a new event has no callbacks, is unlocked and has no queued removal |
| Events.Event.AddListener | js/radius.js:10-12 | the callback is appended and the lock and removal queue are untouched |
| Events.Event.RemoveListener | js/radius.js:14-32 | while locked the removal is queued and the list kept; otherwise the first identical callback is taken out |
| Events.RemoveFirst | js/radius.js:22-30 | the unlocked removal shortens the list by one exactly when the callback is in it |
| Events.FirstIndex | js/radius.js:22-30 | the index the removal scan stops at: the first match, with no match before it, or the length when there is none |
| Events.RemoveFirstSplits | js/radius.js:22-30 | the unlocked removal keeps everything before and after the first match, in order, and changes nothing without a match |
| Events.RemoveFirstMultiset | js/radius.js:22-30 | exactly one copy of the callback leaves the list and the others stay |
| Events.RemoveFirstOfSingle | js/radius.js:22-30 | a callback registered once is gone after one removal |
| Events.Event.Fire | js/radius.js:34-53 | every callback present at the start is invoked once, in order, and callbacks added during the fire are not; afterwards the list is the start plus every addition, minus the removals requested, in request order; the event ends unlocked with an empty queue |
| Events.Event.Reenter | js/radius.js:36-40 | what one callback does to its locked event: additions are appended at once, removals are queued |
| Events.Event.FlushRemovals | js/radius.js:44-52 | the queued removals are applied one by one, in order, and the queue is dropped |
| Events.RemoveEachMultiset | js/radius.js:44-52 | applying queued removals that are all present takes out exactly those copies |
| Transform2D.CreateIdentity | js/radius.js:58-62 | a fresh 3x3 array holding the identity matrix |
| Transform2D.Copy | js/radius.js:64-72 | a fresh array holding the same matrix |
| Transform2D.Multiply | js/radius.js:74-85 | `result` holds the matrix product b·a (entry (i, j) sums a[x][j]·b[i][x]) |
| Transform2D.MulApply | js/radius.js:74-85 | applying a product to a vector applies its right factor first |
| Transform2D.LastRowAffine | js/radius.js:74-103 | products of matrices whose last row is (0, 0, 1) keep that last row |
| Transform2D.Translate | js/radius.js:87-94 | `translate` ignores its `result` argument, overwrites `transform` with T(x, y)·transform and returns it |
| Transform2D.Scale | js/radius.js:96-103 | `scale` fills `result`, which may be `transform` itself, with S(sx, sy)·transform and returns it |
| Transform2D.TranslationAndScalingMapPoints | js/radius.js:87-103 | a translation moves a point by (dx, dy); a scaling multiplies it by (sx, sy) |
| Transform2D.ScaleThenTranslate | js/radius.js:87-103 | identity, then `scale`, then `translate` maps (x, y) to (sx·x + dx, sy·y + dy) |
| Transform2D.TranslateThenScale | js/radius.js:87-103 | identity, then `translate`, then `scale` maps (x, y) to (sx·(x + dx), sy·(y + dy)) |
| Transform2D.ScaleTranslateRoundTrip | js/radius.js:87-103 | scaling by (1/sx, 1/sy) after translating by (−dx, −dy) undoes a scale-then-translate |
| Transform2D.TransformHomogeneous | js/radius.js:105-115 | the result is the matrix applied to the homogeneous vector |
| Transform2D.TransformPoint | js/radius.js:117-120 | the Cartesian image of (x, y) after the homogeneous divide |
| Transform2D.MapPointAffine | js/radius.js:117-120 | for a matrix whose last row is (0, 0, 1) the divide is by 1, so the point is the first two coordinates |
| Transform2D.FrameTransform | js/radius.js:798-801 | the loop's mouse transform is the frame matrix for half the canvas size and 1/`getScale()` |
| Transform2D.FrameMatrixMapsPoints | js/radius.js:798-808 | the frame matrix maps (cx, cy) to (k·(cx − w/2), k·(h/2 − cy)) |
| Layers.Delta | js/radius.js:247-256 | a step exists exactly when `lastUpdate` is set and earlier than `now`; it is the time since then, or 50 ms when that exceeds 100 ms, and always in (0, 100] |
| Layers.Layer.constructor | js/radius.js:216-218 | a new layer has no entities, no `lastUpdate`, is not hidden and has received no calls |
| Layers.Layer.AddEntity | js/radius.js:223-226 | the entity is appended and returned |
| Layers.Layer.RemoveEntity | js/radius.js:228-237 | the first identical entity, if any, is spliced out |
| Layers.AddThenRemove | js/radius.js:223-237 | removing an entity just added (and not listed before) restores the list |
| Layers.RemoveKeepsOthers | js/radius.js:228-237 | removal keeps the other entities in order and takes out one copy |
| Layers.Layer.Update | js/radius.js:247-266 | with a step, every entity whose `update` slot is set is updated once with it; without one, no entity changes; in every case `lastUpdate` becomes `now` |
| Layers.Layer.UpdateEach | js/radius.js:239-245 | each entity ends in its old state updated once with `ms`, in order |
| Layers.Layer.UpdateOne | js/radius.js:258-262 | one pass of that loop: entity i is updated and every other entity keeps its state |
| Layers.Layer.KeyPressed | js/radius.js:268-275 | the handler registered for the key, if there is one, is called once with `pressed`; `handled` says whether one was |
| Layers.Layer.MouseButtonPressed | js/radius.js:809 | one call of the game's `mouseButtonPressed`, logged |
| Layers.Layer.MouseMoved | js/radius.js:818 | one call of the game's `mouseMoved`, logged |
| Scene.Entity.constructor | js/radius.js:428-435 | a new entity at (x, y) whose unset (zero) width or height becomes 1, upright, with no children and the default update |
| Scene.Entity.Scripted | js/radius.js:477-500 | a scripted entity starts at step 0 with a zero timer, posed at its first keyframe |
| Scene.GhostSteps | js/radius.js:553-583 | a Ghost's script has two keyframes: an immediate one (duration 0) and one of `period` |
| Scene.GhostStart | js/radius.js:579-592 | a new Ghost is a non-repeating script posed at its first keyframe whose end callback is the Ghost's; for a positive period it is a well-formed script |
| Scene.Entity.Ghost | js/radius.js:553-593 | a new Ghost's state is `GhostStart` of the entity's pose and the arguments |
| Scene.Cross | js/radius.js:505-530 | the timer step leaves the keyframes alone; unless the script has ended, it leaves a current step with a start pose and a positive duration, or, exactly when a repeating script of one keyframe wraps, a step index past its last step |
| Scene.Entity.AdvanceTimer | js/radius.js:505-530 | the timer and step fields after the first half of `update` are `Cross` of the old state |
| Scene.Entity.RunEnded | js/radius.js:585-590 | the `endedCallback` run at the end of a script: a game callback is logged; a Ghost's callback marks the entity dead and calls `ghostEnded` if one was given |
| Scene.Entity.ScriptedUpdate | js/radius.js:504-551 | the update throws exactly when a repeating script of one keyframe crosses its boundary (the wrap to step 1 reads a missing step), leaving the crossed timer and step; otherwise the new state is one script step of the old state |
| Scene.OneStepRepeatThrows | js/radius.js:518-534 | a repeating script of one 100 ms keyframe, its timer at 0, throws on an update of 100 ms, which moves its step index to 1 with only step 0 present; from a timer of 10 ms an update of 50 ms does not throw |
| Scene.Entity.Update | js/radius.js:456-458 | a call of whatever the `update` slot holds: logged; a script step when it is the script's; a game `update` that marks the entity dead leaves it dead |
| Scene.GameUpdateDeath | js/radius.js:455-467 | after the children's pass, a child with a game `update` is dead exactly when it was or its update marked it, and that flag is the one `updateChildren` removes it by |
| Scene.InterpolateEnds | js/radius.js:532-540 | a step starts at its start pose (timer 0) and reaches its target after its duration |
| Scene.CrossesAtMostOne | js/radius.js:505-540 | below the current duration only the timer moves and the pose is interpolated; otherwise the remainder is kept and the script moves on exactly one step, wrapping to step 1 or ending after the last |
| Scene.NoCatchingUp | js/radius.js:507 | an update long enough to cover the next step too still leaves the script inside that next step, its timer at or past that step's duration |
| Scene.ScriptStepKeepsShape | js/radius.js:504-540 | a script keeps its keyframes and repeat flag; while its slot is set it has a start pose and any further update is defined |
| Scene.Completion | js/radius.js:518-528 | a script ends exactly when a non-repeating one crosses its last boundary; it is then posed at its last keyframe with its slot cleared, and the end callback has run once; otherwise no callback runs and `dead` is unchanged |
| Scene.GhostRun | js/radius.js:553-593 | a unit Ghost over 500 ms at scale 5 is three units wide at half opacity halfway through, and at the end is dead, posed at its final frame, having called `ghostEnded` once |
| Scene.Entity.RemoveChild | js/radius.js:440-449 | every index below the original length is visited once, and each match met is spliced out without stepping back |
| Scene.SpliceOne | js/radius.js:440-449 | with exactly one copy of the child, `removeChild` takes out that copy and nothing else |
| Scene.RemoveSkipsAdjacentCopy | js/radius.js:440-449 | of two adjacent copies, `removeChild` takes out the first and steps over the second, while copies with another child between them are both taken out |
| Scene.Entity.UpdateChildren | js/radius.js:451-470 | each child's state is its old state updated once; the children left are the survivors, those not dead after the update, in their order |
| Scene.Entity.VisitChild | js/radius.js:455-467 | one pass of that loop: the child is updated and removed exactly when it is then dead |
| Scene.Entity.RemoveAt | js/radius.js:462 | the removal inside the loop changes no entity's state |
| Scene.UpdateAt | js/radius.js:456-458 | the child at position p is updated and every other state is left alone |
| Scene.UpdateChild | js/radius.js:456-458 | `if (child.update) child.update(ms)`: an entity whose slot is cleared is left as it is |
| Scene.SurvivorsAreLive | js/radius.js:451-470 | every survivor is a live child, and every live child survives |
| Scene.KeepIsSurvivors | js/radius.js:451-470 | keeping the children whose dead flags are clear gives the survivors |
| Scene.UpdatedOnce | js/radius.js:456-458 | `update` is called once on every child whose slot is set, and never on the others |
| Scene.ClearedIsSkipped | js/radius.js:456-458 | a script whose `update` slot was cleared at its end (`this.update = undefined`) is never updated again |
| Engine.KeyName | js/radius.js:203-213 | exactly the nine codes 8, 9, 13, 27, 32, 37, 38, 39 and 40 have names |
| Engine.KeyNamesDiffer | js/radius.js:203-213 | different codes have different names |
| Engine.KeyCalls | js/radius.js:616-626 | one `keyPressed(name, pressed)` call per queued key, in arrival order |
| Engine.KeySerializer.constructor | js/radius.js:598-600 | the key queues start empty |
| Engine.KeySerializer.Queue | js/radius.js:602-614 | a key with a name is queued with its state; any other key is ignored |
| Engine.KeySerializer.Process | js/radius.js:616-626 | the calls are those of the queue, in arrival order, and the queue is emptied |
| Engine.ToCall | js/radius.js:676-687 | a down or up event becomes a button call, pressed exactly when down, with its position and button; a move becomes a move call with its position |
| Engine.MouseCalls | js/radius.js:670-691 | one call per queued mouse event, in arrival order |
| Engine.MouseSerializer.constructor | js/radius.js:642-644 | the mouse queues start empty |
| Engine.MouseSerializer.QueueButton | js/radius.js:652-662 | a down or up event is queued with position and button |
| Engine.MouseSerializer.QueueMove | js/radius.js:664-668 | a move is queued with its position |
| Engine.MouseSerializer.Process | js/radius.js:670-691 | the calls are those of the queue, in arrival order, and the queue is emptied |
| Engine.GetScale | js/radius.js:856-858 | the smaller of width/640 and height/480 |
| Engine.ScaleFits | js/radius.js:856-858 | the 640x480 area, scaled, fits the canvas and fills it in one direction |
| Engine.FrameTransformIsLocal | js/radius.js:798-808 | the frame transform maps a canvas pixel to layer coordinates: the centre is the origin, `getScale()` pixels make a unit, y grows upwards |
| Engine.Radius.LocalInput | js/radius.js:805-818 | a mouse call becomes an input at the layer coordinates of its canvas position |
| Engine.ApplyOp | js/radius.js:701-731 | a push puts the layer on top of the list; a pop removes the top, if any |
| Engine.PushThenPop | js/radius.js:701-731 | popping straight after a push leaves the stack as it was |
| Engine.Radius.constructor | js/radius.js:694-699 | the stack and both queues start empty |
| Engine.Radius.PushLayer | js/radius.js:701-713 | the old top, if any, is marked hidden and the layer goes on top; the layer is logged as shown exactly when it has a `shown` hook; no other layer changes |
| Engine.Radius.PopLayer | js/radius.js:715-731 | the top, if any, is marked hidden and removed; the new top is logged as shown exactly when there is one and it has a `shown` hook; no other layer changes |
| Engine.Radius.Perform | js/radius.js:701-731 | a handler's stack operation applied to the list; the old top is marked hidden unless the operation is nothing; the `shown` log grows by the layer the push or pop shows; no other layer changes |
| Engine.NoShownWithoutChange | js/radius.js:701-731 | without a push or pop among the delivered inputs, no layer's `shown` runs |
| Engine.KeyInputs | js/radius.js:787-791 | one key input per key call, in order |
| Engine.DeliverAppend | js/radius.js:787-820 | the input guard over two batches of input is the guard over their concatenation |
| Engine.DroppedOnceOff | js/radius.js:787-820 | once the frame's layer is no longer on top, the rest of the frame's input is dropped |
| Engine.DeliveredWhileStaying | js/radius.js:787-820 | while no handler changes the stack, every input the layer has a handler for is delivered |
| Engine.UnchangedWithoutChange | js/radius.js:787-820 | without a push or pop among the delivered inputs the stack is as it was |
| Engine.DeliveredAreHandled | js/radius.js:787-820 | only inputs the layer has handlers for are delivered, and only inputs of the frame |
| Engine.DeliverInTwo | js/radius.js:787-820 | delivering the keys and then the mouse input is delivering them together: same stack, same `shown` log, same calls, same change flag |
| Engine.DeliverStep | js/radius.js:787-820 | one more input through the guard: how the delivered inputs, the stack, the `shown` log, the calls and the change flag move on |
| Engine.MouseInputs | js/radius.js:803-820 | one input per mouse call, in order |
| Engine.Radius.Dispatch | js/radius.js:787-820 | an input reaches the frame's layer only while it is on top and has a handler for it; the handler is called, its stack operation applied and the layer it shows logged; only that layer's calls and flag can change |
| Engine.Radius.DeliverOne | js/radius.js:787-820 | one pass of either delivery loop keeps the delivery invariant |
| Engine.Radius.DeliverKeys | js/radius.js:787-791 | the key calls go through the guard in order: stack, `shown` log, calls and flag are the guard's over them |
| Engine.Radius.DeliverMouse | js/radius.js:803-820 | the mouse calls go through the guard in order, at layer coordinates: stack, `shown` log, calls and flag are the guard's over them |
| Engine.Radius.HandleInput | js/radius.js:787-820 | the queues are emptied; the frame's input (keys first, then mouse, each in arrival order) went through the guard; the layers its pushes and pops showed are logged in order; the layer's handler calls are those of the delivered inputs; it is hidden exactly when it was or a handler pushed or popped; without a push or pop the stack is unchanged; no other layer's calls, flag or timer change |
| Engine.Radius.HandleKeys | js/radius.js:787-791 | `keySerializer.process` with the guard: the key queue is emptied and its calls are delivered as `DeliverKeys` states |
| Engine.Radius.HandleMouse | js/radius.js:793-820 | the per-frame transform is built and `mouseSerializer.process` runs with the guard: the mouse queue is emptied and its calls are delivered at layer coordinates as `DeliverMouse` states |
| Engine.Radius.UpdateAndDraw | js/radius.js:822-836 | the frame's layer is updated with its own clock; the frame ends drawn with the layer now on top, or halted when none is left; if the frame's layer was hidden, the layer now on top has its `lastUpdate` cleared and `hidden` reset, and the frame's layer, when no longer on top, keeps `lastUpdate == now` and its flag; otherwise the frame's layer keeps `lastUpdate == now` and the top is untouched; every other layer keeps its flag and timer |
| Engine.Radius.ActiveFrame | js/radius.js:779-837 | one iteration of the loop with a layer on top: the input delivery above, with the layers shown logged in order, then the update and the end-of-frame reset; the starting layer, when no longer on top, keeps the timer `now` and the flag it ended the delivery with; only the starting layer's calls change, and no layer but the starting one and the new top changes its flag or timer |
| Engine.Radius.Frame | js/radius.js:778-840 | with no layer, nothing happens; otherwise the frame does what `ActiveFrame` states, including the starting layer's timer `now` when it is no longer on top, and no layer but the starting one and the new top changes its flag or timer |
| TextWrap.Slice | js/radius.js:880 | `text.slice(a, b)`: the characters from a up to b, empty when b is not after a |
| TextWrap.Step | js/radius.js:875-906 | each pass either moves `i` on or, at a back-off, clears `lastSeparator` and stays, so the loop ends |
| TextWrap.Wrap | js/radius.js:869-909 | empty text gives no lines |
| TextWrap.OneWord | js/radius.js:869-909 | a text with no space or newline comes back as its one line, however wide |
| TextWrap.BlankLines | js/radius.js:900-904 | a newline at `startIndex` emits an empty line |
| TextWrap.AsWrittenRepeats | js/radius.js:879-882 | as written, a separator kept from the line before a newline makes a later too-wide line back off into that earlier line: an empty line, then a line holding the newline and repeated text |
| TextWrap.FixedDoesNotRepeat | js/radius.js:879-882 | with `lastSeparator` cleared, the same text wraps into its two lines |
| TextWrap.WrapProperties | js/radius.js:869-909 | with the reset, no line holds a newline, a line that measures at least the limit is a single word (holds no space), and the lines hold the text but for spaces and newlines |
| TextWrap.WrapText | js/radius.js:869-909 | as written or with the reset, the loop's lines are `Wrap`'s; with the reset they also have the properties above |
| Ui.Widget.Label | js/radius-ui.js:3-9 | a new label is inactive, has no text colour, and is positioned at (0, 10) |
| Ui.Widget.Button | js/radius-ui.js:42-46 | a new button is active and white |
| Ui.Widget.SetPosition | js/radius-ui.js:17-24 | `getPosition()` then gives back the point set (the entity's y sits one label height lower) |
| Ui.Widget.SetActive | js/radius-ui.js:53-60 | `getActive()` then reflects the flag, with white text when on and gray when off |
| Ui.Widget.Focused | js/radius-ui.js:62-64 | a focused button is green |
| Ui.Widget.Unfocused | js/radius-ui.js:66-68 | an unfocused button is white |
| Ui.Widget.Activated | js/radius-ui.js:279 | one call of the widget's `activated` callback, logged |
| Ui.MaxOf | js/radius-ui.js:104-107 | the widest width, starting from 0: at least 0, an upper bound, and attained unless 0 |
| Ui.Cols | js/radius-ui.js:88 | `this.columns \|\| 1`: at least 1, and the columns when set |
| Ui.Padding | js/radius-ui.js:127-139 | no padding without a desired width; with `pad` the columns fill the desired width; without it, a positive padding is dropped but a negative one is still spread over the columns |
| Ui.ColumnWidths | js/radius-ui.js:97-139 | after the first pass and the padding, column 0 is the widest widget plus the padding and every other column is the padding alone |
| Ui.SlotOf | js/radius-ui.js:141-178 | every widget lands in a column below `columns` |
| Ui.NextSlot | js/radius-ui.js:149-164 | after the last column a new row starts at the left edge; otherwise the next column, one advance to the right |
| Ui.RowMajor | js/radius-ui.js:149-164 | widgets are placed row by row: row·columns + column is the widget's index |
| Ui.RowAtMost | js/radius-ui.js:149-164 | no widget gets a later row than its index |
| Ui.OneColumn | js/radius-ui.js:141-184 | with one column, widget i sits at (x, y − 10·i) and the form is 10 per widget high |
| Ui.ColumnsSum | js/radius-ui.js:119-123 | the padded columns add up to the widest widget plus the padding once per column |
| Ui.PadFills | js/radius-ui.js:128-139 | with `pad` and a desired width, the columns fill the desired width exactly |
| Ui.ComponentIndex | js/radius-ui.js:206-214 | the first index holding the widget, and none exactly when it is not in the form |
| Ui.ComponentIndexAt | js/radius-ui.js:206-214 | the first match found by the loop is the index |
| Ui.UpFrom | js/radius-ui.js:229-235 | the nearest active widget below the start, with none skipped; none when there is none |
| Ui.DownFrom | js/radius-ui.js:258-265 | the nearest active widget at or after the start, with none skipped; none when there is none |
| Ui.UpStart | js/radius-ui.js:221-226 | `moveFocusUp` starts at the focused widget, or past the last when nothing is focused |
| Ui.DownStart | js/radius-ui.js:250-255 | `moveFocusDown` starts after the focused widget; with nothing focused, past the end as written or at the first widget with the fix |
| Ui.NothingFocused | js/radius-ui.js:216-272 | with nothing focused, up finds the last active widget; down as written finds nothing, and with the fix it finds the first active widget |
| Ui.FocusWalk | js/radius-ui.js:216-272 | label, button, button, disabled button: down as written finds nothing; with the fix it reaches the first button, then the second, then nothing; up from the second reaches the first, then nothing |
| Ui.Form.constructor | js/radius-ui.js:70-82 | a new form at (x, y) with its desired size, no widgets and no focus |
| Ui.Form.LayoutInternal | js/radius-ui.js:87-185 | the minimum width is the widest widget's; the minimum height is one label height per row; every widget is at its row-major place |
| Ui.Form.MeasureColumns | js/radius-ui.js:88-117 | the first pass leaves `column` at 0: column 0 gets the widest widget, the others stay 0, and each widget makes a row of label height |
| Ui.Form.PadColumns | js/radius-ui.js:127-139 | every column gets the padding when a desired width is set |
| Ui.Form.AddPadding | js/radius-ui.js:136-138 | every column gets `padding` more |
| Ui.Form.Place | js/radius-ui.js:141-184 | the second pass puts every widget at its row-major place and returns the total height |
| Ui.Form.PlaceNext | js/radius-ui.js:149-177 | one pass of that loop keeps the placement invariant |
| Ui.Form.PlaceOne | js/radius-ui.js:168 | placing widget i leaves the widgets before it where they were |
| Ui.Form.ChangeFocus | js/radius-ui.js:187-200 | the node becomes the focused one; the old one is turned white and the new one green, when they are buttons; other colours are kept |
| Ui.Form.Focus | js/radius-ui.js:202-204 | the widget takes the focus |
| Ui.Form.Unfocused | js/radius-ui.js:363-365 | the form drops its focus |
| Ui.Form.GetComponentIndex | js/radius-ui.js:206-214 | the loop finds `ComponentIndex` |
| Ui.Form.ScanUp | js/radius-ui.js:229-235 | the `--i` loop finds `UpFrom` |
| Ui.Form.ScanDown | js/radius-ui.js:258-265 | the `++i` loop finds `DownFrom` |
| Ui.Form.MoveFocusUp | js/radius-ui.js:216-242 | the focus moves to the nearest active widget above, or to the last active one when nothing is focused, and is unchanged when there is none; the result is true exactly when one was found and it is not the old focus |
| Ui.Form.MoveFocusDown | js/radius-ui.js:244-272 | the focus moves to the nearest active widget below the focused one, and is unchanged when there is none; with nothing focused, as written nothing takes it and with `fixed` the first active widget does; the result is true exactly when one was found and it is not the old focus; only the old and new focus change colour |
| Ui.Form.Focused | js/radius-ui.js:358-361 | the form takes the focus by moving it down, and the old and new focus are recoloured as a focus change does; from no focus, as written the focus stays unset |
| Ui.Form.Activate | js/radius-ui.js:276-284 | handled exactly when the focused widget has `activated`, which is then called once; otherwise the widget is untouched |
| Ui.Form.GetActive | js/radius-ui.js:319-332 | true exactly when some widget is active |
| Ui.Form.Add | js/radius-ui.js:288-297 | the widget is appended and the form laid out again |
| Ui.Form.SetPosition | js/radius-ui.js:311-317 | a form moved to a new point is laid out again; a form set to its own position is unchanged |
| Ui.Form.SetSize | js/radius-ui.js:351-356 | a new or still unset desired width is taken and laid out; the same width changes nothing; the height is ignored |
| Ui.Form.GetMinimumSize | js/radius-ui.js:334-340 | the minimum size, laid out first while either minimum is still unset |
| Ui.Form.GetDesiredSize | js/radius-ui.js:342-349 | the desired width and height where set, the minimum ones otherwise |
| Ui.NewFlow | js/radius-ui.js:370-381 | a form whose widgets are those given, in order, and which is laid out once there is one |

## Left out

- Drawing is not modelled: `Layer.draw`/`drawEntity` and the `Rectangle`/`Image`/`Text`
  elements are canvas paint calls and image loading. The frame only says which layer it
  would draw.
- `Audio` and `AudioClip` are not part of this model. They are browser audio and
  `localStorage` wrappers.
- These are browser wiring and are not modelled: the DOM event registration in the
  serializers (their listeners become `Queue…` methods), `setFullscreen` and its resize
  handler, `initialize`, `start`, `requestAnimationFrame`, and `getBoundingClientRect`
  (its `left` and `top` are arguments of the frame).
- `js/main.js` is an earlier prototype and is not part of this model.
- `FormLayer` and `Form.setLayer`/`Label.setLayer` are not modelled. They are wiring between a
  form and a layer, and `FormLayer.keyPressed` calls `form.keyPressed`, which is a handler
  table, not a function.
- The form's own `keyPressed` handler table (`js/radius-ui.js:77-81`) is not modelled.
  `MoveFocusUp`, `MoveFocusDown` and `Activate` are modelled directly.
- Nested forms as widgets of a form are not modelled; a form's widgets are labels and buttons.
- `Form.getSize` is the same as `getDesiredSize`, and `Form.getPosition` returns `(x, y)`.
  Neither gets a member of its own.
- `Label.setSize` and `getSize` do nothing beyond `getMinimumSize`, so the layout's
  `setSize` calls on widgets are left out.
- The row sums `rowMinimumWidths` in `layoutInternal` are never read and are left out.
- `getTextWidth` is an oracle:
  - `wrapText` takes a `measure` function.
  - A widget's text width is its `minimumWidth`.
- Ui.Widget.Label and Ui.Widget.Button: `Label.getMinimumSize` (`js/radius-ui.js:30-32`)
  measures `this.font` and `this.text`, which nothing sets (the text and font go to the text
  element). In the source every label and button therefore measures the same value. The
  model gives each widget its own `minimumWidth`; the layout members hold for any widths, so
  also for equal ones.
- The `event` and `source` arguments of `changeFocus`, `moveFocus…` and `activate` are
  dropped. The widgets never read them.
- Scene.Entity.Update: the default `Entity.update` runs `updateChildren`. The model only logs
  that call and does not perform the recursion into grandchildren.
- Scene.Entity.UpdateChildren: requires distinct children and a parent that is not its own
  child. The source runs with duplicates too, updating a shared child more than once.
- Layers.Layer.Update: requires distinct entities, for the same reason.
- Ui.Form.Add: requires that the widget is not in the form yet, and the layout members
  (Ui.Form.LayoutInternal, Ui.Form.SetPosition, Ui.Form.SetSize, Ui.Form.GetMinimumSize,
  Ui.Form.GetDesiredSize, Ui.NewFlow) require distinct widgets. A widget listed twice would
  be placed twice, and the model states one position per widget.
- Transform2D.Multiply: requires `result` to differ from both factors. The source's callers
  always pass a fresh copy as `a` and a new matrix as `b`, and an aliased `result` would be
  read while it is written.
- Scene.Entity.Scripted and Scene.Entity.ScriptedUpdate:
  - The elements and colour a scripted entity copies are not modelled.
  - The first update must cross step 0, where `initialX` etc. are first set.
  - Every later step must have a positive duration, since the source divides by it.
  - Both are preconditions (`ScriptShape`, `CanUpdate`). A Ghost of positive period meets
    them.
- Scene.Entity.Update, Scene.Entity.UpdateChildren, Layers.Layer.Update and
  Engine.Radius.Frame: require every scripted entity to meet `ScriptInvariant`, which also
  asks a repeating script for at least two steps. Scene.Entity.ScriptedUpdate models the
  throw of a one-step repeating script; the exception leaving these loops and the frame is
  not modelled.
- The pose of a new `Entity` has an opacity of 1 where the source leaves it undefined
  (drawing and `Ghost` both read undefined as 1). Its `x` and `y` are always given.
- Scene.Entity.Update: a game `update` is logged and may mark the entity dead
  (`GameUpdate(dies)`); its other effects (moving the entity, replacing its `update` slot,
  touching other entities) are not modelled.
- Layers.Layer.Update: entity updates do not push or pop layers in the model. Game code run
  from `update` that changes the stack is not modelled.
- Layers.Layer.KeyPressed: the `handled` result does not exist in the source. It tells the
  frame whether a game handler ran, and so whether that handler's stack operation
  (`react`) applies.
- A missing `keyPressedHandlers` table is modelled as an empty one.
- Engine.KeySerializer.Process and Engine.MouseSerializer.Process return the calls to make
  instead of calling the handlers. The frame then makes them in the same order.
- Engine.Radius.Frame, Engine.Radius.HandleInput and Engine.Radius.Dispatch: a handler's
  effect on the stack is `react(x)`, one push, one pop or nothing, chosen by the input alone.
  A handler that pops and then pushes, or whose choice depends on game state, is not
  modelled.
- Engine.Radius.Frame, Engine.Radius.ActiveFrame, Engine.Radius.HandleInput,
  Engine.Radius.HandleMouse, Engine.Radius.DeliverMouse and Engine.Radius.LocalInput require
  a canvas of positive width and height. With a zero side the source's `getScale()` is 0 and
  the mouse transform scales by 1/0, giving infinite or NaN coordinates; those are not
  modelled.
- Events.Event.Fire: a listener can add and remove listeners, but a listener that fires its
  own event again is not modelled. In the source the inner `fire` unlocks the list, applies
  the queued removals and drops the queue while the outer loop still runs, so the outer loop
  can skip a callback or read past the shortened list.
- Events.Event.Fire: a listener that throws is not modelled. In the source the exception
  leaves the event locked with its pending removals queued, so every later
  `removeListener` is queued too until a fire completes.
- When the last layer is popped during a frame, the source calls `draw` on `undefined`, which
  throws and stops the loop. The model ends that frame as `Halted`.
- Transform2D.TransformPoint gives none where the homogeneous divide is by zero. JavaScript
  would give infinities or NaN there; the frame's matrix never divides by zero.
- Floating point is modelled as `real`, and `Date.now()` as the `now` argument.
- `Context.save`/`restore` around text measurement are not modelled.
- Where the engine's own documentation and its code differ, the model follows the code:
  - A scripted update crosses at most one keyframe boundary (an `if`, not a loop).
  - The key table has nine keys, with no `z`.
  - `popLayer` takes no argument.

## Findings

Ui.Form.MoveFocusDown, Ui.Form.Focused and TextWrap.WrapText take a flag `fixed`. With
`fixed` false they are the code as written; with `fixed` true they are the correction below.

| source | as written | input that shows it | evidently intended | confidence | as-written member | corrected member |
|---|---|---|---|---|---|---|
| js/radius.js:879-882 | after a line ends at a newline, `lastSeparator` keeps the separator of that earlier line | "a b\ncdefgh" with maxWidth 5 and one unit per character gives ["a b", "", "b\ncdefgh"] | clear `lastSeparator` when a line is pushed, giving ["a b", "cdefgh"] | not executed | TextWrap.AsWrittenRepeats | TextWrap.WrapText |
| js/radius-ui.js:250-255 | with nothing focused, `moveFocusDown` starts at `components.length`, so `++i < componentCount` fails at once and no widget takes the focus (nor through `Form.focused()`) | a form of a label, two buttons and a disabled button, nothing focused: `moveFocusDown()` leaves the focus unset | start at −1, so the first active widget (the first button) takes the focus | not executed | Ui.FocusWalk | Ui.Form.MoveFocusDown |
