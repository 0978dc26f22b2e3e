/**
 * `Layers`: a layer is an ordered list of entities together with the hooks game code gives
 * it (key handlers, `shown`, mouse handlers). Each frame it works out a time step from its
 * own `lastUpdate` and updates its entities with it.
 */
module Layers {
  import opened Wrappers
  import opened Scene
  import Events

  /**
   * The optional members game code sets on a layer: the `keyPressedHandlers` table (a
   * missing table behaves as an empty one; handlers are told apart by number), `shown`,
   * `mouseButtonPressed` and `mouseMoved`.
   */
  datatype Hooks = Hooks(keyHandlers: map<string, nat>, hasShown: bool,
                         hasMouseButton: bool, hasMouseMoved: bool)

  /** The input handler calls a layer has received, oldest first. */
  datatype Calls = Calls(keys: seq<(nat, bool)>, buttons: seq<(int, bool, real, real)>,
                         moves: seq<(real, real)>)

  /** The largest step a layer takes at once, and the step it takes instead of a larger one. */
  const MaxStep: real := 100.0
  const ClampedStep: real := 50.0

  /**
   * The step `update` uses at time `now`: none before the first update or when the clock
   * has not moved on; otherwise the time since the last update, replaced by 50 ms when it
   * exceeds 100 ms.
   */
  function Delta(lastUpdate: Option<real>, now: real): (r: Option<real>)
    ensures r.Some? <==> lastUpdate.Some? && lastUpdate.value < now
    ensures r.Some? ==> 0.0 < r.value <= MaxStep
    ensures r.Some? && now - lastUpdate.value <= MaxStep ==> r.value == now - lastUpdate.value
    ensures r.Some? && now - lastUpdate.value > MaxStep ==> r.value == ClampedStep
  {
    if lastUpdate.Some? && lastUpdate.value < now then
      var ms := now - lastUpdate.value;
      Some(if ms > MaxStep then ClampedStep else ms)
    else None
  }

  /** The entity states after an update with `step`: unchanged when there is none. */
  ghost function Stepped(ss: seq<EntityState>, step: Option<real>): seq<EntityState>
  {
    match step
    case None => ss
    case Some(ms) => UpdatedAll(ss, ms)
  }

  /** `addEntity` followed by `removeEntity` of an entity not yet listed restores the list. */
  lemma {:induction false} AddThenRemove(s: seq<Entity>, e: Entity)
    requires e !in s
    ensures Events.RemoveFirst(s + [e], e) == s
  {
    if s != [] {
      assert (s + [e])[1..] == s[1..] + [e];
      AddThenRemove(s[1..], e);
      assert [s[0]] + s[1..] == s;
    }
  }

  /** Removing an entity keeps the others in their order and takes out one copy of it. */
  lemma RemoveKeepsOthers(s: seq<Entity>, e: Entity)
    ensures multiset(Events.RemoveFirst(s, e)) == multiset(s) - multiset{e}
    ensures var k := Events.FirstIndex(s, e);
      Events.RemoveFirst(s, e) == if k < |s| then s[..k] + s[k + 1..] else s
  {
    Events.RemoveFirstMultiset(s, e);
    Events.RemoveFirstSplits(s, e);
  }

  class Layer {
    var entities: seq<Entity>
    var lastUpdate: Option<real>
    var hidden: bool
    const hooks: Hooks
    // Calls into the game's input handlers (its `shown` calls are logged, in order, by the engine).
    var calls: Calls

    /** `new Layer()` with the hooks game code then sets on it. */
    constructor (hooks: Hooks)
      ensures entities == [] && lastUpdate == None && !hidden && this.hooks == hooks
      ensures calls == Calls([], [], [])
    {
      entities := [];
      lastUpdate := None;
      hidden := false;
      this.hooks := hooks;
      calls := Calls([], [], []);
    }

    method AddEntity(entity: Entity) returns (r: Entity)
      modifies this`entities
      ensures r == entity && entities == old(entities) + [entity]
    {
      entities := entities + [entity];
      r := entity;
    }

    /** `removeEntity`: the first identical entity, if any, is spliced out. */
    method RemoveEntity(entity: Entity)
      modifies this`entities
      ensures entities == Events.RemoveFirst(old(entities), entity)
    {
      Events.RemoveFirstSplits(entities, entity);
      var entityCount := |entities|;
      var i := 0;
      while i < entityCount
        invariant 0 <= i <= entityCount == |entities|
        invariant entities == old(entities)
        invariant forall j :: 0 <= j < i ==> entities[j] != entity
      {
        if entities[i] == entity {
          assert Events.FirstIndex(entities, entity) == i;
          entities := entities[..i] + entities[i + 1..];
          break;
        }
        i := i + 1;
      }
    }

    /**
     * `update()` at time `now`: with a step, every entity whose `update` slot is set is
     * updated once with it; in every case `lastUpdate` becomes `now`.
     */
    method Update(now: real)
      requires Distinct(entities)
      requires Delta(lastUpdate, now).Some? ==> Updatable(StatesOf(entities), Delta(lastUpdate, now).value)
      modifies this`lastUpdate, entities
      ensures lastUpdate == Some(now)
      ensures StatesOf(entities) == Stepped(old(StatesOf(entities)), Delta(old(lastUpdate), now))
    {
      if lastUpdate.Some? && lastUpdate.value < now {
        var ms := now - lastUpdate.value;
        if ms > MaxStep {
          ms := ClampedStep;
        }
        UpdateEach(ms);
      }
      lastUpdate := Some(now);
    }

    /** `forEachEntity` with `if (entity.update) entity.update(ms)`. */
    method UpdateEach(ms: real)
      requires Distinct(entities) && Updatable(StatesOf(entities), ms)
      modifies entities
      ensures StatesOf(entities) == UpdatedAll(old(StatesOf(entities)), ms)
    {
      ghost var olds := StatesOf(entities);
      var entityCount := |entities|;
      for i := 0 to entityCount
        invariant entityCount == |entities| == |olds|
        invariant StatesIn(entities, 0, i) == UpdatedAll(olds[..i], ms)
        invariant StatesIn(entities, i, |entities|) == olds[i..]
      {
        UpdateOne(i, ms, olds);
      }
      assert olds[..entityCount] == olds;
    }

    /** One pass of that loop: `entities[i]` is updated, the others keep their states. */
    method UpdateOne(i: nat, ms: real, ghost olds: seq<EntityState>)
      requires i < |entities| == |olds| && Distinct(entities) && Updatable(olds, ms)
      requires StatesIn(entities, 0, i) == UpdatedAll(olds[..i], ms)
      requires StatesIn(entities, i, |entities|) == olds[i..]
      modifies entities[i]
      ensures StatesIn(entities, 0, i + 1) == UpdatedAll(olds[..i + 1], ms)
      ensures StatesIn(entities, i + 1, |entities|) == olds[i + 1..]
    {
      StatesAhead(entities, olds, i);
      UpdatableAt(olds, ms, i);
      DistinctOthers(entities, i);
      UpdatedAllSnoc(olds, ms, i);
      UpdateAt(entities[i], ms, entities, olds, UpdatedAll(olds[..i], ms), i);
    }

    /** `keyPressed(key, pressed)`: the handler for `key`, if there is one, is called. */
    method KeyPressed(key: string, pressed: bool) returns (handled: bool)
      modifies this`calls
      ensures handled <==> key in hooks.keyHandlers
      ensures calls == old(calls).(keys := old(calls.keys) +
                                    if handled then [(hooks.keyHandlers[key], pressed)] else [])
    {
      handled := key in hooks.keyHandlers;
      if handled {
        calls := calls.(keys := calls.keys + [(hooks.keyHandlers[key], pressed)]);
      }
    }

    /** A call of the game's `mouseButtonPressed`. */
    method MouseButtonPressed(button: int, pressed: bool, x: real, y: real)
      modifies this`calls
      ensures calls == old(calls).(buttons := old(calls.buttons) + [(button, pressed, x, y)])
    {
      calls := calls.(buttons := calls.buttons + [(button, pressed, x, y)]);
    }

    /** A call of the game's `mouseMoved`. */
    method MouseMoved(x: real, y: real)
      modifies this`calls
      ensures calls == old(calls).(moves := old(calls.moves) + [(x, y)])
    {
      calls := calls.(moves := calls.moves + [(x, y)]);
    }
  }
}
