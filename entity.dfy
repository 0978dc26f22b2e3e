/**
 * `Scene`: the engine's entities. An entity has a pose, may hold children, and is updated
 * once per frame by whatever its `update` slot holds: the default `Entity` update (which
 * updates its children), a `ScriptedEntity` keyframe script, game code, or nothing once a
 * non-repeating script has ended. A `Ghost` is a two-keyframe script that fades and scales
 * an entity and then marks itself dead.
 */
module Scene {
  import opened Wrappers

  /** The animated fields of an entity. */
  datatype Pose = Pose(x: real, y: real, width: real, height: real, angle: real, opacity: real)

  /** One script step: reach `target` after `duration` milliseconds. */
  datatype Keyframe = Keyframe(duration: real, target: Pose)

  /** What an entity's `update` slot holds. */
  datatype UpdateHook =
    | ChildrenUpdate  // Entity.prototype.update, which runs updateChildren
    | ScriptUpdate    // ScriptedEntity.prototype.update
    | GameUpdate(dies: bool)  // an update function supplied by game code, which marks the entity dead when `dies`
    | Cleared         // `update` set to undefined when a script ends

  /** What a script's `endedCallback` is. */
  datatype Ended = NoCallback | GameCallback | GhostCallback

  /** Everything about an entity, other than its children, that an update reads or changes. */
  datatype EntityState = EntityState(
    pose: Pose, dead: bool, hook: UpdateHook,
    steps: seq<Keyframe>, repeat: bool, ended: Ended, timer: real, stepIndex: nat,
    initial: Option<Pose>, hasGhostEnded: bool,
    updates: seq<real>, endedCalls: nat, ghostEndedCalls: nat)

  /** Linear motion from `a` towards `b`, reaching it after `d` milliseconds. */
  function Lerp(a: real, b: real, d: real, t: real): real
    requires d != 0.0
  {
    a + (b - a) / d * t
  }

  /** The pose `t` milliseconds into the step towards `step`, starting from `from`. */
  function Interpolate(from: Pose, step: Keyframe, t: real): Pose
    requires step.duration != 0.0
  {
    var d := step.duration;
    Pose(Lerp(from.x, step.target.x, d, t), Lerp(from.y, step.target.y, d, t),
         Lerp(from.width, step.target.width, d, t), Lerp(from.height, step.target.height, d, t),
         Lerp(from.angle, step.target.angle, d, t), Lerp(from.opacity, step.target.opacity, d, t))
  }

  /**
   * The shape a script has between updates: a current step, a start pose once the first
   * step has been crossed, and a nonzero duration on every step that is interpolated.
   */
  ghost predicate ScriptShape(s: EntityState)
  {
    && 1 <= |s.steps|
    && s.stepIndex < |s.steps|
    && (s.stepIndex >= 1 ==> s.initial.Some?)
    && (forall k :: 1 <= k < |s.steps| ==> s.steps[k].duration > 0.0)
  }

  /**
   * The shape a script keeps for ever: a repeating script also has a step 1 to wrap to.
   */
  ghost predicate ScriptInvariant(s: EntityState)
  {
    ScriptShape(s) && (s.repeat ==> |s.steps| >= 2)
  }

  /**
   * The update of `ms` milliseconds throws: a one-step repeating script that crosses its
   * only boundary wraps to step 1, which does not exist, and reading it fails.
   */
  predicate Throws(s: EntityState, ms: real)
  {
    s.repeat && |s.steps| == 1 && s.stepIndex == 0 && s.timer + ms >= s.steps[0].duration
  }

  /**
   * An update of `ms` milliseconds is defined: the slot holds a function, and a script
   * either has a start pose or is about to cross its first step (which records one).
   */
  ghost predicate CanUpdate(s: EntityState, ms: real)
  {
    && s.hook != Cleared
    && (s.hook == ScriptUpdate ==>
          ScriptInvariant(s) && (s.stepIndex >= 1 || s.timer + ms >= s.steps[0].duration))
  }

  /** The state once a non-repeating script's `endedCallback` has run. */
  function AfterEnded(s: EntityState): EntityState
  {
    match s.ended
    case NoCallback => s
    case GameCallback => s.(endedCalls := s.endedCalls + 1)
    case GhostCallback =>
      s.(dead := true, ghostEndedCalls := if s.hasGhostEnded then s.ghostEndedCalls + 1 else s.ghostEndedCalls)
  }

  /**
   * The first half of `ScriptedEntity.update(ms)`: the timer advances and, when it reaches the
   * current step's duration, exactly one boundary is crossed, keeping the remainder. The flag
   * says whether a non-repeating script has just ended.
   */
  function Cross(s: EntityState, ms: real): (r: (EntityState, bool))
    requires ScriptShape(s) && (s.stepIndex >= 1 || s.timer + ms >= s.steps[0].duration)
    ensures r.0.steps == s.steps
    ensures !r.1 && r.0.stepIndex < |s.steps| ==> r.0.initial.Some? && r.0.steps[r.0.stepIndex].duration > 0.0
    ensures (!r.1 && r.0.stepIndex >= |s.steps|) <==> Throws(s, ms)
  {
    var t := s.timer + ms;
    var d := s.steps[s.stepIndex].duration;
    if t >= d then
      var s1 := s.(timer := t - d, stepIndex := s.stepIndex + 1, initial := Some(s.pose));
      if s1.stepIndex >= |s.steps| then
        if s.repeat then (s1.(stepIndex := 1), false)
        else (AfterEnded(s1.(hook := Cleared)), true)
      else (s1, false)
    else (s.(timer := t), false)
  }

  /** The second half: the pose along the current step, or the last keyframe once ended. */
  function Settle(s: EntityState, done: bool): EntityState
    requires |s.steps| >= 1
    requires !done ==> s.stepIndex < |s.steps| && s.initial.Some? && s.steps[s.stepIndex].duration > 0.0
  {
    if !done then s.(pose := Interpolate(s.initial.value, s.steps[s.stepIndex], s.timer))
    else s.(pose := s.steps[|s.steps| - 1].target)
  }

  /** One `ScriptedEntity.update(ms)`. */
  function ScriptStep(s: EntityState, ms: real): EntityState
    requires ScriptShape(s) && (s.stepIndex >= 1 || s.timer + ms >= s.steps[0].duration)
    requires !Throws(s, ms)
  {
    var c := Cross(s, ms);
    Settle(c.0, c.1)
  }

  /** One call of the entity's `update(ms)`, logged in `updates`. */
  function Updated(s: EntityState, ms: real): EntityState
    requires CanUpdate(s, ms)
  {
    var logged := s.(updates := s.updates + [ms]);
    if s.hook == ScriptUpdate then ScriptStep(logged, ms)
    else if s.hook.GameUpdate? then logged.(dead := s.dead || s.hook.dies)
    else logged
  }

  /** The entities of `s` that are not dead, in order. */
  ghost function Survivors(s: seq<Entity>): (r: seq<Entity>)
    reads s
  {
    if s == [] then [] else
    var rest := Survivors(s[..|s| - 1]);
    var last := s[|s| - 1];
    if last.dead then rest else rest + [last]
  }

  /** Every survivor is a live entity of `s`, and every live entity of `s` survives. */
  lemma {:induction false} SurvivorsAreLive(s: seq<Entity>)
    ensures forall k :: 0 <= k < |Survivors(s)| ==> Survivors(s)[k] in s && !Survivors(s)[k].dead
    ensures forall k :: 0 <= k < |s| && !s[k].dead ==> s[k] in Survivors(s)
  {
    if s != [] {
      var t := s[..|s| - 1];
      SurvivorsAreLive(t);
      assert forall k :: 0 <= k < |t| ==> t[k] == s[k];
    }
  }

  /**
   * `removeChild` as written: every index below the original length is visited once, and
   * a match is spliced out without stepping back, so the element after it is not looked at.
   */
  function SpliceMatches(s: seq<Entity>, c: Entity, i: nat, n: nat): seq<Entity>
    decreases n - i
  {
    if i >= n then s
    else if i < |s| && s[i] == c then SpliceMatches(s[..i] + s[i + 1..], c, i + 1, n)
    else SpliceMatches(s, c, i + 1, n)
  }

  /** No entity occurs twice in `s`. */
  ghost predicate Distinct(s: seq<Entity>)
  {
    forall e {:trigger multiset(s)[e]} :: e in s ==> multiset(s)[e] == 1
  }

  /** In a list without repeats, only position `p` holds `s[p]`. */
  lemma DistinctOthers(s: seq<Entity>, p: nat)
    requires Distinct(s) && p < |s|
    ensures forall k :: 0 <= k < |s| && k != p ==> s[k] != s[p]
  {
    forall k | 0 <= k < |s| && k != p
      ensures s[k] != s[p]
    {
      if k < p { DistinctAt(s, k, p); } else { DistinctAt(s, p, k); }
    }
  }

  lemma DistinctAt(s: seq<Entity>, i: nat, j: nat)
    requires Distinct(s) && i < j < |s|
    ensures s[i] != s[j]
  {
    assert s == s[..j] + [s[j]] + s[j + 1..];
    assert s[i] == s[..j][i];
    assert multiset(s)[s[i]] >= multiset(s[..j])[s[i]] + multiset([s[j]])[s[i]];
  }

  class Entity {
    var pose: Pose
    var dead: bool
    var children: seq<Entity>
    var hook: UpdateHook
    var steps: seq<Keyframe>
    var repeat: bool
    var ended: Ended
    var timer: real
    var stepIndex: nat
    var initial: Option<Pose>
    var hasGhostEnded: bool
    // Calls received from outside the model: `update(ms)` calls, a game-supplied
    // `endedCallback` and a Ghost's `ghostEnded`.
    var updates: seq<real>
    var endedCalls: nat
    var ghostEndedCalls: nat

    function State(): EntityState
      reads this
    {
      EntityState(pose, dead, hook, steps, repeat, ended, timer, stepIndex,
                  initial, hasGhostEnded, updates, endedCalls, ghostEndedCalls)
    }

    /** `new Entity(x, y, width, height)`: a zero (unset) width or height becomes 1. */
    constructor (x: real, y: real, width: real, height: real)
      ensures State() == EntityState(Pose(x, y, if width == 0.0 then 1.0 else width,
                                          if height == 0.0 then 1.0 else height, 0.0, 1.0),
                                     false, ChildrenUpdate, [], false, NoCallback, 0.0, 0,
                                     None, false, [], 0, 0)
      ensures children == []
    {
      pose := Pose(x, y, if width == 0.0 then 1.0 else width, if height == 0.0 then 1.0 else height, 0.0, 1.0);
      dead := false;
      children := [];
      hook := ChildrenUpdate;
      steps := [];
      repeat := false;
      ended := NoCallback;
      timer := 0.0;
      stepIndex := 0;
      initial := None;
      hasGhostEnded := false;
      updates := [];
      endedCalls := 0;
      ghostEndedCalls := 0;
    }

    /** `new ScriptedEntity(_, steps, repeat, endedCallback)`: posed at the first keyframe. */
    constructor Scripted(steps: seq<Keyframe>, repeat: bool, ended: Ended)
      requires |steps| >= 1
      ensures State() == EntityState(steps[0].target, false, ScriptUpdate, steps, repeat, ended,
                                     0.0, 0, None, false, [], 0, 0)
      ensures children == []
    {
      pose := steps[0].target;
      dead := false;
      children := [];
      hook := ScriptUpdate;
      this.steps := steps;
      this.repeat := repeat;
      this.ended := ended;
      timer := 0.0;
      stepIndex := 0;
      initial := None;
      hasGhostEnded := false;
      updates := [];
      endedCalls := 0;
      ghostEndedCalls := 0;
    }

    /**
     * `new Ghost(entity, period, scaleMax, inward, endedCallback, offsetX2, offsetY2)` for an
     * entity posed at `source`; `ghostEnded` says whether an `endedCallback` was given.
     */
    constructor Ghost(source: Pose, period: real, scaleMax: real, inward: bool, ghostEnded: bool,
                      offsetX2: Option<real>, offsetY2: Option<real>)
      ensures State() == GhostStart(source, period, scaleMax, inward, ghostEnded, offsetX2, offsetY2)
      ensures children == []
    {
      var s := GhostSteps(source, period, scaleMax, inward, offsetX2, offsetY2);
      pose := s[0].target;
      dead := false;
      children := [];
      hook := ScriptUpdate;
      steps := s;
      repeat := false;
      ended := GhostCallback;
      timer := 0.0;
      stepIndex := 0;
      initial := None;
      hasGhostEnded := ghostEnded;
      updates := [];
      endedCalls := 0;
      ghostEndedCalls := 0;
    }

    predicate HasUpdate()
      reads this
    {
      hook != Cleared
    }

    /** Runs the `endedCallback` of a script that has just finished. */
    method RunEnded()
      modifies this
      ensures State() == AfterEnded(old(State()))
    {
      match ended
      case NoCallback =>
      case GameCallback =>
        endedCalls := endedCalls + 1;
      case GhostCallback =>
        dead := true;
        if hasGhostEnded {
          ghostEndedCalls := ghostEndedCalls + 1;
        }
    }

    /**
     * `ScriptedEntity.prototype.update`. When it throws, the step has been crossed and
     * wrapped to the missing step 1, and the pose is left as it was.
     */
    method ScriptedUpdate(ms: real) returns (thrown: bool)
      requires ScriptShape(State()) && (stepIndex >= 1 || timer + ms >= steps[0].duration)
      modifies this
      ensures thrown == Throws(old(State()), ms)
      ensures thrown ==> State() == Cross(old(State()), ms).0
      ensures !thrown ==> State() == ScriptStep(old(State()), ms)
    {
      var done := AdvanceTimer(ms);
      thrown := false;
      if !done && stepIndex >= |steps| {
        thrown := true;
      } else if !done {
        pose := Interpolate(initial.value, steps[stepIndex], timer);
      } else {
        pose := steps[|steps| - 1].target;
      }
    }

    /** The timer and step part of `ScriptedEntity.prototype.update`, up to the pose update. */
    method AdvanceTimer(ms: real) returns (done: bool)
      requires ScriptShape(State()) && (stepIndex >= 1 || timer + ms >= steps[0].duration)
      modifies this
      ensures (State(), done) == Cross(old(State()), ms)
    {
      done := false;
      timer := timer + ms;
      if timer >= steps[stepIndex].duration {
        timer := timer - steps[stepIndex].duration;
        stepIndex := stepIndex + 1;
        initial := Some(pose);
        if stepIndex >= |steps| {
          if repeat {
            stepIndex := 1;
          } else {
            hook := Cleared;
            done := true;
            RunEnded();
          }
        }
      }
    }

    /** A call of whatever `update` holds; the default update's recursion is not modelled. */
    method Update(ms: real)
      requires CanUpdate(State(), ms)
      modifies this
      ensures State() == Updated(old(State()), ms)
    {
      updates := updates + [ms];
      if hook == ScriptUpdate {
        var thrown := ScriptedUpdate(ms);
      } else if hook.GameUpdate? && hook.dies {
        dead := true;
      }
    }

    /** `removeChild`: splices out each match it meets while scanning the original length. */
    method RemoveChild(child: Entity)
      modifies this`children
      ensures children == SpliceMatches(old(children), child, 0, |old(children)|)
      ensures State() == old(State())
    {
      var childCount := |children|;
      for i := 0 to childCount
        invariant SpliceMatches(children, child, i, childCount) == SpliceMatches(old(children), child, 0, childCount)
        invariant State() == old(State())
      {
        if i < |children| && child == children[i] {
          children := children[..i] + children[i + 1..];
        }
      }
    }

    /**
     * `updateChildren(ms)`: each child is updated once, and each child that is dead after its
     * update is removed; `i` steps back over a removed child. The children's states after
     * the call are their states before it, each updated once.
     */
    method UpdateChildren(ms: real)
      requires Distinct(children) && this !in children
      requires Updatable(StatesOf(children), ms)
      modifies this`children, children
      ensures children == Survivors(old(children)) && State() == old(State())
      ensures StatesOf(old(children)) == UpdatedAll(old(StatesOf(children)), ms)
    {
      ghost var all := children;
      ghost var olds := StatesOf(all);
      ghost var p := 0;
      ghost var news: seq<EntityState> := [];
      ghost var deads: seq<bool> := [];
      var childCount := |children|;
      var i := 0;
      while i < childCount
        invariant 0 <= p <= |all| && |deads| == p && |news| == p && this !in all
        invariant Scanning(all, olds, news, deads, p, i, ms)
        invariant children == Scan(all, deads, p) && childCount == |children|
        invariant State() == old(State())
        decreases childCount - i
      {
        ScanAt(all, deads, p);
        var removed := VisitChild(i, ms, all, olds, news, deads, p);
        news := news + [all[p].State()];
        deads := deads + [removed];
        if removed {
          childCount := childCount - 1;
          i := i - 1;
        }
        i := i + 1;
        p := p + 1;
      }
      ScanDone(all, olds, news, deads, i, ms);
    }

    /**
     * The body of the `updateChildren` loop for `children[i]`, the child at position `p` of
     * the original list: update it, and remove it if it is then dead.
     */
    method VisitChild(i: nat, ms: real, ghost all: seq<Entity>, ghost olds: seq<EntityState>,
                      ghost news: seq<EntityState>, ghost deads: seq<bool>, ghost p: nat)
        returns (removed: bool)
      requires p < |all| && |deads| == p && |news| == p && this !in all
      requires Scanning(all, olds, news, deads, p, i, ms) && children == Scan(all, deads, p)
      modifies this`children, all[p]
      ensures removed == all[p].dead && State() == old(State())
      ensures children == Scan(all, deads + [removed], p + 1)
      ensures |children| == |old(children)| - if removed then 1 else 0
      ensures Scanning(all, olds, news + [all[p].State()], deads + [removed], p + 1,
                       if removed then i else i + 1, ms)
    {
      var child := children[i];
      VisitFacts(all, olds, news, deads, p, i, ms);
      StatesAhead(all, olds, p);
      UpdateAt(child, ms, all, olds, news, p);
      removed := child.dead;
      if removed {
        RemoveAt(child, all, p);
      }
    }

    /** `removeChild(child)` seen from the scan: the states of `all` are left alone. */
    method RemoveAt(child: Entity, ghost all: seq<Entity>, ghost p: nat)
      requires p < |all| && this !in all
      modifies this`children
      ensures children == SpliceMatches(old(children), child, 0, |old(children)|)
      ensures State() == old(State())
      ensures StatesIn(all, 0, p + 1) == old(StatesIn(all, 0, p + 1))
      ensures StatesIn(all, p + 1, |all|) == old(StatesIn(all, p + 1, |all|))
    {
      RemoveChild(child);
    }
  }

  /**
   * `child.update(ms)` seen from the scan: the child at `p` takes its update and every other
   * state of `all` is left alone.
   */
  method UpdateAt(child: Entity, ms: real, ghost all: seq<Entity>, ghost olds: seq<EntityState>,
                  ghost news: seq<EntityState>, ghost p: nat)
    requires p < |all| == |olds| && |news| == p && child == all[p]
    requires all[p].State() == olds[p] && (olds[p].hook != Cleared ==> CanUpdate(olds[p], ms))
    requires forall k :: 0 <= k < |all| && k != p ==> all[k] != all[p]
    requires StatesIn(all, 0, p) == news && StatesIn(all, p + 1, |all|) == olds[p + 1..]
    modifies child
    ensures StatesIn(all, 0, p + 1) == news + [UpdatedIfHooked(olds[p], ms)]
    ensures StatesIn(all, p + 1, |all|) == olds[p + 1..]
    ensures all[p].State() == UpdatedIfHooked(olds[p], ms)
  {
    UpdateChild(child, ms);
    assert StatesIn(all, 0, p) == news;
  }

  /**
   * Where `updateChildren` stands after visiting the first `p` children of `all`: the
   * children list is the visited part less its dead entities, followed by the rest; `i` is
   * the next index; the visited children hold their updated states and the rest their
   * original ones.
   */
  ghost predicate Scanning(all: seq<Entity>, olds: seq<EntityState>, news: seq<EntityState>,
                           deads: seq<bool>, p: nat, i: int, ms: real)
    reads all
  {
    && ScanPure(all, olds, news, deads, p, i, ms)
    && StatesIn(all, 0, p) == news && StatesIn(all, p, |all|) == olds[p..]
  }

  /** The part of `Scanning` that does not depend on the heap. */
  ghost predicate ScanPure(all: seq<Entity>, olds: seq<EntityState>, news: seq<EntityState>,
                           deads: seq<bool>, p: nat, i: int, ms: real)
  {
    && p <= |all| == |olds| && |deads| == p && |news| == p
    && Distinct(all) && Updatable(olds, ms)
    && news == UpdatedAll(olds[..p], ms) && deads == DeadFlags(news)
    && i == |Keep(all[..p], deads)|
  }

  /**
   * What one visit needs to know: the child at `p` is the one at `i`, it may be updated, it
   * is found nowhere else in `all`, and after it the scan stands one further.
   */
  lemma VisitFacts(all: seq<Entity>, olds: seq<EntityState>, news: seq<EntityState>,
                   deads: seq<bool>, p: nat, i: int, ms: real)
    requires ScanPure(all, olds, news, deads, p, i, ms) && p < |all|
    ensures var st := UpdatedIfHooked(olds[p], ms);
      var cur := Scan(all, deads, p);
      && 0 <= i < |cur| && cur[i] == all[p]
      && (olds[p].hook != Cleared ==> CanUpdate(olds[p], ms))
      && (forall k :: 0 <= k < |all| && k != p ==> all[k] != all[p])
      && ScanPure(all, olds, news + [st], deads + [st.dead], p + 1, if st.dead then i else i + 1, ms)
      && (if st.dead then SpliceMatches(cur, all[p], 0, |cur|) else cur)
         == Scan(all, deads + [st.dead], p + 1)
  {
    var st := UpdatedIfHooked(olds[p], ms);
    ScanAt(all, deads, p);
    UpdatableAt(olds, ms, p);
    DistinctOthers(all, p);
    UpdatedAllSnoc(olds, ms, p);
    DeadFlagsSnoc(news, st);
    ScanStep(all, deads, p, st.dead);
  }

  /** `if (child.update) { child.update(ms); }` */
  method UpdateChild(child: Entity, ms: real)
    requires child.HasUpdate() ==> CanUpdate(child.State(), ms)
    modifies child
    ensures child.State() == UpdatedIfHooked(old(child.State()), ms)
  {
    if child.HasUpdate() {
      child.Update(ms);
    }
  }

  /** What one `if (child.update) child.update(ms)` does to a child. */
  ghost function UpdatedIfHooked(s: EntityState, ms: real): EntityState
  {
    if s.hook != Cleared && CanUpdate(s, ms) then Updated(s, ms) else s
  }

  /** The states of the entities of `s`, in order. */
  ghost function StatesOf(s: seq<Entity>): (r: seq<EntityState>)
    reads s
  {
    StatesIn(s, 0, |s|)
  }

  /** Entities none of whose fields changed have the same states. */
  twostate lemma StatesKept(s: seq<Entity>)
    requires unchanged(s)
    ensures StatesOf(s) == old(StatesOf(s))
  {
  }

  /** The states of the entities `s[lo..hi]`, in order. */
  ghost function StatesIn(s: seq<Entity>, lo: nat, hi: nat): (r: seq<EntityState>)
    requires lo <= hi <= |s|
    reads set k | lo <= k < hi :: s[k]
    ensures |r| == hi - lo
    decreases hi - lo
  {
    if lo == hi then [] else StatesIn(s, lo, hi - 1) + [s[hi - 1].State()]
  }

  lemma {:induction false} StatesInCons(s: seq<Entity>, lo: nat, hi: nat)
    requires lo < hi <= |s|
    ensures StatesIn(s, lo, hi) == [s[lo].State()] + StatesIn(s, lo + 1, hi)
    decreases hi - lo
  {
    if lo + 1 < hi {
      StatesInCons(s, lo, hi - 1);
    }
  }

  /** Each state of `ss` after one `if (child.update) child.update(ms)`. */
  ghost function UpdatedAll(ss: seq<EntityState>, ms: real): (r: seq<EntityState>)
    ensures |r| == |ss|
  {
    if ss == [] then [] else UpdatedAll(ss[..|ss| - 1], ms) + [UpdatedIfHooked(ss[|ss| - 1], ms)]
  }

  lemma {:induction false} UpdatedAllAt(ss: seq<EntityState>, ms: real, k: nat)
    requires k < |ss|
    ensures UpdatedAll(ss, ms)[k] == UpdatedIfHooked(ss[k], ms)
  {
    if k < |ss| - 1 {
      UpdatedAllAt(ss[..|ss| - 1], ms, k);
    }
  }

  lemma UpdatedAllSnoc(ss: seq<EntityState>, ms: real, p: nat)
    requires p < |ss|
    ensures UpdatedAll(ss[..p + 1], ms) == UpdatedAll(ss[..p], ms) + [UpdatedIfHooked(ss[p], ms)]
  {
    assert ss[..p + 1][..p] == ss[..p];
  }

  /** The part of the scan not yet visited still holds the states it started with. */
  lemma StatesAhead(all: seq<Entity>, olds: seq<EntityState>, p: nat)
    requires p < |all| == |olds| && StatesIn(all, p, |all|) == olds[p..]
    ensures all[p].State() == olds[p] && StatesIn(all, p + 1, |all|) == olds[p + 1..]
  {
    StatesInCons(all, p, |all|);
    assert olds[p..] == [olds[p]] + olds[p + 1..];
  }

  /** Every state in `ss` whose `update` slot is set can take an update of `ms`. */
  ghost predicate Updatable(ss: seq<EntityState>, ms: real)
  {
    ss == [] ||
    (Updatable(ss[..|ss| - 1], ms) && (ss[|ss| - 1].hook != Cleared ==> CanUpdate(ss[|ss| - 1], ms)))
  }

  lemma {:induction false} UpdatableAt(ss: seq<EntityState>, ms: real, k: nat)
    requires Updatable(ss, ms) && k < |ss|
    ensures ss[k].hook != Cleared ==> CanUpdate(ss[k], ms)
  {
    if k < |ss| - 1 {
      UpdatableAt(ss[..|ss| - 1], ms, k);
      assert ss[..|ss| - 1][k] == ss[k];
    }
  }

  /** The `dead` flags of `ss`, in order. */
  function DeadFlags(ss: seq<EntityState>): (r: seq<bool>)
    ensures |r| == |ss|
  {
    if ss == [] then [] else DeadFlags(ss[..|ss| - 1]) + [ss[|ss| - 1].dead]
  }

  lemma {:induction false} DeadFlagsAt(ss: seq<EntityState>, k: nat)
    requires k < |ss|
    ensures DeadFlags(ss)[k] == ss[k].dead
  {
    if k < |ss| - 1 {
      DeadFlagsAt(ss[..|ss| - 1], k);
    }
  }

  lemma DeadFlagsSnoc(ss: seq<EntityState>, s: EntityState)
    ensures DeadFlags(ss + [s]) == DeadFlags(ss) + [s.dead]
  {
    assert (ss + [s])[..|ss|] == ss;
  }

  /** The entities not flagged in `dead`, in order. */
  function Keep(s: seq<Entity>, dead: seq<bool>): (r: seq<Entity>)
    requires |dead| == |s|
  {
    if s == [] then [] else
    var rest := Keep(s[..|s| - 1], dead[..|s| - 1]);
    if dead[|s| - 1] then rest else rest + [s[|s| - 1]]
  }

  lemma {:induction false} KeepIn(s: seq<Entity>, dead: seq<bool>, k: nat)
    requires |dead| == |s| && k < |Keep(s, dead)|
    ensures Keep(s, dead)[k] in s
  {
    var rest := Keep(s[..|s| - 1], dead[..|s| - 1]);
    if k < |rest| {
      KeepIn(s[..|s| - 1], dead[..|s| - 1], k);
    }
  }

  lemma KeepSnoc(s: seq<Entity>, dead: seq<bool>, c: Entity, d: bool)
    requires |dead| == |s|
    ensures Keep(s + [c], dead + [d]) == Keep(s, dead) + if d then [] else [c]
  {
    assert (s + [c])[..|s|] == s;
    assert (dead + [d])[..|s|] == dead;
  }

  /** In a list without repeats, the child at `p` is found only at its own place. */
  lemma KeepOutside(all: seq<Entity>, dead: seq<bool>, p: nat)
    requires Distinct(all) && p < |all| && |dead| == p
    ensures var s := Keep(all[..p], dead) + all[p..];
      forall j :: 0 <= j < |s| && j != |Keep(all[..p], dead)| ==> s[j] != all[p]
  {
    var r := Keep(all[..p], dead);
    var s := r + all[p..];
    forall j | 0 <= j < |s| && j != |r| ensures s[j] != all[p] {
      if j < |r| {
        KeepIn(all[..p], dead, j);
        var m :| 0 <= m < p && all[..p][m] == r[j];
        DistinctAt(all, m, p);
      } else {
        DistinctAt(all, p, p + (j - |r|));
        assert s[j] == all[p + (j - |r|)];
      }
    }
  }

  /** Where the scan stands at `p`: the visited part, filtered, then the rest. */
  function Scan(all: seq<Entity>, dead: seq<bool>, p: nat): seq<Entity>
    requires p <= |all| && |dead| == p
  {
    Keep(all[..p], dead) + all[p..]
  }

  lemma ScanAt(all: seq<Entity>, dead: seq<bool>, p: nat)
    requires p < |all| && |dead| == p
    ensures |Keep(all[..p], dead)| < |Scan(all, dead, p)|
    ensures Scan(all, dead, p)[|Keep(all[..p], dead)|] == all[p]
  {
  }

  /**
   * One visit of the scan: the child at `p` is kept, or (being dead) is the only copy that
   * `removeChild` finds and splices out.
   */
  lemma ScanStep(all: seq<Entity>, dead: seq<bool>, p: nat, d: bool)
    requires Distinct(all) && p < |all| && |dead| == p
    ensures var cur := Scan(all, dead, p);
      (if d then SpliceMatches(cur, all[p], 0, |cur|) else cur) == Scan(all, dead + [d], p + 1)
    ensures |Keep(all[..p + 1], dead + [d])| == |Keep(all[..p], dead)| + if d then 0 else 1
  {
    var before := Keep(all[..p], dead);
    var cur := Scan(all, dead, p);
    assert all[p..] == [all[p]] + all[p + 1..];
    assert all[..p + 1] == all[..p] + [all[p]];
    KeepSnoc(all[..p], dead, all[p], d);
    if d {
      KeepOutside(all, dead, p);
      SpliceOne(cur, all[p], |before|);
      assert cur[..|before|] + cur[|before| + 1..] == before + all[p + 1..];
    } else {
      assert cur == before + [all[p]] + all[p + 1..];
    }
  }

  /** Once every child has been visited, the scan has computed what `updateChildren` promises. */
  lemma ScanDone(all: seq<Entity>, olds: seq<EntityState>, news: seq<EntityState>,
                 deads: seq<bool>, i: int, ms: real)
    requires Scanning(all, olds, news, deads, |all|, i, ms)
    ensures Scan(all, deads, |all|) == Survivors(all)
    ensures StatesOf(all) == UpdatedAll(olds, ms)
  {
    KeepIsSurvivors(all, |all|);
    assert all[..|all|] == all && olds[..|all|] == olds;
  }

  lemma {:induction false} KeepIsSurvivors(s: seq<Entity>, n: nat)
    requires n <= |s|
    ensures Keep(s[..n], DeadFlags(StatesIn(s, 0, n))) == Survivors(s[..n])
  {
    if n > 0 {
      KeepIsSurvivors(s, n - 1);
      assert s[..n][..n - 1] == s[..n - 1];
      assert StatesIn(s, 0, n)[..n - 1] == StatesIn(s, 0, n - 1);
    }
  }

  /** Indices below `i` that do not hold `c` are passed over. */
  lemma {:induction false} SpliceSkip(s: seq<Entity>, c: Entity, k: nat, i: nat, n: nat)
    requires k <= i <= n
    requires forall j :: k <= j < i && j < |s| ==> s[j] != c
    ensures SpliceMatches(s, c, k, n) == SpliceMatches(s, c, i, n)
    decreases i - k
  {
    if k < i {
      SpliceSkip(s, c, k + 1, i, n);
    }
  }

  /** With exactly one copy of `c`, the scan removes that copy and nothing else. */
  lemma SpliceOne(s: seq<Entity>, c: Entity, i: nat)
    requires i < |s| && s[i] == c
    requires forall j :: 0 <= j < |s| && j != i ==> s[j] != c
    ensures SpliceMatches(s, c, 0, |s|) == s[..i] + s[i + 1..]
  {
    SpliceSkip(s, c, 0, i, |s|);
    var t := s[..i] + s[i + 1..];
    assert forall j :: i + 1 <= j < |s| && j < |t| ==> t[j] == s[j + 1];
    SpliceSkip(t, c, i + 1, |s|, |s|);
  }

  /**
   * The two keyframes a Ghost runs: from the entity's pose to a scaled, faded copy over
   * `period` milliseconds; inward ghosts run the other way round in scale and opacity.
   */
  function GhostSteps(source: Pose, period: real, scaleMax: real, inward: bool,
                      offsetX2: Option<real>, offsetY2: Option<real>): (r: seq<Keyframe>)
    ensures |r| == 2 && r[0].duration == 0.0 && r[1].duration == period
  {
    var opacity := if source.opacity >= 0.0 then source.opacity else 1.0;
    var initialScale := if inward then scaleMax else 1.0;
    var finalScale := if inward then 1.0 else scaleMax;
    var startOpacity := if inward then 0.0 else opacity;
    var finalOpacity := if inward then opacity else 0.0;
    var x2 := if offsetX2.Some? then source.x + offsetX2.value else source.x;
    var y2 := if offsetY2.Some? then source.y + offsetY2.value else source.y;
    [Keyframe(0.0, Pose(source.x, source.y, source.width * initialScale, source.height * initialScale, source.angle, startOpacity)),
     Keyframe(period, Pose(x2, y2, source.width * finalScale, source.height * finalScale, source.angle, finalOpacity))]
  }

  /** The state of a new Ghost. */
  function GhostStart(source: Pose, period: real, scaleMax: real, inward: bool, ghostEnded: bool,
                      offsetX2: Option<real>, offsetY2: Option<real>): (r: EntityState)
    ensures r.hook == ScriptUpdate && !r.repeat && r.ended == GhostCallback && !r.dead
    ensures r.steps == GhostSteps(source, period, scaleMax, inward, offsetX2, offsetY2)
    ensures r.stepIndex == 0 && r.timer == 0.0 && r.pose == r.steps[0].target
    ensures period > 0.0 ==> ScriptInvariant(r)
  {
    var steps := GhostSteps(source, period, scaleMax, inward, offsetX2, offsetY2);
    EntityState(steps[0].target, false, ScriptUpdate, steps, false, GhostCallback, 0.0, 0, None,
                ghostEnded, [], 0, 0)
  }

  // Properties of the script state machine and of `updateChildren`.

  /** A step starts at its initial pose and reaches its target after its duration. */
  lemma InterpolateEnds(from: Pose, step: Keyframe)
    requires step.duration != 0.0
    ensures Interpolate(from, step, 0.0) == from
    ensures Interpolate(from, step, step.duration) == step.target
  {
    var d := step.duration;
    LerpEnds(from.x, step.target.x, d);
    LerpEnds(from.y, step.target.y, d);
    LerpEnds(from.width, step.target.width, d);
    LerpEnds(from.height, step.target.height, d);
    LerpEnds(from.angle, step.target.angle, d);
    LerpEnds(from.opacity, step.target.opacity, d);
  }

  lemma LerpEnds(a: real, b: real, d: real)
    requires d != 0.0
    ensures Lerp(a, b, d, 0.0) == a && Lerp(a, b, d, d) == b
  {
    assert (b - a) / d * d == b - a;
  }

  /**
   * One update crosses at most one boundary: below the current duration only the timer moves;
   * otherwise the remainder is kept and the script moves on by exactly one step, wrapping to
   * step 1 or ending after the last.
   */
  lemma CrossesAtMostOne(s: EntityState, ms: real)
    requires ScriptInvariant(s) && (s.stepIndex >= 1 || s.timer + ms >= s.steps[0].duration)
    ensures var r := ScriptStep(s, ms);
      var t := s.timer + ms;
      var d := s.steps[s.stepIndex].duration;
      && (t < d ==> r.stepIndex == s.stepIndex && r.timer == t && r.initial == s.initial
                    && r.hook == s.hook && r.pose == Interpolate(s.initial.value, s.steps[s.stepIndex], t))
      && (t >= d ==> r.timer == t - d && r.initial == Some(s.pose)
                     && (if s.stepIndex + 1 < |s.steps| then r.stepIndex == s.stepIndex + 1
                         else if s.repeat then r.stepIndex == 1
                         else r.stepIndex == |s.steps| && r.hook == Cleared))
  {
  }

  /**
   * A long update does not catch up: when `ms` would cover the next step too, the script is
   * still left inside that next step, with a timer at or past its duration.
   */
  lemma NoCatchingUp(s: EntityState, ms: real)
    requires ScriptInvariant(s) && s.stepIndex + 1 < |s.steps|
    requires s.timer + ms >= s.steps[s.stepIndex].duration + s.steps[s.stepIndex + 1].duration
    ensures var r := ScriptStep(s, ms);
      r.stepIndex == s.stepIndex + 1 && r.timer >= r.steps[r.stepIndex].duration
  {
  }

  /**
   * A script keeps its shape from one update to the next: while its slot is still set, it
   * has a start pose and a further update of any length is defined.
   */
  lemma ScriptStepKeepsShape(s: EntityState, ms: real, next: real)
    requires ScriptInvariant(s) && (s.stepIndex >= 1 || s.timer + ms >= s.steps[0].duration)
    requires s.hook == ScriptUpdate
    ensures var r := ScriptStep(s, ms);
      && r.steps == s.steps && r.repeat == s.repeat
      && (r.hook == ScriptUpdate || r.hook == Cleared)
      && (r.hook == ScriptUpdate ==> ScriptInvariant(r) && r.stepIndex >= 1 && CanUpdate(r, next))
  {
    var c := Cross(s, ms);
    assert c.0.stepIndex >= 1 || c.1;
  }

  /**
   * A script ends exactly when a non-repeating one crosses its last boundary; it is then
   * posed at its last keyframe, its slot is cleared, and its `endedCallback` has run once:
   * a game callback is logged, and a Ghost's marks it dead and calls `ghostEnded` if given.
   */
  lemma Completion(s: EntityState, ms: real)
    requires ScriptInvariant(s) && (s.stepIndex >= 1 || s.timer + ms >= s.steps[0].duration)
    requires s.hook == ScriptUpdate
    ensures var r := ScriptStep(s, ms);
      var ends := !s.repeat && s.stepIndex == |s.steps| - 1
                  && s.timer + ms >= s.steps[s.stepIndex].duration;
      && (r.hook == Cleared <==> ends)
      && (ends ==> && r.pose == s.steps[|s.steps| - 1].target
                   && r.endedCalls == s.endedCalls + (if s.ended == GameCallback then 1 else 0)
                   && r.dead == (s.dead || s.ended == GhostCallback)
                   && r.ghostEndedCalls == s.ghostEndedCalls
                        + (if s.ended == GhostCallback && s.hasGhostEnded then 1 else 0))
      && (!ends ==> r.dead == s.dead && r.endedCalls == s.endedCalls
                    && r.ghostEndedCalls == s.ghostEndedCalls)
  {
  }

  /**
   * A one-step repeating script of 100 ms throws on the update that reaches 100 ms: the
   * boundary is crossed without ending, and the step it wraps to is past the last keyframe.
   */
  lemma OneStepRepeatThrows()
    ensures var p := Pose(0.0, 0.0, 1.0, 1.0, 0.0, 1.0);
      var s := EntityState(p, false, ScriptUpdate, [Keyframe(100.0, p)], true, NoCallback,
                           0.0, 0, None, false, [], 0, 0);
      && Throws(s, 100.0) && !Cross(s, 100.0).1 && Cross(s, 100.0).0.stepIndex == 1
      && !Throws(s.(timer := 10.0), 50.0)
  {
  }

  /** A cleared slot is never called again: the entity's state is left as it is. */
  lemma ClearedIsSkipped(ss: seq<EntityState>, ms: real, k: nat)
    requires k < |ss| && ss[k].hook == Cleared
    ensures UpdatedAll(ss, ms)[k] == ss[k]
  {
    UpdatedAllAt(ss, ms, k);
  }

  /** `updateChildren` calls `update` once on every child whose slot is set, and never on others. */
  lemma UpdatedOnce(ss: seq<EntityState>, ms: real, k: nat)
    requires Updatable(ss, ms) && k < |ss|
    ensures UpdatedAll(ss, ms)[k].updates == ss[k].updates + (if ss[k].hook != Cleared then [ms] else [])
  {
    UpdatedAllAt(ss, ms, k);
    UpdatableAt(ss, ms, k);
    var r := ss[k];
    if r.hook != Cleared {
      var logged := r.(updates := r.updates + [ms]);
      if r.hook == ScriptUpdate {
        var c := Cross(logged, ms);
        assert c.0.updates == logged.updates;
      }
    }
  }

  /**
   * A child whose game `update` marks it dead is dead after the pass, and so removed by
   * `updateChildren`; one with a game `update` that does not keeps its flag.
   */
  lemma GameUpdateDeath(ss: seq<EntityState>, ms: real, k: nat)
    requires k < |ss| && ss[k].hook.GameUpdate?
    ensures UpdatedAll(ss, ms)[k].dead == (ss[k].dead || ss[k].hook.dies)
    ensures DeadFlags(UpdatedAll(ss, ms))[k] == UpdatedAll(ss, ms)[k].dead
  {
    UpdatedAllAt(ss, ms, k);
    DeadFlagsAt(UpdatedAll(ss, ms), k);
  }

  /**
   * A Ghost of a unit entity over 500 ms with a scale of 5: halfway through it is three
   * units wide at half opacity, and at the end it is dead, posed at its
   * final frame, having called `ghostEnded` once.
   */
  lemma GhostRun()
    ensures var s0 := GhostStart(Pose(0.0, 0.0, 1.0, 1.0, 0.0, 1.0), 500.0, 5.0, false, true, None, None);
      var s1 := Updated(s0, 250.0);
      var s2 := Updated(s1, 250.0);
      && s1.pose.width == 3.0 && s1.pose.opacity == 0.5 && !s1.dead && s1.hook == ScriptUpdate
      && s2.dead && s2.hook == Cleared && s2.ghostEndedCalls == 1
      && s2.pose == Pose(0.0, 0.0, 5.0, 5.0, 0.0, 0.0)
  {
    var s0 := GhostStart(Pose(0.0, 0.0, 1.0, 1.0, 0.0, 1.0), 500.0, 5.0, false, true, None, None);
    var s1 := Updated(s0, 250.0);
    assert s1.stepIndex == 1 && s1.initial == Some(s0.pose);
  }

  /** Two adjacent copies of a child: `removeChild` splices out the first and steps over the second. */
  lemma RemoveSkipsAdjacentCopy(a: Entity, b: Entity)
    requires a != b
    ensures SpliceMatches([a, a, b], a, 0, 3) == [a, b]
    ensures SpliceMatches([a, b, a], a, 0, 3) == [b]
  {
    assert [a, a, b][..0] + [a, a, b][1..] == [a, b];
    assert [a, b][..1] + [a, b][2..] == [a];
    assert [a, b, a][..0] + [a, b, a][1..] == [b, a];
    assert [b, a][..1] + [b, a][2..] == [b];
  }
}
