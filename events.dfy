/**
 * The engine's `Event`: an ordered list of listener callbacks. While `fire` runs, the list is
 * locked: removals made from inside a callback are queued and applied after the loop, while
 * additions are appended at once but are not reached by the running loop.
 */
module Events {

  /** What a listener does to its own event while that event fires. */
  datatype Reentry<C> = AddListener(cb: C) | RemoveListener(cb: C)

  /** The list with the first occurrence of `c` taken out, as the unlocked `removeListener` scan does. */
  function RemoveFirst<C(==)>(s: seq<C>, c: C): (r: seq<C>)
    ensures |r| == if c in s then |s| - 1 else |s|
  {
    if s == [] then [] else if s[0] == c then s[1..] else [s[0]] + RemoveFirst(s[1..], c)
  }

  /** The index of the first occurrence of `c` in `s`, or `|s|` when there is none. */
  function FirstIndex<C(==)>(s: seq<C>, c: C): (k: nat)
    ensures k <= |s|
    ensures k < |s| ==> s[k] == c
    ensures forall j :: 0 <= j < k ==> s[j] != c
  {
    if s == [] then 0 else if s[0] == c then 0 else 1 + FirstIndex(s[1..], c)
  }

  /** Removing the first occurrence keeps everything before and after it, in order. */
  lemma {:induction false} RemoveFirstSplits<C>(s: seq<C>, c: C)
    ensures var k := FirstIndex(s, c);
      RemoveFirst(s, c) == if k < |s| then s[..k] + s[k + 1..] else s
  {
    if s != [] && s[0] != c {
      RemoveFirstSplits(s[1..], c);
      var k := FirstIndex(s[1..], c);
      if k < |s[1..]| {
        assert s[1..][..k] == s[1..k + 1];
        assert [s[0]] + s[1..k + 1] == s[..k + 1];
        assert s[1..][k + 1..] == s[k + 2..];
      } else {
        assert [s[0]] + s[1..] == s;
      }
    }
  }

  /** Exactly one copy of `c` leaves the list when there is one; the others stay. */
  lemma {:induction false} RemoveFirstMultiset<C>(s: seq<C>, c: C)
    ensures multiset(RemoveFirst(s, c)) == multiset(s) - multiset{c}
  {
    if s != [] {
      assert s == [s[0]] + s[1..];
      if s[0] != c {
        RemoveFirstMultiset(s[1..], c);
      }
    }
  }

  /** A callback registered once is gone after one removal. */
  lemma RemoveFirstOfSingle<C>(s: seq<C>, c: C)
    requires multiset(s)[c] == 1
    ensures c !in RemoveFirst(s, c)
  {
    RemoveFirstMultiset(s, c);
    assert multiset(RemoveFirst(s, c))[c] == 0;
  }

  /** The queued removals applied in the order they were requested. */
  function RemoveEach<C(==)>(s: seq<C>, removals: seq<C>): (r: seq<C>)
    decreases removals
  {
    if removals == [] then s else RemoveEach(RemoveFirst(s, removals[0]), removals[1..])
  }

  lemma {:induction false} RemoveEachMultiset<C>(s: seq<C>, removals: seq<C>)
    requires multiset(removals) <= multiset(s)
    ensures multiset(RemoveEach(s, removals)) == multiset(s) - multiset(removals)
    decreases removals
  {
    if removals != [] {
      var c := removals[0];
      assert removals == [c] + removals[1..];
      RemoveFirstMultiset(s, c);
      RemoveEachMultiset(RemoveFirst(s, c), removals[1..]);
    }
  }

  /** The callbacks that the given re-entrant operations append. */
  function Adds<C>(ops: seq<Reentry<C>>): seq<C>
  {
    if ops == [] then [] else Adds(ops[..|ops| - 1]) + (if ops[|ops| - 1].AddListener? then [ops[|ops| - 1].cb] else [])
  }

  /** The callbacks that the given re-entrant operations ask to remove. */
  function Removes<C>(ops: seq<Reentry<C>>): seq<C>
  {
    if ops == [] then [] else Removes(ops[..|ops| - 1]) + (if ops[|ops| - 1].RemoveListener? then [ops[|ops| - 1].cb] else [])
  }

  /** All additions the listeners `cbs` make, in the order they are invoked. */
  function Added<C>(cbs: seq<C>, reentry: C -> seq<Reentry<C>>): seq<C>
  {
    if cbs == [] then [] else Added(cbs[..|cbs| - 1], reentry) + Adds(reentry(cbs[|cbs| - 1]))
  }

  /** All removals the listeners `cbs` request, in the order they are invoked. */
  function Removed<C>(cbs: seq<C>, reentry: C -> seq<Reentry<C>>): seq<C>
  {
    if cbs == [] then [] else Removed(cbs[..|cbs| - 1], reentry) + Removes(reentry(cbs[|cbs| - 1]))
  }

  class Event<C(==)> {
    var callbacks: seq<C>
    var locked: bool
    /** The removals queued during a fire; `[]` stands for the unset property. */
    var pendingRemoval: seq<C>

    /** Between two fires the list is unlocked and no removal is queued. */
    ghost predicate Valid()
      reads this
    {
      !locked && pendingRemoval == []
    }

    constructor ()
      ensures Valid() && callbacks == []
    {
      callbacks := [];
      locked := false;
      pendingRemoval := [];
    }

    method AddListener(callback: C)
      modifies this
      ensures callbacks == old(callbacks) + [callback]
      ensures locked == old(locked) && pendingRemoval == old(pendingRemoval)
    {
      callbacks := callbacks + [callback];
    }

    /** Locked: queue the removal. Unlocked: delete the first identical callback. */
    method RemoveListener(callback: C)
      modifies this
      ensures locked == old(locked)
      ensures old(locked) ==> callbacks == old(callbacks) && pendingRemoval == old(pendingRemoval) + [callback]
      ensures !old(locked) ==> callbacks == RemoveFirst(old(callbacks), callback) && pendingRemoval == old(pendingRemoval)
    {
      if locked {
        pendingRemoval := pendingRemoval + [callback];
      } else {
        RemoveFirstSplits(callbacks, callback);
        var i := 0;
        while i < |callbacks|
          invariant 0 <= i <= |callbacks|
          invariant callbacks == old(callbacks)
          invariant forall j :: 0 <= j < i ==> callbacks[j] != callback
        {
          if callbacks[i] == callback {
            assert FirstIndex(callbacks, callback) == i;
            callbacks := callbacks[..i] + callbacks[i + 1..];
            break;
          }
          i := i + 1;
        }
      }
    }

    /**
     * Invokes every callback present when the fire starts, in order, each performing the
     * re-entrant operations `reentry` gives for it; then applies the queued removals.
     */
    method Fire(reentry: C -> seq<Reentry<C>>) returns (invoked: seq<C>)
      requires Valid()
      modifies this
      ensures Valid()
      ensures invoked == old(callbacks)
      ensures callbacks == RemoveEach(old(callbacks) + Added(old(callbacks), reentry), Removed(old(callbacks), reentry))
    {
      ghost var start := callbacks;
      var length := |callbacks|;
      locked := true;
      invoked := [];
      var i := 0;
      while i < length
        invariant 0 <= i <= length == |start|
        invariant locked
        invariant invoked == start[..i]
        invariant callbacks == start + Added(start[..i], reentry)
        invariant pendingRemoval == Removed(start[..i], reentry)
      {
        var cb := callbacks[i];
        invoked := invoked + [cb];
        Reenter(reentry(cb));
        assert start[..i + 1][..i] == start[..i];
        i := i + 1;
      }
      assert start[..i] == start;
      locked := false;
      FlushRemovals();
    }

    /** What one callback does to its event while the event fires: the operations `ops`, in order. */
    method Reenter(ops: seq<Reentry<C>>)
      requires locked
      modifies this
      ensures locked
      ensures callbacks == old(callbacks) + Adds(ops)
      ensures pendingRemoval == old(pendingRemoval) + Removes(ops)
    {
      var j := 0;
      while j < |ops|
        invariant 0 <= j <= |ops|
        invariant locked
        invariant callbacks == old(callbacks) + Adds(ops[..j])
        invariant pendingRemoval == old(pendingRemoval) + Removes(ops[..j])
      {
        assert ops[..j + 1][..j] == ops[..j];
        if ops[j].AddListener? {
          AddListener(ops[j].cb);
        } else {
          RemoveListener(ops[j].cb);
        }
        j := j + 1;
      }
      assert ops[..j] == ops;
    }

    /** The end of `fire`: the queued removals are applied in order and the queue is dropped. */
    method FlushRemovals()
      requires !locked
      modifies this
      ensures !locked && pendingRemoval == []
      ensures callbacks == RemoveEach(old(callbacks), old(pendingRemoval))
    {
      if pendingRemoval != [] {
        var k := 0;
        while k < |pendingRemoval|
          invariant 0 <= k <= |pendingRemoval|
          invariant !locked && pendingRemoval == old(pendingRemoval)
          invariant RemoveEach(old(callbacks), pendingRemoval) == RemoveEach(callbacks, pendingRemoval[k..])
        {
          RemoveListener(pendingRemoval[k]);
          assert pendingRemoval[k..] == [pendingRemoval[k]] + pendingRemoval[k + 1..];
          k := k + 1;
        }
        pendingRemoval := [];
      }
    }
  }
}
