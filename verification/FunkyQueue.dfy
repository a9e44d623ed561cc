/** The bounded producer/consumer queue and what it does over whole runs. */
module FunkyQueues {
  import opened Options

  /** State of the queue after a guarded push. */
  function TryPut<T>(capacity: nat, q: seq<T>, x: T): seq<T> {
    if |q| >= capacity then q else q + [x]
  }

  /** State of the queue after a push that first empties a full queue. */
  function ForcePut<T>(capacity: nat, q: seq<T>, x: T): seq<T> {
    if |q| >= capacity then [x] else q + [x]
  }

  class FunkyQueue<T> {
    const capacity: nat
    var queue: seq<T>

    constructor (capacity: nat)
      ensures this.capacity == capacity && queue == []
    {
      this.capacity := capacity;
      queue := [];
    }

    method TryEnqueue(element: T) returns (ok: bool)
      modifies this
      ensures queue == TryPut(capacity, old(queue), element)
      ensures ok <==> |old(queue)| < capacity
      ensures |old(queue)| < capacity ==> queue == old(queue) + [element]
      ensures |old(queue)| >= capacity ==> queue == old(queue)
    {
      if |queue| >= capacity {
        return false;
      }
      queue := queue + [element];
      return true;
    }

    method EnqueueOrClearEnqueue(element: T) returns (countRemoved: nat)
      modifies this
      ensures queue == ForcePut(capacity, old(queue), element)
      ensures |old(queue)| < capacity ==> queue == old(queue) + [element]
      ensures |old(queue)| >= capacity ==> queue == [element]
      ensures countRemoved == if |old(queue)| >= capacity then |old(queue)| else 0
    {
      if |queue| >= capacity {
        countRemoved := |queue|;
        while queue != []
          decreases |queue|
        {
          queue := queue[1..];
        }
        queue := queue + [element];
        return countRemoved;
      }
      queue := queue + [element];
      return 0;
    }

    /** The queue as the waiting consumer finds it once the timeout or a notification ended
        the wait. */
    method WaitDequeueTimed() returns (r: Option<T>)
      modifies this
      ensures old(queue) == [] ==> r == None && queue == []
      ensures old(queue) != [] ==> r == Some(old(queue)[0]) && queue == old(queue)[1..]
    {
      if queue == [] {
        return None;
      }
      r := Some(queue[0]);
      queue := queue[1..];
    }
  }

  // ----- whole runs -----

  datatype Op<T> = TryOffer(x: T) | ForceOffer(x: T) | Take

  /** `takenAt` and `heldAt` say which offer each taken and each queued item was. */
  datatype Trace<T> = Trace(queue: seq<T>, offered: seq<T>, taken: seq<T>, dropped: nat,
                            takenAt: seq<nat>, heldAt: seq<nat>)

  function Do<T>(capacity: nat, t: Trace<T>, op: Op<T>): Trace<T>
    requires |t.heldAt| == |t.queue|
    ensures |Do(capacity, t, op).heldAt| == |Do(capacity, t, op).queue|
  {
    match op
    case TryOffer(x) =>
      var full := |t.queue| >= capacity;
      t.(queue := TryPut(capacity, t.queue, x), offered := t.offered + [x],
         dropped := t.dropped + if full then 1 else 0,
         heldAt := TryPut(capacity, t.heldAt, |t.offered|))
    case ForceOffer(x) =>
      var full := |t.queue| >= capacity;
      t.(queue := ForcePut(capacity, t.queue, x), offered := t.offered + [x],
         dropped := t.dropped + if full then |t.queue| else 0,
         heldAt := ForcePut(capacity, t.heldAt, |t.offered|))
    case Take =>
      if t.queue == [] then t else
      t.(queue := t.queue[1..], taken := t.taken + [t.queue[0]],
         takenAt := t.takenAt + [t.heldAt[0]], heldAt := t.heldAt[1..])
  }

  function RunQueue<T>(capacity: nat, ops: seq<Op<T>>): (t: Trace<T>)
    ensures |t.heldAt| == |t.queue|
  {
    if ops == [] then Trace([], [], [], 0, [], [])
    else Do(capacity, RunQueue(capacity, ops[..|ops| - 1]), ops[|ops| - 1])
  }

  ghost predicate Increasing(s: seq<nat>) {
    forall i, j | 0 <= i < j < |s| :: s[i] < s[j]
  }

  /** `kept` selects, in order and without repetition, the items `xs` out of `offered`. */
  ghost predicate Selects<T>(kept: seq<nat>, xs: seq<T>, offered: seq<T>) {
    && |kept| == |xs|
    && Increasing(kept)
    && forall i | 0 <= i < |kept| :: kept[i] < |offered| && offered[kept[i]] == xs[i]
  }

  lemma SelectsOneMore<T>(kept: seq<nat>, xs: seq<T>, offered: seq<T>, x: T)
    requires Selects(kept, xs, offered)
    ensures Selects(kept + [|offered|], xs + [x], offered + [x])
    ensures Selects(kept, xs, offered + [x])
  {
  }

  lemma SelectsLength<T>(kept: seq<nat>, xs: seq<T>, offered: seq<T>)
    requires Selects(kept, xs, offered)
    ensures |kept| == |xs|
  {
  }

  lemma SelectsPrefix<T>(kept: seq<nat>, xs: seq<T>, offered: seq<T>, n: nat)
    requires Selects(kept, xs, offered) && n <= |kept|
    ensures Selects(kept[..n], xs[..n], offered)
  {
  }

  ghost predicate Accounted<T>(capacity: nat, t: Trace<T>) {
    && |t.heldAt| == |t.queue|
    && Selects(t.takenAt + t.heldAt, t.taken + t.queue, t.offered)
    && |t.offered| == |t.taken| + |t.queue| + t.dropped
    && |t.queue| <= (if capacity == 0 then 1 else capacity)
  }

  lemma DoKeepsAccounts<T>(capacity: nat, s: Trace<T>, op: Op<T>)
    requires Accounted(capacity, s)
    ensures Accounted(capacity, Do(capacity, s, op))
  {
    hide Selects;
    var t := Do(capacity, s, op);
    var kept, xs := s.takenAt + s.heldAt, s.taken + s.queue;
    SelectsLength(kept, xs, s.offered);
    if op.Take? {
      assert t.takenAt + t.heldAt == kept && t.taken + t.queue == xs;
    } else if |s.queue| < capacity {
      SelectsOneMore(kept, xs, s.offered, op.x);
      assert t.takenAt + t.heldAt == kept + [|s.offered|];
      assert t.taken + t.queue == xs + [op.x];
    } else if op.TryOffer? {
      SelectsOneMore(kept, xs, s.offered, op.x);
    } else {
      SelectsPrefix(kept, xs, s.offered, |s.taken|);
      SelectsOneMore(kept[..|s.taken|], xs[..|s.taken|], s.offered, op.x);
      assert kept[..|s.taken|] == s.takenAt && xs[..|s.taken|] == s.taken;
    }
  }

  /** FIFO and conservation for every run: what was taken, followed by what is queued, is a
      subsequence of what was offered; nothing is taken twice; every offer is taken, queued or
      counted as dropped; and the queue never outgrows its capacity (a capacity of 0 still
      lets a forced item in). */
  lemma {:induction false} FifoAndConservation<T>(capacity: nat, ops: seq<Op<T>>)
    ensures Accounted(capacity, RunQueue(capacity, ops))
  {
    if ops != [] {
      FifoAndConservation(capacity, ops[..|ops| - 1]);
      DoKeepsAccounts(capacity, RunQueue(capacity, ops[..|ops| - 1]), ops[|ops| - 1]);
    }
  }

  /** Offer number `i` of a full queue was forced. */
  ghost predicate ForcedOut<T>(capacity: nat, ops: seq<Op<T>>, i: nat)
    requires i < |ops|
  {
    ops[i].ForceOffer? && |RunQueue(capacity, ops[..i]).queue| >= capacity
  }

  lemma ForcedOutIff<T>(capacity: nat, ops: seq<Op<T>>, i: nat)
    requires i < |ops|
    ensures var m := |ops| - 1;
      ForcedOut(capacity, ops, i) <==>
        if i < m then ForcedOut(capacity, ops[..m], i)
        else ops[m].ForceOffer? && |RunQueue(capacity, ops[..m]).queue| >= capacity
  {
    hide RunQueue;
    var m := |ops| - 1;
    assert i < m ==> ops[..m][..i] == ops[..i];
  }

  lemma HeldOneMore<T>(capacity: nat, s: Trace<T>, op: Op<T>, k: nat)
    requires |s.heldAt| == |s.queue|
    ensures var t := Do(capacity, s, op);
      && (k in s.heldAt ==> k in t.heldAt || k in t.takenAt
                            || (op.ForceOffer? && |s.queue| >= capacity))
      && (k in s.takenAt ==> k in t.takenAt)
      && (op.ForceOffer? || (op.TryOffer? && |s.queue| < capacity) ==> |s.offered| in t.heldAt)
      && (op.TryOffer? && |s.queue| >= capacity ==>
            t.heldAt == s.heldAt && t.queue == s.queue && t.dropped == s.dropped + 1)
  {
    if op.Take? && s.queue != [] {
      assert s.heldAt == [s.heldAt[0]] + s.heldAt[1..];
      assert Do(capacity, s, op).takenAt[|s.takenAt|] == s.heldAt[0];
    } else if op.ForceOffer? {
      var held := Do(capacity, s, op).heldAt;
      assert held[|held| - 1] == |s.offered|;
    } else if op.TryOffer? && |s.queue| < capacity {
      assert Do(capacity, s, op).heldAt[|s.heldAt|] == |s.offered|;
    }
  }

  /** An accepted item leaves the queue only by being taken or by a forced offer to a full queue, in
      every run from the moment it is queued. */
  lemma {:induction false} LeavesOnlyBy<T>(capacity: nat, ops: seq<Op<T>>, n: nat, k: nat)
    requires n <= |ops| && k in RunQueue(capacity, ops[..n]).heldAt
    ensures var t := RunQueue(capacity, ops);
      || k in t.heldAt || k in t.takenAt
      || exists i | n <= i < |ops| :: ForcedOut(capacity, ops, i)
  {
    hide Do, ForcedOut;
    if n < |ops| {
      var m := |ops| - 1;
      var before := ops[..m];
      assert before[..n] == ops[..n];
      LeavesOnlyBy(capacity, before, n, k);
      HeldOneMore(capacity, RunQueue(capacity, before), ops[m], k);
      forall i | n <= i < |ops|
        ensures ForcedOut(capacity, ops, i) <==>
          if i < m then ForcedOut(capacity, before, i)
          else ops[m].ForceOffer? && |RunQueue(capacity, before).queue| >= capacity
      {
        ForcedOutIff(capacity, ops, i);
      }
      if i :| n <= i < m && ForcedOut(capacity, before, i) {
        assert ForcedOut(capacity, ops, i);
      }
      assert ForcedOut(capacity, ops, m) <==>
        ops[m].ForceOffer? && |RunQueue(capacity, before).queue| >= capacity;
    } else {
      assert ops[..n] == ops;
    }
  }

  /** A forced item always survives its own call, and an item already queued is lost by a call
      only when the queue was full at a forced offer. */
  lemma SurvivalOfForced<T>(capacity: nat, q: seq<T>, x: T)
    ensures var r := ForcePut(capacity, q, x); r != [] && r[|r| - 1] == x
    ensures q <= ForcePut(capacity, q, x) <==> |q| < capacity || q == [] || q == [x]
  {
  }
}
