/** The inbound throttler as an object with updated fields, proved to take exactly the steps of the state machine. */
module Inbound {
  import opened Sums
  import opened InboundModel
  import opened InboundInvariants
  import opened InboundRelease
  import opened InboundSafety

  class MsgThrottler {
    const cfg: Config
    var remainingVdrBytes: nat
    var remainingAtLargeBytes: nat
    var nodeToVdrBytesUsed: Counts
    var nodeToAtLargeBytesUsed: Counts
    var nextMsgID: nat
    var waitingToAcquire: seq<Waiter>
    var nodeToWaitingMsgIDs: IdLists
    /** The messages callers have acquired and not released. */
    ghost var held: seq<Message>

    ghost function State(): System
      reads this
    {
      System(Throttler(remainingVdrBytes, remainingAtLargeBytes, nodeToVdrBytesUsed, nodeToAtLargeBytesUsed,
                       nextMsgID, waitingToAcquire, nodeToWaitingMsgIDs), held)
    }

    ghost predicate Valid(maxSize: int)
      reads this
    {
      Inv(cfg, State(), maxSize)
    }

    constructor (cfg: Config)
      ensures this.cfg == cfg && State() == System(Initial(cfg), [])
      ensures forall maxSize :: Valid(maxSize)
    {
      this.cfg := cfg;
      remainingVdrBytes, remainingAtLargeBytes := cfg.vdrAlloc, cfg.atLargeAlloc;
      nodeToVdrBytesUsed, nodeToAtLargeBytesUsed := map[], map[];
      nextMsgID, waitingToAcquire, nodeToWaitingMsgIDs, held := 0, [], map[], [];
      new;
      forall maxSize
        ensures Valid(maxSize)
      {
        InitialInv(cfg, maxSize);
      }
    }

    /** The bounds that make every subtraction below one of natural numbers. */
    ghost predicate Bounded(n: NodeID)
      reads this
    {
      0 <= Lookup(nodeToAtLargeBytesUsed, n) <= cfg.nodeMax && 0 <= Lookup(nodeToVdrBytesUsed, n)
    }

    lemma ValidBounded(n: NodeID, maxSize: int)
      requires Valid(maxSize)
      ensures Bounded(n)
    {
      LookupAtMostTotal(nodeToAtLargeBytesUsed, n);
      LookupAtMostTotal(nodeToVdrBytesUsed, n);
    }

    /** `done` says whether the call returned at once; otherwise it is blocked as a waiter. */
    method Acquire(size: nat, n: NodeID, share: nat, ghost maxSize: int) returns (done: bool)
      requires Valid(maxSize)
      modifies this
      ensures State() == Next(cfg, old(State()), Event.Acquire(size, n, share))
      ensures held == if done then old(held) + [Message(n, size)] else old(held)
      ensures 0 < size <= maxSize ==> Valid(maxSize)
    {
      ValidBounded(n, maxSize);
      if 0 < size <= maxSize {
        AcquireKeeps(cfg, State(), size, n, share, maxSize);
      }
      done := AcquireBytes(size, n, share);
      held := if done then held + [Message(n, size)] else held;
    }

    /** The critical section of `Acquire`. */
    method AcquireBytes(size: nat, n: NodeID, share: nat) returns (done: bool)
      requires Bounded(n)
      modifies this
      ensures (State().t, done) == AcquireStep(cfg, old(State().t), size, n, share)
      ensures held == old(held)
    {
      hide AtLargeGrant, VdrGrant, TakeAtLarge, TakeVdr;
      var atLargeBytesUsed := TakeFromAtLarge(size, n);
      var bytesNeeded: nat := size - atLargeBytesUsed;
      if atLargeBytesUsed > 0 && bytesNeeded == 0 {
        return true;
      }
      var vdrBytesUsed := TakeFromVdr(bytesNeeded, n, share);
      bytesNeeded := bytesNeeded - vdrBytesUsed;
      if vdrBytesUsed > 0 && bytesNeeded == 0 {
        return true;
      }
      nextMsgID := nextMsgID + 1;
      waitingToAcquire := waitingToAcquire + [Waiter(nextMsgID, n, size, bytesNeeded)];
      nodeToWaitingMsgIDs := nodeToWaitingMsgIDs[n := Ids(nodeToWaitingMsgIDs, n) + [nextMsgID]];
      done := false;
    }

    method TakeFromAtLarge(size: nat, n: NodeID) returns (used: nat)
      requires Bounded(n)
      modifies this
      ensures used == AtLargeGrant(cfg, old(State().t), size, n) <= size
      ensures State().t == TakeAtLarge(old(State().t), n, used)
      ensures held == old(held) && remainingVdrBytes == old(remainingVdrBytes) && nodeToVdrBytesUsed == old(nodeToVdrBytesUsed)
    {
      var nodeRoom: nat := cfg.nodeMax - Lookup(nodeToAtLargeBytesUsed, n);
      used := Min3(size, nodeRoom, remainingAtLargeBytes);
      if used > 0 {
        remainingAtLargeBytes := remainingAtLargeBytes - used;
        nodeToAtLargeBytesUsed := Charge(nodeToAtLargeBytesUsed, n, used);
      }
    }

    method TakeFromVdr(need: nat, n: NodeID, share: nat) returns (used: nat)
      modifies this
      ensures used == VdrGrant(old(State().t), need, n, share) <= need
      ensures State().t == TakeVdr(old(State().t), n, used)
      ensures held == old(held)
    {
      var vdrBytesAllowed: nat := VdrAllowed(share, Lookup(nodeToVdrBytesUsed, n));
      used := Min3(remainingVdrBytes, need, vdrBytesAllowed);
      if used > 0 {
        nodeToVdrBytesUsed := Charge(nodeToVdrBytesUsed, n, used);
        remainingVdrBytes := remainingVdrBytes - used;
      }
    }

    /** `Release` of the held message at position `i`; `unblocked` are the waiters whose calls return. */
    method Release(size: nat, n: NodeID, ghost i: nat, ghost maxSize: int) returns (unblocked: seq<Waiter>)
      requires Valid(maxSize) && i < |held| && held[i] == Message(n, size)
      modifies this
      ensures State() == Next(cfg, old(State()), Event.Release(i))
      ensures held == old(held)[..i] + old(held)[i + 1..] + Messages(unblocked)
      ensures Valid(maxSize)
    {
      ReleaseCovered(cfg, State(), i);
      ReleaseKeeps(cfg, State(), i, maxSize);
      ghost var s := State();
      assert Enabled(s, Event.Release(i));
      var vdrBytesUsed := Lookup(nodeToVdrBytesUsed, n);
      var vdrBytesToReturn: nat := Min(size, vdrBytesUsed);
      var atLargeBytesToReturn: nat := size - vdrBytesToReturn;
      ghost var t1, d1 := ReleaseAtLargeKeeps(cfg, s.t, n, atLargeBytesToReturn, maxSize);
      ghost var t2, d2 := ReleaseVdrKeeps(cfg, t1, n, vdrBytesToReturn, maxSize);
      ReleaseHalves(cfg, s, i, n, atLargeBytesToReturn, vdrBytesToReturn, t1, d1, t2, d2);
      held := held[..i] + held[i + 1..];
      unblocked := ReturnAtLarge(n, atLargeBytesToReturn);
      var more := ReturnVdr(n, vdrBytesToReturn);
      unblocked := unblocked + more;
      held := held + Messages(unblocked);
    }

    /** The at-large part of `Release`. */
    method ReturnAtLarge(n: NodeID, bytes: nat) returns (unblocked: seq<Waiter>)
      requires bytes <= Lookup(nodeToAtLargeBytesUsed, n) && Pools(cfg, State().t) && Waits(waitingToAcquire)
      modifies this
      ensures (State().t, unblocked) == ReleaseAtLarge(cfg, old(State().t), n, bytes)
      ensures held == old(held)
    {
      hide Sweep, Store, Total;
      unblocked := [];
      if bytes > 0 {
        CreditFacts(cfg.nodeMax, nodeToAtLargeBytesUsed, n, bytes);
        var used := Store(nodeToAtLargeBytesUsed, n, Lookup(nodeToAtLargeBytesUsed, n) - bytes);
        remainingAtLargeBytes, nodeToAtLargeBytesUsed, nodeToWaitingMsgIDs, waitingToAcquire, unblocked :=
          GiveAtLarge(cfg.nodeMax, remainingAtLargeBytes + bytes, used, nodeToWaitingMsgIDs, waitingToAcquire);
      }
    }

    /** The validator part of `Release`. */
    method ReturnVdr(n: NodeID, bytes: nat) returns (unblocked: seq<Waiter>)
      requires bytes <= Lookup(nodeToVdrBytesUsed, n) && Waits(waitingToAcquire)
      modifies this
      ensures (State().t, unblocked) == ReleaseVdr(old(State().t), n, bytes)
      ensures held == old(held)
    {
      hide ServeOwn, Store;
      var left;
      left, nodeToWaitingMsgIDs, waitingToAcquire, unblocked :=
        GiveVdr(bytes, nodeToWaitingMsgIDs, waitingToAcquire, n);
      if left > 0 {
        nodeToVdrBytesUsed := Store(nodeToVdrBytesUsed, n, Lookup(nodeToVdrBytesUsed, n) - left);
        remainingVdrBytes := remainingVdrBytes + left;
      }
    }
  }

  /** The at-large loop: an iteration over the waiting queue, oldest first, that deletes served waiters as it goes. */
  method GiveAtLarge(cap: nat, pool0: nat, used0: Counts, lists0: IdLists, queue0: seq<Waiter>)
      returns (pool: nat, used: Counts, lists: IdLists, queue: seq<Waiter>, unblocked: seq<Waiter>)
    requires Positive(used0) && WithinCap(cap, used0) && Waits(queue0)
    ensures Served(pool, used, lists, queue, unblocked) == Sweep(cap, pool0, used0, lists0, queue0)
  {
    hide Sweep, SweepRest, Charge;
    pool, used, lists, queue, unblocked := pool0, used0, lists0, queue0, [];
    ghost var r := Sweep(cap, pool, used, lists, queue);
    var next := 0;
    SweepingStart(cap, pool, used, lists, queue);
    while pool > 0 && next < |queue|
      invariant Sweeping(cap, pool, used, lists, queue, next, unblocked, r)
      decreases |queue| - next
    {
      var msg := queue[next];
      SweepingStep(cap, pool, used, lists, queue, next, unblocked, r);
      var given: nat := Grant(cap, pool, used, msg);
      if msg.need == given {
        unblocked := unblocked + [msg.(need := 0)];
        lists := DropOldest(lists, msg.node);
        queue := queue[..next] + queue[next + 1..];
      } else {
        queue := queue[next := msg.(need := msg.need - given)];
        next := next + 1;
      }
      pool, used := pool - given, Charge(used, msg.node, given);
    }
    SweepingEnd(cap, pool, used, lists, queue, next, unblocked, r);
  }

  /** The validator loop: the node's own waiters, looked up through its id list. */
  method GiveVdr(bytes: nat, lists0: IdLists, queue0: seq<Waiter>, n: NodeID)
      returns (left: nat, lists: IdLists, queue: seq<Waiter>, unblocked: seq<Waiter>)
    requires Waits(queue0)
    ensures left <= bytes && Served(left, map[], lists, queue, unblocked) == ServeOwn(bytes, lists0, queue0, n)
  {
    hide ServeOwn, DropOldest, Ids;
    left, lists, queue, unblocked := bytes, lists0, queue0, [];
    ghost var r := ServeOwn(left, lists, queue, n);
    assert unblocked + r.done == r.done;
    DropShortens(n);
    while left > 0 && |Ids(lists, n)| > 0
      invariant Waits(queue) && left <= bytes
      invariant r == ServeRest(left, lists, queue, n, unblocked)
      decreases |Ids(lists, n)|, left
    {
      var at := Find(queue, Ids(lists, n)[0]);
      if at == |queue| {
        break;
      }
      var msg := queue[at];
      var given: nat := Min(msg.need, left);
      if msg.need == given {
        ServeRestDone(left, lists, queue, n, unblocked, at);
        WaitsEdit(queue, at, msg);
        unblocked := unblocked + [msg.(need := 0)];
        lists := DropOldest(lists, n);
        queue := queue[..at] + queue[at + 1..];
      } else {
        ServePart(left, lists, queue, n, at);
        WaitsEdit(queue, at, msg.(need := msg.need - given));
        queue := queue[at := msg.(need := msg.need - given)];
        ServeEnds(0, lists, queue, n);
      }
      left := left - given;
    }
    ServeEnds(left, lists, queue, n);
    assert unblocked + [] == unblocked;
  }

  lemma DropShortens(n: NodeID)
    ensures forall lists :: |Ids(lists, n)| > 0 ==> |Ids(DropOldest(lists, n), n)| < |Ids(lists, n)|
  {
  }

  /** What the sweep gives in all, when it stands at position `next` and has unblocked `done`. */
  ghost function SweepRest(cap: int, pool: int, used: Counts, lists: IdLists, q: seq<Waiter>, next: nat, done: seq<Waiter>): Served
    requires next <= |q|
  {
    var r := Sweep(cap, pool, used, lists, q[next..]);
    r.(kept := q[..next] + r.kept, done := done + r.done)
  }

  lemma WaitsEdit(q: seq<Waiter>, i: nat, w: Waiter)
    requires Waits(q) && i < |q| && 0 < w.need <= w.size
    ensures Waits(q[..i] + q[i + 1..]) && Waits(q[i := w])
  {
  }

  /** One iteration of the at-large loop: the waiter is served in full. */
  lemma SweepRestServed(cap: int, pool: int, used: Counts, lists: IdLists, q: seq<Waiter>, next: nat, done: seq<Waiter>, g: int)
    requires next < |q| && pool > 0 && g == Grant(cap, pool, used, q[next]) == q[next].need && g > 0
    ensures SweepRest(cap, pool, used, lists, q, next, done) ==
            SweepRest(cap, pool - g, Charge(used, q[next].node, g), DropOldest(lists, q[next].node),
                      q[..next] + q[next + 1..], next, done + [q[next].(need := 0)])
  {
    var w' := q[next].(need := 0);
    assert q[next..][0] == q[next] && q[next..][1..] == q[next + 1..];
    var q' := q[..next] + q[next + 1..];
    assert q'[next..] == q[next + 1..] && q'[..next] == q[..next];
    var r := Sweep(cap, pool - g, Charge(used, w'.node, g), DropOldest(lists, w'.node), q[next + 1..]);
    assert done + ([w'] + r.done) == done + [w'] + r.done;
  }

  /** One iteration of the at-large loop: the waiter stays, with whatever it was given. */
  lemma SweepRestKept(cap: int, pool: int, used: Counts, lists: IdLists, q: seq<Waiter>, next: nat, done: seq<Waiter>, g: int)
    requires next < |q| && pool > 0 && g == Grant(cap, pool, used, q[next]) && 0 <= g < q[next].need
    ensures SweepRest(cap, pool, used, lists, q, next, done) ==
            SweepRest(cap, pool - g, Charge(used, q[next].node, g), lists,
                      q[next := q[next].(need := q[next].need - g)], next + 1, done)
  {
    var w' := q[next].(need := q[next].need - g);
    assert q[next..][0] == q[next] && q[next..][1..] == q[next + 1..];
    var q' := q[next := w'];
    assert q'[next + 1..] == q[next + 1..] && q'[..next + 1] == q[..next] + [w'];
    var r := Sweep(cap, pool - g, Charge(used, w'.node, g), lists, q[next + 1..]);
    assert q[..next] + ([w'] + r.kept) == q[..next] + [w'] + r.kept;
  }

  /** The invariant of the at-large loop: from here on the sweep gives what it would have given from the start. */
  ghost predicate Sweeping(cap: int, pool: int, used: Counts, lists: IdLists, q: seq<Waiter>, next: nat, done: seq<Waiter>, r: Served) {
    && next <= |q| && pool >= 0 && Waits(q) && Positive(used) && WithinCap(cap, used)
    && r == SweepRest(cap, pool, used, lists, q, next, done)
  }

  lemma SweepingStep(cap: int, pool: int, used: Counts, lists: IdLists, q: seq<Waiter>, next: nat, done: seq<Waiter>, r: Served)
    requires Sweeping(cap, pool, used, lists, q, next, done, r) && pool > 0 && next < |q|
    ensures
      var w := q[next];
      var g := Grant(cap, pool, used, w);
      && 0 <= g <= w.need && g <= pool
      && (g == w.need ==> Sweeping(cap, pool - g, Charge(used, w.node, g), DropOldest(lists, w.node),
                                   q[..next] + q[next + 1..], next, done + [w.(need := 0)], r))
      && (g != w.need ==> Sweeping(cap, pool - g, Charge(used, w.node, g), lists,
                                   q[next := w.(need := w.need - g)], next + 1, done, r))
  {
    var w := q[next];
    var g := Grant(cap, pool, used, w);
    GrantFacts(cap, pool, used, w);
    ChargeFacts(cap, pool, used, w.node, g);
    if g == w.need {
      SweepRestServed(cap, pool, used, lists, q, next, done, g);
      WaitsEdit(q, next, w);
    } else {
      SweepRestKept(cap, pool, used, lists, q, next, done, g);
      WaitsEdit(q, next, w.(need := w.need - g));
    }
  }

  lemma SweepingStart(cap: int, pool: int, used: Counts, lists: IdLists, q: seq<Waiter>)
    requires pool >= 0 && Waits(q) && Positive(used) && WithinCap(cap, used)
    ensures Sweeping(cap, pool, used, lists, q, 0, [], Sweep(cap, pool, used, lists, q))
  {
    var r := Sweep(cap, pool, used, lists, q);
    assert q[0..] == q && q[..0] + r.kept == r.kept && [] + r.done == r.done;
  }

  lemma SweepingEnd(cap: int, pool: int, used: Counts, lists: IdLists, q: seq<Waiter>, next: nat, done: seq<Waiter>, r: Served)
    requires Sweeping(cap, pool, used, lists, q, next, done, r) && (pool == 0 || next == |q|)
    ensures r == Served(pool, used, lists, q, done)
  {
    assert q[..next] + q[next..] == q;
    assert done + [] == done;
  }

  /** What the validator loop gives in all, when it has unblocked `done`. */
  ghost function ServeRest(left: int, lists: IdLists, q: seq<Waiter>, n: NodeID, done: seq<Waiter>): Served {
    var r := ServeOwn(left, lists, q, n);
    r.(done := done + r.done)
  }

  /** One iteration of the validator loop: the waiter is served in full. */
  lemma ServeRestDone(left: int, lists: IdLists, q: seq<Waiter>, n: NodeID, done: seq<Waiter>, at: nat)
    requires left > 0 && Ids(lists, n) != [] && at == Find(q, Ids(lists, n)[0]) < |q| && q[at].need <= left
    ensures ServeRest(left, lists, q, n, done) ==
            ServeRest(left - q[at].need, DropOldest(lists, n), q[..at] + q[at + 1..], n, done + [q[at].(need := 0)])
  {
    ServeDone(left, lists, q, n, at);
    var r := ServeOwn(left - q[at].need, DropOldest(lists, n), q[..at] + q[at + 1..], n);
    assert done + ([q[at].(need := 0)] + r.done) == done + [q[at].(need := 0)] + r.done;
  }
}
