/** When a call can be blocked for good: whatever calls follow, it never returns. */
module InboundForever {
  import opened Sums
  import opened InboundModel
  import opened InboundInvariants
  import opened InboundRelease
  import opened InboundSafety
  import opened InboundProgress
  import opened InboundDeadlock

  /** The waiter with this id and node is still in the queue. */
  ghost predicate Kept(s: System, id: nat, n: NodeID) {
    exists i :: 0 <= i < |s.t.waiting| && s.t.waiting[i].id == id && s.t.waiting[i].node == n
  }

  /** Every continuation, with sizes from 1 to the limit and any shares, leaves the waiter waiting. */
  ghost predicate Doomed(cfg: Config, s: System, id: nat, n: NodeID) {
    forall events :: Feasible(cfg, s, events) && SizesAtMost(events, cfg.nodeMax) ==> Kept(After(cfg, s, events), id, n)
  }

  /** Some run leads to a state in which a waiter is blocked for good. */
  ghost predicate CanBlockForGood(cfg: Config) {
    exists events, id, n :: BlocksForGood(cfg, events, id, n)
  }

  ghost predicate BlocksForGood(cfg: Config, events: seq<Event>, id: nat, n: NodeID) {
    && Feasible(cfg, System(Initial(cfg), []), events) && SizesAtMost(events, cfg.nodeMax)
    && Doomed(cfg, After(cfg, System(Initial(cfg), []), events), id, n)
  }

  lemma {:induction false} RunConcat(cfg: Config, s: System, a: seq<Event>, b: seq<Event>, maxSize: int)
    requires Feasible(cfg, s, a) && Feasible(cfg, After(cfg, s, a), b) && SizesAtMost(a, maxSize) && SizesAtMost(b, maxSize)
    ensures Feasible(cfg, s, a + b) && SizesAtMost(a + b, maxSize) && After(cfg, s, a + b) == After(cfg, After(cfg, s, a), b)
    decreases |a|
  {
    hide Next;
    if a == [] {
      assert a + b == b;
    } else {
      assert (a + b)[1..] == a[1..] + b;
      RunConcat(cfg, Next(cfg, s, a[0]), a[1..], b, maxSize);
    }
  }

  // ---------------------------------------------------------------- nothing left, nothing held

  ghost predicate Dead(s: System) {
    s.held == [] && s.t.waiting != [] && s.t.remainingAtLarge == 0 && s.t.remainingVdr == 0
  }

  /** With both pools empty an acquire only joins the queue. */
  lemma DeadStep(cfg: Config, s: System, size: nat, n: NodeID, share: nat)
    requires Pools(cfg, s.t) && Dead(s) && size > 0
    ensures Next(cfg, s, Acquire(size, n, share)) == System(Enqueue(s.t, n, size, size), [])
  {
    assert Lookup(s.t.atLargeUsed, n) <= cfg.nodeMax;
    LookupAtMostTotal(s.t.vdrUsed, n);
  }

  /** Then no continuation completes anything: the queue only grows. */
  lemma {:induction false} DeadForever(cfg: Config, s: System, events: seq<Event>)
    requires Inv(cfg, s, cfg.nodeMax) && Dead(s) && Feasible(cfg, s, events) && SizesAtMost(events, cfg.nodeMax)
    ensures s.t.waiting <= After(cfg, s, events).t.waiting
    decreases |events|
  {
    hide Next, Inv;
    if events != [] {
      var e := events[0];
      OnlyAcquires(cfg, s, e);
      var s' := Next(cfg, s, e);
      DeadForever(cfg, s', events[1..]);
      assert s.t.waiting <= s'.t.waiting;
    }
  }

  lemma OnlyAcquires(cfg: Config, s: System, e: Event)
    requires Inv(cfg, s, cfg.nodeMax) && Dead(s) && Enabled(s, e) && (e.Acquire? ==> 0 < e.size <= cfg.nodeMax)
    ensures e.Acquire? && Inv(cfg, Next(cfg, s, e), cfg.nodeMax) && Dead(Next(cfg, s, e))
    ensures s.t.waiting <= Next(cfg, s, e).t.waiting
  {
    hide Queue, Accounted, Total;
    AcquireKeeps(cfg, s, e.size, e.node, e.share, cfg.nodeMax);
    DeadStep(cfg, s, e.size, e.node, e.share);
  }

  lemma DeadDooms(cfg: Config, s: System)
    requires Inv(cfg, s, cfg.nodeMax) && Dead(s)
    ensures Doomed(cfg, s, s.t.waiting[0].id, s.t.waiting[0].node)
  {
    forall events | Feasible(cfg, s, events) && SizesAtMost(events, cfg.nodeMax)
      ensures Kept(After(cfg, s, events), s.t.waiting[0].id, s.t.waiting[0].node)
    {
      DeadForever(cfg, s, events);
      assert After(cfg, s, events).t.waiting[0] == s.t.waiting[0];
    }
  }

  // ---------------------------------------------------------------- absorbing the validator bytes

  /** A message of two bytes that may take one validator byte waits with that byte. */
  lemma AbsorbOne(cfg: Config, s: System, share: nat)
    requires Inv(cfg, s, cfg.nodeMax) && s.t.remainingAtLarge == 0 && s.t.remainingVdr > 0
    requires share == Lookup(s.t.vdrUsed, 0) + 1
    ensures Next(cfg, s, Acquire(2, 0, share)) == System(Enqueue(TakeVdr(s.t, 0, 1), 0, 2, 1), s.held)
  {
    assert Lookup(s.t.atLargeUsed, 0) <= cfg.nodeMax;
  }

  /** From an idle state without at-large bytes, such messages use up the validator bytes too. */
  lemma {:induction false} Absorb(cfg: Config, s: System) returns (events: seq<Event>)
    requires Inv(cfg, s, cfg.nodeMax) && s.held == [] && s.t.waiting != [] && s.t.remainingAtLarge == 0
    requires cfg.nodeMax >= 2 || s.t.remainingVdr == 0
    ensures Feasible(cfg, s, events) && SizesAtMost(events, cfg.nodeMax)
    ensures Inv(cfg, After(cfg, s, events), cfg.nodeMax) && Dead(After(cfg, s, events))
    decreases s.t.remainingVdr
  {
    hide Queue, Accounted, Total, Next;
    if s.t.remainingVdr == 0 {
      events := [];
    } else {
      LookupAtMostTotal(s.t.vdrUsed, 0);
      var share: nat := Lookup(s.t.vdrUsed, 0) + 1;
      var e := Acquire(2, 0, share);
      AbsorbOne(cfg, s, share);
      AcquireKeeps(cfg, s, 2, 0, share, cfg.nodeMax);
      var rest := Absorb(cfg, Next(cfg, s, e));
      Prepend(cfg, s, e, rest, cfg.nodeMax);
      events := [e] + rest;
    }
  }

  lemma CanBlock(cfg: Config)
    requires cfg.atLargeAlloc <= (cfg.vdrAlloc + 1) * (cfg.nodeMax - 1) && (cfg.nodeMax >= 2 || cfg.vdrAlloc == 0)
    ensures CanBlockForGood(cfg)
  {
    hide Next, After, Feasible;
    var s0 := System(Initial(cfg), []);
    var a := Deadlock(cfg);
    var s := After(cfg, s0, a);
    InitialInv(cfg, cfg.nodeMax);
    RunKeeps(cfg, s0, a, cfg.nodeMax);
    VdrAtMost(cfg, s);
    var b := Absorb(cfg, s);
    RunConcat(cfg, s0, a, b, cfg.nodeMax);
    var d := After(cfg, s, b);
    DeadDooms(cfg, d);
    assert BlocksForGood(cfg, a + b, d.t.waiting[0].id, d.t.waiting[0].node);
  }

  lemma VdrAtMost(cfg: Config, s: System)
    requires Inv(cfg, s, cfg.nodeMax)
    ensures 0 <= s.t.remainingVdr <= cfg.vdrAlloc
  {
    TotalOverNonNegative(s.t.vdrUsed, s.t.vdrUsed.Keys);
  }

  // ---------------------------------------------------------------- releasing everything

  lemma {:induction false} SweepCount(cap: int, pool: int, used: Counts, lists: IdLists, q: seq<Waiter>)
    ensures
      var r := Sweep(cap, pool, used, lists, q);
      |r.kept| + |r.done| == |q|
    decreases |q|
  {
    if pool > 0 && q != [] {
      var g := Grant(cap, pool, used, q[0]);
      var lists' := if Spend(q[0].need, g) == 0 then DropOldest(lists, q[0].node) else lists;
      SweepCount(cap, Spend(pool, g), Charge(used, q[0].node, g), lists', q[1..]);
    }
  }

  lemma {:induction false} ServeOwnCount(left: int, lists: IdLists, q: seq<Waiter>, n: NodeID)
    ensures
      var r := ServeOwn(left, lists, q, n);
      |r.kept| + |r.done| == |q|
    decreases |Ids(lists, n)|
  {
    hide DropOldest;
    var ids := Ids(lists, n);
    if left > 0 && ids != [] {
      var i := Find(q, ids[0]);
      if i < |q| {
        var g := Min(q[i].need, left);
        if q[i].need - g == 0 {
          DropFacts(lists, n);
          ServeOwnCount(left - g, DropOldest(lists, n), q[..i] + q[i + 1..], n);
        }
      }
    }
  }

  lemma {:induction false} MessagesLength(ws: seq<Waiter>)
    ensures |Messages(ws)| == |ws|
  {
    if ws != [] {
      MessagesLength(ws[1..]);
    }
  }

  /** A release takes one message away; waiters it completes become held messages. */
  lemma ReleaseCount(cfg: Config, s: System)
    requires s.held != [] && s.held[0].size >= 0
    ensures
      var s' := Next(cfg, s, Release(0));
      |s'.held| + |s'.t.waiting| == |s.held| + |s.t.waiting| - 1
  {
    hide Sweep, ServeOwn, Messages, Store;
    var n, size := s.held[0].node, s.held[0].size;
    var v := Min(size, Lookup(s.t.vdrUsed, n));
    var used := Store(s.t.atLargeUsed, n, Lookup(s.t.atLargeUsed, n) - (size - v));
    SweepCount(cfg.nodeMax, s.t.remainingAtLarge + (size - v), used, s.t.nodeWaiting, s.t.waiting);
    var (t1, d1) := ReleaseAtLarge(cfg, s.t, n, size - v);
    ServeOwnCount(v, t1.nodeWaiting, t1.waiting, n);
    var (t2, d2) := ReleaseVdr(t1, n, v);
    MessagesLength(d1 + d2);
  }

  lemma {:induction false} ReleaseAll(cfg: Config, s: System) returns (events: seq<Event>)
    requires Inv(cfg, s, cfg.nodeMax)
    ensures Feasible(cfg, s, events) && SizesAtMost(events, cfg.nodeMax)
    ensures After(cfg, s, events).held == []
    decreases |s.held| + |s.t.waiting|
  {
    hide Pools, Queue, Accounted, Next;
    if s.held == [] {
      events := [];
    } else {
      assert s.held[0] in s.held;
      ReleaseCount(cfg, s);
      ReleaseKeeps(cfg, s, 0, cfg.nodeMax);
      var rest := ReleaseAll(cfg, Next(cfg, s, Release(0)));
      Prepend(cfg, s, Release(0), rest, cfg.nodeMax);
      events := [Release(0)] + rest;
    }
  }

  // ---------------------------------------------------------------- limit one

  /** With limit one no waiter holds a byte, so when nothing is held no byte is in use. */
  lemma {:induction false} NoPartial(q: seq<Waiter>, hi: int, n: NodeID)
    requires Waits(q) && Within(q, 0, hi, 1)
    ensures Partial(q, n) == 0
  {
    if q != [] {
      assert q[0] in q;
      NoPartial(q[1..], hi, n);
    }
  }

  lemma IdleUnused(cfg: Config, s: System, n: NodeID)
    requires cfg.nodeMax == 1 && Inv(cfg, s, 1) && s.held == []
    ensures Lookup(s.t.atLargeUsed, n) == 0 && Lookup(s.t.vdrUsed, n) == 0
  {
    hide Total;
    NoPartial(s.t.waiting, s.t.nextID, n);
    assert Lookup(s.t.atLargeUsed, n) + Lookup(s.t.vdrUsed, n) == Held(s.held, n) + Partial(s.t.waiting, n);
  }

  /** So a second message of a waiting node can take a validator byte. */
  lemma OneByte(cfg: Config, s: System, id: nat, n: NodeID)
    requires cfg.nodeMax == 1 && cfg.vdrAlloc > 0 && Inv(cfg, s, 1) && s.held == [] && Kept(s, id, n)
    ensures
      var s' := Next(cfg, s, Acquire(1, n, 1));
      s'.held == [Message(n, 1)] && Lookup(s'.t.vdrUsed, n) == 1
  {
    IdleUnused(cfg, s, n);
    var i :| 0 <= i < |s.t.waiting| && s.t.waiting[i].id == id && s.t.waiting[i].node == n;
    assert s.t.waiting[i] in s.t.waiting;
    assert s.t.remainingAtLarge == 0;
    assert s.t.vdrUsed == map[] by {
      forall k
        ensures k !in s.t.vdrUsed
      {
        IdleUnused(cfg, s, k);
      }
    }
    assert Total(s.t.vdrUsed) == 0;
  }

  /** Releasing that byte completes the node's oldest waiter, which then holds it. */
  lemma PassOn(cfg: Config, s: System, n: NodeID)
    requires cfg.nodeMax == 1 && Inv(cfg, s, 1) && s.held == [Message(n, 1)] && Lookup(s.t.vdrUsed, n) >= 1
    requires IdsOf(s.t.waiting, n) != []
    ensures
      var s' := Next(cfg, s, Release(0));
      && s'.held == [Message(n, 1)] && s'.t.vdrUsed == s.t.vdrUsed
      && |IdsOf(s'.t.waiting, n)| < |IdsOf(s.t.waiting, n)|
  {
    hide Total, ServeOwn, Sweep, DropOldest, Partial, Held, Find;
    var q, lists := s.t.waiting, s.t.nodeWaiting;
    assert Ids(lists, n) == IdsOf(q, n);
    FirstOfNode(q, n);
    var i := Find(q, IdsOf(q, n)[0]);
    assert q[i] in q;
    var q' := q[..i] + q[i + 1..];
    ServeDone(1, lists, q, n, i);
    ServeEnds(0, DropOldest(lists, n), q', n);
    AfterFirst(lists, q, n, i);
    var w := q[i].(need := 0);
    var t2 := s.t.(waiting := q', nodeWaiting := DropOldest(lists, n));
    assert [w] + [] == [w];
    assert ReleaseVdr(s.t, n, 1) == (t2, [w]);
    assert ReleaseAtLarge(cfg, s.t, n, 0) == (s.t, []);
    ReleaseHalves(cfg, s, 0, n, 0, 1, s.t, [], t2, [w]);
    assert [] + [w] == [w] && [w][1..] == [] && Messages([w]) == [Message(n, 1)];
    assert s.held[..0] + s.held[1..] == [];
  }

  /** Handing the byte on completes every waiter of the node. */
  lemma {:induction false} Unblock(cfg: Config, s: System, n: NodeID) returns (events: seq<Event>)
    requires cfg.nodeMax == 1 && Inv(cfg, s, 1) && s.held == [Message(n, 1)] && Lookup(s.t.vdrUsed, n) >= 1
    ensures Feasible(cfg, s, events) && SizesAtMost(events, 1) && IdsOf(After(cfg, s, events).t.waiting, n) == []
    decreases |IdsOf(s.t.waiting, n)|
  {
    hide Inv, IdsOf, Next;
    if IdsOf(s.t.waiting, n) == [] {
      events := [];
    } else {
      PassOn(cfg, s, n);
      ReleaseKeeps(cfg, s, 0, 1);
      var rest := Unblock(cfg, Next(cfg, s, Release(0)), n);
      Prepend(cfg, s, Release(0), rest, 1);
      events := [Release(0)] + rest;
    }
  }

  lemma {:induction false} KeptHasId(q: seq<Waiter>, i: nat, n: NodeID)
    requires i < |q| && q[i].node == n
    ensures IdsOf(q, n) != []
  {
    if i > 0 {
      KeptHasId(q[1..], i - 1, n);
    }
  }

  /** With limit one and any validator byte, no waiter is blocked for good. */
  lemma LimitOneUnblocks(cfg: Config, s: System, id: nat, n: NodeID)
    requires cfg.nodeMax == 1 && cfg.vdrAlloc > 0 && Inv(cfg, s, 1) && s.held == []
    ensures !Doomed(cfg, s, id, n)
  {
    hide Inv, Next, IdsOf;
    if Doomed(cfg, s, id, n) {
      assert Feasible(cfg, s, []) && After(cfg, s, []) == s;
      OneByte(cfg, s, id, n);
      AcquireKeeps(cfg, s, 1, n, 1, 1);
      var e := Acquire(1, n, 1);
      var rest := Unblock(cfg, Next(cfg, s, e), n);
      Prepend(cfg, s, e, rest, 1);
      var s' := After(cfg, s, [e] + rest);
      assert Kept(s', id, n);
      var i :| 0 <= i < |s'.t.waiting| && s'.t.waiting[i].id == id && s'.t.waiting[i].node == n;
      KeptHasId(s'.t.waiting, i, n);
    }
  }

  // ---------------------------------------------------------------- exactly when

  /** A doomed waiter stays doomed. */
  lemma DoomedAfter(cfg: Config, s: System, id: nat, n: NodeID, events: seq<Event>)
    requires Doomed(cfg, s, id, n) && Feasible(cfg, s, events) && SizesAtMost(events, cfg.nodeMax)
    ensures Doomed(cfg, After(cfg, s, events), id, n)
  {
    hide Next, Kept;
    var s' := After(cfg, s, events);
    forall more | Feasible(cfg, s', more) && SizesAtMost(more, cfg.nodeMax)
      ensures Kept(After(cfg, s', more), id, n)
    {
      RunConcat(cfg, s, events, more, cfg.nodeMax);
    }
  }

  lemma OnlyIf(cfg: Config, events: seq<Event>, id: nat, n: NodeID)
    requires BlocksForGood(cfg, events, id, n)
    ensures cfg.atLargeAlloc <= (cfg.vdrAlloc + 1) * (cfg.nodeMax - 1) && (cfg.nodeMax >= 2 || cfg.vdrAlloc == 0)
  {
    hide Next, Fair;
    var s0 := System(Initial(cfg), []);
    InitialInv(cfg, cfg.nodeMax);
    InitialFair(cfg);
    RunFair(cfg, s0, events, cfg.nodeMax);
    var s := After(cfg, s0, events);
    var rest := ReleaseAll(cfg, s);
    RunFair(cfg, s, rest, cfg.nodeMax);
    DoomedAfter(cfg, s, id, n, rest);
    var idle := After(cfg, s, rest);
    assert Feasible(cfg, idle, []) && After(cfg, idle, []) == idle;
    assert Kept(idle, id, n);
    StuckBound(cfg, idle);
    var i :| 0 <= i < |idle.t.waiting| && idle.t.waiting[i].id == id;
    assert idle.t.waiting[i] in idle.t.waiting;
    if cfg.nodeMax == 1 && cfg.vdrAlloc > 0 {
      LimitOneUnblocks(cfg, idle, id, n);
    }
  }

  lemma InitialFair(cfg: Config)
    ensures Fair(cfg, Initial(cfg))
  {
  }

  /** A call can be blocked for good exactly when the at-large allocation is at most (validator allocation + 1) *
      (limit - 1) and the validator bytes can be kept from unblocking it: the limit is two or more, or there are none. */
  lemma ForGoodExactly(cfg: Config)
    ensures CanBlockForGood(cfg) <==>
            cfg.atLargeAlloc <= (cfg.vdrAlloc + 1) * (cfg.nodeMax - 1) && (cfg.nodeMax >= 2 || cfg.vdrAlloc == 0)
  {
    hide BlocksForGood;
    if CanBlockForGood(cfg) {
      var events, id, n :| BlocksForGood(cfg, events, id, n);
      OnlyIf(cfg, events, id, n);
    } else if cfg.atLargeAlloc <= (cfg.vdrAlloc + 1) * (cfg.nodeMax - 1) && (cfg.nodeMax >= 2 || cfg.vdrAlloc == 0) {
      CanBlock(cfg);
    }
  }
}
