/** When an acquire returns at once, and what a message of size zero does to the id lists. */
module InboundZero {
  import opened Sums
  import opened InboundModel
  import opened InboundInvariants
  import opened InboundSafety

  /** An acquire returns at once exactly when its size is positive and the node's room in the two pools covers it. */
  lemma AcquireExactly(cfg: Config, t: Throttler, size: nat, n: NodeID, share: nat)
    requires Pools(cfg, t)
    ensures AcquireStep(cfg, t, size, n, share).1 <==>
            0 < size <= Min(cfg.nodeMax - Lookup(t.atLargeUsed, n), t.remainingAtLarge)
                        + Min(t.remainingVdr, if share > Lookup(t.vdrUsed, n) then share - Lookup(t.vdrUsed, n) else 0)
  {
    assert Lookup(t.atLargeUsed, n) <= cfg.nodeMax;
    LookupAtMostTotal(t.vdrUsed, n);
  }

  /** What an acquire takes. At-large bytes come first, up to the node's limit; validator bytes only once there are no
      more of those, and they never take the node past its share. A call that waits has found both sources dry. */
  lemma AcquireTakes(cfg: Config, t: Throttler, size: nat, n: NodeID, share: nat)
    requires Pools(cfg, t)
    ensures
      var (t', done) := AcquireStep(cfg, t, size, n, share);
      var a, v := Lookup(t'.atLargeUsed, n) - Lookup(t.atLargeUsed, n), Lookup(t'.vdrUsed, n) - Lookup(t.vdrUsed, n);
      && a >= 0 && v >= 0 && t'.remainingAtLarge == t.remainingAtLarge - a && t'.remainingVdr == t.remainingVdr - v
      && (v > 0 ==> Lookup(t'.vdrUsed, n) <= share)
      && (a < size ==> t'.remainingAtLarge == 0 || Lookup(t'.atLargeUsed, n) == cfg.nodeMax)
      && (a + v < size ==> t'.remainingVdr == 0 || Lookup(t'.vdrUsed, n) >= share)
      && (forall m :: m != n ==> Lookup(t'.atLargeUsed, m) == Lookup(t.atLargeUsed, m) && Lookup(t'.vdrUsed, m) == Lookup(t.vdrUsed, m))
      && (done <==> a + v == size > 0)
      && t'.waiting == if done then t.waiting else t.waiting + [Waiter(t.nextID + 1, n, size, size - a - v)]
  {
    hide Total, Charge, Positive, AtLargeGrant, VdrGrant;
    var a := AtLargeGrant(cfg, t, size, n);
    TakeAtLargePools(cfg, t, n, size);
    var t1 := TakeAtLarge(t, n, a);
    VdrTakes(cfg, t1, size - a, n, share);
    TakeVdrFacts(cfg, t1, n, size - a, share);
  }

  lemma VdrTakes(cfg: Config, t: Throttler, need: nat, n: NodeID, share: nat)
    requires Pools(cfg, t)
    ensures
      var v, used := VdrGrant(t, need, n, share), Lookup(t.vdrUsed, n);
      && 0 <= v <= need && v <= t.remainingVdr
      && (v > 0 ==> used + v <= share)
      && (v < need ==> v == t.remainingVdr || used + v >= share)
  {
    LookupAtMostTotal(t.vdrUsed, n);
  }

  /** Node 1 fills its limit, waits for one more byte, and then for a message of size zero; node 2 takes a byte and
      releases it. */
  function ZeroRun(cfg: Config): seq<Event> {
    [Acquire(cfg.nodeMax, 1, 0), Acquire(1, 1, 0), Acquire(0, 1, 0), Acquire(1, 2, 0), Release(1)]
  }

  /** The states of that run, when the limit is positive and less than the at-large pool. */
  function StateAt(cfg: Config, i: nat): System
    requires i <= 5
  {
    var w1, w2 := Waiter(1, 1, 1, 1), Waiter(2, 1, 0, 0);
    var vdr, limit, rest := cfg.vdrAlloc, cfg.nodeMax, cfg.atLargeAlloc - cfg.nodeMax;
    var first := [Message(1, limit)];
    if i == 0 then System(Initial(cfg), [])
    else if i == 1 then System(Throttler(vdr, rest, map[], map[1 := limit], 0, [], map[]), first)
    else if i == 2 then System(Throttler(vdr, rest, map[], map[1 := limit], 1, [w1], map[1 := [1]]), first)
    else if i == 3 then System(Throttler(vdr, rest, map[], map[1 := limit], 2, [w1, w2], map[1 := [1, 2]]), first)
    else if i == 4 then
      System(Throttler(vdr, rest - 1, map[], map[1 := limit, 2 := 1], 2, [w1, w2], map[1 := [1, 2]]), first + [Message(2, 1)])
    else System(Throttler(vdr, rest, map[], map[1 := limit], 2, [w1], map[1 := [2]]), first + [Message(1, 0)])
  }

  lemma FirstAcquire(cfg: Config)
    requires 0 < cfg.nodeMax < cfg.atLargeAlloc
    ensures Next(cfg, StateAt(cfg, 0), ZeroRun(cfg)[0]) == StateAt(cfg, 1)
  {
  }

  lemma SecondAcquire(cfg: Config)
    requires 0 < cfg.nodeMax < cfg.atLargeAlloc
    ensures Next(cfg, StateAt(cfg, 1), ZeroRun(cfg)[1]) == StateAt(cfg, 2)
  {
    hide Enqueue;
    var t := StateAt(cfg, 1).t;
    assert AtLargeGrant(cfg, t, 1, 1) == 0 && TakeAtLarge(t, 1, 0) == t;
    assert VdrGrant(t, 1, 1, 0) == 0 && TakeVdr(t, 1, 0) == t;
    Enqueued(t, 1, 1, 1);
    assert [] + [Waiter(1, 1, 1, 1)] == [Waiter(1, 1, 1, 1)] && [] + [1] == [1];
  }

  lemma Enqueued(t: Throttler, n: NodeID, size: int, need: int)
    ensures Enqueue(t, n, size, need) ==
            t.(nextID := t.nextID + 1, waiting := t.waiting + [Waiter(t.nextID + 1, n, size, need)],
               nodeWaiting := t.nodeWaiting[n := Ids(t.nodeWaiting, n) + [t.nextID + 1]])
  {
  }

  lemma ZeroAcquire(cfg: Config)
    requires 0 < cfg.nodeMax < cfg.atLargeAlloc
    ensures Next(cfg, StateAt(cfg, 2), ZeroRun(cfg)[2]) == StateAt(cfg, 3)
  {
    hide Enqueue;
    var t := StateAt(cfg, 2).t;
    assert AtLargeGrant(cfg, t, 0, 1) == 0 && TakeAtLarge(t, 1, 0) == t;
    assert VdrGrant(t, 0, 1, 0) == 0 && TakeVdr(t, 1, 0) == t;
    Enqueued(t, 1, 0, 0);
    assert [Waiter(1, 1, 1, 1)] + [Waiter(2, 1, 0, 0)] == [Waiter(1, 1, 1, 1), Waiter(2, 1, 0, 0)] && [1] + [2] == [1, 2];
  }

  lemma OtherAcquire(cfg: Config)
    requires 0 < cfg.nodeMax < cfg.atLargeAlloc
    ensures Next(cfg, StateAt(cfg, 3), ZeroRun(cfg)[3]) == StateAt(cfg, 4)
  {
  }

  /** The sweep passes node 1's older waiter, which is at the node's limit, and completes the one of size zero; the
      list then drops the older one's id. */
  lemma OtherRelease(cfg: Config)
    requires 0 < cfg.nodeMax < cfg.atLargeAlloc
    ensures Enabled(StateAt(cfg, 4), ZeroRun(cfg)[4]) && Next(cfg, StateAt(cfg, 4), ZeroRun(cfg)[4]) == StateAt(cfg, 5)
  {
    hide Sweep, ServeOwn, Messages;
    var s := StateAt(cfg, 4);
    var w1, w2 := s.t.waiting[0], s.t.waiting[1];
    OtherSweep(cfg);
    assert Store(s.t.atLargeUsed, 2, 0) == map[1 := cfg.nodeMax];
    NothingOwn(s.t.(remainingAtLarge := s.t.remainingAtLarge + 1, atLargeUsed := map[1 := cfg.nodeMax], waiting := [w1], nodeWaiting := map[1 := [2]]), 2);
    OneMessage(w2);
    assert s.held[..1] + s.held[2..] == [Message(1, cfg.nodeMax)];
    assert [w2] + [] == [w2];
  }

  lemma OtherSweep(cfg: Config)
    requires 0 < cfg.nodeMax < cfg.atLargeAlloc
    ensures
      var t := StateAt(cfg, 4).t;
      var limit, pool := cfg.nodeMax, cfg.atLargeAlloc - cfg.nodeMax;
      Sweep(limit, pool, map[1 := limit], t.nodeWaiting, t.waiting) ==
      Served(pool, map[1 := limit], map[1 := [2]], [t.waiting[0]], [t.waiting[1]])
  {
    var lists := StateAt(cfg, 4).t.nodeWaiting;
    var w1, w2 := StateAt(cfg, 4).t.waiting[0], StateAt(cfg, 4).t.waiting[1];
    var limit, pool, used := cfg.nodeMax, cfg.atLargeAlloc - cfg.nodeMax, map[1 := cfg.nodeMax];
    assert [w1, w2][1..] == [w2] && [w2][1..] == [];
    assert DropOldest(lists, 1) == map[1 := [2]];
    assert Sweep(limit, pool, used, map[1 := [2]], []) == Served(pool, used, map[1 := [2]], [], []);
    assert Sweep(limit, pool, used, lists, [w2]) == Served(pool, used, map[1 := [2]], [], [w2]);
  }

  lemma NothingOwn(t: Throttler, n: NodeID)
    ensures ReleaseVdr(t, n, 0) == (t, [])
  {
  }

  lemma OneMessage(w: Waiter)
    ensures Messages([w]) == [Message(w.node, w.size)]
  {
    assert Messages([w][1..]) == [];
  }

  lemma RunStep(cfg: Config, s: System, run: seq<Event>, i: nat, s': System, end: System)
    requires i < |run| && Enabled(s, run[i]) && Next(cfg, s, run[i]) == s'
    requires Feasible(cfg, s', run[i + 1..]) && After(cfg, s', run[i + 1..]) == end
    ensures Feasible(cfg, s, run[i..]) && After(cfg, s, run[i..]) == end
  {
    hide Next;
    assert run[i..][0] == run[i] && run[i..][1..] == run[i + 1..];
  }

  /** With a message of size zero a node's id list can lose the wrong id: here its first id is not in the queue. It
      happens under every positive limit that is less than the at-large pool. */
  lemma ZeroSizeBreaks(cfg: Config)
    requires 0 < cfg.nodeMax < cfg.atLargeAlloc
    ensures Feasible(cfg, System(Initial(cfg), []), ZeroRun(cfg))
    ensures
      var t := After(cfg, System(Initial(cfg), []), ZeroRun(cfg)).t;
      Ids(t.nodeWaiting, 1) == [2] && IdsOf(t.waiting, 1) == [1] && Find(t.waiting, 2) == |t.waiting|
  {
    hide Next;
    var run, end := ZeroRun(cfg), StateAt(cfg, 5);
    OtherRelease(cfg);
    OtherAcquire(cfg);
    ZeroAcquire(cfg);
    SecondAcquire(cfg);
    FirstAcquire(cfg);
    RunStep(cfg, StateAt(cfg, 4), run, 4, end, end);
    RunStep(cfg, StateAt(cfg, 3), run, 3, StateAt(cfg, 4), end);
    RunStep(cfg, StateAt(cfg, 2), run, 2, StateAt(cfg, 3), end);
    RunStep(cfg, StateAt(cfg, 1), run, 1, StateAt(cfg, 2), end);
    RunStep(cfg, StateAt(cfg, 0), run, 0, StateAt(cfg, 1), end);
    assert run[0..] == run;
    WrongList(cfg);
  }

  lemma WrongList(cfg: Config)
    ensures
      var t := StateAt(cfg, 5).t;
      Ids(t.nodeWaiting, 1) == [2] && IdsOf(t.waiting, 1) == [1] && Find(t.waiting, 2) == |t.waiting|
  {
    var q := StateAt(cfg, 5).t.waiting;
    assert q[1..] == [];
  }
}
