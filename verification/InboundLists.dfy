/** Messages of size zero: for which configurations the per-node id lists still agree with the queue in every run. */
module InboundLists {
  import opened Sums
  import opened InboundModel
  import opened InboundInvariants
  import opened InboundRelease
  import opened InboundSafety
  import opened InboundZero

  /** A node's limit never stops it short of the at-large pool, or there is no at-large allowance at all. */
  predicate Safe(cfg: Config) {
    cfg.nodeMax == 0 || cfg.nodeMax >= cfg.atLargeAlloc
  }

  ghost predicate IdsUpTo(q: seq<Waiter>, hi: int) {
    forall w :: w in q ==> w.id <= hi
  }

  ghost predicate LaxQueue(t: Throttler) {
    Loose(t.waiting) && Increasing(t.waiting) && IdsUpTo(t.waiting, t.nextID) && Projected(t.nodeWaiting, t.waiting)
  }

  /** What is left of the invariant when sizes may be zero: nothing is said of why a waiter waits. */
  ghost predicate Lax(cfg: Config, s: System) {
    Pools(cfg, s.t) && Accounted(s) && LaxQueue(s.t) && NoneNegative(s.held)
  }

  // ---------------------------------------------------------------- Acquire

  lemma AcquireLax(cfg: Config, s: System, size: nat, n: NodeID, share: nat)
    requires Lax(cfg, s)
    ensures Lax(cfg, Next(cfg, s, Acquire(size, n, share)))
  {
    hide Held, Partial, Total, IdsOf, AtLargeGrant, VdrGrant, TakeAtLarge, TakeVdr, Enqueue;
    var a := AtLargeGrant(cfg, s.t, size, n);
    TakeAtLargePools(cfg, s.t, n, size);
    var t1 := TakeAtLarge(s.t, n, a);
    var v := VdrGrant(t1, size - a, n, share);
    TakeVdrFacts(cfg, t1, n, size - a, share);
    var t2 := TakeVdr(t1, n, v);
    GrantedBoth(s.t, n, a, v);
    if a > 0 && size == a {
      HoldLax(cfg, s, t1, n, size, a, 0);
    } else if v > 0 && size - a == v {
      HoldLax(cfg, s, t2, n, size, a, v);
    } else {
      WaitLax(cfg, s, t2, n, size, a, v);
    }
  }

  /** Taking bytes touches neither the queue nor the other pool. */
  lemma GrantedBoth(t: Throttler, n: NodeID, a: int, v: int)
    ensures
      var t1 := TakeAtLarge(t, n, a);
      && t1.waiting == t.waiting && t1.nodeWaiting == t.nodeWaiting && t1.nextID == t.nextID && t1.vdrUsed == t.vdrUsed
      && var t2 := TakeVdr(t1, n, v);
      && t2.waiting == t.waiting && t2.nodeWaiting == t.nodeWaiting && t2.nextID == t.nextID && t2.atLargeUsed == t1.atLargeUsed
  {
  }

  lemma HoldLax(cfg: Config, s: System, t: Throttler, n: NodeID, size: nat, a: int, v: int)
    requires Lax(cfg, s) && Granted(s.t, t, n, a, v) && Pools(cfg, t) && a + v == size
    ensures Lax(cfg, System(t, s.held + [Message(n, size)]))
  {
    hide Held, Partial, Total, IdsOf;
    HeldAppend(s, Message(n, size));
    assert Accounted(System(t, s.held + [Message(n, size)]));
  }

  lemma WaitLax(cfg: Config, s: System, t: Throttler, n: NodeID, size: nat, a: int, v: int)
    requires Lax(cfg, s) && Granted(s.t, t, n, a, v) && Pools(cfg, t) && 0 <= a && 0 <= v && a + v <= size
    ensures Lax(cfg, System(Enqueue(t, n, size, size - a - v), s.held))
  {
    hide Held, Partial, Total, IdsOf;
    var t' := Enqueue(t, n, size, size - a - v);
    EnqueueLists(t, n, size, size - a - v);
    EnqueuePartial(t.waiting, Waiter(t.nextID + 1, n, size, size - a - v));
    assert Accounted(System(t', s.held));
  }

  // ---------------------------------------------------------------- the sweep serves a prefix

  /** `kept` is the queue from position `k` on, with some needs lowered. */
  ghost predicate Behind(kept: seq<Waiter>, q: seq<Waiter>, k: nat) {
    && k + |kept| == |q|
    && forall j :: 0 <= j < |kept| ==>
                     && kept[j].id == q[k + j].id && kept[j].node == q[k + j].node && kept[j].size == q[k + j].size
                     && 0 <= kept[j].need <= q[k + j].need
  }

  lemma BehindLax(kept: seq<Waiter>, q: seq<Waiter>, k: nat, hi: int)
    requires Behind(kept, q, k) && Loose(q) && Increasing(q) && IdsUpTo(q, hi)
    ensures Loose(kept) && Increasing(kept) && IdsUpTo(kept, hi)
  {
    forall w | w in kept
      ensures 0 <= w.need <= w.size && w.id <= hi
    {
      var j :| 0 <= j < |kept| && kept[j] == w;
      assert q[k + j] in q;
    }
    forall i, j | 0 <= i < j < |kept|
      ensures kept[i].id < kept[j].id
    {
      assert q[k + i].id < q[k + j].id;
    }
  }

  /** Room below the limit for the whole pool, whoever takes it. */
  ghost predicate Roomy(cap: int, pool: int, used: Counts, q: seq<Waiter>) {
    Positive(used) && WithinCap(cap, used) && pool >= 0 && Loose(q) && pool + Total(used) <= cap
  }

  /** One step of a sweep with room: the first waiter is completed, or it takes all that is left. */
  lemma SweepStep(cap: int, pool: int, used: Counts, lists: IdLists, q: seq<Waiter>)
    requires Roomy(cap, pool, used, q) && pool > 0 && q != []
    ensures
      var w, r := q[0], Sweep(cap, pool, used, lists, q);
      if w.need <= pool then
        && Roomy(cap, pool - w.need, Charge(used, w.node, w.need), q[1..])
        && var r' := Sweep(cap, pool - w.need, Charge(used, w.node, w.need), DropOldest(lists, w.node), q[1..]);
           r == r'.(done := [w.(need := 0)] + r'.done)
      else r == Served(0, Charge(used, w.node, pool), lists, [w.(need := w.need - pool)] + q[1..], [])
  {
    hide Charge, DropOldest, Total, Positive, WithinCap;
    var w := q[0];
    assert w in q;
    GrantFacts(cap, pool, used, w);
    RoomForPool(cap, pool, used, w.node);
    ChargeFacts(cap, pool, used, w.node, Min(w.need, pool));
    SweepOver(cap, 0, Charge(used, w.node, pool), lists, q[1..]);
  }

  /** With room the sweep completes the front of the queue. */
  lemma {:induction false} SweepFront(cap: int, pool: int, used: Counts, lists: IdLists, q: seq<Waiter>) returns (k: nat)
    requires Roomy(cap, pool, used, q)
    ensures
      var r := Sweep(cap, pool, used, lists, q);
      Behind(r.kept, q, k) && NoneNegative(Messages(r.done))
    decreases |q|
  {
    hide Charge, DropOldest, Total, Positive, WithinCap, Sweep, Messages;
    k := 0;
    if pool > 0 && q != [] {
      var w := q[0];
      assert w in q;
      SweepStep(cap, pool, used, lists, q);
      if w.need <= pool {
        var pool', used', lists' := pool - w.need, Charge(used, w.node, w.need), DropOldest(lists, w.node);
        k := SweepFront(cap, pool', used', lists', q[1..]);
        DoneMessages(w.(need := 0), Sweep(cap, pool', used', lists', q[1..]).done);
        k := k + 1;
      } else {
        AllBehind([w.(need := w.need - pool)] + q[1..], q);
        NoneDone();
      }
    } else {
      SweepOver(cap, pool, used, lists, q);
      AllBehind(q, q);
      NoneDone();
    }
  }

  lemma AllBehind(kept: seq<Waiter>, q: seq<Waiter>)
    requires Loose(q) && |kept| == |q| && (q != [] ==> kept[0] == q[0].(need := kept[0].need) && 0 <= kept[0].need <= q[0].need)
    requires forall j :: 1 <= j < |q| ==> kept[j] == q[j]
    ensures Behind(kept, q, 0)
  {
    forall j | 0 <= j < |q|
      ensures 0 <= q[j].need
    {
      assert q[j] in q;
    }
  }

  lemma SweepOver(cap: int, pool: int, used: Counts, lists: IdLists, q: seq<Waiter>)
    requires pool <= 0 || q == []
    ensures Sweep(cap, pool, used, lists, q) == Served(pool, used, lists, q, [])
  {
  }

  /** So the id it drops is the completed waiter's. */
  lemma {:induction false} SweepFrontIds(cap: int, pool: int, used: Counts, lists: IdLists, q: seq<Waiter>, n: NodeID)
    requires Roomy(cap, pool, used, q) && Ids(lists, n) == IdsOf(q, n)
    ensures
      var r := Sweep(cap, pool, used, lists, q);
      Ids(r.lists, n) == IdsOf(r.kept, n)
    decreases |q|
  {
    hide Charge, DropOldest, Total, Positive, WithinCap, Sweep, IdsOf, Ids;
    if pool > 0 && q != [] {
      var w := q[0];
      SweepStep(cap, pool, used, lists, q);
      if w.need <= pool {
        assert [] + q == q && [] + q[1..] == q[1..];
        SweepFifoDone(lists, [], q, n);
        SweepFrontIds(cap, pool - w.need, Charge(used, w.node, w.need), DropOldest(lists, w.node), q[1..], n);
      } else {
        assert q == [w] + q[1..];
        ConsFacts(w, q[1..], [], n);
        ConsFacts(w.(need := w.need - pool), q[1..], [], n);
      }
    } else {
      SweepOver(cap, pool, used, lists, q);
    }
  }

  lemma RoomForPool(cap: int, pool: int, used: Counts, n: NodeID)
    requires Positive(used) && pool + Total(used) <= cap
    ensures pool <= cap - Lookup(used, n)
  {
    LookupAtMostTotal(used, n);
  }

  lemma DoneMessages(w: Waiter, done: seq<Waiter>)
    requires w.size >= 0 && NoneNegative(Messages(done))
    ensures NoneNegative(Messages([w] + done))
  {
    assert ([w] + done)[1..] == done;
  }

  // ---------------------------------------------------------------- a node's own waiters

  /** The validator loop gives bytes to the node's own waiters and leaves the other nodes' alone. */
  ghost predicate Own(left: int, q: seq<Waiter>, n: NodeID, r: Served, m: NodeID) {
    && Partial(r.kept, m) + Held(Messages(r.done), m) - Partial(q, m) == (if m == n then left - r.left else 0)
    && (m != n ==> IdsOf(r.kept, m) == IdsOf(q, m))
  }

  lemma {:induction false} ServeOwnAccount(left: int, lists: IdLists, q: seq<Waiter>, n: NodeID, m: NodeID)
    requires Increasing(q) && Loose(q) && left >= 0 && Ids(lists, n) == IdsOf(q, n)
    ensures Own(left, q, n, ServeOwn(left, lists, q, n), m)
    decreases |IdsOf(q, n)|
  {
    hide ServeOwn, Find, DropOldest, Held, Partial, IdsOf, Messages, Ids, Loose;
    if left <= 0 || IdsOf(q, n) == [] {
      ServeEnds(left, lists, q, n);
      NoMessages(m);
    } else {
      FirstOfNode(q, n);
      var i := Find(q, IdsOf(q, n)[0]);
      WithoutOne(q, i, m);
      if q[i].need <= left {
        IncreasingParts(q, i);
        LooseParts(q, i);
        AfterFirst(lists, q, n, i);
        ServeDone(left, lists, q, n, i);
        var r := ServeOwn(left - q[i].need, DropOldest(lists, n), q[..i] + q[i + 1..], n);
        ServeOwnAccount(left - q[i].need, DropOldest(lists, n), q[..i] + q[i + 1..], n, m);
        ConsFacts(q[i].(need := 0), [], r.done, m);
      } else {
        var w' := q[i].(need := q[i].need - left);
        ServePart(left, lists, q, n, i);
        WithoutOne(q[i := w'], i, m);
        assert q[i := w'][..i] == q[..i] && q[i := w'][i + 1..] == q[i + 1..];
        SameIds(q, i, w', m);
        NoMessages(m);
      }
    }
  }

  lemma NoMessages(m: NodeID)
    ensures Held(Messages([]), m) == 0
  {
    assert Messages([]) == [];
  }

  lemma WithoutOne(q: seq<Waiter>, i: nat, m: NodeID)
    requires i < |q|
    ensures Partial(q, m) == Partial(q[..i] + q[i + 1..], m) + if q[i].node == m then q[i].size - q[i].need else 0
    ensures q[i].node != m ==> IdsOf(q, m) == IdsOf(q[..i] + q[i + 1..], m)
  {
    var a, b := q[..i], q[i + 1..];
    assert q == a + ([q[i]] + b);
    PartialConcat(a, [q[i]] + b, m);
    PartialConcat(a, b, m);
    IdsConcat(a, [q[i]] + b, m);
    IdsConcat(a, b, m);
    ConsFacts(q[i], b, [], m);
  }

  lemma LooseParts(q: seq<Waiter>, i: nat)
    requires Loose(q) && i < |q|
    ensures Loose(q[..i] + q[i + 1..]) && 0 <= q[i].need <= q[i].size
  {
    assert q[i] in q;
    forall x | x in q[..i] + q[i + 1..]
      ensures 0 <= x.need <= x.size
    {
      assert x in q;
    }
  }

  /** What the loop leaves behind. */
  ghost predicate OwnLeft(left: int, r: Served, hi: int) {
    && 0 <= r.left <= left && Loose(r.kept) && Increasing(r.kept) && IdsUpTo(r.kept, hi) && NoneNegative(Messages(r.done))
  }

  lemma {:induction false} ServeOwnLax(left: int, lists: IdLists, q: seq<Waiter>, n: NodeID, hi: int)
    requires Increasing(q) && Loose(q) && IdsUpTo(q, hi) && left >= 0 && Ids(lists, n) == IdsOf(q, n)
    ensures OwnLeft(left, ServeOwn(left, lists, q, n), hi)
    decreases |IdsOf(q, n)|
  {
    hide ServeOwn, Find, DropOldest, IdsOf, Messages, Ids, Loose, Increasing, IdsUpTo;
    if left <= 0 || IdsOf(q, n) == [] {
      ServeEnds(left, lists, q, n);
      NoneDone();
    } else {
      FirstOfNode(q, n);
      var i := Find(q, IdsOf(q, n)[0]);
      LooseParts(q, i);
      if q[i].need <= left {
        IncreasingParts(q, i);
        UpToParts(q, i, hi);
        AfterFirst(lists, q, n, i);
        ServeDone(left, lists, q, n, i);
        var r := ServeOwn(left - q[i].need, DropOldest(lists, n), q[..i] + q[i + 1..], n);
        ServeOwnLax(left - q[i].need, DropOldest(lists, n), q[..i] + q[i + 1..], n, hi);
        DoneMessages(q[i].(need := 0), r.done);
      } else {
        var w' := q[i].(need := q[i].need - left);
        ServePart(left, lists, q, n, i);
        LowerLax(q, i, w', hi);
        NoneDone();
      }
    }
  }

  lemma NoneDone()
    ensures Messages([]) == []
  {
  }

  lemma UpToParts(q: seq<Waiter>, i: nat, hi: int)
    requires IdsUpTo(q, hi) && i < |q|
    ensures IdsUpTo(q[..i] + q[i + 1..], hi)
  {
    forall x | x in q[..i] + q[i + 1..]
      ensures x.id <= hi
    {
      assert x in q;
    }
  }

  lemma LowerLax(q: seq<Waiter>, i: nat, w: Waiter, hi: int)
    requires i < |q| && w == q[i].(need := w.need) && 0 <= w.need <= q[i].need
    requires Loose(q) && Increasing(q) && IdsUpTo(q, hi)
    ensures Loose(q[i := w]) && Increasing(q[i := w]) && IdsUpTo(q[i := w], hi)
  {
    forall j | 0 <= j < |q|
      ensures 0 <= q[j].need
    {
      assert q[j] in q;
    }
    BehindLax(q[i := w], q, 0, hi);
  }

  // ---------------------------------------------------------------- Release

  lemma ReleaseAtLargeLax(cfg: Config, t: Throttler, n: NodeID, bytes: int) returns (t': Throttler, done: seq<Waiter>)
    requires Safe(cfg) && Pools(cfg, t) && LaxQueue(t) && 0 <= bytes <= Lookup(t.atLargeUsed, n)
    ensures (t', done) == ReleaseAtLarge(cfg, t, n, bytes)
    ensures Pools(cfg, t') && LaxQueue(t') && NoneNegative(Messages(done))
    ensures t'.vdrUsed == t.vdrUsed
    ensures forall m :: Charged(t.atLargeUsed, t'.atLargeUsed, n, bytes, t.waiting, t'.waiting, done, m)
  {
    hide Sweep, Total, IdsOf, Partial, Held, Ids, DropOldest, Messages;
    if bytes == 0 {
      t', done := t, [];
      NoneDone();
      forall m
        ensures Charged(t.atLargeUsed, t'.atLargeUsed, n, bytes, t.waiting, t'.waiting, done, m)
      {
        NoMessages(m);
      }
    } else {
      var cap, q := cfg.nodeMax, t.waiting;
      assert Lookup(t.atLargeUsed, n) <= cap;
      var used, pool, r;
      used, pool, r, t' := ReleaseAtLargeShape(cfg, t, n, bytes);
      done := r.done;
      SweepPools(cap, pool, used, t.nodeWaiting, q);
      var k := SweepFront(cap, pool, used, t.nodeWaiting, q);
      BehindLax(r.kept, q, k, t.nextID);
      SweepNoEmpty(cap, pool, used, t.nodeWaiting, q);
      forall m
        ensures Ids(r.lists, m) == IdsOf(r.kept, m)
      {
        SweepFrontIds(cap, pool, used, t.nodeWaiting, q, m);
      }
      SweepCharged(t, cap, pool, used, n, bytes, r);
    }
  }

  lemma ReleaseVdrLax(cfg: Config, t: Throttler, n: NodeID, bytes: int) returns (t': Throttler, done: seq<Waiter>)
    requires Pools(cfg, t) && LaxQueue(t) && 0 <= bytes <= Lookup(t.vdrUsed, n)
    ensures (t', done) == ReleaseVdr(t, n, bytes)
    ensures Pools(cfg, t') && LaxQueue(t') && NoneNegative(Messages(done))
    ensures t'.atLargeUsed == t.atLargeUsed
    ensures forall m :: Charged(t.vdrUsed, t'.vdrUsed, n, bytes, t.waiting, t'.waiting, done, m)
  {
    hide ServeOwn, Total, IdsOf, Partial, Held, Ids, Messages, Positive, WithinCap;
    var r := ServeOwn(bytes, t.nodeWaiting, t.waiting, n);
    t', done := ReleaseVdr(t, n, bytes).0, r.done;
    ServeOwnLax(bytes, t.nodeWaiting, t.waiting, n, t.nextID);
    VdrCredit(cfg, t, t', n, r.left);
    ServeOwnIds(bytes, t.nodeWaiting, t.waiting, n);
    ServeOwnOthers(bytes, t.nodeWaiting, t.waiting, n);
    forall m
      ensures Ids(r.lists, m) == IdsOf(r.kept, m)
      ensures Charged(t.vdrUsed, t'.vdrUsed, n, bytes, t.waiting, t'.waiting, done, m)
    {
      ServeOwnAccount(bytes, t.nodeWaiting, t.waiting, n, m);
    }
  }

  lemma ReleaseLax(cfg: Config, s: System, i: nat)
    requires Safe(cfg) && Lax(cfg, s) && Enabled(s, Release(i))
    ensures Lax(cfg, Next(cfg, s, Release(i)))
  {
    hide Pools, LaxQueue, Accounted, Charged, Next, ReleaseAtLarge, ReleaseVdr, Messages, Safe;
    var n := s.held[i].node;
    LaxLoose(s.t);
    ReleaseCovered(cfg, s, i);
    var v := Min(s.held[i].size, Lookup(s.t.vdrUsed, n));
    var a := s.held[i].size - v;
    var t1, d1 := ReleaseAtLargeLax(cfg, s.t, n, a);
    var t2, d2 := ReleaseVdrLax(cfg, t1, n, v);
    ReleaseHalves(cfg, s, i, n, a, v, t1, d1, t2, d2);
    MessagesConcat(d1, d2);
    AccountHalves(s, i, n, a, v, t1, d1, t2, d2);
  }

  lemma LaxLoose(t: Throttler)
    requires LaxQueue(t)
    ensures Loose(t.waiting)
  {
  }

  // ---------------------------------------------------------------- runs

  lemma {:induction false} RunLax(cfg: Config, s: System, run: seq<Event>)
    requires Safe(cfg) && Lax(cfg, s) && Feasible(cfg, s, run)
    ensures Lax(cfg, After(cfg, s, run))
    decreases |run|
  {
    hide Lax, Next, Safe;
    if run != [] {
      match run[0] {
        case Acquire(size, n, share) => AcquireLax(cfg, s, size, n, share);
        case Release(i) => ReleaseLax(cfg, s, i);
      }
      RunLax(cfg, Next(cfg, s, run[0]), run[1..]);
    }
  }

  /** Whatever the sizes, zero included, the lists agree with the queue after every run of such a throttler. */
  lemma ListsKept(cfg: Config, run: seq<Event>)
    requires Safe(cfg) && Feasible(cfg, System(Initial(cfg), []), run)
    ensures
      var t := After(cfg, System(Initial(cfg), []), run).t;
      Projected(t.nodeWaiting, t.waiting) && Pools(cfg, t)
  {
    RunLax(cfg, System(Initial(cfg), []), run);
  }

  predicate AtMostLimit(cfg: Config, run: seq<Event>) {
    forall e :: e in run ==> e.Acquire? ==> e.size <= cfg.nodeMax
  }

  /** The lists agree with the queue after every run of messages of size at most the node limit. */
  ghost predicate AlwaysAgree(cfg: Config) {
    forall run :: Feasible(cfg, System(Initial(cfg), []), run) && AtMostLimit(cfg, run) ==>
                    var t := After(cfg, System(Initial(cfg), []), run).t;
                    Projected(t.nodeWaiting, t.waiting)
  }

  /** With sizes from zero to the node limit, the lists agree in every run exactly for the safe configurations. */
  lemma ListsExactly(cfg: Config)
    ensures AlwaysAgree(cfg) <==> Safe(cfg)
  {
    hide Feasible, After, Projected, Pools;
    if Safe(cfg) {
      forall run | Feasible(cfg, System(Initial(cfg), []), run) && AtMostLimit(cfg, run)
        ensures
          var t := After(cfg, System(Initial(cfg), []), run).t;
          Projected(t.nodeWaiting, t.waiting)
      {
        ListsKept(cfg, run);
      }
    } else {
      ZeroSizeBreaks(cfg);
      assert AtMostLimit(cfg, ZeroRun(cfg));
      NotProjected(After(cfg, System(Initial(cfg), []), ZeroRun(cfg)).t, 1);
    }
  }

  lemma NotProjected(t: Throttler, n: NodeID)
    requires Ids(t.nodeWaiting, n) != IdsOf(t.waiting, n)
    ensures !Projected(t.nodeWaiting, t.waiting)
  {
  }
}
