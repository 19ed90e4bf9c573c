/** Every call keeps the invariants, and so does every run. */
module InboundSafety {
  import opened Sums
  import opened InboundModel
  import opened InboundInvariants
  import opened InboundRelease

  // ---------------------------------------------------------------- Acquire

  lemma BlockedTighter(cap: int, pool: int, used: Counts, pool': int, used': Counts, q: seq<Waiter>)
    requires Blocked(cap, pool, used, q) && WithinCap(cap, used') && 0 <= pool' <= pool
    requires forall n :: Lookup(used, n) <= Lookup(used', n)
    ensures Blocked(cap, pool', used', q)
  {
    forall w | w in q
      ensures pool' == 0 || Lookup(used', w.node) == cap
    {
      assert Lookup(used, w.node) <= Lookup(used', w.node);
      assert Lookup(used', w.node) <= cap;
    }
  }

  lemma TakeAtLargePools(cfg: Config, t: Throttler, n: NodeID, size: nat)
    requires Pools(cfg, t)
    ensures
      var a := AtLargeGrant(cfg, t, size, n);
      var t' := TakeAtLarge(t, n, a);
      && 0 <= a <= size && a <= t.remainingAtLarge && Pools(cfg, t')
      && (forall m :: Lookup(t'.atLargeUsed, m) == Lookup(t.atLargeUsed, m) + if m == n then a else 0)
      && (a < size ==> t'.remainingAtLarge == 0 || Lookup(t'.atLargeUsed, n) == cfg.nodeMax)
  {
    var a := AtLargeGrant(cfg, t, size, n);
    assert Lookup(t.atLargeUsed, n) <= cfg.nodeMax;
    ChargeFacts(cfg.nodeMax, t.remainingAtLarge, t.atLargeUsed, n, a);
  }

  lemma TakeAtLargeFacts(cfg: Config, t: Throttler, n: NodeID, size: nat)
    requires Pools(cfg, t) && Blocked(cfg.nodeMax, t.remainingAtLarge, t.atLargeUsed, t.waiting)
    ensures
      var a := AtLargeGrant(cfg, t, size, n);
      var t' := TakeAtLarge(t, n, a);
      && 0 <= a <= size && Pools(cfg, t')
      && Blocked(cfg.nodeMax, t'.remainingAtLarge, t'.atLargeUsed, t.waiting)
      && (forall m :: Lookup(t'.atLargeUsed, m) == Lookup(t.atLargeUsed, m) + if m == n then a else 0)
      && (a < size ==> t'.remainingAtLarge == 0 || Lookup(t'.atLargeUsed, n) == cfg.nodeMax)
  {
    TakeAtLargePools(cfg, t, n, size);
    var t' := TakeAtLarge(t, n, AtLargeGrant(cfg, t, size, n));
    BlockedTighter(cfg.nodeMax, t.remainingAtLarge, t.atLargeUsed, t'.remainingAtLarge, t'.atLargeUsed, t.waiting);
  }

  lemma TakeVdrFacts(cfg: Config, t: Throttler, n: NodeID, need: nat, share: nat)
    requires Pools(cfg, t)
    ensures
      var v := VdrGrant(t, need, n, share);
      var t' := TakeVdr(t, n, v);
      && 0 <= v <= need && Pools(cfg, t')
      && (forall m :: Lookup(t'.vdrUsed, m) == Lookup(t.vdrUsed, m) + if m == n then v else 0)
  {
    var v := VdrGrant(t, need, n, share);
    forall m
      ensures Lookup(t.vdrUsed, m) <= cfg.vdrAlloc
    {
      LookupAtMostTotal(t.vdrUsed, m);
    }
    LookupAtMostTotal(t.vdrUsed, n);
    TotalStore(t.vdrUsed, n, Lookup(t.vdrUsed, n) + v);
  }

  lemma EnqueueFacts(cfg: Config, t: Throttler, n: NodeID, size: int, need: int, maxSize: int)
    requires 0 < need <= size <= maxSize && Queue(cfg, t, maxSize)
    requires t.remainingAtLarge == 0 || Lookup(t.atLargeUsed, n) == cfg.nodeMax
    ensures Queue(cfg, Enqueue(t, n, size, need), maxSize)
    ensures forall m :: Partial(Enqueue(t, n, size, need).waiting, m) ==
                        Partial(t.waiting, m) + if m == n then size - need else 0
  {
    EnqueueLists(t, n, size, need);
    EnqueuePartial(t.waiting, Waiter(t.nextID + 1, n, size, need));
  }

  lemma EnqueuePartial(q: seq<Waiter>, w: Waiter)
    ensures forall m :: Partial(q + [w], m) == Partial(q, m) + if m == w.node then w.size - w.need else 0
  {
    forall m
      ensures Partial(q + [w], m) == Partial(q, m) + if m == w.node then w.size - w.need else 0
    {
      PartialConcat(q, [w], m);
    }
  }

  lemma EnqueueLists(t: Throttler, n: NodeID, size: int, need: int)
    requires Projected(t.nodeWaiting, t.waiting)
    ensures
      var t' := Enqueue(t, n, size, need);
      Projected(t'.nodeWaiting, t'.waiting)
  {
    var w := Waiter(t.nextID + 1, n, size, need);
    forall m
      ensures Ids(Enqueue(t, n, size, need).nodeWaiting, m) == IdsOf(t.waiting + [w], m)
    {
      IdsConcat(t.waiting, [w], m);
    }
  }

  lemma HeldAppend(s: System, m: Message)
    ensures forall n :: Held(s.held + [m], n) == Held(s.held, n) + if n == m.node then m.size else 0
  {
    forall n
      ensures Held(s.held + [m], n) == Held(s.held, n) + if n == m.node then m.size else 0
    {
      HeldConcat(s.held, [m], n);
    }
  }

  /** `t2` is `t` after a first grant of `a` at-large and `v` validator bytes to `n`. */
  ghost predicate Granted(t: Throttler, t2: Throttler, n: NodeID, a: int, v: int) {
    && t2.waiting == t.waiting && t2.nodeWaiting == t.nodeWaiting && t2.nextID == t.nextID
    && (forall m :: Lookup(t2.atLargeUsed, m) == Lookup(t.atLargeUsed, m) + if m == n then a else 0)
    && (forall m :: Lookup(t2.vdrUsed, m) == Lookup(t.vdrUsed, m) + if m == n then v else 0)
  }

  /** The three outcomes of `Acquire`, for a positive size. */
  lemma AcquireCases(cfg: Config, s: System, size: nat, n: NodeID, share: nat, a: int, t1: Throttler, v: int, t2: Throttler)
      returns (s': System)
    requires size > 0 && a == AtLargeGrant(cfg, s.t, size, n) && t1 == TakeAtLarge(s.t, n, a)
    requires v == VdrGrant(t1, size - a, n, share) && t2 == TakeVdr(t1, n, v)
    ensures s' == Next(cfg, s, Acquire(size, n, share))
    ensures a == size ==> s' == System(t1, s.held + [Message(n, size)])
    ensures a != size && v == size - a > 0 ==> s' == System(t2, s.held + [Message(n, size)])
    ensures a != size && v != size - a ==> s' == System(Enqueue(t2, n, size, size - a - v), s.held)
  {
    s' := Next(cfg, s, Acquire(size, n, share));
  }

  /** The state in which `Acquire` has taken what both pools grant, before it returns or waits. */
  lemma AcquireGrants(cfg: Config, s: System, size: nat, n: NodeID, share: nat, maxSize: int)
      returns (a: int, v: int, t2: Throttler, s': System)
    requires Inv(cfg, s, maxSize) && 0 < size <= maxSize
    ensures 0 <= a && 0 <= v && a + v <= size && a <= s.t.remainingAtLarge
    ensures Granted(s.t, t2, n, a, v) && Pools(cfg, t2) && Queue(cfg, t2, maxSize)
    ensures a < size ==> t2.remainingAtLarge == 0 || Lookup(t2.atLargeUsed, n) == cfg.nodeMax
    ensures s' == Next(cfg, s, Acquire(size, n, share))
    ensures s' == if a + v == size then System(t2, s.held + [Message(n, size)])
                  else System(Enqueue(t2, n, size, size - a - v), s.held)
  {
    a := AtLargeGrant(cfg, s.t, size, n);
    TakeAtLargeFacts(cfg, s.t, n, size);
    var t1 := TakeAtLarge(s.t, n, a);
    v := VdrGrant(t1, size - a, n, share);
    TakeVdrFacts(cfg, t1, n, size - a, share);
    t2 := TakeVdr(t1, n, v);
    s' := AcquireCases(cfg, s, size, n, share, a, t1, v, t2);
  }

  lemma AcquireKeeps(cfg: Config, s: System, size: nat, n: NodeID, share: nat, maxSize: int)
    requires Inv(cfg, s, maxSize) && 0 < size <= maxSize
    ensures Inv(cfg, Next(cfg, s, Acquire(size, n, share)), maxSize)
  {
    hide Held, Partial, Total, IdsOf, Next;
    var a, v, t2, s' := AcquireGrants(cfg, s, size, n, share, maxSize);
    if a + v == size {
      HeldAppend(s, Message(n, size));
      assert Accounted(s');
    } else {
      EnqueueFacts(cfg, t2, n, size, size - a - v, maxSize);
      assert Accounted(s');
    }
  }

  // ---------------------------------------------------------------- Release

  lemma {:induction false} HeldRemove(ms: seq<Message>, i: nat, n: NodeID)
    requires i < |ms|
    ensures Held(ms[..i] + ms[i + 1..], n) == Held(ms, n) - if ms[i].node == n then ms[i].size else 0
  {
    HeldConcat(ms[..i], ms[i + 1..], n);
    HeldConcat(ms[..i], ms[i..], n);
    assert ms[..i] + ms[i..] == ms;
    assert ms[i..][1..] == ms[i + 1..];
  }

  lemma {:induction false} HeldNonNegative(ms: seq<Message>, n: NodeID)
    requires NoneNegative(ms)
    ensures Held(ms, n) >= 0
  {
    if ms != [] {
      HeldNonNegative(ms[1..], n);
    }
  }

  lemma {:induction false} PartialNonNegative(q: seq<Waiter>, n: NodeID)
    requires Loose(q)
    ensures Partial(q, n) >= 0
  {
    if q != [] {
      PartialNonNegative(q[1..], n);
    }
  }

  /** A held message is covered by the bytes charged to its node, so neither subtraction of `Release` underflows. */
  lemma ReleaseCovered(cfg: Config, s: System, i: nat)
    requires Pools(cfg, s.t) && Accounted(s) && Loose(s.t.waiting) && NoneNegative(s.held) && i < |s.held|
    ensures
      var n, size := s.held[i].node, s.held[i].size;
      var v := Min(size, Lookup(s.t.vdrUsed, n));
      0 <= v <= Lookup(s.t.vdrUsed, n) && 0 <= size - v <= Lookup(s.t.atLargeUsed, n)
  {
    var n := s.held[i].node;
    HeldRemove(s.held, i, n);
    HeldNonNegative(s.held[..i] + s.held[i + 1..], n);
    PartialNonNegative(s.t.waiting, n);
    LookupAtMostTotal(s.t.vdrUsed, n);
    LookupAtMostTotal(s.t.atLargeUsed, n);
    assert s.held[i] in s.held;
  }

  lemma CreditFacts(cap: int, used: Counts, n: NodeID, bytes: int)
    requires Positive(used) && WithinCap(cap, used) && 0 < bytes <= Lookup(used, n)
    ensures
      var used' := Store(used, n, Lookup(used, n) - bytes);
      && Positive(used') && WithinCap(cap, used') && Total(used') == Total(used) - bytes
      && (forall m :: Lookup(used', m) == Lookup(used, m) - if m == n then bytes else 0)
  {
    TotalStore(used, n, Lookup(used, n) - bytes);
    var used' := Store(used, n, Lookup(used, n) - bytes);
    forall m
      ensures Lookup(used', m) <= cap
    {
      assert Lookup(used, m) <= cap;
    }
  }

  lemma SweepNoEmpty(cap: int, pool: int, used: Counts, lists: IdLists, q: seq<Waiter>)
    requires NoEmptyList(lists)
    ensures NoEmptyList(Sweep(cap, pool, used, lists, q).lists)
    decreases |q|
  {
    if pool > 0 && q != [] {
      var w := q[0];
      var g := Grant(cap, pool, used, w);
      DropFacts(lists, w.node);
      var lists' := if Spend(w.need, g) == 0 then DropOldest(lists, w.node) else lists;
      SweepNoEmpty(cap, Spend(pool, g), Charge(used, w.node, g), lists', q[1..]);
    }
  }

  lemma SweepProjected(cap: int, pool: int, used: Counts, lists: IdLists, q: seq<Waiter>)
    requires Positive(used) && WithinCap(cap, used) && pool >= 0 && Waits(q) && Projected(lists, q)
    ensures
      var r := Sweep(cap, pool, used, lists, q);
      Projected(r.lists, r.kept)
  {
    var r := Sweep(cap, pool, used, lists, q);
    SweepNoEmpty(cap, pool, used, lists, q);
    forall n
      ensures Ids(r.lists, n) == IdsOf(r.kept, n)
    {
      assert [] + q == q && [] + r.kept == r.kept;
      SweepFifo(cap, pool, used, lists, [], q, n);
    }
  }

  /** The change in a node's charged bytes, when `n` gives back `bytes`, is what its waiters received. */
  ghost predicate Charged(used: Counts, used': Counts, n: NodeID, bytes: int, q: seq<Waiter>, q': seq<Waiter>, done: seq<Waiter>, m: NodeID) {
    Lookup(used', m) - Lookup(used, m) + (if m == n then bytes else 0) ==
    Partial(q', m) + Held(Messages(done), m) - Partial(q, m)
  }

  /** The at-large half of a release: the bytes go to the pool, and the pool is swept. */
  lemma ReleaseAtLargeShape(cfg: Config, t: Throttler, n: NodeID, bytes: int)
      returns (used: Counts, pool: int, r: Served, t': Throttler)
    requires Pools(cfg, t) && 0 < bytes <= Lookup(t.atLargeUsed, n)
    ensures pool == t.remainingAtLarge + bytes && r == Sweep(cfg.nodeMax, pool, used, t.nodeWaiting, t.waiting)
    ensures (t', r.done) == ReleaseAtLarge(cfg, t, n, bytes)
    ensures t' == t.(remainingAtLarge := r.left, atLargeUsed := r.used, waiting := r.kept, nodeWaiting := r.lists)
    ensures Positive(used) && WithinCap(cfg.nodeMax, used) && Total(used) == Total(t.atLargeUsed) - bytes
    ensures forall m :: Lookup(used, m) == Lookup(t.atLargeUsed, m) - if m == n then bytes else 0
  {
    CreditFacts(cfg.nodeMax, t.atLargeUsed, n, bytes);
    used := Store(t.atLargeUsed, n, Lookup(t.atLargeUsed, n) - bytes);
    pool := t.remainingAtLarge + bytes;
    r := Sweep(cfg.nodeMax, pool, used, t.nodeWaiting, t.waiting);
    t' := ReleaseAtLarge(cfg, t, n, bytes).0;
  }

  lemma SweepCharged(t: Throttler, cap: int, pool: int, used: Counts, n: NodeID, bytes: int, r: Served)
    requires Positive(used) && WithinCap(cap, used) && pool >= 0 && Loose(t.waiting)
    requires forall m :: Lookup(used, m) == Lookup(t.atLargeUsed, m) - if m == n then bytes else 0
    requires r == Sweep(cap, pool, used, t.nodeWaiting, t.waiting)
    ensures forall m :: Charged(t.atLargeUsed, r.used, n, bytes, t.waiting, r.kept, r.done, m)
  {
    forall m
      ensures Charged(t.atLargeUsed, r.used, n, bytes, t.waiting, r.kept, r.done, m)
    {
      SweepAccount(cap, pool, used, t.nodeWaiting, t.waiting, m);
    }
  }

  lemma ReleaseAtLargeKeeps(cfg: Config, t: Throttler, n: NodeID, bytes: int, maxSize: int)
      returns (t': Throttler, done: seq<Waiter>)
    requires Pools(cfg, t) && Queue(cfg, t, maxSize) && 0 <= bytes <= Lookup(t.atLargeUsed, n)
    ensures (t', done) == ReleaseAtLarge(cfg, t, n, bytes)
    ensures Pools(cfg, t') && Queue(cfg, t', maxSize) && Within(done, 0, t.nextID, maxSize)
    ensures t'.vdrUsed == t.vdrUsed && t'.nextID == t.nextID
    ensures forall m :: Charged(t.atLargeUsed, t'.atLargeUsed, n, bytes, t.waiting, t'.waiting, done, m)
  {
    if bytes == 0 {
      t', done := t, [];
      assert Messages(done) == [];
    } else {
      var used, pool, r;
      used, pool, r, t' := ReleaseAtLargeShape(cfg, t, n, bytes);
      done := r.done;
      SweepPools(cfg.nodeMax, pool, used, t.nodeWaiting, t.waiting);
      SweepBlocked(cfg.nodeMax, pool, used, t.nodeWaiting, t.waiting);
      SweepWithin(cfg.nodeMax, pool, used, t.nodeWaiting, t.waiting, 0, t.nextID, maxSize);
      SweepOrder(cfg.nodeMax, pool, used, t.nodeWaiting, t.waiting, 0, t.nextID, maxSize);
      SweepProjected(cfg.nodeMax, pool, used, t.nodeWaiting, t.waiting);
      SweepCharged(t, cfg.nodeMax, pool, used, n, bytes, r);
    }
  }

  lemma ServeOwnProjected(left: int, lists: IdLists, q: seq<Waiter>, n: NodeID)
    requires Increasing(q) && Waits(q) && left >= 0 && Projected(lists, q)
    ensures
      var r := ServeOwn(left, lists, q, n);
      Projected(r.lists, r.kept)
  {
    var r := ServeOwn(left, lists, q, n);
    ServeOwnIsWalk(left, lists, q, n);
    ServeOwnIds(left, lists, q, n);
    ServeOwnOthers(left, lists, q, n);
    forall m
      ensures Ids(r.lists, m) == IdsOf(r.kept, m)
    {
      if m != n {
        WalkOthers(left, q, n, m);
      }
    }
  }

  /** The validator half of a release, described through one pass over the queue. */
  lemma ReleaseVdrShape(t: Throttler, n: NodeID, bytes: int) returns (t': Throttler, k: Walked)
    requires Waits(t.waiting) && Increasing(t.waiting) && Projected(t.nodeWaiting, t.waiting) && bytes >= 0
    ensures k == Walk(bytes, t.waiting, n) && (t', k.done) == ReleaseVdr(t, n, bytes)
    ensures t'.waiting == k.kept && t'.atLargeUsed == t.atLargeUsed && t'.nextID == t.nextID
    ensures t'.remainingAtLarge == t.remainingAtLarge && Projected(t'.nodeWaiting, k.kept)
    ensures 0 <= k.left <= bytes && t'.remainingVdr == t.remainingVdr + k.left
    ensures t'.vdrUsed == if k.left > 0 then Store(t.vdrUsed, n, Lookup(t.vdrUsed, n) - k.left) else t.vdrUsed
  {
    ServeOwnIsWalk(bytes, t.nodeWaiting, t.waiting, n);
    ServeOwnProjected(bytes, t.nodeWaiting, t.waiting, n);
    WalkLeft(bytes, t.waiting, n);
    k := Walk(bytes, t.waiting, n);
    t' := ReleaseVdr(t, n, bytes).0;
  }

  lemma VdrCredit(cfg: Config, t: Throttler, t': Throttler, n: NodeID, left: int)
    requires Pools(cfg, t) && 0 <= left <= Lookup(t.vdrUsed, n)
    requires t'.atLargeUsed == t.atLargeUsed && t'.remainingAtLarge == t.remainingAtLarge
    requires t'.remainingVdr == t.remainingVdr + left
    requires t'.vdrUsed == if left > 0 then Store(t.vdrUsed, n, Lookup(t.vdrUsed, n) - left) else t.vdrUsed
    ensures Pools(cfg, t')
  {
    TotalStore(t.vdrUsed, n, Lookup(t.vdrUsed, n) - left);
  }

  lemma ReleaseVdrKeeps(cfg: Config, t: Throttler, n: NodeID, bytes: int, maxSize: int)
      returns (t': Throttler, done: seq<Waiter>)
    requires Pools(cfg, t) && Queue(cfg, t, maxSize) && 0 <= bytes <= Lookup(t.vdrUsed, n)
    ensures (t', done) == ReleaseVdr(t, n, bytes)
    ensures Pools(cfg, t') && Queue(cfg, t', maxSize) && Within(done, 0, t.nextID, maxSize)
    ensures t'.atLargeUsed == t.atLargeUsed
    ensures forall m :: Charged(t.vdrUsed, t'.vdrUsed, n, bytes, t.waiting, t'.waiting, done, m)
  {
    var k;
    t', k := ReleaseVdrShape(t, n, bytes);
    done := k.done;
    VdrCredit(cfg, t, t', n, k.left);
    WalkWaits(bytes, t.waiting, n);
    WalkWithin(bytes, t.waiting, n, 0, t.nextID, maxSize);
    WalkOrder(bytes, t.waiting, n, 0, t.nextID, maxSize);
    WalkBlocked(bytes, t.waiting, n, cfg.nodeMax, t.remainingAtLarge, t.atLargeUsed);
    VdrCharged(t, t', n, bytes, k);
  }

  lemma VdrCharged(t: Throttler, t': Throttler, n: NodeID, bytes: int, k: Walked)
    requires k == Walk(bytes, t.waiting, n) && 0 <= k.left && t'.waiting == k.kept
    requires t'.vdrUsed == if k.left > 0 then Store(t.vdrUsed, n, Lookup(t.vdrUsed, n) - k.left) else t.vdrUsed
    ensures forall m :: Charged(t.vdrUsed, t'.vdrUsed, n, bytes, t.waiting, t'.waiting, k.done, m)
  {
    forall m
      ensures Charged(t.vdrUsed, t'.vdrUsed, n, bytes, t.waiting, t'.waiting, k.done, m)
    {
      WalkAccount(bytes, t.waiting, n, m);
    }
  }

  lemma MessagesSizes(done: seq<Waiter>, lo: int, hi: int, maxSize: int)
    requires Within(done, lo, hi, maxSize)
    ensures Sizes(Messages(done), maxSize)
  {
    if done != [] {
      assert done[0] in done;
      MessagesSizes(done[1..], lo, hi, maxSize);
    }
  }

  lemma RestAccount(held: seq<Message>, i: nat, d1: seq<Waiter>, d2: seq<Waiter>, m: NodeID)
    requires i < |held|
    ensures Held(held[..i] + held[i + 1..] + Messages(d1 + d2), m) ==
            Held(held, m) - (if held[i].node == m then held[i].size else 0)
            + Held(Messages(d1), m) + Held(Messages(d2), m)
  {
    MessagesConcat(d1, d2);
    HeldConcat(Messages(d1), Messages(d2), m);
    HeldRemove(held, i, m);
    HeldConcat(held[..i] + held[i + 1..], Messages(d1 + d2), m);
  }

  lemma RestSizes(held: seq<Message>, i: nat, d1: seq<Waiter>, d2: seq<Waiter>, hi: int, maxSize: int)
    requires i < |held| && Sizes(held, maxSize) && Within(d1, 0, hi, maxSize) && Within(d2, 0, hi, maxSize)
    ensures Sizes(held[..i] + held[i + 1..] + Messages(d1 + d2), maxSize)
  {
    MessagesSizes(d1 + d2, 0, hi, maxSize);
  }

  /** A release is its two halves, one after the other. */
  lemma ReleaseHalves(cfg: Config, s: System, i: nat, n: NodeID, a: int, v: int, t1: Throttler, d1: seq<Waiter>, t2: Throttler, d2: seq<Waiter>)
    requires Enabled(s, Release(i)) && n == s.held[i].node
    requires v == Min(s.held[i].size, Lookup(s.t.vdrUsed, n)) && a == s.held[i].size - v
    requires (t1, d1) == ReleaseAtLarge(cfg, s.t, n, a)
    requires (t2, d2) == ReleaseVdr(t1, n, v)
    ensures Next(cfg, s, Release(i)) == System(t2, s.held[..i] + s.held[i + 1..] + Messages(d1 + d2))
  {
  }

  /** What the two halves of a release charge to each node adds up. */
  lemma AccountHalves(s: System, i: nat, n: NodeID, a: int, v: int, t1: Throttler, d1: seq<Waiter>, t2: Throttler, d2: seq<Waiter>)
    requires Accounted(s) && i < |s.held| && n == s.held[i].node && a + v == s.held[i].size
    requires t1.vdrUsed == s.t.vdrUsed && t2.atLargeUsed == t1.atLargeUsed
    requires forall m :: Charged(s.t.atLargeUsed, t1.atLargeUsed, n, a, s.t.waiting, t1.waiting, d1, m)
    requires forall m :: Charged(t1.vdrUsed, t2.vdrUsed, n, v, t1.waiting, t2.waiting, d2, m)
    ensures Accounted(System(t2, s.held[..i] + s.held[i + 1..] + Messages(d1 + d2)))
  {
    var held := s.held[..i] + s.held[i + 1..] + Messages(d1 + d2);
    forall m
      ensures Lookup(t2.atLargeUsed, m) + Lookup(t2.vdrUsed, m) == Held(held, m) + Partial(t2.waiting, m)
    {
      RestAccount(s.held, i, d1, d2, m);
      assert Charged(s.t.atLargeUsed, t1.atLargeUsed, n, a, s.t.waiting, t1.waiting, d1, m);
      assert Charged(t1.vdrUsed, t2.vdrUsed, n, v, t1.waiting, t2.waiting, d2, m);
    }
  }

  lemma ReleaseKeeps(cfg: Config, s: System, i: nat, maxSize: int)
    requires Inv(cfg, s, maxSize) && Enabled(s, Release(i))
    ensures Inv(cfg, Next(cfg, s, Release(i)), maxSize)
  {
    var n := s.held[i].node;
    ReleaseCovered(cfg, s, i);
    var v := Min(s.held[i].size, Lookup(s.t.vdrUsed, n));
    var a := s.held[i].size - v;
    var t1, d1 := ReleaseAtLargeKeeps(cfg, s.t, n, a, maxSize);
    var t2, d2 := ReleaseVdrKeeps(cfg, t1, n, v, maxSize);
    ReleaseHalves(cfg, s, i, n, a, v, t1, d1, t2, d2);
    RestSizes(s.held, i, d1, d2, s.t.nextID, maxSize);
    AccountHalves(s, i, n, a, v, t1, d1, t2, d2);
  }

  // ---------------------------------------------------------------- runs

  predicate SizesAtMost(events: seq<Event>, maxSize: int) {
    forall e :: e in events ==> e.Acquire? ==> 0 < e.size <= maxSize
  }

  lemma InitialInv(cfg: Config, maxSize: int)
    ensures Inv(cfg, System(Initial(cfg), []), maxSize)
  {
  }

  /** Safety over whole runs: any interleaving of acquires of positive size, with any validator shares,
      and of releases of held messages keeps every invariant. */
  lemma {:induction false} RunKeeps(cfg: Config, s: System, events: seq<Event>, maxSize: int)
    requires Inv(cfg, s, maxSize) && Feasible(cfg, s, events) && SizesAtMost(events, maxSize)
    ensures Inv(cfg, After(cfg, s, events), maxSize)
    decreases |events|
  {
    if events != [] {
      assert events[0] in events;
      match events[0] {
        case Acquire(size, n, share) => AcquireKeeps(cfg, s, size, n, share, maxSize);
        case Release(i) => ReleaseKeeps(cfg, s, i, maxSize);
      }
      RunKeeps(cfg, Next(cfg, s, events[0]), events[1..], maxSize);
    }
  }
}
