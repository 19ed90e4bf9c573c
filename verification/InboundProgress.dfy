/** Progress: when no message is held, nobody is left waiting.
    Bytes charged to a node's validator share complicate this: they are returned to the node's own
    waiters first, so a node can turn its at-large bytes into partial grants that no other node can use. */
module InboundProgress {
  import opened Sums
  import opened InboundModel
  import opened InboundInvariants
  import opened InboundRelease
  import opened InboundSafety

  // ---------------------------------------------------------------- two more invariants

  /** Bytes granted to the waiters of a node other than its oldest. */
  function Later(q: seq<Waiter>, n: NodeID): int {
    if q == [] then 0
    else if q[0].node == n then Partial(q[1..], n)
    else Later(q[1..], n)
  }

  ghost predicate LaterFromShare(vdr: Counts, q: seq<Waiter>) {
    forall n :: Later(q, n) <= Lookup(vdr, n)
  }

  /** Every waiter of `q` that holds bytes and whose node uses no validator bytes
      is of another node than `x`, and `x` is at its limit. */
  ghost predicate Behind(cap: int, used: Counts, vdr: Counts, q: seq<Waiter>, x: NodeID) {
    forall u :: u in q && u.need < u.size && Lookup(vdr, u.node) == 0 ==> u.node != x && Lookup(used, x) == cap
  }

  /** A waiter got bytes from the at-large pool only after every older waiter's node was at its limit. */
  ghost predicate Ahead(cap: int, used: Counts, vdr: Counts, q: seq<Waiter>) {
    q != [] ==> Behind(cap, used, vdr, q[1..], q[0].node) && Ahead(cap, used, vdr, q[1..])
  }

  ghost predicate Fair(cfg: Config, t: Throttler) {
    LaterFromShare(t.vdrUsed, t.waiting) && Ahead(cfg.nodeMax, t.atLargeUsed, t.vdrUsed, t.waiting)
  }

  // ---------------------------------------------------------------- Acquire

  lemma {:induction false} AheadMono(cap: int, used: Counts, vdr: Counts, used': Counts, vdr': Counts, q: seq<Waiter>)
    requires Ahead(cap, used, vdr, q) && WithinCap(cap, used')
    requires forall n :: Lookup(used, n) <= Lookup(used', n)
    requires forall n :: Lookup(vdr, n) == 0 || Lookup(vdr', n) != 0
    ensures Ahead(cap, used', vdr', q)
  {
    if q != [] {
      assert Lookup(used, q[0].node) <= Lookup(used', q[0].node) <= cap;
      AheadMono(cap, used, vdr, used', vdr', q[1..]);
    }
  }

  lemma {:induction false} AheadAppend(cap: int, used: Counts, vdr: Counts, q: seq<Waiter>, w: Waiter)
    requires Ahead(cap, used, vdr, q)
    requires forall u :: u in q ==> Behind(cap, used, vdr, [w], u.node)
    ensures Ahead(cap, used, vdr, q + [w])
  {
    if q == [] {
      assert q + [w] == [w];
      assert [w][1..] == [];
    } else {
      assert (q + [w])[1..] == q[1..] + [w];
      assert q[0] in q && w in [w];
      AheadAppend(cap, used, vdr, q[1..], w);
    }
  }

  lemma {:induction false} LaterAppend(q: seq<Waiter>, w: Waiter, n: NodeID)
    ensures Later(q + [w], n) == Later(q, n) + if w.node == n && IdsOf(q, n) != [] then w.size - w.need else 0
  {
    if q == [] {
      assert q + [w] == [w];
      assert [w][1..] == [];
    } else {
      assert (q + [w])[1..] == q[1..] + [w];
      if q[0].node == n {
        PartialConcat(q[1..], [w], n);
      } else {
        LaterAppend(q[1..], w, n);
      }
    }
  }

  lemma {:induction false} HasWaiter(q: seq<Waiter>, n: NodeID)
    requires IdsOf(q, n) != []
    ensures exists w :: w in q && w.node == n
  {
    if q[0].node == n {
      assert q[0] in q;
    } else {
      HasWaiter(q[1..], n);
      var w :| w in q[1..] && w.node == n;
      assert w in q;
    }
  }

  lemma GrantFair(cfg: Config, t: Throttler, t2: Throttler, n: NodeID, a: int, v: int)
    requires Fair(cfg, t) && Granted(t, t2, n, a, v) && a >= 0 && v >= 0 && WithinCap(cfg.nodeMax, t2.atLargeUsed)
    requires Positive(t.vdrUsed)
    ensures Fair(cfg, t2)
  {
    AheadMono(cfg.nodeMax, t.atLargeUsed, t.vdrUsed, t2.atLargeUsed, t2.vdrUsed, t.waiting);
    forall m
      ensures Later(t2.waiting, m) <= Lookup(t2.vdrUsed, m)
    {
      assert Later(t.waiting, m) <= Lookup(t.vdrUsed, m);
    }
  }

  lemma WaitFair(cfg: Config, t: Throttler, t2: Throttler, n: NodeID, a: int, v: int, size: int)
    requires Fair(cfg, t) && Granted(t, t2, n, a, v) && a >= 0 && v >= 0 && WithinCap(cfg.nodeMax, t2.atLargeUsed)
    requires Positive(t.vdrUsed) && a <= t.remainingAtLarge
    requires Blocked(cfg.nodeMax, t.remainingAtLarge, t.atLargeUsed, t.waiting)
    requires forall m :: Ids(t.nodeWaiting, m) == IdsOf(t.waiting, m)
    ensures Fair(cfg, Enqueue(t2, n, size, size - a - v))
  {
    hide Later, IdsOf, Ids, Total;
    GrantFair(cfg, t, t2, n, a, v);
    var w := Waiter(t2.nextID + 1, n, size, size - a - v);
    assert Lookup(t2.atLargeUsed, n) <= cfg.nodeMax;
    assert forall u :: u in t.waiting ==> a == 0 || (Lookup(t.atLargeUsed, u.node) == cfg.nodeMax && u.node != n);
    assert Lookup(t2.vdrUsed, n) >= v;
    AheadAppend(cfg.nodeMax, t2.atLargeUsed, t2.vdrUsed, t2.waiting, w);
    forall m
      ensures Later(t.waiting + [w], m) <= Lookup(t2.vdrUsed, m)
    {
      LaterAppend(t.waiting, w, m);
      assert Later(t.waiting, m) <= Lookup(t.vdrUsed, m);
      if m == n && IdsOf(t.waiting, n) != [] {
        HasWaiter(t.waiting, n);
      }
    }
  }

  lemma AcquireFair(cfg: Config, s: System, size: nat, n: NodeID, share: nat, maxSize: int)
    requires Inv(cfg, s, maxSize) && 0 < size <= maxSize && Fair(cfg, s.t)
    ensures Fair(cfg, Next(cfg, s, Acquire(size, n, share)).t)
  {
    var a, v, t2, s' := AcquireGrants(cfg, s, size, n, share, maxSize);
    if a + v == size {
      GrantFair(cfg, s.t, t2, n, a, v);
    } else {
      WaitFair(cfg, s.t, t2, n, a, v, size);
    }
  }

  // ---------------------------------------------------------------- the sweep

  /** Before a sweep only the releasing node `n` may be short of its limit, by no more than the pool holds. */
  ghost predicate NearlyBehind(cap: int, used: Counts, vdr: Counts, q: seq<Waiter>, x: NodeID, n: NodeID, pool: int) {
    forall u :: u in q && u.need < u.size && Lookup(vdr, u.node) == 0 ==>
      u.node != x && (Lookup(used, x) == cap || (x == n && pool >= cap - Lookup(used, x)))
  }

  ghost predicate NearlyAhead(cap: int, used: Counts, vdr: Counts, q: seq<Waiter>, n: NodeID, pool: int) {
    q != [] ==> NearlyBehind(cap, used, vdr, q[1..], q[0].node, n, pool) && NearlyAhead(cap, used, vdr, q[1..], n, pool)
  }

  lemma {:induction false} CreditAhead(cap: int, used: Counts, vdr: Counts, q: seq<Waiter>, n: NodeID, bytes: int, used': Counts, pool': int)
    requires Ahead(cap, used, vdr, q) && pool' >= bytes
    requires forall m :: Lookup(used', m) == Lookup(used, m) - if m == n then bytes else 0
    ensures NearlyAhead(cap, used', vdr, q, n, pool')
  {
    if q != [] {
      CreditAhead(cap, used, vdr, q[1..], n, bytes, used', pool');
    }
  }

  lemma {:induction false} EmptyPoolAhead(cap: int, used: Counts, vdr: Counts, q: seq<Waiter>, n: NodeID)
    requires NearlyAhead(cap, used, vdr, q, n, 0) && WithinCap(cap, used)
    ensures Ahead(cap, used, vdr, q)
  {
    if q != [] {
      assert Lookup(used, q[0].node) <= cap;
      EmptyPoolAhead(cap, used, vdr, q[1..], n);
    }
  }

  /** Whoever was at its limit when a waiter got bytes still is after the sweep. */
  lemma {:induction false} SweepBehind(cap: int, pool: int, used: Counts, lists: IdLists, q: seq<Waiter>, vdr: Counts, x: NodeID)
    requires Positive(used) && WithinCap(cap, used) && pool >= 0 && Waits(q)
    requires Behind(cap, used, vdr, q, x) && (pool > 0 ==> Lookup(used, x) == cap)
    ensures
      var r := Sweep(cap, pool, used, lists, q);
      Behind(cap, r.used, vdr, r.kept, x)
    decreases |q|
  {
    if pool > 0 && q != [] {
      var w := q[0];
      var g := Grant(cap, pool, used, w);
      GrantFacts(cap, pool, used, w);
      ChargeFacts(cap, pool, used, w.node, g);
      var used', pool' := Charge(used, w.node, g), Spend(pool, g);
      var lists' := if w.need == g then DropOldest(lists, w.node) else lists;
      SweepBehind(cap, pool', used', lists', q[1..], vdr, x);
      SweepPools(cap, pool', used', lists', q[1..]);
      var r := Sweep(cap, pool', used', lists', q[1..]);
      assert Lookup(used', x) <= Lookup(r.used, x) <= cap;
    }
  }

  lemma {:induction false} NearlyStep(cap: int, used: Counts, vdr: Counts, q: seq<Waiter>, n: NodeID, pool: int, x: NodeID, g: int, used': Counts)
    requires NearlyAhead(cap, used, vdr, q, n, pool) && NearlyBehind(cap, used, vdr, q, x, n, pool)
    requires 0 <= g <= cap - Lookup(used, x)
    requires forall m :: Lookup(used', m) == Lookup(used, m) + if m == x then g else 0
    ensures NearlyAhead(cap, used', vdr, q, n, pool - g)
  {
    if q != [] {
      NearlyStep(cap, used, vdr, q[1..], n, pool, x, g, used');
    }
  }

  lemma {:induction false} SweepAhead(cap: int, pool: int, used: Counts, lists: IdLists, q: seq<Waiter>, vdr: Counts, n: NodeID)
    requires Positive(used) && WithinCap(cap, used) && pool >= 0 && Waits(q)
    requires NearlyAhead(cap, used, vdr, q, n, pool)
    ensures
      var r := Sweep(cap, pool, used, lists, q);
      Ahead(cap, r.used, vdr, r.kept)
    decreases |q|
  {
    if pool == 0 {
      EmptyPoolAhead(cap, used, vdr, q, n);
    } else if q != [] {
      var w := q[0];
      var g := Grant(cap, pool, used, w);
      GrantFacts(cap, pool, used, w);
      ChargeFacts(cap, pool, used, w.node, g);
      var used', pool' := Charge(used, w.node, g), Spend(pool, g);
      var lists' := if w.need == g then DropOldest(lists, w.node) else lists;
      NearlyStep(cap, used, vdr, q[1..], n, pool, w.node, g, used');
      SweepAhead(cap, pool', used', lists', q[1..], vdr, n);
      if w.need != g {
        var r := Sweep(cap, pool', used', lists', q[1..]);
        SweepBehind(cap, pool', used', lists', q[1..], vdr, w.node);
        assert ([w.(need := w.need - g)] + r.kept)[1..] == r.kept;
      }
    }
  }

  /** A node at its limit, or any node when the pool is empty, gets nothing from the sweep. */
  lemma {:induction false} SweepNothing(cap: int, pool: int, used: Counts, lists: IdLists, q: seq<Waiter>, x: NodeID)
    requires Positive(used) && WithinCap(cap, used) && pool >= 0 && Waits(q)
    requires pool > 0 ==> Lookup(used, x) == cap
    ensures Partial(Sweep(cap, pool, used, lists, q).kept, x) == Partial(q, x)
    decreases |q|
  {
    if pool > 0 && q != [] {
      var w := q[0];
      var g := Grant(cap, pool, used, w);
      GrantFacts(cap, pool, used, w);
      ChargeFacts(cap, pool, used, w.node, g);
      var used', pool' := Charge(used, w.node, g), Spend(pool, g);
      var lists' := if w.need == g then DropOldest(lists, w.node) else lists;
      SweepNothing(cap, pool', used', lists', q[1..], x);
      var r := Sweep(cap, pool', used', lists', q[1..]);
      ConsFacts(w.(need := w.need - g), r.kept, r.done, x);
    }
  }

  lemma {:induction false} LaterAtMostPartial(q: seq<Waiter>, n: NodeID)
    requires Waits(q)
    ensures 0 <= Later(q, n) <= Partial(q, n)
  {
    if q != [] {
      if q[0].node == n {
        PartialNonNegative(q[1..], n);
        assert q[0] in q;
      } else {
        LaterAtMostPartial(q[1..], n);
      }
    }
  }

  lemma LaterCons(w: Waiter, kept: seq<Waiter>, n: NodeID)
    ensures Later([w] + kept, n) == if w.node == n then Partial(kept, n) else Later(kept, n)
  {
    assert ([w] + kept)[1..] == kept;
  }

  /** The sweep gives bytes only to the oldest waiter of a node. */
  lemma {:induction false} SweepLater(cap: int, pool: int, used: Counts, lists: IdLists, q: seq<Waiter>, n: NodeID)
    requires Positive(used) && WithinCap(cap, used) && pool >= 0 && Waits(q)
    ensures Later(Sweep(cap, pool, used, lists, q).kept, n) <= Later(q, n)
    decreases |q|
  {
    if pool > 0 && q != [] {
      var w := q[0];
      var g := Grant(cap, pool, used, w);
      GrantFacts(cap, pool, used, w);
      ChargeFacts(cap, pool, used, w.node, g);
      var used', pool' := Charge(used, w.node, g), Spend(pool, g);
      var lists' := if w.need == g then DropOldest(lists, w.node) else lists;
      SweepLater(cap, pool', used', lists', q[1..], n);
      LaterAtMostPartial(q[1..], n);
      if w.need != g {
        LaterCons(w.(need := w.need - g), Sweep(cap, pool', used', lists', q[1..]).kept, n);
        if w.node == n {
          SweepNothing(cap, pool', used', lists', q[1..], n);
        }
      }
    }
  }

  // ---------------------------------------------------------------- a node's own waiters

  lemma {:induction false} WalkLater(left: int, q: seq<Waiter>, n: NodeID, m: NodeID)
    requires left >= 0 && Waits(q)
    ensures Later(Walk(left, q, n).kept, m) <= Later(q, m)
    decreases |q|
  {
    if left > 0 && q != [] {
      var g := OwnGrant(left, q[0], n);
      var w' := q[0].(need := q[0].need - g);
      WalkLater(left - g, q[1..], n, m);
      LaterAtMostPartial(q[1..], m);
      var r := Walk(left - g, q[1..], n);
      if w'.need != 0 {
        LaterCons(w', r.kept, m);
        if q[0].node == m != n {
          WalkPartialOthers(left - g, q[1..], n, m);
        }
      }
    }
  }

  lemma {:induction false} WalkPartialOthers(left: int, q: seq<Waiter>, n: NodeID, m: NodeID)
    requires left >= 0 && Waits(q) && m != n
    ensures Partial(Walk(left, q, n).kept, m) == Partial(q, m)
    decreases |q|
  {
    if left > 0 && q != [] {
      var g := OwnGrant(left, q[0], n);
      WalkPartialOthers(left - g, q[1..], n, m);
      var r := Walk(left - g, q[1..], n);
      ConsFacts(q[0].(need := q[0].need - g), r.kept, r.done, m);
    }
  }

  lemma {:induction false} WalkBehind(left: int, q: seq<Waiter>, n: NodeID, cap: int, used: Counts, vdr: Counts, x: NodeID)
    requires left >= 0 && Waits(q) && Behind(cap, used, vdr, q, x) && (left > 0 ==> Lookup(vdr, n) != 0)
    ensures Behind(cap, used, vdr, Walk(left, q, n).kept, x)
    decreases |q|
  {
    if left > 0 && q != [] {
      WalkBehind(left - OwnGrant(left, q[0], n), q[1..], n, cap, used, vdr, x);
    }
  }

  lemma {:induction false} WalkAhead(left: int, q: seq<Waiter>, n: NodeID, cap: int, used: Counts, vdr: Counts)
    requires left >= 0 && Waits(q) && Ahead(cap, used, vdr, q) && (left > 0 ==> Lookup(vdr, n) != 0)
    ensures Ahead(cap, used, vdr, Walk(left, q, n).kept)
    decreases |q|
  {
    if left > 0 && q != [] {
      var g := OwnGrant(left, q[0], n);
      var w' := q[0].(need := q[0].need - g);
      WalkAhead(left - g, q[1..], n, cap, used, vdr);
      WalkBehind(left - g, q[1..], n, cap, used, vdr, q[0].node);
      assert ([w'] + Walk(left - g, q[1..], n).kept)[1..] == Walk(left - g, q[1..], n).kept;
    }
  }

  lemma {:induction false} AheadOthers(cap: int, used: Counts, vdr: Counts, vdr': Counts, q: seq<Waiter>, n: NodeID)
    requires Ahead(cap, used, vdr, q)
    requires forall m :: m != n ==> Lookup(vdr', m) == Lookup(vdr, m)
    requires forall w :: w in q ==> w.node != n
    ensures Ahead(cap, used, vdr', q)
  {
    if q != [] {
      AheadOthers(cap, used, vdr, vdr', q[1..], n);
    }
  }

  lemma {:induction false} NoLater(q: seq<Waiter>, n: NodeID)
    requires forall w :: w in q ==> w.node != n
    ensures Later(q, n) == 0
  {
    if q != [] {
      assert q[0] in q;
      NoLater(q[1..], n);
    }
  }

  // ---------------------------------------------------------------- Release

  lemma ReleaseAtLargeFair(cfg: Config, t: Throttler, n: NodeID, bytes: int, maxSize: int)
    requires Pools(cfg, t) && Queue(cfg, t, maxSize) && Fair(cfg, t) && 0 <= bytes <= Lookup(t.atLargeUsed, n)
    ensures Fair(cfg, ReleaseAtLarge(cfg, t, n, bytes).0)
  {
    if bytes > 0 {
      var used, pool, r, t' := ReleaseAtLargeShape(cfg, t, n, bytes);
      CreditAhead(cfg.nodeMax, t.atLargeUsed, t.vdrUsed, t.waiting, n, bytes, used, pool);
      SweepAhead(cfg.nodeMax, pool, used, t.nodeWaiting, t.waiting, t.vdrUsed, n);
      forall m
        ensures Later(r.kept, m) <= Lookup(t.vdrUsed, m)
      {
        SweepLater(cfg.nodeMax, pool, used, t.nodeWaiting, t.waiting, m);
        assert Later(t.waiting, m) <= Lookup(t.vdrUsed, m);
      }
    }
  }

  lemma WalkFair(cfg: Config, t: Throttler, n: NodeID, bytes: int, k: Walked, vdr': Counts)
    requires Positive(t.vdrUsed) && Waits(t.waiting) && Fair(cfg, t) && 0 <= bytes <= Lookup(t.vdrUsed, n)
    requires k == Walk(bytes, t.waiting, n)
    requires forall m :: Lookup(vdr', m) == Lookup(t.vdrUsed, m) - if m == n then k.left else 0
    ensures LaterFromShare(vdr', k.kept) && Ahead(cfg.nodeMax, t.atLargeUsed, vdr', k.kept)
  {
    var q := t.waiting;
    WalkLeft(bytes, q, n);
    WalkLeftover(bytes, q, n);
    WalkAhead(bytes, q, n, cfg.nodeMax, t.atLargeUsed, t.vdrUsed);
    if k.left > 0 {
      AheadOthers(cfg.nodeMax, t.atLargeUsed, t.vdrUsed, vdr', k.kept, n);
      NoLater(k.kept, n);
    } else {
      AheadSame(cfg.nodeMax, t.atLargeUsed, t.vdrUsed, vdr', k.kept);
    }
    forall m
      ensures Later(k.kept, m) <= Lookup(vdr', m)
    {
      WalkLater(bytes, q, n, m);
      assert Later(q, m) <= Lookup(t.vdrUsed, m);
    }
  }

  lemma {:induction false} AheadSame(cap: int, used: Counts, vdr: Counts, vdr': Counts, q: seq<Waiter>)
    requires Ahead(cap, used, vdr, q) && forall m :: Lookup(vdr', m) == Lookup(vdr, m)
    ensures Ahead(cap, used, vdr', q)
  {
    if q != [] {
      AheadSame(cap, used, vdr, vdr', q[1..]);
    }
  }

  lemma ReleaseVdrFair(cfg: Config, t: Throttler, n: NodeID, bytes: int, maxSize: int)
    requires Pools(cfg, t) && Queue(cfg, t, maxSize) && Fair(cfg, t) && 0 <= bytes <= Lookup(t.vdrUsed, n)
    ensures Fair(cfg, ReleaseVdr(t, n, bytes).0)
  {
    var t', k := ReleaseVdrShape(t, n, bytes);
    WalkFair(cfg, t, n, bytes, k, t'.vdrUsed);
  }

  lemma ReleaseFair(cfg: Config, s: System, i: nat, maxSize: int)
    requires Inv(cfg, s, maxSize) && Fair(cfg, s.t) && Enabled(s, Release(i))
    ensures Fair(cfg, Next(cfg, s, Release(i)).t)
  {
    var n := s.held[i].node;
    ReleaseCovered(cfg, s, i);
    var v := Min(s.held[i].size, Lookup(s.t.vdrUsed, n));
    var a := s.held[i].size - v;
    var t1, d1 := ReleaseAtLargeKeeps(cfg, s.t, n, a, maxSize);
    ReleaseAtLargeFair(cfg, s.t, n, a, maxSize);
    var t2, d2 := ReleaseVdrKeeps(cfg, t1, n, v, maxSize);
    ReleaseVdrFair(cfg, t1, n, v, maxSize);
    ReleaseHalves(cfg, s, i, n, a, v, t1, d1, t2, d2);
  }

  lemma {:induction false} RunFair(cfg: Config, s: System, events: seq<Event>, maxSize: int)
    requires Inv(cfg, s, maxSize) && Fair(cfg, s.t) && Feasible(cfg, s, events) && SizesAtMost(events, maxSize)
    ensures Inv(cfg, After(cfg, s, events), maxSize) && Fair(cfg, After(cfg, s, events).t)
    decreases |events|
  {
    if events != [] {
      assert events[0] in events;
      match events[0] {
        case Acquire(size, n, share) =>
          AcquireKeeps(cfg, s, size, n, share, maxSize);
          AcquireFair(cfg, s, size, n, share, maxSize);
        case Release(i) =>
          ReleaseKeeps(cfg, s, i, maxSize);
          ReleaseFair(cfg, s, i, maxSize);
      }
      RunFair(cfg, Next(cfg, s, events[0]), events[1..], maxSize);
    }
  }

  // ---------------------------------------------------------------- nobody holds a message

  /** What a waiting node is charged, beyond its validator bytes, is less than one message. */
  lemma IdleNode(cfg: Config, s: System, n: NodeID)
    requires Inv(cfg, s, cfg.nodeMax) && Fair(cfg, s.t) && s.held == []
    ensures Lookup(s.t.atLargeUsed, n) == 0 || Lookup(s.t.atLargeUsed, n) < cfg.nodeMax
    ensures Lookup(s.t.atLargeUsed, n) > 0 && Lookup(s.t.vdrUsed, n) == 0 ==> Partial(s.t.waiting, n) > 0
  {
    assert Held(s.held, n) == 0;
    assert Lookup(s.t.atLargeUsed, n) + Lookup(s.t.vdrUsed, n) == Held(s.held, n) + Partial(s.t.waiting, n);
    assert Later(s.t.waiting, n) <= Lookup(s.t.vdrUsed, n);
    OldestPartial(s.t.waiting, n, s.t.nextID, cfg.nodeMax);
    LookupAtMostTotal(s.t.vdrUsed, n);
    LookupAtMostTotal(s.t.atLargeUsed, n);
  }

  lemma {:induction false} OldestPartial(q: seq<Waiter>, n: NodeID, hi: int, maxSize: int)
    requires Waits(q) && Within(q, 0, hi, maxSize)
    ensures Partial(q, n) == 0 || Partial(q, n) - Later(q, n) < maxSize
  {
    if q != [] {
      assert q[0] in q;
      if q[0].node != n {
        OldestPartial(q[1..], n, hi, maxSize);
      }
    }
  }

  lemma {:induction false} SomePartial(q: seq<Waiter>, n: NodeID)
    requires Waits(q) && Partial(q, n) > 0
    ensures exists w :: w in q && w.node == n && w.need < w.size
  {
    if q[0].node == n && q[0].need < q[0].size {
      assert q[0] in q;
    } else {
      SomePartial(q[1..], n);
      var w :| w in q[1..] && w.node == n && w.need < w.size;
      assert w in q;
    }
  }

  /** A node other than the head's that is charged at-large bytes also uses validator bytes. */
  lemma IdleOthers(cfg: Config, s: System, n: NodeID)
    requires Inv(cfg, s, cfg.nodeMax) && Fair(cfg, s.t) && s.held == [] && s.t.waiting != []
    requires n != s.t.waiting[0].node && Lookup(s.t.atLargeUsed, n) > 0
    ensures Lookup(s.t.vdrUsed, n) > 0
  {
    var q := s.t.waiting;
    assert q[0] in q && 0 < q[0].size <= cfg.nodeMax;
    IdleNode(cfg, s, q[0].node);
    IdleNode(cfg, s, n);
    LookupAtMostTotal(s.t.vdrUsed, n);
    if Lookup(s.t.vdrUsed, n) == 0 {
      SomePartial(q, n);
    }
  }

  /** When nothing is held but someone waits, the at-large pool is exhausted
      and the bytes sit with the head's node and with nodes using validator bytes. */
  lemma StuckBound(cfg: Config, s: System)
    requires Inv(cfg, s, cfg.nodeMax) && Fair(cfg, s.t) && s.held == [] && s.t.waiting != []
    ensures cfg.atLargeAlloc <= (cfg.vdrAlloc + 1) * (cfg.nodeMax - 1)
  {
    var al, vdr, h := s.t.atLargeUsed, s.t.vdrUsed, s.t.waiting[0].node;
    assert s.t.waiting[0] in s.t.waiting && 0 < s.t.waiting[0].size <= cfg.nodeMax;
    IdleNode(cfg, s, h);
    assert s.t.remainingAtLarge == 0;
    var others := al.Keys - {h};
    forall k | k in others
      ensures Lookup(al, k) <= 0 || (k in vdr && Lookup(al, k) <= cfg.nodeMax - 1)
    {
      IdleNode(cfg, s, k);
      IdleOthers(cfg, s, k);
    }
    TotalBounded(al, vdr, others, cfg.nodeMax - 1);
    TotalOverAtMost(vdr, others);
    TotalAdd(al, h);
    MulMono(TotalOver(vdr, others), cfg.vdrAlloc, cfg.nodeMax - 1);
  }

  lemma MulMono(x: int, y: int, z: int)
    requires x <= y && z >= 0
    ensures x * z + z <= (y + 1) * z
  {
    assert (y - x) * z >= 0;
    assert (y + 1) * z == y * z + z;
    assert (y - x) * z == y * z - x * z;
  }

  /** Progress: with message sizes from 1 to the per-node limit, any validator shares and any schedule,
      if the at-large allocation exceeds (validator allocation + 1) * (limit - 1)
      then whenever every acquired message has been released, no call is left blocked. */
  lemma Progress(cfg: Config, events: seq<Event>)
    requires (cfg.vdrAlloc + 1) * (cfg.nodeMax - 1) < cfg.atLargeAlloc
    requires SizesAtMost(events, cfg.nodeMax) && Feasible(cfg, System(Initial(cfg), []), events)
    ensures
      var s := After(cfg, System(Initial(cfg), []), events);
      s.held == [] ==> s.t.waiting == []
  {
    var s0 := System(Initial(cfg), []);
    InitialInv(cfg, cfg.nodeMax);
    RunFair(cfg, s0, events, cfg.nodeMax);
    var s := After(cfg, s0, events);
    if s.held == [] && s.t.waiting != [] {
      StuckBound(cfg, s);
    }
  }
}
