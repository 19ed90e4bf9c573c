/** In which order a release hands bytes out. */
module InboundOrder {
  import opened Sums
  import opened InboundModel
  import opened InboundInvariants
  import opened InboundRelease
  import opened InboundSafety

  ghost predicate HasId(q: seq<Waiter>, id: nat) {
    exists i :: 0 <= i < |q| && q[i].id == id
  }

  /** The waiter was completed, or is left with less to wait for. */
  ghost predicate Got(kept: seq<Waiter>, done: seq<Waiter>, w: Waiter) {
    HasId(done, w.id) || exists i :: 0 <= i < |kept| && kept[i].id == w.id && kept[i].need < w.need
  }

  lemma HasIdCons(w: Waiter, q: seq<Waiter>, id: nat)
    ensures HasId([w] + q, id) <==> w.id == id || HasId(q, id)
  {
    if w.id == id {
      assert ([w] + q)[0].id == id;
    }
    if i :| 0 <= i < |q| && q[i].id == id {
      assert ([w] + q)[i + 1].id == id;
    }
    if i :| 0 <= i < |[w] + q| && ([w] + q)[i].id == id && i > 0 {
      assert q[i - 1].id == id;
    }
  }

  /** What happens to another waiter does not matter. */
  lemma GotCons(w': Waiter, kept: seq<Waiter>, done: seq<Waiter>, w: Waiter)
    requires w'.id != w.id
    ensures Got([w'] + kept, done, w) <==> Got(kept, done, w)
    ensures Got(kept, [w'] + done, w) <==> Got(kept, done, w)
  {
    HasIdCons(w', done, w.id);
    if i :| 0 <= i < |kept| && kept[i].id == w.id && kept[i].need < w.need {
      assert ([w'] + kept)[i + 1].id == w.id;
    }
    if i :| 0 <= i < |[w'] + kept| && ([w'] + kept)[i].id == w.id && ([w'] + kept)[i].need < w.need {
      assert kept[i - 1].id == w.id && kept[i - 1].need < w.need;
    }
  }

  lemma NothingGot(q: seq<Waiter>, j: nat)
    requires Increasing(q) && j < |q|
    ensures !Got(q, [], q[j])
  {
  }

  /** One turn of the sweep. */
  lemma SweepTurn(cap: int, pool: int, used: Counts, lists: IdLists, q: seq<Waiter>)
    requires Positive(used) && WithinCap(cap, used) && pool > 0 && Waits(q) && q != []
    ensures
      var w, g := q[0], Grant(cap, pool, used, q[0]);
      var w', used' := w.(need := w.need - g), Charge(used, w.node, g);
      var r := Sweep(cap, pool - g, used', if w'.need == 0 then DropOldest(lists, w.node) else lists, q[1..]);
      && 0 <= g <= pool && g <= w.need && Positive(used') && WithinCap(cap, used') && Waits(q[1..])
      && (w'.need > 0 && pool - g > 0 ==> Lookup(used', w.node) == cap)
      && Sweep(cap, pool, used, lists, q) ==
         if w'.need == 0 then r.(done := [w'] + r.done) else r.(kept := [w'] + r.kept)
  {
    hide Charge, DropOldest, Total, Positive;
    var w := q[0];
    assert w in q;
    GrantFacts(cap, pool, used, w);
    ChargeFacts(cap, pool, used, w.node, Grant(cap, pool, used, w));
  }

  /** A later waiter is given at-large bytes only once the earlier ones are complete or stopped by their node's limit. */
  lemma {:induction false} SweepOldestFirst(cap: int, pool: int, used: Counts, lists: IdLists, q: seq<Waiter>, i: nat, j: nat)
    requires Positive(used) && WithinCap(cap, used) && pool >= 0 && Waits(q) && Increasing(q) && i < j < |q|
    ensures
      var r := Sweep(cap, pool, used, lists, q);
      Got(r.kept, r.done, q[j]) ==> HasId(r.done, q[i].id) || Lookup(r.used, q[i].node) == cap
    decreases |q|
  {
    hide Charge, DropOldest, Total, Positive, WithinCap, HasId, Got, Sweep, Grant;
    if pool == 0 {
      SweepNothing(cap, used, lists, q);
      NothingGot(q, j);
    } else {
      var w, g := q[0], Grant(cap, pool, used, q[0]);
      SweepTurn(cap, pool, used, lists, q);
      var used', w' := Charge(used, w.node, g), w.(need := w.need - g);
      var lists' := if w'.need == 0 then DropOldest(lists, w.node) else lists;
      var r := Sweep(cap, pool - g, used', lists', q[1..]);
      GotCons(w', r.kept, r.done, q[j]);
      HasIdCons(w', r.done, q[i].id);
      if i > 0 {
        SweepOldestFirst(cap, pool - g, used', lists', q[1..], i - 1, j - 1);
      } else if w'.need > 0 && pool - g == 0 {
        SweepNothing(cap, used', lists', q[1..]);
        NothingGot(q[1..], j - 1);
      } else if w'.need > 0 {
        SweepPools(cap, pool - g, used', lists', q[1..]);
        LimitStays(cap, used', r.used, w.node);
      }
    }
  }

  lemma SweepNothing(cap: int, used: Counts, lists: IdLists, q: seq<Waiter>)
    ensures Sweep(cap, 0, used, lists, q) == Served(0, used, lists, q, [])
  {
  }

  lemma LimitStays(cap: int, used: Counts, used': Counts, n: NodeID)
    requires WithinCap(cap, used') && forall m :: Lookup(used, m) <= Lookup(used', m)
    ensures Lookup(used, n) == cap ==> Lookup(used', n) == cap
  {
    assert Lookup(used', n) <= cap && Lookup(used, n) <= Lookup(used', n);
  }

  /** Of the node's own waiters a later one is given validator bytes only once the earlier ones are complete. */
  lemma {:induction false} WalkOldestFirst(left: int, q: seq<Waiter>, n: NodeID, i: nat, j: nat)
    requires left >= 0 && Waits(q) && Increasing(q) && i < j < |q| && q[i].node == n
    ensures Got(Walk(left, q, n).kept, Walk(left, q, n).done, q[j]) ==> HasId(Walk(left, q, n).done, q[i].id)
    decreases |q|
  {
    hide Walk, HasId, Got;
    if left == 0 {
      WalkIdle(left, q, n, n);
      NothingGot(q, j);
    } else {
      var w := q[0];
      assert w in q;
      var g := OwnGrant(left, w, n);
      var w' := w.(need := w.need - g);
      var r := Walk(left - g, q[1..], n);
      WalkUnfold(left, q, n);
      assert w.id < q[j].id;
      GotCons(w', r.kept, r.done, q[j]);
      HasIdCons(w', r.done, q[i].id);
      if i > 0 {
        WalkOldestFirst(left - g, q[1..], n, i - 1, j - 1);
      } else if w'.need > 0 {
        WalkIdle(left - g, q[1..], n, n);
        NothingGot(q[1..], j - 1);
      }
    }
  }

  /** Validator bytes are given back first. As long as they cover the message the at-large pool is not touched; without
      waiters, what they do not cover goes back to the at-large pool. */
  lemma ReleaseGives(cfg: Config, s: System, i: nat, maxSize: int)
    requires Inv(cfg, s, maxSize) && Enabled(s, Release(i))
    ensures
      var n, size, t' := s.held[i].node, s.held[i].size, Next(cfg, s, Release(i)).t;
      var v, a := Lookup(s.t.vdrUsed, n), Lookup(s.t.atLargeUsed, n);
      && (size <= v ==> t'.atLargeUsed == s.t.atLargeUsed && t'.remainingAtLarge == s.t.remainingAtLarge)
      && (s.t.waiting == [] && size <= v ==> Lookup(t'.vdrUsed, n) == v - size && t'.remainingVdr == s.t.remainingVdr + size)
      && (s.t.waiting == [] && size > v ==>
            && Lookup(t'.vdrUsed, n) == 0 && t'.remainingVdr == s.t.remainingVdr + v
            && Lookup(t'.atLargeUsed, n) == a - (size - v) && t'.remainingAtLarge == s.t.remainingAtLarge + (size - v))
  {
    hide Total, Positive, Increasing, Within;
    ReleaseCovered(cfg, s, i);
    var n := s.held[i].node;
    if s.t.waiting == [] {
      var none := s.t.waiting;
      assert Ids(s.t.nodeWaiting, n) == IdsOf(none, n) == [];
    }
  }

  /** Validator bytes go back to their pool only when the releasing node has nobody left waiting. */
  lemma ReleaseLeftover(cfg: Config, s: System, i: nat, maxSize: int)
    requires Inv(cfg, s, maxSize) && Enabled(s, Release(i))
    ensures
      var n, t' := s.held[i].node, Next(cfg, s, Release(i)).t;
      t'.remainingVdr > s.t.remainingVdr ==> forall w :: w in t'.waiting ==> w.node != n
  {
    hide Pools, Next, ReleaseAtLarge, ReleaseVdr, Charged, Accounted, Sizes, Walk;
    var n := s.held[i].node;
    QueueLoose(cfg, s, maxSize);
    ReleaseCovered(cfg, s, i);
    var v := Min(s.held[i].size, Lookup(s.t.vdrUsed, n));
    var a := s.held[i].size - v;
    var t1, d1 := ReleaseAtLargeKeeps(cfg, s.t, n, a, maxSize);
    AtLargeOnly(cfg, s.t, n, a);
    var t2, k := ReleaseVdrShape(t1, n, v);
    ReleaseHalves(cfg, s, i, n, a, v, t1, d1, t2, k.done);
    WalkLeftover(v, t1.waiting, n);
  }

  lemma QueueLoose(cfg: Config, s: System, maxSize: int)
    requires Inv(cfg, s, maxSize)
    ensures Loose(s.t.waiting) && NoneNegative(s.held)
  {
  }

  lemma AtLargeOnly(cfg: Config, t: Throttler, n: NodeID, bytes: int)
    ensures ReleaseAtLarge(cfg, t, n, bytes).0.remainingVdr == t.remainingVdr
  {
  }
}
