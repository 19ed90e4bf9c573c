/** The two redistribution loops of `Release`, one property at a time. */
module InboundRelease {
  import opened Sums
  import opened InboundModel
  import opened InboundInvariants

  // ---------------------------------------------------------------- one waiter of the sweep

  lemma ChargeFacts(cap: int, pool: int, used: Counts, n: NodeID, g: int)
    requires Positive(used) && WithinCap(cap, used) && 0 <= g <= pool && g <= cap - Lookup(used, n)
    ensures Positive(Charge(used, n, g)) && WithinCap(cap, Charge(used, n, g))
    ensures Spend(pool, g) == pool - g && Spend(pool, g) + Total(Charge(used, n, g)) == pool + Total(used)
    ensures forall m :: Lookup(Charge(used, n, g), m) == Lookup(used, m) + if m == n then g else 0
  {
    ChargeTotal(used, n, g);
    var used' := Charge(used, n, g);
    forall m
      ensures Lookup(used', m) <= cap
    {
      assert Lookup(used, m) <= cap;
    }
  }

  lemma GrantFacts(cap: int, pool: int, used: Counts, w: Waiter)
    requires WithinCap(cap, used) && pool > 0 && 0 <= w.need <= w.size
    ensures
      var g := Grant(cap, pool, used, w);
      && 0 <= g <= pool && g <= cap - Lookup(used, w.node) && g <= w.need
      && Spend(w.need, g) == w.need - g
      && (w.need - g > 0 && pool - g > 0 ==> Lookup(used, w.node) + g == cap)
  {
  }

  // ---------------------------------------------------------------- the sweep

  /** The sweep conserves the pool, respects the limit and only ever charges more. */
  lemma {:induction false} SweepPools(cap: int, pool: int, used: Counts, lists: IdLists, q: seq<Waiter>)
    requires Positive(used) && WithinCap(cap, used) && pool >= 0 && Loose(q)
    ensures
      var r := Sweep(cap, pool, used, lists, q);
      && 0 <= r.left <= pool && Positive(r.used) && WithinCap(cap, r.used)
      && r.left + Total(r.used) == pool + Total(used)
      && (forall n :: Lookup(used, n) <= Lookup(r.used, n))
    decreases |q|
  {
    if pool > 0 && q != [] {
      var w := q[0];
      var g := Grant(cap, pool, used, w);
      GrantFacts(cap, pool, used, w);
      ChargeFacts(cap, pool, used, w.node, g);
      var lists' := if w.need == g then DropOldest(lists, w.node) else lists;
      SweepPools(cap, Spend(pool, g), Charge(used, w.node, g), lists', q[1..]);
    }
  }

  /** Whatever the sweep charges to a node went to that node's waiters. */
  lemma {:induction false} SweepAccount(cap: int, pool: int, used: Counts, lists: IdLists, q: seq<Waiter>, n: NodeID)
    requires Positive(used) && WithinCap(cap, used) && pool >= 0 && Loose(q)
    ensures
      var r := Sweep(cap, pool, used, lists, q);
      Lookup(r.used, n) - Lookup(used, n) == Partial(r.kept, n) + Held(Messages(r.done), n) - Partial(q, n)
    decreases |q|
  {
    if pool > 0 && q != [] {
      var w := q[0];
      var g := Grant(cap, pool, used, w);
      GrantFacts(cap, pool, used, w);
      ChargeFacts(cap, pool, used, w.node, g);
      var lists' := if w.need == g then DropOldest(lists, w.node) else lists;
      var r := Sweep(cap, Spend(pool, g), Charge(used, w.node, g), lists', q[1..]);
      SweepAccount(cap, Spend(pool, g), Charge(used, w.node, g), lists', q[1..], n);
      ConsFacts(w.(need := w.need - g), r.kept, r.done, n);
    } else {
      assert Messages([]) == [];
    }
  }

  lemma ConsFacts(w: Waiter, kept: seq<Waiter>, done: seq<Waiter>, n: NodeID)
    ensures Partial([w] + kept, n) == (if w.node == n then w.size - w.need else 0) + Partial(kept, n)
    ensures IdsOf([w] + kept, n) == (if w.node == n then [w.id] else []) + IdsOf(kept, n)
    ensures Held(Messages([w] + done), n) == (if w.node == n then w.size else 0) + Held(Messages(done), n)
  {
    assert ([w] + kept)[1..] == kept;
    assert ([w] + done)[1..] == done;
    var m := Message(w.node, w.size);
    assert ([m] + Messages(done))[1..] == Messages(done);
  }

  /** After the sweep a waiter is left only if the pool is empty or its node is at its limit. */
  lemma {:induction false} SweepBlocked(cap: int, pool: int, used: Counts, lists: IdLists, q: seq<Waiter>)
    requires Positive(used) && WithinCap(cap, used) && pool >= 0 && Waits(q)
    ensures
      var r := Sweep(cap, pool, used, lists, q);
      Blocked(cap, r.left, r.used, r.kept) && Waits(r.kept)
    decreases |q|
  {
    if pool > 0 && q != [] {
      var w := q[0];
      var g := Grant(cap, pool, used, w);
      GrantFacts(cap, pool, used, w);
      ChargeFacts(cap, pool, used, w.node, g);
      var lists' := if w.need == g then DropOldest(lists, w.node) else lists;
      SweepBlocked(cap, Spend(pool, g), Charge(used, w.node, g), lists', q[1..]);
      SweepPools(cap, Spend(pool, g), Charge(used, w.node, g), lists', q[1..]);
    }
  }

  lemma ConsIncreasing(w: Waiter, kept: seq<Waiter>, hi: int, maxSize: int)
    requires Increasing(kept) && Within(kept, w.id, hi, maxSize)
    ensures Increasing([w] + kept)
  {
  }

  lemma {:induction false} SweepWithin(cap: int, pool: int, used: Counts, lists: IdLists, q: seq<Waiter>, lo: int, hi: int, maxSize: int)
    requires Within(q, lo, hi, maxSize)
    ensures
      var r := Sweep(cap, pool, used, lists, q);
      Within(r.kept, lo, hi, maxSize) && Within(r.done, lo, hi, maxSize)
    decreases |q|
  {
    if pool > 0 && q != [] {
      var w := q[0];
      var g := Grant(cap, pool, used, w);
      var lists' := if Spend(w.need, g) == 0 then DropOldest(lists, w.node) else lists;
      SweepWithin(cap, Spend(pool, g), Charge(used, w.node, g), lists', q[1..], lo, hi, maxSize);
    }
  }

  /** The sweep keeps the queue order. */
  lemma {:induction false} SweepOrder(cap: int, pool: int, used: Counts, lists: IdLists, q: seq<Waiter>, lo: int, hi: int, maxSize: int)
    requires Increasing(q) && Within(q, lo, hi, maxSize)
    ensures Increasing(Sweep(cap, pool, used, lists, q).kept)
    decreases |q|
  {
    if pool > 0 && q != [] {
      var w := q[0];
      var g := Grant(cap, pool, used, w);
      var w' := w.(need := Spend(w.need, g));
      var lists' := if w'.need == 0 then DropOldest(lists, w.node) else lists;
      SweepOrder(cap, Spend(pool, g), Charge(used, w.node, g), lists', q[1..], lo, hi, maxSize);
      assert Within(q[1..], w.id, hi, maxSize);
      SweepWithin(cap, Spend(pool, g), Charge(used, w.node, g), lists', q[1..], w.id, hi, maxSize);
      ConsIncreasing(w', Sweep(cap, Spend(pool, g), Charge(used, w.node, g), lists', q[1..]).kept, hi, maxSize);
    }
  }

  lemma DropFacts(lists: IdLists, n: NodeID)
    ensures Ids(lists, n) != [] ==> Ids(DropOldest(lists, n), n) == Ids(lists, n)[1..]
    ensures forall m :: m != n ==> Ids(DropOldest(lists, n), m) == Ids(lists, m)
    ensures NoEmptyList(lists) ==> NoEmptyList(DropOldest(lists, n))
  {
  }

  /** A waiter completed by the sweep is its node's oldest, so dropping the first id of its node is right.
      `kept` holds the waiters the sweep has already passed and left in the queue. */
  lemma {:induction false} SweepFifo(cap: int, pool: int, used: Counts, lists: IdLists, kept: seq<Waiter>, q: seq<Waiter>, n: NodeID)
    requires Positive(used) && WithinCap(cap, used) && pool >= 0 && Waits(q)
    requires pool > 0 ==> forall w :: w in kept ==> Lookup(used, w.node) == cap
    requires Ids(lists, n) == IdsOf(kept + q, n)
    ensures
      var r := Sweep(cap, pool, used, lists, q);
      Ids(r.lists, n) == IdsOf(kept + r.kept, n)
    decreases |q|
  {
    hide Charge, DropOldest, IdsOf, Total, Ids, Positive;
    if pool > 0 && q != [] {
      var w := q[0];
      var g := Grant(cap, pool, used, w);
      GrantFacts(cap, pool, used, w);
      ChargeFacts(cap, pool, used, w.node, g);
      if w.need == g {
        SweepFifoDone(lists, kept, q, n);
        SweepFifo(cap, Spend(pool, g), Charge(used, w.node, g), DropOldest(lists, w.node), kept, q[1..], n);
      } else {
        var w' := w.(need := w.need - g);
        var r := Sweep(cap, Spend(pool, g), Charge(used, w.node, g), lists, q[1..]);
        SweepFifoKept(w, w', kept, q[1..], n);
        SweepFifoKept(w', w', kept, r.kept, n);
        assert q == [w] + q[1..];
        SweepFifo(cap, Spend(pool, g), Charge(used, w.node, g), lists, kept + [w'], q[1..], n);
      }
    }
  }

  lemma SweepFifoDone(lists: IdLists, kept: seq<Waiter>, q: seq<Waiter>, n: NodeID)
    requires q != [] && Ids(lists, n) == IdsOf(kept + q, n)
    requires forall w :: w in kept ==> w.node != q[0].node
    ensures Ids(DropOldest(lists, q[0].node), n) == IdsOf(kept + q[1..], n)
  {
    IdsConcat(kept, q, n);
    IdsConcat(kept, q[1..], n);
    DropFacts(lists, q[0].node);
    if n == q[0].node {
      NoIds(kept, n);
      assert Ids(lists, n) == [q[0].id] + IdsOf(q[1..], n);
    }
  }

  lemma SweepFifoKept(w: Waiter, w': Waiter, kept: seq<Waiter>, q: seq<Waiter>, n: NodeID)
    requires w.id == w'.id && w.node == w'.node
    ensures IdsOf(kept + ([w] + q), n) == IdsOf(kept + [w'] + q, n)
  {
    IdsConcat(kept, [w] + q, n);
    IdsConcat(kept + [w'], q, n);
    IdsConcat(kept, [w'], n);
    ConsFacts(w, q, [], n);
  }

  // ---------------------------------------------------------------- a node's own waiters

  datatype Walked = Walked(left: int, kept: seq<Waiter>, done: seq<Waiter>)

  function OwnGrant(left: int, w: Waiter, n: NodeID): int {
    if w.node == n then Min(w.need, left) else 0
  }

  /** The validator loop seen as one pass over the queue that skips other nodes. */
  function Walk(left: int, q: seq<Waiter>, n: NodeID): Walked
    decreases |q|
  {
    if left <= 0 || q == [] then Walked(left, q, [])
    else
      var g := OwnGrant(left, q[0], n);
      Put(q[0].(need := q[0].need - g), Walk(left - g, q[1..], n))
  }

  function Put(w: Waiter, r: Walked): Walked {
    if w.need == 0 then r.(done := [w] + r.done) else r.(kept := [w] + r.kept)
  }

  lemma WalkUnfold(left: int, q: seq<Waiter>, n: NodeID)
    requires left > 0 && q != []
    ensures
      var g := OwnGrant(left, q[0], n);
      Walk(left, q, n) == Put(q[0].(need := q[0].need - g), Walk(left - g, q[1..], n))
  {
  }

  lemma PutAccount(w: Waiter, r: Walked, m: NodeID)
    ensures Partial(Put(w, r).kept, m) + Held(Messages(Put(w, r).done), m) ==
            Partial(r.kept, m) + Held(Messages(r.done), m) + if w.node == m then w.size - w.need else 0
  {
    ConsFacts(w, r.kept, r.done, m);
  }

  lemma PutOrder(w: Waiter, r: Walked, hi: int, maxSize: int)
    requires Increasing(r.kept) && Within(r.kept, w.id, hi, maxSize)
    ensures Increasing(Put(w, r).kept)
  {
    ConsIncreasing(w, r.kept, hi, maxSize);
  }

  lemma PutIds(w: Waiter, r: Walked, m: NodeID)
    ensures IdsOf(Put(w, r).kept, m) == (if w.node == m && w.need != 0 then [w.id] else []) + IdsOf(r.kept, m)
  {
    ConsFacts(w, r.kept, r.done, m);
  }

  /** Waiters of other nodes are passed over unchanged. */
  lemma {:induction false} WalkSkips(left: int, a: seq<Waiter>, b: seq<Waiter>, n: NodeID)
    requires Waits(a) && forall w :: w in a ==> w.node != n
    ensures Walk(left, a + b, n) == var r := Walk(left, b, n); r.(kept := a + r.kept)
  {
    var r := Walk(left, b, n);
    if a == [] {
      assert a + b == b;
      assert a + r.kept == r.kept;
    } else if left > 0 {
      assert (a + b)[1..] == a[1..] + b;
      WalkSkips(left, a[1..], b, n);
      assert [a[0]] + (a[1..] + r.kept) == a + r.kept;
    }
  }

  /** The first waiter of a node sits right after a stretch of other nodes' waiters. */
  lemma {:induction false} FirstOfNode(q: seq<Waiter>, n: NodeID)
    requires IdsOf(q, n) != [] && Increasing(q)
    ensures
      var i := Find(q, IdsOf(q, n)[0]);
      && i < |q| && q[i].node == n && IdsOf(q[i + 1..], n) == IdsOf(q, n)[1..]
      && (forall w :: w in q[..i] ==> w.node != n)
  {
    if q[0].node != n {
      FirstOfNode(q[1..], n);
      var j := Find(q[1..], IdsOf(q, n)[0]);
      assert q[1..][j].node == n && q[0].id < q[1..][j].id;
      assert q[..j + 1] == [q[0]] + q[1..][..j];
      assert q[j + 2..] == q[1..][j + 1..];
    }
  }

  lemma IncreasingParts(q: seq<Waiter>, i: nat)
    requires Increasing(q) && i < |q|
    ensures Increasing(q[..i] + q[i + 1..])
  {
  }

  lemma FirstNotDone(left: int, q: seq<Waiter>, n: NodeID, i: nat)
    requires Waits(q) && left > 0 && i < |q| && q[i].node == n && left < q[i].need
    requires forall w :: w in q[..i] ==> w.node != n
    ensures Walk(left, q, n) == Walked(0, q[i := q[i].(need := q[i].need - left)], [])
  {
    hide Walk;
    var w' := q[i].(need := q[i].need - left);
    assert q == q[..i] + q[i..];
    assert q[i..][1..] == q[i + 1..];
    WalkSkips(left, q[..i], q[i..], n);
    WalkEnds(left, q[i..], n);
    assert q[..i] + ([w'] + q[i + 1..]) == q[i := w'];
  }

  /** A waiter that needs more than is left takes it all. */
  lemma WalkEnds(left: int, q: seq<Waiter>, n: NodeID)
    requires left > 0 && q != [] && q[0].node == n && left < q[0].need
    ensures Walk(left, q, n) == Walked(0, [q[0].(need := q[0].need - left)] + q[1..], [])
  {
  }

  lemma FirstDone(left: int, q: seq<Waiter>, n: NodeID, i: nat)
    requires Waits(q) && left > 0 && i < |q| && q[i].node == n && q[i].need <= left
    requires forall w :: w in q[..i] ==> w.node != n
    ensures Walk(left, q, n) ==
            var r := Walk(left - q[i].need, q[..i] + q[i + 1..], n); r.(done := [q[i].(need := 0)] + r.done)
  {
    assert q == q[..i] + q[i..];
    assert q[i..][1..] == q[i + 1..];
    WalkSkips(left, q[..i], q[i..], n);
    WalkSkips(left - q[i].need, q[..i], q[i + 1..], n);
  }

  /** Looking waiters up by the node's id list serves exactly the waiters one pass over the queue would. */
  lemma {:induction false} ServeOwnIsWalk(left: int, lists: IdLists, q: seq<Waiter>, n: NodeID)
    requires Increasing(q) && Waits(q) && left >= 0
    requires Ids(lists, n) == IdsOf(q, n)
    ensures
      var r := ServeOwn(left, lists, q, n);
      Walk(left, q, n) == Walked(r.left, r.kept, r.done)
    decreases |IdsOf(q, n)|
  {
    hide Walk, ServeOwn, DropOldest, Find, Held, Messages;
    if left <= 0 {
      WalkIdle(left, q, n, n);
      ServeEnds(left, lists, q, n);
    } else if IdsOf(q, n) == [] {
      NoneToWalk(left, q, n);
      ServeEnds(left, lists, q, n);
    } else {
      FirstOfNode(q, n);
      var i := Find(q, IdsOf(q, n)[0]);
      if q[i].need <= left {
        FirstDone(left, q, n, i);
        IncreasingParts(q, i);
        AfterFirst(lists, q, n, i);
        ServeDone(left, lists, q, n, i);
        ServeOwnIsWalk(left - q[i].need, DropOldest(lists, n), q[..i] + q[i + 1..], n);
      } else {
        FirstNotDone(left, q, n, i);
        ServePart(left, lists, q, n, i);
      }
    }
  }

  /** The loop ends with nothing to give, nobody to give it to, or an id that is not in the queue. */
  lemma ServeEnds(left: int, lists: IdLists, q: seq<Waiter>, n: NodeID)
    requires left <= 0 || Ids(lists, n) == [] || Find(q, Ids(lists, n)[0]) == |q|
    ensures ServeOwn(left, lists, q, n) == Served(left, map[], lists, q, [])
  {
  }

  /** A waiter that needs more takes all that is left. */
  lemma ServePart(left: int, lists: IdLists, q: seq<Waiter>, n: NodeID, at: nat)
    requires left > 0 && Ids(lists, n) != [] && at == Find(q, Ids(lists, n)[0]) < |q| && left < q[at].need
    ensures ServeOwn(left, lists, q, n) == Served(0, map[], lists, q[at := q[at].(need := q[at].need - left)], [])
  {
    hide Find, Ids;
  }

  /** The served node's id list stays the projection of the queue. */
  lemma {:induction false} ServeOwnIds(left: int, lists: IdLists, q: seq<Waiter>, n: NodeID)
    requires Increasing(q) && left >= 0
    requires Ids(lists, n) == IdsOf(q, n)
    ensures
      var r := ServeOwn(left, lists, q, n);
      Ids(r.lists, n) == IdsOf(r.kept, n)
    decreases |IdsOf(q, n)|
  {
    if left > 0 && IdsOf(q, n) != [] {
      FirstOfNode(q, n);
      var i := Find(q, IdsOf(q, n)[0]);
      if q[i].need <= left {
        IncreasingParts(q, i);
        AfterFirst(lists, q, n, i);
        ServeDone(left, lists, q, n, i);
        ServeOwnIds(left - q[i].need, DropOldest(lists, n), q[..i] + q[i + 1..], n);
      } else {
        SameIds(q, i, q[i].(need := q[i].need - left), n);
      }
    }
  }

  lemma ServeDone(left: int, lists: IdLists, q: seq<Waiter>, n: NodeID, i: nat)
    requires left > 0 && Ids(lists, n) != [] && i == Find(q, Ids(lists, n)[0]) < |q| && q[i].need <= left
    ensures ServeOwn(left, lists, q, n) ==
            var r := ServeOwn(left - q[i].need, DropOldest(lists, n), q[..i] + q[i + 1..], n);
            r.(done := [q[i].(need := 0)] + r.done)
  {
    hide Find, Ids, DropOldest;
  }

  lemma AfterFirst(lists: IdLists, q: seq<Waiter>, n: NodeID, i: nat)
    requires i < |q| && Ids(lists, n) == IdsOf(q, n) && IdsOf(q, n) != []
    requires IdsOf(q[i + 1..], n) == IdsOf(q, n)[1..]
    requires forall w :: w in q[..i] ==> w.node != n
    ensures Ids(DropOldest(lists, n), n) == IdsOf(q[..i] + q[i + 1..], n) == IdsOf(q, n)[1..]
  {
    DropFacts(lists, n);
    IdsConcat(q[..i], q[i + 1..], n);
    NoIds(q[..i], n);
  }

  lemma NoneToWalk(left: int, q: seq<Waiter>, n: NodeID)
    requires IdsOf(q, n) == [] && Waits(q)
    ensures Walk(left, q, n) == Walked(left, q, [])
  {
    if left > 0 && q != [] {
      NoneToWalk(left, q[1..], n);
    }
  }

  lemma SameIds(q: seq<Waiter>, i: nat, w: Waiter, n: NodeID)
    requires i < |q| && w.id == q[i].id && w.node == q[i].node
    ensures IdsOf(q[i := w], n) == IdsOf(q, n)
    decreases i
  {
    if i > 0 {
      assert q[i := w][1..] == q[1..][i - 1 := w];
      SameIds(q[1..], i - 1, w, n);
    } else {
      assert q[i := w][1..] == q[1..];
    }
  }

  /** Serving a node leaves every other node's id list alone. */
  lemma {:induction false} ServeOwnOthers(left: int, lists: IdLists, q: seq<Waiter>, n: NodeID)
    requires NoEmptyList(lists)
    ensures
      var r := ServeOwn(left, lists, q, n);
      && (forall m :: m != n ==> Ids(r.lists, m) == Ids(lists, m))
      && NoEmptyList(r.lists)
    decreases |Ids(lists, n)|
  {
    DropFacts(lists, n);
    var ids := Ids(lists, n);
    if left > 0 && ids != [] && Find(q, ids[0]) < |q| {
      var i := Find(q, ids[0]);
      if q[i].need <= left {
        ServeOwnOthers(left - q[i].need, DropOldest(lists, n), q[..i] + q[i + 1..], n);
      }
    }
  }

  lemma {:induction false} WalkLeft(left: int, q: seq<Waiter>, n: NodeID)
    requires left >= 0 && Waits(q)
    ensures 0 <= Walk(left, q, n).left <= left
    decreases |q|
  {
    if left > 0 && q != [] {
      WalkLeft(left - OwnGrant(left, q[0], n), q[1..], n);
    }
  }

  /** The walk hands out exactly what it does not return, and only to the node's own waiters. */
  lemma {:induction false} WalkAccount(left: int, q: seq<Waiter>, n: NodeID, m: NodeID)
    ensures
      var r := Walk(left, q, n);
      Partial(r.kept, m) + Held(Messages(r.done), m) - Partial(q, m) == if m == n then left - r.left else 0
    decreases |q|
  {
    hide Walk, Held, Messages;
    if left > 0 && q != [] {
      var g := OwnGrant(left, q[0], n);
      WalkUnfold(left, q, n);
      WalkAccount(left - g, q[1..], n, m);
      PutAccount(q[0].(need := q[0].need - g), Walk(left - g, q[1..], n), m);
    } else {
      WalkIdle(left, q, n, m);
    }
  }

  lemma WalkIdle(left: int, q: seq<Waiter>, n: NodeID, m: NodeID)
    requires left <= 0 || q == []
    ensures
      var r := Walk(left, q, n);
      r == Walked(left, q, []) && Held(Messages(r.done), m) == 0
  {
    assert Messages([]) == [];
  }

  lemma {:induction false} WalkOthers(left: int, q: seq<Waiter>, n: NodeID, m: NodeID)
    requires left >= 0 && Waits(q) && m != n
    ensures IdsOf(Walk(left, q, n).kept, m) == IdsOf(q, m)
    decreases |q|
  {
    if left > 0 && q != [] {
      var g := OwnGrant(left, q[0], n);
      WalkOthers(left - g, q[1..], n, m);
      PutIds(q[0].(need := q[0].need - g), Walk(left - g, q[1..], n), m);
    }
  }

  lemma {:induction false} WalkWaits(left: int, q: seq<Waiter>, n: NodeID)
    requires left >= 0 && Waits(q)
    ensures Waits(Walk(left, q, n).kept)
    decreases |q|
  {
    if left > 0 && q != [] {
      WalkWaits(left - OwnGrant(left, q[0], n), q[1..], n);
    }
  }

  lemma {:induction false} WalkWithin(left: int, q: seq<Waiter>, n: NodeID, lo: int, hi: int, maxSize: int)
    requires Within(q, lo, hi, maxSize)
    ensures Within(Walk(left, q, n).kept, lo, hi, maxSize) && Within(Walk(left, q, n).done, lo, hi, maxSize)
    decreases |q|
  {
    if left > 0 && q != [] {
      WalkWithin(left - OwnGrant(left, q[0], n), q[1..], n, lo, hi, maxSize);
    }
  }

  lemma {:induction false} WalkOrder(left: int, q: seq<Waiter>, n: NodeID, lo: int, hi: int, maxSize: int)
    requires Increasing(q) && Within(q, lo, hi, maxSize)
    ensures Increasing(Walk(left, q, n).kept)
    decreases |q|
  {
    hide Walk, Within, Increasing, OwnGrant, Held, Messages;
    if left > 0 && q != [] {
      var g := OwnGrant(left, q[0], n);
      var w', r := q[0].(need := q[0].need - g), Walk(left - g, q[1..], n);
      TailOrder(q, lo, hi, maxSize);
      WalkOrder(left - g, q[1..], n, lo, hi, maxSize);
      WalkWithin(left - g, q[1..], n, q[0].id, hi, maxSize);
      PutOrder(w', r, hi, maxSize);
      WalkUnfold(left, q, n);
    } else {
      WalkIdle(left, q, n, n);
    }
  }

  lemma TailOrder(q: seq<Waiter>, lo: int, hi: int, maxSize: int)
    requires q != [] && Increasing(q) && Within(q, lo, hi, maxSize)
    ensures Increasing(q[1..]) && Within(q[1..], lo, hi, maxSize) && Within(q[1..], q[0].id, hi, maxSize)
  {
  }

  /** When bytes are left over, the node has no waiter left. */
  lemma {:induction false} WalkLeftover(left: int, q: seq<Waiter>, n: NodeID)
    requires left >= 0 && Waits(q)
    ensures Walk(left, q, n).left > 0 ==> forall w :: w in Walk(left, q, n).kept ==> w.node != n
    decreases |q|
  {
    if left > 0 && q != [] {
      var g := OwnGrant(left, q[0], n);
      WalkLeftover(left - g, q[1..], n);
      WalkLeft(left - g, q[1..], n);
    }
  }

  lemma {:induction false} WalkBlocked(left: int, q: seq<Waiter>, n: NodeID, cap: int, pool: int, used: Counts)
    requires Blocked(cap, pool, used, q)
    ensures Blocked(cap, pool, used, Walk(left, q, n).kept)
    decreases |q|
  {
    if left > 0 && q != [] {
      assert q[0] in q;
      WalkBlocked(left - OwnGrant(left, q[0], n), q[1..], n, cap, pool, used);
    }
  }
}
