/** What every call of the inbound throttler keeps: conservation of both pools, exact accounting
    per node, the per-node limit, and the agreement of the per-node id lists with the queue. */
module InboundInvariants {
  import opened Sums
  import opened InboundModel

  // ---------------------------------------------------------------- measures of a queue

  /** Bytes already granted to the waiters of a node. */
  function Partial(q: seq<Waiter>, n: NodeID): int {
    if q == [] then 0
    else (if q[0].node == n then q[0].size - q[0].need else 0) + Partial(q[1..], n)
  }

  /** Sizes of the messages a node holds. */
  function Held(ms: seq<Message>, n: NodeID): int {
    if ms == [] then 0 else (if ms[0].node == n then ms[0].size else 0) + Held(ms[1..], n)
  }

  /** The ids of a node's waiters, in queue order. */
  function IdsOf(q: seq<Waiter>, n: NodeID): seq<nat> {
    if q == [] then []
    else if q[0].node == n then [q[0].id] + IdsOf(q[1..], n)
    else IdsOf(q[1..], n)
  }

  lemma {:induction false} PartialConcat(a: seq<Waiter>, b: seq<Waiter>, n: NodeID)
    ensures Partial(a + b, n) == Partial(a, n) + Partial(b, n)
  {
    if a == [] {
      assert a + b == b;
    } else {
      assert (a + b)[1..] == a[1..] + b;
      PartialConcat(a[1..], b, n);
    }
  }

  lemma {:induction false} HeldConcat(a: seq<Message>, b: seq<Message>, n: NodeID)
    ensures Held(a + b, n) == Held(a, n) + Held(b, n)
  {
    if a == [] {
      assert a + b == b;
    } else {
      assert (a + b)[1..] == a[1..] + b;
      HeldConcat(a[1..], b, n);
    }
  }

  lemma {:induction false} IdsConcat(a: seq<Waiter>, b: seq<Waiter>, n: NodeID)
    ensures IdsOf(a + b, n) == IdsOf(a, n) + IdsOf(b, n)
  {
    if a == [] {
      assert a + b == b;
    } else {
      assert (a + b)[1..] == a[1..] + b;
      IdsConcat(a[1..], b, n);
    }
  }

  lemma {:induction false} NoIds(q: seq<Waiter>, n: NodeID)
    requires forall w :: w in q ==> w.node != n
    ensures IdsOf(q, n) == [] && Partial(q, n) == 0
  {
    if q != [] {
      NoIds(q[1..], n);
    }
  }

  lemma {:induction false} MessagesConcat(a: seq<Waiter>, b: seq<Waiter>)
    ensures Messages(a + b) == Messages(a) + Messages(b)
  {
    if a == [] {
      assert a + b == b;
    } else {
      assert (a + b)[1..] == a[1..] + b;
      MessagesConcat(a[1..], b);
    }
  }

  // ---------------------------------------------------------------- the invariants

  ghost predicate Waits(q: seq<Waiter>) {
    forall w :: w in q ==> 0 < w.need <= w.size
  }

  /** The same when a message may have size zero. */
  ghost predicate Loose(q: seq<Waiter>) {
    forall w :: w in q ==> 0 <= w.need <= w.size
  }

  ghost predicate Increasing(q: seq<Waiter>) {
    forall i, j :: 0 <= i < j < |q| ==> q[i].id < q[j].id
  }

  ghost predicate WithinCap(cap: int, used: Counts) {
    forall n :: Lookup(used, n) <= cap
  }

  /** Both pools are conserved and no node is past its limit. */
  ghost predicate Pools(cfg: Config, t: Throttler) {
    && t.remainingVdr >= 0 && Positive(t.vdrUsed) && t.remainingVdr + Total(t.vdrUsed) == cfg.vdrAlloc
    && t.remainingAtLarge >= 0 && Positive(t.atLargeUsed)
    && t.remainingAtLarge + Total(t.atLargeUsed) == cfg.atLargeAlloc
    && WithinCap(cfg.nodeMax, t.atLargeUsed)
  }

  /** Each node's id list is the projection of the queue onto that node. */
  ghost predicate Projected(lists: IdLists, q: seq<Waiter>) {
    && (forall n :: Ids(lists, n) == IdsOf(q, n))
    && NoEmptyList(lists)
  }

  ghost predicate NoEmptyList(lists: IdLists) {
    forall n :: n in lists ==> lists[n] != []
  }

  /** A waiter waits only because the at-large pool is empty or its node is at its limit. */
  ghost predicate Blocked(cap: int, pool: int, used: Counts, q: seq<Waiter>) {
    forall w :: w in q ==> pool == 0 || Lookup(used, w.node) == cap
  }

  /** The bytes charged to a node are its held messages plus the partial grants of its waiters. */
  ghost predicate Accounted(s: System) {
    forall n :: Lookup(s.t.atLargeUsed, n) + Lookup(s.t.vdrUsed, n) == Held(s.held, n) + Partial(s.t.waiting, n)
  }

  /** Ids in `(lo, hi]`, sizes in `(0, maxSize]`. */
  ghost predicate Within(q: seq<Waiter>, lo: int, hi: int, maxSize: int) {
    forall w :: w in q ==> lo < w.id <= hi && 0 < w.size <= maxSize
  }

  ghost predicate Sizes(ms: seq<Message>, maxSize: int) {
    forall m :: m in ms ==> 0 < m.size <= maxSize
  }

  ghost predicate NoneNegative(ms: seq<Message>) {
    forall m :: m in ms ==> m.size >= 0
  }

  /** The queue: positive needs, increasing ids, matching id lists, and nobody waits without cause. */
  ghost predicate Queue(cfg: Config, t: Throttler, maxSize: int) {
    && Waits(t.waiting) && Increasing(t.waiting) && Within(t.waiting, 0, t.nextID, maxSize)
    && Projected(t.nodeWaiting, t.waiting)
    && Blocked(cfg.nodeMax, t.remainingAtLarge, t.atLargeUsed, t.waiting)
  }

  /** `maxSize` bounds every message seen so far. */
  ghost predicate Inv(cfg: Config, s: System, maxSize: int) {
    Pools(cfg, s.t) && Queue(cfg, s.t, maxSize) && Accounted(s) && Sizes(s.held, maxSize)
  }
}
