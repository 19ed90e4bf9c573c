/** The converse of progress: whenever the at-large allocation is at most
    (validator allocation + 1) * (limit - 1), some run leaves a call blocked with no message held.
    Node 0 blocks on the last at-large bytes; every other node first holds `limit - 1` one-byte messages,
    then queues one message without and one message with a validator byte, and finally releases what it
    holds: each released byte is counted as a validator byte and goes to its own first waiter. */
module InboundDeadlock {
  import opened Sums
  import opened InboundModel
  import opened InboundInvariants
  import opened InboundRelease
  import opened InboundSafety
  import opened InboundProgress

  // ---------------------------------------------------------------- the messages held before blocking

  function Row(n: NodeID, d: nat): seq<Message> {
    if d == 0 then [] else [Message(n, 1)] + Row(n, d - 1)
  }

  /** `d` one-byte messages of each of the nodes `i + 1` to `k`. */
  function Rows(i: nat, k: nat, d: nat): seq<Message>
    decreases k - i
  {
    if i >= k then [] else Row(i + 1, d) + Rows(i + 1, k, d)
  }

  lemma {:induction false} RowFacts(n: NodeID, d: nat, m: NodeID)
    ensures |Row(n, d)| == d && Held(Row(n, d), m) == (if m == n then d else 0)
    ensures forall x :: x in Row(n, d) ==> x == Message(n, 1)
  {
    if d > 0 {
      RowFacts(n, d - 1, m);
      HeldConcat([Message(n, 1)], Row(n, d - 1), m);
    }
  }

  lemma {:induction false} RowsFacts(i: nat, k: nat, d: nat, m: NodeID)
    requires i <= k
    ensures Held(Rows(i, k, d), m) == if i < m <= k then d else 0
    ensures forall x :: x in Rows(i, k, d) ==> x.size == 1 && i < x.node <= k
    decreases k - i
  {
    if i < k {
      RowFacts(i + 1, d, m);
      RowsFacts(i + 1, k, d, m);
      HeldConcat(Row(i + 1, d), Rows(i + 1, k, d), m);
    }
  }

  lemma {:induction false} RowsLength(i: nat, k: nat, d: nat)
    requires i <= k
    ensures |Rows(i, k, d)| == (k - i) * d
    decreases k - i
  {
    if i < k {
      RowFacts(i + 1, d, 0);
      RowsLength(i + 1, k, d);
      OneMore(k - i - 1, d);
    }
  }

  lemma OneMore(x: nat, d: nat)
    ensures (x + 1) * d == x * d + d
  {
  }

  // ---------------------------------------------------------------- running one more call

  lemma Prepend(cfg: Config, s: System, e: Event, rest: seq<Event>, maxSize: int)
    requires Enabled(s, e) && Feasible(cfg, Next(cfg, s, e), rest) && SizesAtMost(rest, maxSize)
    requires e.Acquire? ==> 0 < e.size <= maxSize
    ensures Feasible(cfg, s, [e] + rest) && SizesAtMost([e] + rest, maxSize)
    ensures After(cfg, s, [e] + rest) == After(cfg, Next(cfg, s, e), rest)
  {
    assert ([e] + rest)[1..] == rest;
  }

  ghost predicate Stuck(cfg: Config, s: System, events: seq<Event>) {
    && Feasible(cfg, s, events) && SizesAtMost(events, cfg.nodeMax)
    && After(cfg, s, events).held == [] && After(cfg, s, events).t.waiting != []
  }

  /** Moreover no at-large byte is left. */
  ghost predicate Exhausted(cfg: Config, s: System, events: seq<Event>) {
    Stuck(cfg, s, events) && After(cfg, s, events).t.remainingAtLarge == 0
  }

  // ---------------------------------------------------------------- after node 0 blocked

  /** Nodes up to `i` have released everything, `x` messages of node `i` excepted; later nodes have not started. */
  ghost predicate Draining(cfg: Config, s: System, i: nat, k: nat, x: nat) {
    && Inv(cfg, s, cfg.nodeMax) && s.t.waiting != [] && s.t.remainingAtLarge == 0
    && i <= k <= cfg.vdrAlloc && (i < k ==> cfg.nodeMax > 1) && x < cfg.nodeMax && s.t.remainingVdr == cfg.vdrAlloc - i
    && (forall j :: i < j ==> Lookup(s.t.vdrUsed, j) == 0 && Ids(s.t.nodeWaiting, j) == [])
    && s.held == Row(i, x) + Rows(i, k, cfg.nodeMax - 1)
  }

  /** Node `i`'s first waiter, at position `p`, still needs more than the `x` bytes to come. */
  ghost predicate Absorbing(s: System, i: nat, x: nat, p: nat) {
    && p < |s.t.waiting| && s.t.waiting[p].node == i && s.t.waiting[p].need > x
    && Ids(s.t.nodeWaiting, i) != [] && Ids(s.t.nodeWaiting, i)[0] == s.t.waiting[p].id
    && Lookup(s.t.vdrUsed, i) >= 1
  }

  lemma FindAt(q: seq<Waiter>, p: nat)
    requires p < |q| && Increasing(q)
    ensures Find(q, q[p].id) == p
  {
  }

  /** Releasing one byte charged as a validator byte only feeds the node's first waiter. */
  lemma ReleaseOne(cfg: Config, s: System, i: nat, x: nat, p: nat)
    requires Increasing(s.t.waiting) && s.held != [] && s.held[0] == Message(i, 1) && x > 0 && Absorbing(s, i, x, p)
    ensures Enabled(s, Release(0))
    ensures
      var w := s.t.waiting[p];
      Next(cfg, s, Release(0)) ==
      System(s.t.(waiting := s.t.waiting[p := w.(need := w.need - 1)]), s.held[1..])
  {
    FindAt(s.t.waiting, p);
    var w := s.t.waiting[p];
    var t2 := s.t.(waiting := s.t.waiting[p := w.(need := w.need - 1)]);
    assert ServeOwn(1, s.t.nodeWaiting, s.t.waiting, i) == Served(0, map[], s.t.nodeWaiting, t2.waiting, []);
    assert ReleaseVdr(s.t, i, 1) == (t2, []);
    assert ReleaseAtLarge(cfg, s.t, i, 0) == (s.t, []);
    ReleaseHalves(cfg, s, 0, i, 0, 1, s.t, [], t2, []);
    var none: seq<Waiter> := [];
    assert none + none == none && Messages(none) == [];
    assert s.held[..0] + s.held[1..] + [] == s.held[1..];
  }

  lemma DrainStep(cfg: Config, s: System, i: nat, k: nat, x: nat, p: nat)
    requires Draining(cfg, s, i, k, x) && x > 0 && Absorbing(s, i, x, p)
    ensures Enabled(s, Release(0)) && Draining(cfg, Next(cfg, s, Release(0)), i, k, x - 1)
    ensures Absorbing(Next(cfg, s, Release(0)), i, x - 1, p)
  {
    assert s.held[1..] == Row(i, x - 1) + Rows(i, k, cfg.nodeMax - 1);
    ReleaseOne(cfg, s, i, x, p);
    ReleaseKeeps(cfg, s, 0, cfg.nodeMax);
  }

  lemma {:induction false} Drain(cfg: Config, s: System, i: nat, k: nat, x: nat, p: nat) returns (events: seq<Event>)
    requires Draining(cfg, s, i, k, x) && (x > 0 ==> Absorbing(s, i, x, p))
    ensures Exhausted(cfg, s, events)
    decreases k - i, x, 1
  {
    if x > 0 {
      DrainStep(cfg, s, i, k, x, p);
      var rest := Drain(cfg, Next(cfg, s, Release(0)), i, k, x - 1, p);
      Prepend(cfg, s, Release(0), rest, cfg.nodeMax);
      events := [Release(0)] + rest;
    } else if i < k {
      events := Block(cfg, s, i, k);
    } else {
      events := [];
    }
  }

  lemma AcquireNothing(cfg: Config, s: System, n: NodeID)
    requires Inv(cfg, s, cfg.nodeMax) && s.t.remainingAtLarge == 0 && cfg.nodeMax > 0
    ensures Next(cfg, s, Acquire(cfg.nodeMax, n, 0)) == System(Enqueue(s.t, n, cfg.nodeMax, cfg.nodeMax), s.held)
  {
    assert Lookup(s.t.atLargeUsed, n) <= cfg.nodeMax;
    LookupAtMostTotal(s.t.vdrUsed, n);
  }

  lemma AcquireOneVdr(cfg: Config, s: System, n: NodeID)
    requires Inv(cfg, s, cfg.nodeMax) && s.t.remainingAtLarge == 0 && cfg.nodeMax > 1
    requires s.t.remainingVdr > 0 && Lookup(s.t.vdrUsed, n) == 0
    ensures Next(cfg, s, Acquire(cfg.nodeMax, n, 1)) ==
            System(Enqueue(TakeVdr(s.t, n, 1), n, cfg.nodeMax, cfg.nodeMax - 1), s.held)
  {
    assert Lookup(s.t.atLargeUsed, n) <= cfg.nodeMax;
  }

  /** The throttler after node `n` queued its two messages. */
  function TwoQueued(t: Throttler, n: NodeID, c: nat): Throttler {
    Enqueue(TakeVdr(Enqueue(t, n, c, c), n, 1), n, c, c - 1)
  }

  lemma BlockCalls(cfg: Config, s: System, i: nat, k: nat)
    requires Draining(cfg, s, i, k, 0) && i < k
    ensures
      var n, c := i + 1, cfg.nodeMax;
      var s1 := Next(cfg, s, Acquire(c, n, 0));
      Next(cfg, s1, Acquire(c, n, 1)) == System(TwoQueued(s.t, n, c), s.held)
    ensures Inv(cfg, System(TwoQueued(s.t, i + 1, cfg.nodeMax), s.held), cfg.nodeMax)
  {
    var n, c := i + 1, cfg.nodeMax;
    AcquireNothing(cfg, s, n);
    AcquireKeeps(cfg, s, c, n, 0, c);
    var s1 := Next(cfg, s, Acquire(c, n, 0));
    assert s1 == System(Enqueue(s.t, n, c, c), s.held);
    AcquireOneVdr(cfg, s1, n);
    AcquireKeeps(cfg, s1, c, n, 1, c);
  }

  lemma TwoQueuedFacts(t: Throttler, n: NodeID, c: nat)
    requires Lookup(t.vdrUsed, n) == 0 && Ids(t.nodeWaiting, n) == []
    ensures
      var t', p := TwoQueued(t, n, c), |t.waiting|;
      && p < |t'.waiting| && t'.waiting[p].node == n && t'.waiting[p].need == c
      && Ids(t'.nodeWaiting, n) != [] && Ids(t'.nodeWaiting, n)[0] == t'.waiting[p].id
      && Lookup(t'.vdrUsed, n) == 1
      && t'.remainingAtLarge == t.remainingAtLarge && t'.remainingVdr == t.remainingVdr - 1
      && (forall j :: j != n ==> Lookup(t'.vdrUsed, j) == Lookup(t.vdrUsed, j) &&
                                 Ids(t'.nodeWaiting, j) == Ids(t.nodeWaiting, j))
  {
  }

  lemma BlockStep(cfg: Config, s: System, i: nat, k: nat, s2: System)
    requires Draining(cfg, s, i, k, 0) && i < k
    requires s2 == System(TwoQueued(s.t, i + 1, cfg.nodeMax), s.held)
    ensures Draining(cfg, s2, i + 1, k, cfg.nodeMax - 1) && Absorbing(s2, i + 1, cfg.nodeMax - 1, |s.t.waiting|)
  {
    BlockCalls(cfg, s, i, k);
    TwoQueuedFacts(s.t, i + 1, cfg.nodeMax);
    assert Row(i, 0) + Rows(i, k, cfg.nodeMax - 1) == Rows(i, k, cfg.nodeMax - 1);
  }

  lemma {:induction false} Block(cfg: Config, s: System, i: nat, k: nat) returns (events: seq<Event>)
    requires Draining(cfg, s, i, k, 0) && i < k
    ensures Exhausted(cfg, s, events)
    decreases k - i, 0, 0
  {
    var n, c := i + 1, cfg.nodeMax;
    var s2 := System(TwoQueued(s.t, n, c), s.held);
    BlockStep(cfg, s, i, k, s2);
    var rest := Drain(cfg, s2, n, k, c - 1, |s.t.waiting|);
    BlockCalls(cfg, s, i, k);
    var s1 := Next(cfg, s, Acquire(c, n, 0));
    Prepend(cfg, s1, Acquire(c, n, 1), rest, c);
    Prepend(cfg, s, Acquire(c, n, 0), [Acquire(c, n, 1)] + rest, c);
    events := [Acquire(c, n, 0)] + ([Acquire(c, n, 1)] + rest);
  }

  // ---------------------------------------------------------------- up to node 0 blocking

  /** The first `p` one-byte messages of `all` have been acquired from the at-large pool. */
  ghost predicate Filling(cfg: Config, s: System, all: seq<Message>, p: nat) {
    && Inv(cfg, s, cfg.nodeMax) && p <= |all| && s.held == all[..p] && s.t.waiting == [] && s.t.nodeWaiting == map[]
    && s.t.vdrUsed == map[] && s.t.remainingVdr == cfg.vdrAlloc && s.t.remainingAtLarge == cfg.atLargeAlloc - p
  }

  lemma HeldPrefix(all: seq<Message>, p: nat, n: NodeID)
    requires p < |all| && forall x :: x in all ==> x.size == 1
    ensures Held(all[..p], n) + (if all[p].node == n then 1 else 0) <= Held(all, n)
  {
    assert all == all[..p] + ([all[p]] + all[p + 1..]);
    HeldConcat(all[..p], [all[p]] + all[p + 1..], n);
    HeldConcat([all[p]], all[p + 1..], n);
    HeldNonNegative(all[p + 1..], n);
  }

  lemma FillStep(cfg: Config, s: System, all: seq<Message>, p: nat)
    requires Filling(cfg, s, all, p) && p < |all| <= cfg.atLargeAlloc
    requires forall x :: x in all ==> x.size == 1
    requires Held(all, all[p].node) <= cfg.nodeMax
    ensures Filling(cfg, Next(cfg, s, Acquire(1, all[p].node, 0)), all, p + 1)
  {
    var n := all[p].node;
    HeldPrefix(all, p, n);
    assert Lookup(s.t.atLargeUsed, n) + Lookup(s.t.vdrUsed, n) == Held(s.held, n) + Partial(s.t.waiting, n);
    HeldNonNegative(all[..p], n);
    assert AtLargeGrant(cfg, s.t, 1, n) == 1;
    assert all[p] in all;
    assert all[..p] + [Message(n, 1)] == all[..p + 1];
    AcquireKeeps(cfg, s, 1, n, 0, cfg.nodeMax);
  }

  /** Node 0 takes what is left of the pool and blocks. */
  lemma HeadBlocks(cfg: Config, s: System, k: nat, all: seq<Message>)
    requires cfg.nodeMax > 0 && all == Rows(0, k, cfg.nodeMax - 1) && Filling(cfg, s, all, |all|)
    requires k <= cfg.vdrAlloc && (k > 0 ==> cfg.nodeMax > 1)
    requires 0 <= cfg.atLargeAlloc - |all| < cfg.nodeMax
    ensures Draining(cfg, Next(cfg, s, Acquire(cfg.nodeMax, 0, 0)), 0, k, 0)
  {
    hide Rows, Held, Total, IdsOf, Next;
    RowsFacts(0, k, cfg.nodeMax - 1, 0);
    assert all[..|all|] == all;
    assert Lookup(s.t.atLargeUsed, 0) + Lookup(s.t.vdrUsed, 0) == Held(s.held, 0) + Partial(s.t.waiting, 0);
    HeadGrant(cfg, s);
    AcquireKeeps(cfg, s, cfg.nodeMax, 0, 0, cfg.nodeMax);
    assert Row(0, 0) + all == all;
  }

  lemma HeadGrant(cfg: Config, s: System)
    requires Lookup(s.t.atLargeUsed, 0) == 0 && s.t.vdrUsed == map[] && s.t.remainingVdr >= 0
    requires 0 <= s.t.remainingAtLarge < cfg.nodeMax
    ensures Next(cfg, s, Acquire(cfg.nodeMax, 0, 0)) ==
            System(Enqueue(TakeAtLarge(s.t, 0, s.t.remainingAtLarge), 0, cfg.nodeMax, cfg.nodeMax - s.t.remainingAtLarge), s.held)
  {
  }

  lemma {:induction false} Fill(cfg: Config, s: System, k: nat, all: seq<Message>, p: nat) returns (events: seq<Event>)
    requires cfg.nodeMax > 0 && all == Rows(0, k, cfg.nodeMax - 1) && Filling(cfg, s, all, p)
    requires k <= cfg.vdrAlloc && (k > 0 ==> cfg.nodeMax > 1)
    requires 0 <= cfg.atLargeAlloc - |all| < cfg.nodeMax
    ensures Exhausted(cfg, s, events)
    decreases |all| - p
  {
    if p < |all| {
      RowsFacts(0, k, cfg.nodeMax - 1, all[p].node);
      FillStep(cfg, s, all, p);
      var e := Acquire(1, all[p].node, 0);
      var rest := Fill(cfg, Next(cfg, s, e), k, all, p + 1);
      Prepend(cfg, s, e, rest, cfg.nodeMax);
      events := [e] + rest;
    } else {
      HeadBlocks(cfg, s, k, all);
      var e := Acquire(cfg.nodeMax, 0, 0);
      var rest := Drain(cfg, Next(cfg, s, e), 0, k, 0, 0);
      Prepend(cfg, s, e, rest, cfg.nodeMax);
      events := [e] + rest;
    }
  }

  /** How many nodes hold `d` bytes each before node 0 takes the rest. */
  lemma Split(v: nat, a: nat, d: nat) returns (k: nat)
    requires a <= (v + 1) * d
    ensures k <= v && (k > 0 ==> d > 0) && 0 <= a - k * d <= d
  {
    k := 0;
    while k < v && (k + 1) * d <= a && d > 0
      invariant k <= v && k * d <= a && (k > 0 ==> d > 0)
      decreases v - k
    {
      k := k + 1;
    }
    assert (k + 1) * d == k * d + d;
    if k == v {
      assert (v + 1) * d == k * d + d;
    }
  }

  /** A run with sizes from 1 to the limit that ends with nothing held, a call blocked and no at-large byte left. */
  lemma Deadlock(cfg: Config) returns (events: seq<Event>)
    requires cfg.atLargeAlloc <= (cfg.vdrAlloc + 1) * (cfg.nodeMax - 1)
    ensures Exhausted(cfg, System(Initial(cfg), []), events)
  {
    if cfg.nodeMax == 0 {
      assert false;
    }
    var k := Split(cfg.vdrAlloc, cfg.atLargeAlloc, cfg.nodeMax - 1);
    var all := Rows(0, k, cfg.nodeMax - 1);
    RowsLength(0, k, cfg.nodeMax - 1);
    InitialInv(cfg, cfg.nodeMax);
    assert all[..0] == [];
    events := Fill(cfg, System(Initial(cfg), []), k, all, 0);
  }

  /** Whenever nothing is held, nothing waits: over every run with sizes from 1 to the limit. */
  ghost predicate AlwaysProgresses(cfg: Config) {
    forall events :: Feasible(cfg, System(Initial(cfg), []), events) && SizesAtMost(events, cfg.nodeMax) ==>
      !Stuck(cfg, System(Initial(cfg), []), events)
  }

  /** The exact condition under which messages are guaranteed to make progress. */
  lemma ProgressExactly(cfg: Config)
    ensures AlwaysProgresses(cfg) <==> (cfg.vdrAlloc + 1) * (cfg.nodeMax - 1) < cfg.atLargeAlloc
  {
    if (cfg.vdrAlloc + 1) * (cfg.nodeMax - 1) < cfg.atLargeAlloc {
      forall events | Feasible(cfg, System(Initial(cfg), []), events) && SizesAtMost(events, cfg.nodeMax)
        ensures !Stuck(cfg, System(Initial(cfg), []), events)
      {
        Progress(cfg, events);
      }
    } else {
      var events := Deadlock(cfg);
    }
  }
}
