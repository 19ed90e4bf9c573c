/** The inbound message throttler as a state machine: every field of the throttler, and one
    transition function per critical section of `Acquire` and `Release`.
    A blocked `Acquire` call is represented by its waiter record; the waiter also keeps the
    `msgSize` argument that the blocked call still has on its stack. */
module InboundModel {
  import opened Sums

  datatype Config = Config(vdrAlloc: nat, atLargeAlloc: nat, nodeMax: nat)

  datatype Waiter = Waiter(id: nat, node: NodeID, size: int, need: int)

  type IdLists = map<NodeID, seq<nat>>

  datatype Throttler = Throttler(
    remainingVdr: int,
    remainingAtLarge: int,
    vdrUsed: Counts,
    atLargeUsed: Counts,
    nextID: nat,
    waiting: seq<Waiter>,
    nodeWaiting: IdLists)

  function Initial(cfg: Config): Throttler {
    Throttler(cfg.vdrAlloc, cfg.atLargeAlloc, map[], map[], 0, [], map[])
  }

  function Min(a: int, b: int): int { if a < b then a else b }

  function Min3(a: int, b: int, c: int): int { Min(a, Min(b, c)) }

  function Ids(lists: IdLists, n: NodeID): seq<nat> {
    if n in lists then lists[n] else []
  }

  /** `lists[n] = lists[n][1:]`, deleting the entry when the list becomes empty. */
  function DropOldest(lists: IdLists, n: NodeID): IdLists {
    var l := Ids(lists, n);
    if |l| <= 1 then lists - {n} else lists[n := l[1..]]
  }

  /** What a node may still take from its validator share. */
  function VdrAllowed(share: nat, used: int): int {
    if used >= share then 0 else share - used
  }

  /** `used[n] += bytes`, done only when `bytes > 0`. */
  function Charge(used: Counts, n: NodeID, bytes: int): Counts {
    if bytes > 0 then Store(used, n, Lookup(used, n) + bytes) else used
  }

  lemma ChargeTotal(used: Counts, n: NodeID, bytes: int)
    requires Positive(used) && bytes >= 0
    ensures Positive(Charge(used, n, bytes)) && Total(Charge(used, n, bytes)) == Total(used) + bytes
    ensures forall k :: Lookup(Charge(used, n, bytes), k) == Lookup(used, k) + if k == n then bytes else 0
  {
    TotalStore(used, n, Lookup(used, n) + bytes);
  }

  /** `x -= bytes`, done only when `bytes > 0`. */
  function Spend(x: int, bytes: int): int {
    if bytes > 0 then x - bytes else x
  }

  function TakeAtLarge(t: Throttler, n: NodeID, bytes: int): Throttler {
    t.(remainingAtLarge := Spend(t.remainingAtLarge, bytes), atLargeUsed := Charge(t.atLargeUsed, n, bytes))
  }

  function TakeVdr(t: Throttler, n: NodeID, bytes: int): Throttler {
    t.(remainingVdr := Spend(t.remainingVdr, bytes), vdrUsed := Charge(t.vdrUsed, n, bytes))
  }

  function Enqueue(t: Throttler, n: NodeID, size: int, need: int): Throttler {
    var id := t.nextID + 1;
    t.(nextID := id,
       waiting := t.waiting + [Waiter(id, n, size, need)],
       nodeWaiting := t.nodeWaiting[n := Ids(t.nodeWaiting, n) + [id]])
  }

  /** The bytes `Acquire` takes from the two pools. */
  function AtLargeGrant(cfg: Config, t: Throttler, size: int, n: NodeID): int {
    Min3(size, cfg.nodeMax - Lookup(t.atLargeUsed, n), t.remainingAtLarge)
  }

  function VdrGrant(t: Throttler, need: int, n: NodeID, share: nat): int {
    Min3(t.remainingVdr, need, VdrAllowed(share, Lookup(t.vdrUsed, n)))
  }

  /** `Acquire`: the new state, and whether the call returned at once. `share` is the node's
      validator allocation as computed from the weights at the time of the call. */
  function AcquireStep(cfg: Config, t: Throttler, size: nat, n: NodeID, share: nat): (Throttler, bool) {
    var a := AtLargeGrant(cfg, t, size, n);
    var t1 := TakeAtLarge(t, n, a);
    if a > 0 && size == a then (t1, true)
    else
      var v := VdrGrant(t1, size - a, n, share);
      var t2 := TakeVdr(t1, n, v);
      if v > 0 && size - a == v then (t2, true)
      else (Enqueue(t2, n, size, size - a - v), false)
  }

  /** The result of handing released bytes to the waiting queue. */
  datatype Served = Served(left: int, used: Counts, lists: IdLists, kept: seq<Waiter>, done: seq<Waiter>)

  /** The at-large bytes a waiter can be given. */
  function Grant(cap: int, pool: int, used: Counts, w: Waiter): int {
    Min3(w.need, cap - Lookup(used, w.node), pool)
  }

  /** The at-large loop of `Release`: oldest waiter first, never past a node's limit,
      until the pool or the queue is exhausted. */
  function Sweep(cap: int, pool: int, used: Counts, lists: IdLists, queue: seq<Waiter>): Served {
    if pool <= 0 || queue == [] then Served(pool, used, lists, queue, [])
    else
      var w := queue[0];
      var g := Grant(cap, pool, used, w);
      var used' := Charge(used, w.node, g);
      var pool' := Spend(pool, g);
      var w' := w.(need := Spend(w.need, g));
      if w'.need == 0 then
        var r := Sweep(cap, pool', used', DropOldest(lists, w.node), queue[1..]);
        r.(done := [w'] + r.done)
      else
        var r := Sweep(cap, pool', used', lists, queue[1..]);
        r.(kept := [w'] + r.kept)
  }

  /** Position of the waiter with the given id, or the queue length if there is none. */
  function Find(queue: seq<Waiter>, id: nat): (i: nat)
    ensures i <= |queue|
    ensures i < |queue| ==> queue[i].id == id
    ensures forall j :: 0 <= j < i ==> queue[j].id != id
  {
    if queue == [] then 0 else if queue[0].id == id then 0 else 1 + Find(queue[1..], id)
  }

  /** The validator loop of `Release`: the releasing node's own waiters, oldest first by its id list. */
  function ServeOwn(left: int, lists: IdLists, queue: seq<Waiter>, n: NodeID): Served
    decreases |Ids(lists, n)|
  {
    var ids := Ids(lists, n);
    if left <= 0 || ids == [] then Served(left, map[], lists, queue, [])
    else
      var i := Find(queue, ids[0]);
      if i == |queue| then Served(left, map[], lists, queue, [])
      else
        var w := queue[i];
        var g := Min(w.need, left);
        var w' := w.(need := w.need - g);
        if w'.need == 0 then
          var r := ServeOwn(left - g, DropOldest(lists, n), queue[..i] + queue[i + 1..], n);
          r.(done := [w'] + r.done)
        else Served(left - g, map[], lists, queue[i := w'], [])
  }

  /** First part of `Release`: at-large bytes go back to the pool and are swept over the queue. */
  function ReleaseAtLarge(cfg: Config, t: Throttler, n: NodeID, bytes: int): (Throttler, seq<Waiter>) {
    if bytes <= 0 then (t, [])
    else
      var used := Store(t.atLargeUsed, n, Lookup(t.atLargeUsed, n) - bytes);
      var r := Sweep(cfg.nodeMax, t.remainingAtLarge + bytes, used, t.nodeWaiting, t.waiting);
      (t.(remainingAtLarge := r.left, atLargeUsed := r.used, waiting := r.kept, nodeWaiting := r.lists), r.done)
  }

  /** Second part of `Release`: validator bytes go to the node's own waiters, the rest to the pool. */
  function ReleaseVdr(t: Throttler, n: NodeID, bytes: int): (Throttler, seq<Waiter>) {
    var r := ServeOwn(bytes, t.nodeWaiting, t.waiting, n);
    var t1 := t.(waiting := r.kept, nodeWaiting := r.lists);
    if r.left > 0 then
      (t1.(vdrUsed := Store(t.vdrUsed, n, Lookup(t.vdrUsed, n) - r.left),
           remainingVdr := t.remainingVdr + r.left), r.done)
    else (t1, r.done)
  }

  /** `Release`: the new state, and the waiters whose `Acquire` calls are unblocked. */
  function ReleaseStep(cfg: Config, t: Throttler, size: nat, n: NodeID): (Throttler, seq<Waiter>) {
    var v := Min(size, Lookup(t.vdrUsed, n));
    var (t1, d1) := ReleaseAtLarge(cfg, t, n, size - v);
    var (t2, d2) := ReleaseVdr(t1, n, v);
    (t2, d1 + d2)
  }

  /** A message that has been acquired and not yet released. */
  datatype Message = Message(node: NodeID, size: int)

  /** The throttler together with the messages its callers are holding. */
  datatype System = System(t: Throttler, held: seq<Message>)

  /** One call: an `Acquire`, or the `Release` of the held message at a position. */
  datatype Event = Acquire(size: nat, node: NodeID, share: nat) | Release(index: nat)

  function Messages(ws: seq<Waiter>): seq<Message> {
    if ws == [] then [] else [Message(ws[0].node, ws[0].size)] + Messages(ws[1..])
  }

  predicate Enabled(s: System, e: Event) {
    e.Release? ==> e.index < |s.held| && s.held[e.index].size >= 0
  }

  function Next(cfg: Config, s: System, e: Event): System
    requires Enabled(s, e)
  {
    match e
    case Acquire(size, n, share) =>
      var (t, done) := AcquireStep(cfg, s.t, size, n, share);
      System(t, if done then s.held + [Message(n, size)] else s.held)
    case Release(i) =>
      var (t, done) := ReleaseStep(cfg, s.t, s.held[i].size, s.held[i].node);
      System(t, s.held[..i] + s.held[i + 1..] + Messages(done))
  }

  /** Every call of the list is enabled when its turn comes. */
  predicate Feasible(cfg: Config, s: System, events: seq<Event>)
    decreases |events|
  {
    events == [] || (Enabled(s, events[0]) && Feasible(cfg, Next(cfg, s, events[0]), events[1..]))
  }

  /** The state after running a list of calls. */
  function After(cfg: Config, s: System, events: seq<Event>): System
    requires Feasible(cfg, s, events)
    decreases |events|
  {
    if events == [] then s else After(cfg, Next(cfg, s, events[0]), events[1..])
  }
}
