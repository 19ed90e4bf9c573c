/** A peer's send queue against the outbound throttler, as interleaved steps of senders, the writer and the closer.
    A step is what happens between two points where another goroutine may run. The queue lock covers several steps
    of its holder; the closed flag is set without it. */
module SendQueue {
  import opened Prelude
  import opened Sums
  import InboundModel
  import opened Outbound

  type Config = InboundModel.Config

  datatype Msg = Msg(id: nat, size: nat)

  /** Who holds the queue lock: a sender that has looked at the closed flag, the writer that found a message, or the
      closer, which has released the messages before position `i`. */
  datatype Holder = Free | Sender(msg: Msg, sawClosed: bool) | Writer | Closer(i: nat)

  /** `senders` have acquired bytes and wait for the lock; `writing` is in the writer's hands, not yet released.
      `acquired` and `released` record every message for which those calls were made. */
  datatype Peer = Peer(
    queue: seq<Msg>,
    closed: bool,
    drained: bool,
    holder: Holder,
    senders: seq<Msg>,
    writing: Option<Msg>,
    nextID: nat,
    acquired: multiset<Msg>,
    released: multiset<Msg>)

  function NewPeer(): Peer {
    Peer([], false, false, Free, [], None, 0, multiset{}, multiset{})
  }

  datatype Step =
    | SendAcquire(size: nat, share: nat)
    | SendLock(i: nat)
    | SendFinish
    | WriterLock
    | WriterPop
    | WriterRelease
    | CloseFlag
    | CloseLock
    | CloseRelease
    | CloseDone

  predicate Enabled(p: Peer, step: Step) {
    match step
    case SendAcquire(_, _) => true
    case SendLock(i) => p.holder.Free? && i < |p.senders|
    case SendFinish => p.holder.Sender?
    case WriterLock => p.holder.Free? && !p.closed && p.queue != [] && p.writing.None?
    case WriterPop => p.holder.Writer? && p.queue != []
    case WriterRelease => p.writing.Some?
    case CloseFlag => !p.closed
    case CloseLock => p.holder.Free? && p.closed && !p.drained
    case CloseRelease => p.holder.Closer? && p.holder.i < |p.queue|
    case CloseDone => p.holder.Closer? && p.holder.i == |p.queue|
  }

  /** The message whose bytes a step releases. */
  function Releases(p: Peer, step: Step): Option<Msg>
    requires Enabled(p, step)
  {
    match step
    case SendFinish => if p.holder.sawClosed then Some(p.holder.msg) else None
    case WriterRelease => p.writing
    case CloseRelease => Some(p.queue[p.holder.i])
    case _ => None
  }

  /** A send whose bytes were granted. */
  function Granted(p: Peer, size: nat): Peer {
    var m := Msg(p.nextID, size);
    p.(senders := p.senders + [m], nextID := p.nextID + 1, acquired := p.acquired + multiset{m})
  }

  /** What a step other than a send's first does to the peer, apart from recording a release. */
  function Moved(p: Peer, step: Step): Peer
    requires Enabled(p, step)
  {
    match step
    case SendAcquire(_, _) => p
    case SendLock(i) => p.(senders := p.senders[..i] + p.senders[i + 1..], holder := Sender(p.senders[i], p.closed))
    case SendFinish => p.(holder := Free, queue := if p.holder.sawClosed then p.queue else p.queue + [p.holder.msg])
    case WriterLock => p.(holder := Writer)
    case WriterPop => p.(holder := Free, queue := p.queue[1..], writing := Some(p.queue[0]))
    case WriterRelease => p.(writing := None)
    case CloseFlag => p.(closed := true)
    case CloseLock => p.(holder := Closer(0))
    case CloseRelease => p.(holder := Closer(p.holder.i + 1))
    case CloseDone => p.(holder := Free, queue := [], drained := true)
  }

  function PeerNext(p: Peer, step: Step): Peer
    requires Enabled(p, step)
  {
    var p' := Moved(p, step);
    var m := Releases(p, step);
    if m.Some? then p'.(released := p'.released + multiset{m.value}) else p'
  }

  datatype Network = Network(t: Pools, peers: map<NodeID, Peer>)

  function PeerAt(s: Network, n: NodeID): Peer {
    if n in s.peers then s.peers[n] else NewPeer()
  }

  function Next(cfg: Config, s: Network, n: NodeID, step: Step): Network
    requires Enabled(PeerAt(s, n), step)
  {
    var p := PeerAt(s, n);
    if step.SendAcquire? then
      var r := Acquired(cfg, s.t, step.size, n, step.share);
      if r.None? then s else Network(r.value, s.peers[n := Granted(p, step.size)])
    else
      var m := Releases(p, step);
      Network(if m.Some? then Released(s.t, m.value.size, n) else s.t, s.peers[n := PeerNext(p, step)])
  }

  // ---------------------------------------------------------------- what every run keeps

  function Size(ms: seq<Msg>): nat {
    if ms == [] then 0 else ms[0].size + Size(ms[1..])
  }

  /** Messages in the queue that the closer has not released. */
  function Queued(p: Peer): seq<Msg> {
    if p.holder.Closer? && p.holder.i <= |p.queue| then p.queue[p.holder.i..] else p.queue
  }

  function InHands(p: Peer): seq<Msg> {
    (if p.holder.Sender? then [p.holder.msg] else []) + (if p.writing.Some? then [p.writing.value] else [])
  }

  /** Bytes queued, or in the hands of the writer or of a sender. */
  function HeldBytes(p: Peer): nat {
    Size(p.senders) + Size(Queued(p)) + Size(InHands(p))
  }

  function Bag(ms: seq<Msg>): multiset<Msg> {
    multiset(ms)
  }

  function HeldBag(p: Peer): multiset<Msg> {
    Bag(p.senders) + Bag(Queued(p)) + Bag(InHands(p))
  }

  /** Each message acquired once, and either released or still held. */
  ghost predicate Once(p: Peer) {
    && p.acquired == p.released + HeldBag(p)
    && forall m :: m in p.acquired ==> m.id < p.nextID && p.acquired[m] == 1
  }

  /** Once the closer is done the queue is empty and nobody is about to fill it. */
  ghost predicate Orderly(p: Peer) {
    && (p.holder.Closer? ==> p.closed && !p.drained && p.holder.i <= |p.queue|)
    && (p.holder.Writer? ==> p.queue != [] && p.writing.None?)
    && (p.drained ==> p.closed && p.queue == [] && (p.holder.Sender? ==> p.holder.sawClosed))
  }

  ghost predicate Inv(cfg: Config, s: Network) {
    && Conserved(cfg, s.t)
    && forall n :: Orderly(PeerAt(s, n)) && Once(PeerAt(s, n)) && Used(s.t, n) == HeldBytes(PeerAt(s, n))
  }

  lemma {:induction false} BytesConcat(a: seq<Msg>, b: seq<Msg>)
    ensures Size(a + b) == Size(a) + Size(b)
  {
    if a == [] {
      assert a + b == b;
    } else {
      assert (a + b)[1..] == a[1..] + b;
      BytesConcat(a[1..], b);
    }
  }

  lemma One(m: Msg)
    ensures Size([m]) == m.size && Bag([m]) == multiset{m}
  {
    assert [m][1..] == [];
  }

  lemma Nothing()
    ensures Size([]) == 0 && Bag([]) == multiset{}
  {
  }

  lemma Concat(a: seq<Msg>, b: seq<Msg>)
    ensures Size(a + b) == Size(a) + Size(b) && Bag(a + b) == Bag(a) + Bag(b)
  {
    BytesConcat(a, b);
  }

  /** Taking a message out of a list. */
  lemma TakeOut(ms: seq<Msg>, i: nat)
    requires i < |ms|
    ensures
      var rest := ms[..i] + ms[i + 1..];
      Size(ms) == Size(rest) + ms[i].size && Bag(ms) == Bag(rest) + multiset{ms[i]}
  {
    hide Size, Bag;
    assert ms == ms[..i] + ([ms[i]] + ms[i + 1..]);
    Concat(ms[..i], [ms[i]] + ms[i + 1..]);
    Concat([ms[i]], ms[i + 1..]);
    Concat(ms[..i], ms[i + 1..]);
    One(ms[i]);
  }

  lemma GrantKeeps(p: Peer, size: nat)
    requires Orderly(p) && Once(p)
    ensures Orderly(Granted(p, size)) && Once(Granted(p, size)) && HeldBytes(Granted(p, size)) == HeldBytes(p) + size
  {
    hide Size, Bag;
    var m := Msg(p.nextID, size);
    assert m !in p.acquired;
    Concat(p.senders, [m]);
    One(m);
    assert HeldBag(Granted(p, size)) == HeldBag(p) + multiset{m};
  }

  /** What a step does to the bytes and messages held. */
  ghost predicate Accounts(p: Peer, step: Step)
    requires Enabled(p, step)
  {
    var m := Releases(p, step);
    && HeldBytes(p) == HeldBytes(PeerNext(p, step)) + (if m.Some? then m.value.size else 0)
    && HeldBag(p) == HeldBag(PeerNext(p, step)) + (if m.Some? then multiset{m.value} else multiset{})
  }

  /** A sender that comes to hold the lock has one more message in hand. */
  lemma HandsChange(p: Peer, q: Peer, m: Msg)
    requires !p.holder.Sender? && q.holder.Sender? && q.holder.msg == m && p.writing == q.writing
    ensures Size(InHands(q)) == Size(InHands(p)) + m.size && Bag(InHands(q)) == Bag(InHands(p)) + multiset{m}
  {
    hide Size, Bag;
    var w := if p.writing.Some? then [p.writing.value] else [];
    assert InHands(p) == w && InHands(q) == [m] + w;
    Concat([m], w);
    One(m);
  }

  lemma SendLockAccounts(p: Peer, step: Step)
    requires Enabled(p, step) && step.SendLock?
    ensures Accounts(p, step)
  {
    hide Size, Bag, InHands;
    TakeOut(p.senders, step.i);
    HandsChange(p, PeerNext(p, step), p.senders[step.i]);
  }

  lemma SendFinishAccounts(p: Peer, step: Step)
    requires Enabled(p, step) && step.SendFinish?
    ensures Accounts(p, step)
  {
    hide Size, Bag, InHands;
    Concat(p.queue, [p.holder.msg]);
    One(p.holder.msg);
    HandsChange(PeerNext(p, step), p, p.holder.msg);
  }

  lemma WriterPopAccounts(p: Peer, step: Step)
    requires Orderly(p) && Enabled(p, step) && step.WriterPop?
    ensures Accounts(p, step)
  {
    hide Size, Bag;
    assert p.queue == [p.queue[0]] + p.queue[1..];
    Concat([p.queue[0]], p.queue[1..]);
    assert InHands(p) == [] && InHands(PeerNext(p, step)) == [p.queue[0]];
    One(p.queue[0]);
    Nothing();
  }

  lemma WriterReleaseAccounts(p: Peer, step: Step)
    requires Enabled(p, step) && step.WriterRelease?
    ensures Accounts(p, step)
  {
    hide Size, Bag;
    var h := if p.holder.Sender? then [p.holder.msg] else [];
    var m := p.writing.value;
    assert InHands(p) == h + [m] && InHands(PeerNext(p, step)) == h;
    Concat(h, [m]);
    One(m);
  }

  lemma CloseReleaseAccounts(p: Peer, step: Step)
    requires Enabled(p, step) && step.CloseRelease?
    ensures Accounts(p, step)
  {
    hide Size, Bag;
    var i := p.holder.i;
    assert p.queue[i..] == [p.queue[i]] + p.queue[i + 1..];
    Concat([p.queue[i]], p.queue[i + 1..]);
    One(p.queue[i]);
    assert InHands(PeerNext(p, step)) == InHands(p);
  }

  /** The steps that move nothing. */
  lemma StillAccounts(p: Peer, step: Step)
    requires Enabled(p, step) && (step.WriterLock? || step.CloseFlag? || step.CloseLock? || step.CloseDone?)
    ensures Accounts(p, step)
  {
    hide Size, Bag;
    var p' := PeerNext(p, step);
    assert p.queue[0..] == p.queue && p.queue[|p.queue|..] == [];
    assert InHands(p') == InHands(p) && Queued(p') == Queued(p);
  }

  lemma MoveKeeps(p: Peer, step: Step)
    requires Orderly(p) && Once(p) && Enabled(p, step) && !step.SendAcquire?
    ensures Accounts(p, step) && Orderly(PeerNext(p, step)) && Once(PeerNext(p, step))
  {
    hide Size, Bag, HeldBytes, HeldBag, Accounts, PeerNext;
    match step {
      case SendLock(_) => SendLockAccounts(p, step);
      case SendFinish => SendFinishAccounts(p, step);
      case WriterPop => WriterPopAccounts(p, step);
      case WriterRelease => WriterReleaseAccounts(p, step);
      case CloseRelease => CloseReleaseAccounts(p, step);
      case _ => StillAccounts(p, step);
    }
    MoveOrderly(p, step);
    MoveOnce(p, step);
  }

  lemma MoveOrderly(p: Peer, step: Step)
    requires Orderly(p) && Enabled(p, step)
    ensures Orderly(PeerNext(p, step))
  {
  }

  lemma MoveOnce(p: Peer, step: Step)
    requires Once(p) && Enabled(p, step) && Accounts(p, step)
    ensures Once(PeerNext(p, step))
  {
    hide HeldBytes, HeldBag;
  }

  /** One step of one peer keeps every peer's account with the throttler. */
  lemma NextKeeps(cfg: Config, s: Network, n: NodeID, step: Step)
    requires Inv(cfg, s) && Enabled(PeerAt(s, n), step)
    ensures Inv(cfg, Next(cfg, s, n, step))
  {
    hide Conserved, Orderly, Once, HeldBytes, HeldBag, Acquired, Released;
    var p, s' := PeerAt(s, n), Next(cfg, s, n, step);
    assert Orderly(p) && Once(p) && Used(s.t, n) == HeldBytes(p);
    if step.SendAcquire? {
      if Acquired(cfg, s.t, step.size, n, step.share).Some? {
        AcquireKeeps(cfg, s.t, step.size, n, step.share);
        GrantKeeps(p, step.size);
      }
    } else {
      MoveKeeps(p, step);
      var m := Releases(p, step);
      if m.Some? {
        ReleaseKeeps(cfg, s.t, m.value.size, n);
      }
    }
    forall k
      ensures Orderly(PeerAt(s', k)) && Once(PeerAt(s', k)) && Used(s'.t, k) == HeldBytes(PeerAt(s', k))
    {
      assert Orderly(PeerAt(s, k)) && Once(PeerAt(s, k)) && Used(s.t, k) == HeldBytes(PeerAt(s, k));
    }
  }

  // ---------------------------------------------------------------- whole runs

  datatype Event = Event(n: NodeID, step: Step)

  function Start(cfg: Config): Network {
    Network(Full(cfg), map[])
  }

  ghost predicate Feasible(cfg: Config, s: Network, run: seq<Event>)
    decreases run
  {
    run == [] || (Enabled(PeerAt(s, run[0].n), run[0].step) && Feasible(cfg, Next(cfg, s, run[0].n, run[0].step), run[1..]))
  }

  ghost function After(cfg: Config, s: Network, run: seq<Event>): Network
    requires Feasible(cfg, s, run)
    decreases run
  {
    if run == [] then s else After(cfg, Next(cfg, s, run[0].n, run[0].step), run[1..])
  }

  lemma {:induction false} RunKeeps(cfg: Config, s: Network, run: seq<Event>)
    requires Inv(cfg, s) && Feasible(cfg, s, run)
    ensures Inv(cfg, After(cfg, s, run))
    decreases run
  {
    hide Inv;
    if run != [] {
      NextKeeps(cfg, s, run[0].n, run[0].step);
      RunKeeps(cfg, Next(cfg, s, run[0].n, run[0].step), run[1..]);
    }
  }

  lemma StartKeeps(cfg: Config)
    ensures Inv(cfg, Start(cfg))
  {
    FullConserved(cfg);
  }

  /** Over every interleaving: bytes are accounted for, and no message is released twice. */
  lemma Conservation(cfg: Config, run: seq<Event>, n: NodeID, m: Msg)
    requires Feasible(cfg, Start(cfg), run)
    ensures
      var s := After(cfg, Start(cfg), run);
      var p := PeerAt(s, n);
      && Conserved(cfg, s.t)
      && Used(s.t, n) == HeldBytes(p)
      && p.acquired[m] == p.released[m] + HeldBag(p)[m] <= 1
  {
    hide Conserved, HeldBytes, HeldBag;
    StartKeeps(cfg);
    RunKeeps(cfg, Start(cfg), run);
    var p := PeerAt(After(cfg, Start(cfg), run), n);
    assert Once(p);
    assert m in p.acquired || p.acquired[m] == 0;
  }

  /** After the closer is done nothing is queued any more, whatever happens next. */
  lemma {:induction false} DrainedForGood(cfg: Config, s: Network, run: seq<Event>, n: NodeID)
    requires Inv(cfg, s) && Feasible(cfg, s, run) && PeerAt(s, n).drained
    ensures PeerAt(After(cfg, s, run), n).drained && PeerAt(After(cfg, s, run), n).queue == []
    decreases run
  {
    hide Conserved, Once, HeldBytes, HeldBag, Acquired, Released;
    assert Orderly(PeerAt(s, n));
    if run != [] {
      NextKeeps(cfg, s, run[0].n, run[0].step);
      DrainedForGood(cfg, Next(cfg, s, run[0].n, run[0].step), run[1..], n);
    }
  }

  // ---------------------------------------------------------------- draining

  /** A bound on the steps a peer can still take without another send, closing included. */
  function Work(p: Peer): int {
    5 * |p.senders| + 3 * |Queued(p)|
    + (if p.holder.Sender? then 4 else if p.holder.Writer? then -1 else 0)
    + (if p.writing.Some? then 1 else 0)
    + (if p.closed then 0 else 1)
    + (if p.drained then 0 else if p.holder.Closer? then 1 else 2)
  }

  /** Whatever step a peer takes other than a new send, it has less left to do. */
  lemma EveryStepWorks(p: Peer, step: Step)
    requires Orderly(p) && Enabled(p, step) && !step.SendAcquire?
    ensures 0 <= Work(PeerNext(p, step)) < Work(p)
  {
  }

  /** The steps that one peer takes in a run. */
  function StepsOf(run: seq<Event>, n: NodeID): nat {
    if run == [] then 0 else (if run[0].n == n then 1 else 0) + StepsOf(run[1..], n)
  }

  ghost predicate NoSend(run: seq<Event>, n: NodeID) {
    forall i :: 0 <= i < |run| ==> run[i].n != n || !run[i].step.SendAcquire?
  }

  /** Under every schedule, and whatever other peers do, a peer that sends nothing more takes at most `Work` steps. */
  lemma {:induction false} FewSteps(cfg: Config, s: Network, run: seq<Event>, n: NodeID)
    requires Inv(cfg, s) && Feasible(cfg, s, run) && NoSend(run, n)
    ensures StepsOf(run, n) + Work(PeerAt(After(cfg, s, run), n)) <= Work(PeerAt(s, n))
    ensures 0 <= Work(PeerAt(After(cfg, s, run), n))
    decreases run
  {
    hide Conserved, Once, HeldBytes, HeldBag, Acquired, Released, Work, Enabled, PeerNext, Orderly;
    assert Orderly(PeerAt(s, n));
    if run == [] {
      WorkNatural(PeerAt(s, n));
    } else {
      var e := run[0];
      var s' := Next(cfg, s, e.n, e.step);
      NextKeeps(cfg, s, e.n, e.step);
      assert NoSend(run[1..], n) by {
        assert forall i :: 0 <= i < |run[1..]| ==> run[1..][i] == run[i + 1];
      }
      FewSteps(cfg, s', run[1..], n);
      if e.n == n {
        EveryStepWorks(PeerAt(s, n), e.step);
      }
    }
  }

  lemma WorkNatural(p: Peer)
    requires Orderly(p)
    ensures Work(p) >= 0
  {
  }

  /** Nothing is left for the peer to do but send. */
  ghost predicate Settled(p: Peer) {
    forall step :: Enabled(p, step) ==> step.SendAcquire?
  }

  lemma SettledHoldsNothing(p: Peer)
    requires Orderly(p) && Settled(p)
    ensures p.drained && HeldBytes(p) == 0 && HeldBag(p) == multiset{}
  {
    hide Size, Bag;
    assert !Enabled(p, CloseFlag) && !Enabled(p, CloseLock) && !Enabled(p, CloseRelease) && !Enabled(p, CloseDone);
    assert !Enabled(p, SendLock(0)) && !Enabled(p, SendFinish) && !Enabled(p, WriterPop) && !Enabled(p, WriterRelease);
    assert InHands(p) == [];
    Nothing();
  }

  /** A run that stops short of settling a peer can go on. So under every schedule a peer that sends nothing more is
      settled after at most `Work` of its steps; then it is closed and empty, no bytes are charged to it, and every
      message it acquired has been released exactly once. */
  lemma Drains(cfg: Config, s: Network, run: seq<Event>, n: NodeID)
    requires Inv(cfg, s) && Feasible(cfg, s, run) && NoSend(run, n)
    ensures StepsOf(run, n) <= Work(PeerAt(s, n))
    ensures
      var s' := After(cfg, s, run);
      var p := PeerAt(s', n);
      && (StepsOf(run, n) == Work(PeerAt(s, n)) ==> Settled(p))
      && (Settled(p) ==> p.drained && p.queue == [] && Used(s'.t, n) == 0 && p.acquired == p.released)
  {
    hide Conserved, HeldBytes, HeldBag, Acquired, Released, Work, PeerNext, Enabled;
    RunKeeps(cfg, s, run);
    FewSteps(cfg, s, run, n);
    var s' := After(cfg, s, run);
    var p := PeerAt(s', n);
    assert Orderly(p) && Once(p) && Used(s'.t, n) == HeldBytes(p);
    if Settled(p) {
      SettledHoldsNothing(p);
    } else {
      var step :| Enabled(p, step) && !step.SendAcquire?;
      EveryStepWorks(p, step);
    }
  }

  // ---------------------------------------------------------------- order

  /** The message that a step appends to a peer's queue, if any. */
  function PutBy(s: Network, e: Event, n: NodeID): seq<Msg> {
    var holder := PeerAt(s, n).holder;
    if e.n == n && e.step.SendFinish? && holder.Sender? && !holder.sawClosed then [holder.msg] else []
  }

  /** The message that a step brings into the writer's hands, if any. */
  function TakenBy(s: Network, s': Network, n: NodeID): seq<Msg> {
    var before, after := PeerAt(s, n).writing, PeerAt(s', n).writing;
    if before.None? && after.Some? then [after.value] else []
  }

  /** All the messages that are appended to a peer's queue in a run, in order. */
  ghost function Appended(cfg: Config, s: Network, run: seq<Event>, n: NodeID): seq<Msg>
    requires Feasible(cfg, s, run)
    decreases run
  {
    if run == [] then [] else PutBy(s, run[0], n) + Appended(cfg, Next(cfg, s, run[0].n, run[0].step), run[1..], n)
  }

  /** All the messages that come into the writer's hands in a run, in order. */
  ghost function Taken(cfg: Config, s: Network, run: seq<Event>, n: NodeID): seq<Msg>
    requires Feasible(cfg, s, run)
    decreases run
  {
    if run == [] then []
    else
      var s' := Next(cfg, s, run[0].n, run[0].step);
      TakenBy(s, s', n) + Taken(cfg, s', run[1..], n)
  }

  /** A step puts at most one message at the end of the queue and takes at most one from its front, except for the
      closer's last, which empties it for good. */
  lemma StepFifo(cfg: Config, s: Network, e: Event, n: NodeID)
    requires Orderly(PeerAt(s, n)) && Enabled(PeerAt(s, e.n), e.step)
    ensures
      var s' := Next(cfg, s, e.n, e.step);
      var p, p', put, took := PeerAt(s, n), PeerAt(s', n), PutBy(s, e, n), TakenBy(s, s', n);
      && Orderly(p') && (p.drained ==> p'.drained)
      && if p'.drained then put == [] && took == [] else p.queue + put == took + p'.queue
  {
    hide Acquired, Released, PeerNext, Orderly;
    var s', p := Next(cfg, s, e.n, e.step), PeerAt(s, n);
    assert p.queue + [] == [] + p.queue;
    if e.n == n && !e.step.SendAcquire? {
      MoveOrderly(p, e.step);
      MoveFifo(p, e.step);
    } else if e.n == n {
      GrantOrderly(p, e.step.size);
    } else {
      assert PeerAt(s', n) == p;
    }
  }

  lemma GrantOrderly(p: Peer, size: nat)
    requires Orderly(p)
    ensures Orderly(Granted(p, size))
  {
  }

  lemma MoveFifo(p: Peer, step: Step)
    requires Orderly(p) && Enabled(p, step)
    ensures
      var p' := PeerNext(p, step);
      var put := if step.SendFinish? && !p.holder.sawClosed then [p.holder.msg] else [];
      var took := if p.writing.None? && p'.writing.Some? then [p'.writing.value] else [];
      && (p.drained ==> p'.drained)
      && if p'.drained then put == [] && took == [] else p.queue + put == took + p'.queue
  {
    if step.WriterPop? {
      assert p.queue == [p.queue[0]] + p.queue[1..];
    } else if !step.SendFinish? {
      assert p.queue + [] == [] + p.queue;
    }
  }

  lemma {:induction false} NothingAfterDrained(cfg: Config, s: Network, run: seq<Event>, n: NodeID)
    requires Orderly(PeerAt(s, n)) && PeerAt(s, n).drained && Feasible(cfg, s, run)
    ensures Appended(cfg, s, run, n) == [] && Taken(cfg, s, run, n) == [] && PeerAt(After(cfg, s, run), n).drained
    decreases run
  {
    hide Next, Orderly, Enabled;
    if run != [] {
      StepFifo(cfg, s, run[0], n);
      NothingAfterDrained(cfg, Next(cfg, s, run[0].n, run[0].step), run[1..], n);
    }
  }

  lemma {:induction false} FifoFrom(cfg: Config, s: Network, run: seq<Event>, n: NodeID)
    requires Orderly(PeerAt(s, n)) && Feasible(cfg, s, run)
    ensures
      var p, p' := PeerAt(s, n), PeerAt(After(cfg, s, run), n);
      var put, took := Appended(cfg, s, run, n), Taken(cfg, s, run, n);
      && (!p'.drained ==> p.queue + put == took + p'.queue)
      && took <= p.queue + put
    decreases run
  {
    hide Next, Orderly, Enabled;
    if run != [] {
      var s' := Next(cfg, s, run[0].n, run[0].step);
      StepFifo(cfg, s, run[0], n);
      FifoFrom(cfg, s', run[1..], n);
      if PeerAt(s', n).drained {
        NothingAfterDrained(cfg, s', run[1..], n);
      } else {
        var p, p', q := PeerAt(s, n), PeerAt(s', n), PeerAt(After(cfg, s, run), n);
        var put, took := Appended(cfg, s', run[1..], n), Taken(cfg, s', run[1..], n);
        var a, o := PutBy(s, run[0], n), TakenBy(s, s', n);
        assert p.queue + (a + put) == (p.queue + a) + put == o + (p'.queue + put);
        assert o + (took + q.queue) == (o + took) + q.queue;
      }
    }
  }

  /** Messages go out in the order they were queued: until the closer is done, what was queued is what the writer took
      and then what still waits; after that the writer has taken the first of them. */
  lemma Fifo(cfg: Config, run: seq<Event>, n: NodeID)
    requires Feasible(cfg, Start(cfg), run)
    ensures
      var put, took := Appended(cfg, Start(cfg), run, n), Taken(cfg, Start(cfg), run, n);
      var p := PeerAt(After(cfg, Start(cfg), run), n);
      took <= put && (!p.drained ==> put == took + p.queue)
  {
    FifoFrom(cfg, Start(cfg), run, n);
    assert [] + Appended(cfg, Start(cfg), run, n) == Appended(cfg, Start(cfg), run, n);
  }

  /** The connection is closed, and nobody who has not noticed holds the lock. */
  ghost predicate Quiet(p: Peer) {
    p.closed && !p.holder.Writer? && (p.holder.Sender? ==> p.holder.sawClosed)
  }

  lemma MoveQuiet(p: Peer, step: Step)
    requires Quiet(p) && Enabled(p, step)
    ensures
      var p' := PeerNext(p, step);
      Quiet(p') && (step.SendFinish? ==> p.holder.sawClosed) && (p.writing.None? ==> p'.writing.None?)
  {
  }

  /** From then on nothing more is queued or taken. */
  lemma {:induction false} ClosedQuiet(cfg: Config, s: Network, run: seq<Event>, n: NodeID)
    requires Quiet(PeerAt(s, n)) && Feasible(cfg, s, run)
    ensures Appended(cfg, s, run, n) == [] && Taken(cfg, s, run, n) == []
    decreases run
  {
    hide Acquired, Released, PeerNext, Quiet, Enabled;
    if run != [] {
      var e, p := run[0], PeerAt(s, n);
      var s' := Next(cfg, s, e.n, e.step);
      if e.n == n {
        MoveQuiet(p, e.step);
        GrantQuiet(p, e.step);
      }
      ClosedQuiet(cfg, s', run[1..], n);
    }
  }

  lemma GrantQuiet(p: Peer, step: Step)
    requires Quiet(p)
    ensures step.SendAcquire? ==> Quiet(Granted(p, step.size))
  {
  }

  /** One message sent over a new connection, undisturbed. */
  function SendOne(n: NodeID, size: nat, share: nat): seq<Event> {
    [Event(n, SendAcquire(size, share)), Event(n, SendLock(0)), Event(n, SendFinish),
     Event(n, WriterLock), Event(n, WriterPop), Event(n, WriterRelease)]
  }

  lemma OneStep(cfg: Config, s: Network, run: seq<Event>, n: NodeID, s': Network)
    requires run != [] && Enabled(PeerAt(s, run[0].n), run[0].step) && Next(cfg, s, run[0].n, run[0].step) == s'
    requires Feasible(cfg, s', run[1..])
    ensures Feasible(cfg, s, run) && After(cfg, s, run) == After(cfg, s', run[1..])
    ensures Taken(cfg, s, run, n) == TakenBy(s, s', n) + Taken(cfg, s', run[1..], n)
  {
  }

  function PeerDuring(i: nat, m: Msg): Peer {
    var p := NewPeer().(nextID := 1, acquired := multiset{m});
    if i == 0 then NewPeer()
    else if i == 1 then p.(senders := [m])
    else if i == 2 then p.(holder := Sender(m, false))
    else if i == 3 then p.(queue := [m])
    else if i == 4 then p.(queue := [m], holder := Writer)
    else if i == 5 then p.(writing := Some(m))
    else p.(released := multiset{m})
  }

  lemma SendOneMoves(m: Msg)
    requires m.id == 0
    ensures Granted(PeerDuring(0, m), m.size) == PeerDuring(1, m)
    ensures Enabled(PeerDuring(1, m), SendLock(0)) && PeerNext(PeerDuring(1, m), SendLock(0)) == PeerDuring(2, m)
    ensures Enabled(PeerDuring(2, m), SendFinish) && PeerNext(PeerDuring(2, m), SendFinish) == PeerDuring(3, m)
    ensures Enabled(PeerDuring(3, m), WriterLock) && PeerNext(PeerDuring(3, m), WriterLock) == PeerDuring(4, m)
    ensures Enabled(PeerDuring(4, m), WriterPop) && PeerNext(PeerDuring(4, m), WriterPop) == PeerDuring(5, m)
    ensures Enabled(PeerDuring(5, m), WriterRelease) && PeerNext(PeerDuring(5, m), WriterRelease) == PeerDuring(6, m)
  {
    assert [] + [m] == [m] && [m][..0] + [m][1..] == [] && [m][1..] == [];
  }

  function During(t: Pools, n: NodeID, i: nat, m: Msg): Network {
    Network(t, map[n := PeerDuring(i, m)])
  }

  lemma SendOneNext(cfg: Config, t: Pools, n: NodeID, i: nat, m: Msg, step: Step)
    requires 1 <= i <= 4 && m.id == 0 && step == SendOne(n, m.size, 0)[i].step
    ensures Enabled(PeerDuring(i, m), step) && Next(cfg, During(t, n, i, m), n, step) == During(t, n, i + 1, m)
  {
    hide PeerDuring, PeerNext;
    SendOneMoves(m);
    assert map[n := PeerDuring(i, m)][n := PeerDuring(i + 1, m)] == map[n := PeerDuring(i + 1, m)];
    assert Releases(PeerDuring(i, m), step).None? by {
      NoRelease(i, m);
    }
  }

  lemma NoRelease(i: nat, m: Msg)
    requires 1 <= i <= 4
    ensures i == 2 ==> PeerDuring(i, m).holder == Sender(m, false)
  {
  }

  /** A message that the throttler accepts reaches the writer, and its bytes are given back. */
  lemma Delivers(cfg: Config, n: NodeID, size: nat, share: nat)
    requires Acquired(cfg, Full(cfg), size, n, share).Some?
    ensures Feasible(cfg, Start(cfg), SendOne(n, size, share))
    ensures
      var m, s := Msg(0, size), After(cfg, Start(cfg), SendOne(n, size, share));
      && Taken(cfg, Start(cfg), SendOne(n, size, share), n) == [m]
      && PeerAt(s, n).released == multiset{m} && Used(s.t, n) == 0
  {
    hide PeerDuring, PeerNext, Acquired, Released, Used, Next, Enabled;
    var m, run, t := Msg(0, size), SendOne(n, size, share), Acquired(cfg, Full(cfg), size, n, share).value;
    var last := Network(Released(t, size, n), map[n := PeerDuring(6, m)]);
    SendOneEnds(cfg, t, n, m, share);
    OneStep(cfg, During(t, n, 5, m), run[5..], n, last);
    SendOneNext(cfg, t, n, 4, m, WriterPop);
    assert run[4..][1..] == run[5..];
    OneStep(cfg, During(t, n, 4, m), run[4..], n, During(t, n, 5, m));
    SendOneNext(cfg, t, n, 3, m, WriterLock);
    assert run[3..][1..] == run[4..];
    OneStep(cfg, During(t, n, 3, m), run[3..], n, During(t, n, 4, m));
    SendOneNext(cfg, t, n, 2, m, SendFinish);
    assert run[2..][1..] == run[3..];
    OneStep(cfg, During(t, n, 2, m), run[2..], n, During(t, n, 3, m));
    SendOneNext(cfg, t, n, 1, m, SendLock(0));
    assert run[1..][1..] == run[2..];
    OneStep(cfg, During(t, n, 1, m), run[1..], n, During(t, n, 2, m));
    OneStep(cfg, Start(cfg), run, n, During(t, n, 1, m));
    SendOneTaken(t, n, m, last);
    FullConserved(cfg);
    AcquireKeeps(cfg, Full(cfg), size, n, share);
    ReleaseKeeps(cfg, t, size, n);
  }

  lemma SendOneEnds(cfg: Config, t: Pools, n: NodeID, m: Msg, share: nat)
    requires m.id == 0 && Acquired(cfg, Full(cfg), m.size, n, share) == Some(t)
    ensures Enabled(PeerAt(Start(cfg), n), SendAcquire(m.size, share))
    ensures Next(cfg, Start(cfg), n, SendAcquire(m.size, share)) == During(t, n, 1, m)
    ensures Enabled(PeerDuring(5, m), WriterRelease)
    ensures Next(cfg, During(t, n, 5, m), n, WriterRelease) == Network(Released(t, m.size, n), map[n := PeerDuring(6, m)])
    ensures Feasible(cfg, Network(Released(t, m.size, n), map[n := PeerDuring(6, m)]), [])
  {
    hide Acquired, Released;
    SendOneMoves(m);
    assert map[n := PeerDuring(5, m)][n := PeerDuring(6, m)] == map[n := PeerDuring(6, m)];
  }

  lemma SendOneTaken(t: Pools, n: NodeID, m: Msg, last: Network)
    requires PeerAt(last, n) == PeerDuring(6, m)
    ensures forall i :: 0 <= i < 4 ==> TakenBy(During(t, n, i, m), During(t, n, i + 1, m), n) == []
    ensures TakenBy(Network(t, map[]), During(t, n, 1, m), n) == []
    ensures TakenBy(During(t, n, 4, m), During(t, n, 5, m), n) == [m] && TakenBy(During(t, n, 5, m), last, n) == []
    ensures PeerDuring(6, m).released == multiset{m}
  {
  }
}
