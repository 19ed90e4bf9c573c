/** The reference-counted lock per shared memory space, for any number of threads.
    A mutex is known by a number that is never used again, like the address of the object that holds it. */
module LockTable {
  import opened Prelude

  type ID = Bytes
  type Thread = nat
  type Mutex = nat

  datatype Entry = Entry(mutex: Mutex, count: nat)

  datatype Table = Table(locks: map<ID, Entry>, nextMutex: Mutex)

  /** `makeLock`: the entry, created if missing, with one more user. */
  function WithUser(t: Table, id: ID): Table {
    if id in t.locks then t.(locks := t.locks[id := t.locks[id].(count := t.locks[id].count + 1)])
    else Table(t.locks[id := Entry(t.nextMutex, 1)], t.nextMutex + 1)
  }

  /** `releaseLock`: one user fewer; the entry of the last one is deleted. */
  function WithoutUser(t: Table, id: ID): Table
    requires id in t.locks && t.locks[id].count > 0
  {
    if t.locks[id].count == 1 then t.(locks := t.locks - {id})
    else t.(locks := t.locks[id := t.locks[id].(count := t.locks[id].count - 1)])
  }

  /** Where a thread is: between `makeLock` and `Lock` returning, between that and `releaseLock`, or before `Unlock`. */
  datatype PC = Waiting(id: ID, mutex: Mutex) | Inside(id: ID, mutex: Mutex) | Leaving(mutex: Mutex)

  /** Threads that are not in the map are doing something else. `owner` says who holds each locked mutex. */
  datatype System = System(table: Table, threads: map<Thread, PC>, owner: map<Mutex, Thread>)

  datatype Step = Make(id: ID) | Lock | Release | Unlock

  predicate Enabled(s: System, t: Thread, step: Step) {
    match step
    case Make(_) => t !in s.threads
    case Lock => t in s.threads && s.threads[t].Waiting? && s.threads[t].mutex !in s.owner
    case Release => t in s.threads && s.threads[t].Inside?
    case Unlock => t in s.threads && s.threads[t].Leaving?
  }

  /** The code panics when it releases a lock that is not in the table, or unlocks a mutex that is not locked. */
  predicate Panics(s: System, t: Thread, step: Step)
    requires Enabled(s, t, step)
  {
    match step
    case Release => s.threads[t].id !in s.table.locks || s.table.locks[s.threads[t].id].count == 0
    case Unlock => s.threads[t].mutex !in s.owner
    case _ => false
  }

  function Next(s: System, t: Thread, step: Step): System
    requires Enabled(s, t, step) && !Panics(s, t, step)
  {
    match step
    case Make(id) =>
      var table := WithUser(s.table, id);
      s.(table := table, threads := s.threads[t := Waiting(id, table.locks[id].mutex)])
    case Lock =>
      var pc := s.threads[t];
      s.(threads := s.threads[t := Inside(pc.id, pc.mutex)], owner := s.owner[pc.mutex := t])
    case Release =>
      var id := s.threads[t].id;
      s.(table := WithoutUser(s.table, id), threads := s.threads[t := Leaving(s.table.locks[id].mutex)])
    case Unlock => s.(threads := s.threads - {t}, owner := s.owner - {s.threads[t].mutex})
  }

  // ---------------------------------------------------------------- what every run keeps

  predicate Uses(pc: PC, id: ID) {
    !pc.Leaving? && pc.id == id
  }

  function Users(threads: map<Thread, PC>, id: ID): set<Thread> {
    set t | t in threads && Uses(threads[t], id)
  }

  /** Every entry counts the threads between `makeLock` and `releaseLock`, and exists exactly while there are any. */
  ghost predicate Counted(s: System) {
    forall id :: if id in s.table.locks then s.table.locks[id].count == |Users(s.threads, id)| > 0 else Users(s.threads, id) == {}
  }

  /** Those threads all have the entry's mutex. */
  ghost predicate Agreed(s: System) {
    forall t :: t in s.threads && !s.threads[t].Leaving? ==>
                  s.threads[t].id in s.table.locks && s.table.locks[s.threads[t].id].mutex == s.threads[t].mutex
  }

  predicate Holds(pc: PC) {
    !pc.Waiting?
  }

  /** A mutex is held by exactly the thread that is inside or leaving with it. */
  ghost predicate Owned(s: System) {
    && (forall t :: t in s.threads && Holds(s.threads[t]) ==> s.threads[t].mutex in s.owner && s.owner[s.threads[t].mutex] == t)
    && (forall m :: m in s.owner ==>
                      s.owner[m] in s.threads && Holds(s.threads[s.owner[m]]) && s.threads[s.owner[m]].mutex == m)
  }

  /** Numbers of mutexes in use are below the next one. */
  ghost predicate Fresh(s: System) {
    && (forall id :: id in s.table.locks ==> s.table.locks[id].mutex < s.table.nextMutex)
    && (forall m :: m in s.owner ==> m < s.table.nextMutex)
  }

  ghost predicate Inv(s: System) {
    Counted(s) && Agreed(s) && Owned(s) && Fresh(s)
  }

  function Start(): System {
    System(Table(map[], 0), map[], map[])
  }

  lemma StartKeeps()
    ensures Inv(Start())
  {
  }

  lemma NeverPanics(s: System, t: Thread, step: Step)
    requires Inv(s) && Enabled(s, t, step)
    ensures !Panics(s, t, step)
  {
  }

  // ---------------------------------------------------------------- one step

  lemma UsersAdd(threads: map<Thread, PC>, t: Thread, pc: PC, id: ID)
    requires t !in threads || !Uses(threads[t], id)
    ensures Users(threads[t := pc], id) == if Uses(pc, id) then Users(threads, id) + {t} else Users(threads, id)
    ensures |Users(threads[t := pc], id)| == |Users(threads, id)| + if Uses(pc, id) then 1 else 0
  {
    assert Users(threads[t := pc], id) == if Uses(pc, id) then Users(threads, id) + {t} else Users(threads, id);
  }

  lemma UsersDrop(threads: map<Thread, PC>, t: Thread, pc: PC, id: ID)
    requires t in threads && Uses(threads[t], id) && !Uses(pc, id)
    ensures Users(threads[t := pc], id) == Users(threads, id) - {t}
    ensures |Users(threads[t := pc], id)| == |Users(threads, id)| - 1
  {
    assert Users(threads[t := pc], id) == Users(threads, id) - {t};
  }

  lemma MakeKeeps(s: System, t: Thread, id: ID)
    requires Inv(s) && Enabled(s, t, Make(id))
    ensures Inv(Next(s, t, Make(id)))
  {
    hide Users;
    var s' := Next(s, t, Make(id));
    forall x
      ensures if x in s'.table.locks then s'.table.locks[x].count == |Users(s'.threads, x)| > 0 else Users(s'.threads, x) == {}
    {
      UsersAdd(s.threads, t, s'.threads[t], x);
    }
  }

  lemma LockKeeps(s: System, t: Thread)
    requires Inv(s) && Enabled(s, t, Lock)
    ensures Inv(Next(s, t, Lock))
  {
    var s' := Next(s, t, Lock);
    forall x
      ensures Users(s'.threads, x) == Users(s.threads, x)
    {
      assert Uses(s'.threads[t], x) == Uses(s.threads[t], x);
    }
  }

  lemma ReleaseKeeps(s: System, t: Thread)
    requires Inv(s) && Enabled(s, t, Release)
    ensures !Panics(s, t, Release) && Inv(Next(s, t, Release))
  {
    NeverPanics(s, t, Release);
    hide Users;
    var s', id := Next(s, t, Release), s.threads[t].id;
    UsersDrop(s.threads, t, s'.threads[t], id);
    forall x
      ensures if x in s'.table.locks then s'.table.locks[x].count == |Users(s'.threads, x)| > 0 else Users(s'.threads, x) == {}
    {
      if x != id {
        UsersAdd(s.threads, t, s'.threads[t], x);
      }
    }
    forall u | u in s'.threads && !s'.threads[u].Leaving?
      ensures s'.threads[u].id in s'.table.locks && s'.table.locks[s'.threads[u].id].mutex == s'.threads[u].mutex
    {
      StillUsed(s', u);
    }
  }

  /** A thread that uses a space keeps its entry in the table. */
  lemma StillUsed(s: System, u: Thread)
    requires Counted(s) && u in s.threads && !s.threads[u].Leaving?
    ensures s.threads[u].id in s.table.locks
  {
    assert u in Users(s.threads, s.threads[u].id);
  }

  lemma UnlockKeeps(s: System, t: Thread)
    requires Inv(s) && Enabled(s, t, Unlock)
    ensures !Panics(s, t, Unlock) && Inv(Next(s, t, Unlock))
  {
    var s' := Next(s, t, Unlock);
    forall x
      ensures Users(s'.threads, x) == Users(s.threads, x)
    {
    }
  }

  lemma NextKeeps(s: System, t: Thread, step: Step)
    requires Inv(s) && Enabled(s, t, step)
    ensures !Panics(s, t, step) && Inv(Next(s, t, step))
  {
    hide Inv;
    NeverPanics(s, t, step);
    match step {
      case Make(id) => MakeKeeps(s, t, id);
      case Lock => LockKeeps(s, t);
      case Release => ReleaseKeeps(s, t);
      case Unlock => UnlockKeeps(s, t);
    }
  }

  // ---------------------------------------------------------------- whole runs

  datatype Event = Event(t: Thread, step: Step)

  /** A run in which every step is enabled. */
  ghost predicate Feasible(s: System, run: seq<Event>)
    decreases run
  {
    run == [] || (Enabled(s, run[0].t, run[0].step) && !Panics(s, run[0].t, run[0].step) &&
                  Feasible(Next(s, run[0].t, run[0].step), run[1..]))
  }

  ghost function After(s: System, run: seq<Event>): System
    requires Feasible(s, run)
    decreases run
  {
    if run == [] then s else After(Next(s, run[0].t, run[0].step), run[1..])
  }

  lemma {:induction false} RunKeeps(s: System, run: seq<Event>)
    requires Inv(s) && Feasible(s, run)
    ensures Inv(After(s, run))
    decreases run
  {
    if run != [] {
      NextKeeps(s, run[0].t, run[0].step);
      RunKeeps(Next(s, run[0].t, run[0].step), run[1..]);
    }
  }

  /** After any run: no step panics, the counts are right, and each space has at most one thread inside. */
  lemma Exclusion(run: seq<Event>, t: Thread, u: Thread, step: Step, id: ID)
    requires Feasible(Start(), run)
    ensures
      var s := After(Start(), run);
      && (Enabled(s, t, step) ==> !Panics(s, t, step))
      && (id in s.table.locks <==> Users(s.threads, id) != {})
      && (id in s.table.locks ==> s.table.locks[id].count == |Users(s.threads, id)|)
      && (t in s.threads && u in s.threads && s.threads[t].Inside? && s.threads[u].Inside? && s.threads[t].id == s.threads[u].id
          ==> t == u)
  {
    StartKeeps();
    RunKeeps(Start(), run);
    var s := After(Start(), run);
    hide Users;
    if id in s.table.locks {
      assert |Users(s.threads, id)| > 0;
    }
    if Enabled(s, t, step) {
      NeverPanics(s, t, step);
    }
  }

  /** Some thread can always go on: a waiting thread waits only for one that is inside or leaving. */
  lemma NoDeadlock(s: System, t: Thread) returns (u: Thread, step: Step)
    requires Inv(s) && t in s.threads
    ensures u in s.threads && Enabled(s, u, step)
  {
    var pc := s.threads[t];
    if pc.Waiting? && pc.mutex in s.owner {
      u := s.owner[pc.mutex];
      step := if s.threads[u].Inside? then Release else Unlock;
    } else {
      u := t;
      step := match pc case Waiting(_, _) => Lock case Inside(_, _) => Release case Leaving(_) => Unlock;
    }
  }

  /** Each space has a mutex of its own. */
  ghost predicate Separate(s: System) {
    forall a, b :: a in s.table.locks && b in s.table.locks && s.table.locks[a].mutex == s.table.locks[b].mutex ==> a == b
  }

  lemma {:induction false} RunSeparate(s: System, run: seq<Event>)
    requires Inv(s) && Separate(s) && Feasible(s, run)
    ensures Separate(After(s, run))
    decreases run
  {
    if run != [] {
      NextKeeps(s, run[0].t, run[0].step);
      NextSeparate(s, run[0].t, run[0].step);
      RunSeparate(Next(s, run[0].t, run[0].step), run[1..]);
    }
  }

  lemma NextSeparate(s: System, t: Thread, step: Step)
    requires Inv(s) && Separate(s) && Enabled(s, t, step) && !Panics(s, t, step)
    ensures Separate(Next(s, t, step))
  {
    hide Users;
  }

  /** After any run a waiting thread waits for nobody, for the one thread inside the same space, or for one that is on
      its way out; never for a thread inside another space. */
  lemma WaitsForSameSpace(run: seq<Event>, t: Thread, u: Thread)
    requires Feasible(Start(), run)
    ensures
      var s := After(Start(), run);
      t in s.threads && s.threads[t].Waiting? && !Enabled(s, t, Lock) && s.owner[s.threads[t].mutex] == u ==>
        u in s.threads && (s.threads[u].Leaving? || (s.threads[u].Inside? && s.threads[u].id == s.threads[t].id))
  {
    StartKeeps();
    RunKeeps(Start(), run);
    RunSeparate(Start(), run);
    hide Users;
  }

  // ---------------------------------------------------------------- the table, updated in place

  class Memory {
    var locks: map<ID, Entry>
    var nextMutex: Mutex

    function Now(): Table
      reads this
    {
      Table(locks, nextMutex)
    }

    constructor ()
      ensures Now() == Start().table
    {
      locks, nextMutex := map[], 0;
    }

    method MakeLock(id: ID) returns (mutex: Mutex)
      modifies this
      ensures Now() == WithUser(old(Now()), id) && mutex == Now().locks[id].mutex
    {
      if id !in locks {
        locks := locks[id := Entry(nextMutex, 0)];
        nextMutex := nextMutex + 1;
      }
      locks := locks[id := locks[id].(count := locks[id].count + 1)];
      mutex := locks[id].mutex;
    }

    /** `None` is the panic on an id that is not in the table. */
    method ReleaseLock(id: ID) returns (mutex: Option<Mutex>)
      requires id in locks ==> locks[id].count > 0
      modifies this
      ensures mutex == if id in old(locks) then Some(old(locks)[id].mutex) else None
      ensures Now() == if id in old(locks) then WithoutUser(old(Now()), id) else old(Now())
    {
      if id !in locks {
        return None;
      }
      mutex := Some(locks[id].mutex);
      locks := locks[id := locks[id].(count := locks[id].count - 1)];
      if locks[id].count == 0 {
        locks := locks - {id};
      }
    }
  }
}
