/** The index of accepted containers, persisted through a versioned database, across crashes and failed commits. */
module Index {
  import opened Prelude

  const MAX_FETCHED_BY_RANGE := 1024

  datatype Container = Container(id: Bytes, bytes: Bytes, timestamp: int)

  /** The three kinds of entries; the next index is missing before the first container. */
  datatype Store = Store(byIndex: map<nat, Container>, byID: map<Bytes, nat>, next: Option<nat>)

  function NextOf(st: Store): nat {
    if st.next.Some? then st.next.value else 0
  }

  /** What is on disk, what is read through the versioned database, and the index kept in memory. */
  datatype State = State(base: Store, view: Store, next: nat)

  /** The containers in order of acceptance. */
  function Log(st: Store): seq<Container>
    requires Dense(st)
  {
    seq(NextOf(st), i requires 0 <= i < NextOf(st) => st.byIndex[i])
  }

  ghost predicate Dense(st: Store) {
    forall i :: i in st.byIndex <==> 0 <= i < NextOf(st)
  }

  /** Indices are exactly those below the next one, and the two maps are inverse. */
  ghost predicate Bijection(st: Store) {
    && Dense(st)
    && (forall i :: i in st.byIndex ==> st.byIndex[i].id in st.byID && st.byID[st.byIndex[i].id] == i)
    && (forall id :: id in st.byID ==> st.byID[id] in st.byIndex && st.byIndex[st.byID[id]].id == id)
  }

  ghost predicate Valid(s: State) {
    && Bijection(s.base) && Bijection(s.view)
    && s.next == NextOf(s.view)
    && Log(s.base) <= Log(s.view)
  }

  // ---------------------------------------------------------------- what can happen

  function Added(st: Store, next: nat, c: Container): Store {
    Store(st.byIndex[next := c], st.byID[c.id := next], Some(next + 1))
  }

  /** A known container is left alone. Otherwise the entries are written, and then committed unless that fails. */
  function Accepted(s: State, c: Container, commits: bool): State {
    if c.id in s.view.byID then s
    else
      var view := Added(s.view, s.next, c);
      State(if commits then view else s.base, view, s.next + 1)
  }

  /** A crash at any point loses what is not on disk; reopening reads the next index back. */
  function Reopened(s: State): State {
    State(s.base, s.base, NextOf(s.base))
  }

  datatype Event = Accept(c: Container, commits: bool) | Crash

  function Next(s: State, e: Event): State {
    match e
    case Accept(c, commits) => Accepted(s, c, commits)
    case Crash => Reopened(s)
  }

  function Run(events: seq<Event>): State {
    if events == [] then State(Store(map[], map[], None), Store(map[], map[], None), 0)
    else Next(Run(events[..|events| - 1]), events[|events| - 1])
  }

  // ---------------------------------------------------------------- what every run keeps

  lemma AddedKeeps(st: Store, c: Container)
    requires Bijection(st) && c.id !in st.byID
    ensures Bijection(Added(st, NextOf(st), c)) && Log(Added(st, NextOf(st), c)) == Log(st) + [c]
  {
  }

  lemma AcceptKeeps(s: State, c: Container, commits: bool)
    requires Valid(s)
    ensures
      var s' := Accepted(s, c, commits);
      && Valid(s')
      && c.id in s'.view.byID
      && (c.id in s.view.byID ==> s' == s)
      && (c.id !in s.view.byID ==> Log(s'.view) == Log(s.view) + [c] && s'.view.byID[c.id] == |Log(s.view)|)
      && (c.id !in s.view.byID && commits ==> s'.base == s'.view)
      && (!commits ==> s'.base == s.base)
  {
    if c.id !in s.view.byID {
      AddedKeeps(s.view, c);
    }
  }

  /** Through any accepts, failed commits and crashes the disk always holds a bijection with exactly the indices below
      the next, and memory only runs ahead of it. */
  lemma {:induction false} RunKeeps(events: seq<Event>)
    ensures Valid(Run(events))
  {
    if events != [] {
      RunKeeps(events[..|events| - 1]);
      var s, e := Run(events[..|events| - 1]), events[|events| - 1];
      if e.Accept? {
        AcceptKeeps(s, e.c, e.commits);
      }
    }
  }

  /** A committed container survives everything that follows, at the index it was given. */
  lemma {:induction false} CommittedStays(events: seq<Event>, more: seq<Event>)
    ensures Valid(Run(events)) && Valid(Run(events + more))
    ensures Log(Run(events).base) <= Log(Run(events + more).base)
  {
    hide Valid, Log, Next;
    RunKeeps(events);
    RunKeeps(events + more);
    if more == [] {
      assert events + more == events;
    } else {
      var init, e := more[..|more| - 1], more[|more| - 1];
      assert (events + more)[..|events + more| - 1] == events + init;
      CommittedStays(events, init);
      NextOnDisk(Run(events + init), e);
    }
  }

  lemma NextOnDisk(s: State, e: Event)
    requires Valid(s)
    ensures Valid(Next(s, e)) && Log(s.base) <= Log(Next(s, e).base)
  {
    if e.Accept? {
      AcceptKeeps(s, e.c, e.commits);
    }
  }

  // ---------------------------------------------------------------- the index object

  datatype Error = NoneAccepted | NumToFetchZero | TooMany | NoContainer | NotFound

  datatype Result<T> = Ok(value: T) | Err(error: Error)

  /** What Go's zero value of a container holds: an id of 32 zero bytes and nothing else. */
  function ZeroContainer(): Container {
    Container(seq(32, _ => 0), [], 0)
  }

  /** The 64-bit signed number with the same bits. */
  function ToInt64(x: int): (r: int)
    ensures -0x8000_0000_0000_0000 <= r <= 0x7fff_ffff_ffff_ffff && (r - x) % (MAX_UINT64 + 1) == 0
  {
    var u := x % (MAX_UINT64 + 1);
    if u > 0x7fff_ffff_ffff_ffff then u - (MAX_UINT64 + 1) else u
  }

  /** Subtracting in signed arithmetic gives the difference modulo 2^64. */
  lemma Int64Length(start: nat, last: nat, length: nat)
    requires start <= MAX_UINT64 && last <= MAX_UINT64 && length <= MAX_FETCHED_BY_RANGE
    requires length == last - start + 1 || length == last - start + 1 + MAX_UINT64 + 1
    ensures ToInt64(ToInt64(last) - ToInt64(start) + 1) == length
  {
    var m := MAX_UINT64 + 1;
    var a, b := ToInt64(last), ToInt64(start);
    assert (a == last || a == last - m) && (b == start || b == start - m);
    var x := a - b + 1;
    assert x == length || x == length - m || x == length + m || x == length - 2 * m;
    Modulo(x, length);
  }

  lemma Modulo(x: int, y: nat)
    requires y <= MAX_FETCHED_BY_RANGE
    requires
      var m := MAX_UINT64 + 1;
      x == y || x == y - m || x == y + m || x == y - 2 * m
    ensures x % (MAX_UINT64 + 1) == y
  {
  }

  /** The last index and the length of a range, as computed in 64 bits: the clipped end, or an end below the start
      when it wraps around, and then the length is still what was asked for. */
  lemma RangeEnds(start: nat, num: nat, lastAccepted: nat)
    requires start <= lastAccepted < MAX_UINT64 && 0 < num <= MAX_FETCHED_BY_RANGE
    ensures
      var end := (start + num - 1) % (MAX_UINT64 + 1);
      var last := if end < lastAccepted then end else lastAccepted;
      var length := ToInt64(ToInt64(last) - ToInt64(start) + 1);
      if start + num > MAX_UINT64 + 1 then last < start && length == num
      else last == (if start + num - 1 < lastAccepted then start + num - 1 else lastAccepted) && length == last - start + 1
  {
    hide ToInt64;
    var end := (start + num - 1) % (MAX_UINT64 + 1);
    var last := if end < lastAccepted then end else lastAccepted;
    Int64Length(start, last, if start + num > MAX_UINT64 + 1 then num else last - start + 1);
  }

  class Indexer {
    var base: Store
    var view: Store
    var nextAcceptedIndex: nat

    /** Opening reads the next index from disk. */
    constructor (disk: Store)
      requires Bijection(disk)
      ensures Valid(Now()) && forall s: State :: s.base == disk ==> Now() == Reopened(s)
    {
      base, view := disk, disk;
      nextAcceptedIndex := if disk.next.Some? then disk.next.value else 0;
    }

    function Now(): State
      reads this
    {
      State(base, view, nextAcceptedIndex)
    }

    /** `commits` is whether the final commit succeeds. */
    method Accept(id: Bytes, bytes: Bytes, time: int, commits: bool) returns (ok: bool)
      requires Valid(Now()) && nextAcceptedIndex < MAX_UINT64
      modifies this
      ensures Valid(Now()) && Now() == Accepted(old(Now()), Container(id, bytes, time), commits)
      ensures ok == (commits || id in old(view).byID)
    {
      AcceptKeeps(Now(), Container(id, bytes, time), commits);
      if id in view.byID {
        return true;
      }
      view := view.(byIndex := view.byIndex[nextAcceptedIndex := Container(id, bytes, time)]);
      view := view.(byID := view.byID[id := nextAcceptedIndex]);
      nextAcceptedIndex := nextAcceptedIndex + 1;
      view := view.(next := Some(nextAcceptedIndex));
      if commits {
        base := view;
      }
      ok := commits;
    }

    method GetContainerByIndex(i: nat) returns (r: Result<Container>)
      requires Valid(Now())
      ensures r == if i < |Log(view)| then Ok(Log(view)[i]) else Err(NoContainer)
    {
      if nextAcceptedIndex == 0 || i > nextAcceptedIndex - 1 {
        return Err(NoContainer);
      }
      r := Ok(view.byIndex[i]);
    }

    /** The contiguous slice from `start`, clipped to the last accepted container. The end is computed in 64 bits; when
        it wraps around, nothing is fetched and the result is as many zero containers as were asked for. */
    method GetContainerRange(start: nat, num: nat) returns (r: Result<seq<Container>>)
      requires Valid(Now()) && start <= MAX_UINT64 && nextAcceptedIndex <= MAX_UINT64
      ensures
        var log := Log(view);
        r == if num == 0 then Err(NumToFetchZero)
             else if num > 1024 then Err(TooMany)
             else if log == [] then Err(NoneAccepted)
             else if start >= |log| then Err(NoContainer)
             else if start + num > MAX_UINT64 + 1 then Ok(seq(num, _ => ZeroContainer()))
             else Ok(log[start..if start + num < |log| then start + num else |log|])
    {
      if num == 0 {
        return Err(NumToFetchZero);
      }
      if num > MAX_FETCHED_BY_RANGE {
        return Err(TooMany);
      }
      if nextAcceptedIndex == 0 {
        return Err(NoneAccepted);
      }
      var lastAccepted := nextAcceptedIndex - 1;
      if start > lastAccepted {
        return Err(NoContainer);
      }
      var end := (start + num - 1) % (MAX_UINT64 + 1);
      var last := if end < lastAccepted then end else lastAccepted;
      RangeEnds(start, num, lastAccepted);
      hide ToInt64;
      var containers := Fetch(start, last, ToInt64(ToInt64(last) - ToInt64(start) + 1));
      r := Ok(containers);
    }

    /** The loop that fills a slice of zero containers. */
    method Fetch(start: nat, last: nat, length: nat) returns (containers: seq<Container>)
      requires Valid(Now()) && last < |Log(view)| && (start <= last ==> length == last - start + 1)
      ensures containers == if last < start then seq(length, _ => ZeroContainer()) else Log(view)[start..last + 1]
    {
      containers := seq(length, _ => ZeroContainer());
      var j, n := start, 0;
      while j <= last
        invariant last < start ==> j == start && containers == seq(length, _ => ZeroContainer())
        invariant start <= last ==> start <= j <= last + 1 && n == j - start
        invariant start <= last ==> |containers| == length && containers[..n] == Log(view)[start..j]
      {
        var c := GetContainerByIndex(j);
        ghost var before := containers;
        containers := containers[n := c.value];
        assert containers[..n + 1] == before[..n] + [c.value];
        assert Log(view)[start..j + 1] == Log(view)[start..j] + [Log(view)[j]];
        j, n := j + 1, n + 1;
      }
      assert start <= last ==> containers[..n] == containers;
    }

    method GetIndex(id: Bytes) returns (r: Result<nat>)
      requires Valid(Now())
      ensures r.Ok? ==> r.value < |Log(view)| && Log(view)[r.value].id == id
      ensures r.Err? ==> r.error == NotFound && forall i :: 0 <= i < |Log(view)| ==> Log(view)[i].id != id
    {
      if id !in view.byID {
        return Err(NotFound);
      }
      r := Ok(view.byID[id]);
    }

    method GetContainerByID(id: Bytes) returns (r: Result<Container>)
      requires Valid(Now())
      ensures r.Ok? ==> r.value in Log(view) && r.value.id == id
      ensures r.Err? ==> r.error == NotFound && forall i :: 0 <= i < |Log(view)| ==> Log(view)[i].id != id
    {
      if id !in view.byID {
        return Err(NotFound);
      }
      var i := view.byID[id];
      assert Log(view)[i] == view.byIndex[i];
      r := Ok(view.byIndex[i]);
    }

    method GetLastAccepted() returns (r: Result<Container>)
      requires Valid(Now())
      ensures r == if Log(view) == [] then Err(NoneAccepted) else Ok(Log(view)[|Log(view)| - 1])
    {
      if nextAcceptedIndex == 0 {
        return Err(NoneAccepted);
      }
      r := GetContainerByIndex(nextAcceptedIndex - 1);
    }
  }
}
