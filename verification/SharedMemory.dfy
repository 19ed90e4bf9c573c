/** Shared memory between pairs of chains: each chain puts on its peer's side and reads and removes on its own. */
module SharedMemory {
  import opened Prelude
  import opened LinkedList
  import opened Order
  import opened SharedModel
  import opened SharedPages
  import opened SharedReader

  // ---------------------------------------------------------------- one side, updated in place

  function ErrorOf(r: Result<Side>): Option<Error> {
    if r.Ok? then None else Some(r.error)
  }

  /** A failed operation leaves the side as it was. */
  function KeptBy(s: Side, r: Result<Side>): Side {
    if r.Ok? then r.value else s
  }

  class State {
    var values: map<Bytes, Entry>
    var index: map<Bytes, Dict>

    constructor (s: Side)
      ensures Now() == s
    {
      values, index := s.values, s.index;
    }

    function Now(): Side
      reads this
    {
      Side(values, index)
    }

    method SetValue(e: Element) returns (err: Option<Error>)
      modifies this
      ensures err == ErrorOf(SharedModel.SetValue(old(Now()), e))
      ensures Now() == KeptBy(old(Now()), SharedModel.SetValue(old(Now()), e))
    {
      if e.key in values {
        if !values[e.key].present {
          values := values - {e.key};
          return None;
        }
        return Some(Duplicated);
      }
      for i := 0 to |e.traits|
        invariant index == AddTraits(old(index), e.traits[..i], e.key) && values == old(values)
      {
        assert e.traits[..i + 1][..i] == e.traits[..i];
        index := SetList(index, e.traits[i], PutDict(ListOf(index, e.traits[i]), e.key, []));
      }
      assert e.traits[..|e.traits|] == e.traits;
      values := values[e.key := Entry(true, e.value, e.traits)];
      err := None;
    }

    method RemoveValue(k: Bytes) returns (err: Option<Error>)
      modifies this
      ensures err == ErrorOf(SharedModel.RemoveValue(old(Now()), k))
      ensures Now() == KeptBy(old(Now()), SharedModel.RemoveValue(old(Now()), k))
    {
      if k !in values {
        values := values[k := Entry(false, [], [])];
        return None;
      }
      var traits := values[k].traits;
      if !values[k].present {
        return Some(Duplicated);
      }
      for i := 0 to |traits|
        invariant index == RemoveTraits(old(index), traits[..i], k) && values == old(values)
      {
        assert traits[..i + 1][..i] == traits[..i];
        index := SetList(index, traits[i], DeleteDict(ListOf(index, traits[i]), k));
      }
      assert traits[..|traits|] == traits;
      values := values - {k};
      err := None;
    }
  }

  // ---------------------------------------------------------------- batches

  function PutAll(s: Side, elems: seq<Element>): Result<Side> {
    if elems == [] then Ok(s)
    else
      var r := PutAll(s, elems[..|elems| - 1]);
      if r.Err? then r else SetValue(r.value, elems[|elems| - 1])
  }

  function RemoveAll(s: Side, keys: seq<Bytes>): Result<Side> {
    if keys == [] then Ok(s)
    else
      var r := RemoveAll(s, keys[..|keys| - 1]);
      if r.Err? then r else RemoveValue(r.value, keys[|keys| - 1])
  }

  lemma {:induction false} PutAllConsistent(s: Side, elems: seq<Element>)
    requires Consistent(s)
    ensures PutAll(s, elems).Ok? ==> Consistent(PutAll(s, elems).value)
  {
    hide Consistent;
    if elems != [] && PutAll(s, elems).Ok? {
      PutAllConsistent(s, elems[..|elems| - 1]);
      SetValueConsistent(PutAll(s, elems[..|elems| - 1]).value, elems[|elems| - 1]);
    }
  }

  lemma {:induction false} RemoveAllConsistent(s: Side, keys: seq<Bytes>)
    requires Consistent(s)
    ensures RemoveAll(s, keys).Ok? ==> Consistent(RemoveAll(s, keys).value)
  {
    hide Consistent;
    if keys != [] && RemoveAll(s, keys).Ok? {
      RemoveAllConsistent(s, keys[..|keys| - 1]);
      RemoveValueConsistent(RemoveAll(s, keys[..|keys| - 1]).value, keys[|keys| - 1]);
    }
  }

  /** The first failing element decides: once a prefix fails, so does the batch. */
  lemma {:induction false} PutPrefixFails(s: Side, elems: seq<Element>, i: nat)
    requires i <= |elems| && PutAll(s, elems[..i]).Err?
    ensures PutAll(s, elems) == PutAll(s, elems[..i])
  {
    if i < |elems| {
      assert elems[..|elems| - 1][..i] == elems[..i];
      PutPrefixFails(s, elems[..|elems| - 1], i);
    } else {
      assert elems[..i] == elems;
    }
  }

  lemma {:induction false} RemovePrefixFails(s: Side, keys: seq<Bytes>, i: nat)
    requires i <= |keys| && RemoveAll(s, keys[..i]).Err?
    ensures RemoveAll(s, keys) == RemoveAll(s, keys[..i])
  {
    if i < |keys| {
      assert keys[..|keys| - 1][..i] == keys[..i];
      RemovePrefixFails(s, keys[..|keys| - 1], i);
    } else {
      assert keys[..i] == keys;
    }
  }

  // ---------------------------------------------------------------- what a batch makes readable

  ghost predicate DistinctKeys(elems: seq<Element>) {
    forall i, j :: 0 <= i < j < |elems| ==> elems[i].key != elems[j].key
  }

  ghost predicate PutsKey(elems: seq<Element>, k: Bytes) {
    exists i :: 0 <= i < |elems| && elems[i].key == k
  }

  /** A batch of elements with unknown keys, none twice, makes each of them readable and changes no other key. */
  lemma {:induction false} PutAllReads(s: Side, elems: seq<Element>, k: Bytes)
    requires DistinctKeys(elems) && forall i :: 0 <= i < |elems| ==> StatusOf(s, elems[i].key) == Unknown
    ensures PutAll(s, elems).Ok?
    ensures forall i :: 0 <= i < |elems| && elems[i].key == k ==> StatusOf(PutAll(s, elems).value, k) == Stored(elems[i])
    ensures !PutsKey(elems, k) ==> StatusOf(PutAll(s, elems).value, k) == StatusOf(s, k)
  {
    hide SetValue, StatusOf;
    if elems != [] {
      var rest, last := elems[..|elems| - 1], elems[|elems| - 1];
      assert forall i :: 0 <= i < |rest| ==> rest[i] == elems[i];
      PutAllReads(s, rest, last.key);
      assert !PutsKey(rest, last.key);
      PutReads(PutAll(s, rest).value, last, k);
      PutReads(PutAll(s, rest).value, last, last.key);
      PutAllReads(s, rest, k);
      assert PutsKey(elems, last.key);
      assert PutsKey(rest, k) ==> PutsKey(elems, k);
    }
  }

  /** No put replaces or hides what is readable. */
  lemma {:induction false} PutAllKeeps(s: Side, elems: seq<Element>, k: Bytes)
    requires StatusOf(s, k).Stored? && PutAll(s, elems).Ok?
    ensures StatusOf(PutAll(s, elems).value, k) == StatusOf(s, k)
  {
    hide SetValue, StatusOf;
    if elems != [] {
      var rest, last := elems[..|elems| - 1], elems[|elems| - 1];
      PutAllKeeps(s, rest, k);
      PutReads(PutAll(s, rest).value, last, k);
    }
  }

  /** Removing other keys leaves it. */
  lemma {:induction false} RemoveAllKeeps(s: Side, keys: seq<Bytes>, k: Bytes)
    requires k !in keys && RemoveAll(s, keys).Ok?
    ensures StatusOf(RemoveAll(s, keys).value, k) == StatusOf(s, k)
  {
    hide RemoveValue, StatusOf;
    if keys != [] {
      RemoveAllKeeps(s, keys[..|keys| - 1], k);
      RemoveReads(RemoveAll(s, keys[..|keys| - 1]).value, keys[|keys| - 1], k);
    }
  }

  // ---------------------------------------------------------------- which side an operation works on

  /** A space is named by its two chain ids in order; its larger side belongs to the larger id. */
  datatype Where = Where(low: Bytes, high: Bytes, larger: bool)

  function PeerSide(chain: Bytes, peer: Bytes): Where {
    Where(if Less(peer, chain) then peer else chain, if Less(peer, chain) then chain else peer, Less(chain, peer))
  }

  function OwnSide(chain: Bytes, peer: Bytes): Where {
    PeerSide(chain, peer).(larger := !Less(chain, peer))
  }

  /** What `a` puts for `b` is what `b` reads with peer `a`, and no other chain or peer reads it. */
  lemma OnlyPeerReads(a: Bytes, b: Bytes, x: Bytes, y: Bytes)
    requires a != b && x != y
    ensures PeerSide(a, b) == OwnSide(x, y) <==> x == b && y == a
  {
    LessTotal(a, b);
    LessAsymmetric(a, b);
    LessTotal(x, y);
    LessAsymmetric(x, y);
  }

  function EmptySide(): Side { Side(map[], map[]) }

  function SideAt(mem: map<Where, Side>, w: Where): Side {
    if w in mem then mem[w] else EmptySide()
  }

  // ---------------------------------------------------------------- whole runs

  datatype Op = PutOp(chain: Bytes, peer: Bytes, elems: seq<Element>) | RemoveOp(chain: Bytes, peer: Bytes, keys: seq<Bytes>)

  function Target(op: Op): Where {
    if op.PutOp? then PeerSide(op.chain, op.peer) else OwnSide(op.chain, op.peer)
  }

  function Applied(s: Side, op: Op): Result<Side> {
    if op.PutOp? then PutAll(s, op.elems) else RemoveAll(s, op.keys)
  }

  function Step(mem: map<Where, Side>, op: Op): map<Where, Side> {
    mem[Target(op) := KeptBy(SideAt(mem, Target(op)), Applied(SideAt(mem, Target(op)), op))]
  }

  function Run(mem: map<Where, Side>, ops: seq<Op>): map<Where, Side> {
    if ops == [] then mem else Step(Run(mem, ops[..|ops| - 1]), ops[|ops| - 1])
  }

  ghost predicate AllConsistent(mem: map<Where, Side>) {
    forall w :: Consistent(SideAt(mem, w))
  }

  lemma StepConsistent(mem: map<Where, Side>, op: Op)
    requires AllConsistent(mem)
    ensures AllConsistent(Step(mem, op))
  {
    hide Consistent;
    var w := Target(op);
    assert Consistent(SideAt(mem, w));
    if op.PutOp? {
      PutAllConsistent(SideAt(mem, w), op.elems);
    } else {
      RemoveAllConsistent(SideAt(mem, w), op.keys);
    }
    forall x
      ensures Consistent(SideAt(Step(mem, op), x))
    {
      assert Consistent(SideAt(mem, x));
    }
  }

  /** Every run of puts and removals, failed ones included, keeps every trait list equal to what the elements say. */
  lemma {:induction false} RunConsistent(ops: seq<Op>)
    ensures AllConsistent(Run(map[], ops))
  {
    if ops == [] {
      EmptyConsistent();
    } else {
      RunConsistent(ops[..|ops| - 1]);
      StepConsistent(Run(map[], ops[..|ops| - 1]), ops[|ops| - 1]);
    }
  }

  lemma EmptyConsistent()
    ensures Consistent(EmptySide())
  {
  }

  /** An operation changes what one chain reads only if it is that chain's removal or its peer's put. */
  lemma StepVisible(mem: map<Where, Side>, op: Op, x: Bytes, y: Bytes)
    requires op.chain != op.peer && x != y
    requires !(op.PutOp? && x == op.peer && y == op.chain) && !(op.RemoveOp? && x == op.chain && y == op.peer)
    ensures SideAt(Step(mem, op), OwnSide(x, y)) == SideAt(mem, OwnSide(x, y))
  {
    OnlyPeerReads(op.chain, op.peer, x, y);
    OnlyPeerReads(op.peer, op.chain, x, y);
    OnlyPeerReads(op.peer, op.chain, op.chain, op.peer);
  }

  /** An operation by which a chain removes a key that its peer put for it. */
  predicate Removes(op: Op, chain: Bytes, peer: Bytes, k: Bytes) {
    op.RemoveOp? && op.chain == chain && op.peer == peer && k in op.keys
  }

  lemma OwnSideOnly(a: Bytes, b: Bytes, x: Bytes, y: Bytes)
    requires a != b && OwnSide(x, y) == OwnSide(a, b)
    ensures x == a && y == b
  {
    LessTotal(a, b);
    LessAsymmetric(a, b);
    LessTotal(x, y);
    LessAsymmetric(x, y);
  }

  lemma StepKeepsStored(mem: map<Where, Side>, op: Op, b: Bytes, a: Bytes, k: Bytes)
    requires a != b && StatusOf(SideAt(mem, OwnSide(b, a)), k).Stored? && !Removes(op, b, a, k)
    ensures StatusOf(SideAt(Step(mem, op), OwnSide(b, a)), k) == StatusOf(SideAt(mem, OwnSide(b, a)), k)
  {
    hide StatusOf, PutAll, RemoveAll, OwnSide, PeerSide;
    var s := SideAt(mem, OwnSide(b, a));
    if Target(op) == OwnSide(b, a) && Applied(s, op).Ok? {
      if op.PutOp? {
        PutAllKeeps(s, op.elems, k);
      } else {
        OwnSideOnly(b, a, op.chain, op.peer);
        RemoveAllKeeps(s, op.keys, k);
      }
    }
  }

  lemma {:induction false} RunKeepsStored(mem: map<Where, Side>, ops: seq<Op>, b: Bytes, a: Bytes, k: Bytes)
    requires a != b && StatusOf(SideAt(mem, OwnSide(b, a)), k).Stored?
    requires forall i :: 0 <= i < |ops| ==> !Removes(ops[i], b, a, k)
    ensures StatusOf(SideAt(Run(mem, ops), OwnSide(b, a)), k) == StatusOf(SideAt(mem, OwnSide(b, a)), k)
  {
    hide StatusOf, OwnSide, Step;
    if ops != [] {
      RunKeepsStored(mem, ops[..|ops| - 1], b, a, k);
      StepKeepsStored(Run(mem, ops[..|ops| - 1]), ops[|ops| - 1], b, a, k);
    }
  }

  /** What one chain puts under new keys, none twice, its peer can read, value and traits, through everything that
      follows until it removes it. */
  lemma PutThenRead(mem: map<Where, Side>, a: Bytes, b: Bytes, elems: seq<Element>, i: nat, more: seq<Op>)
    requires a != b && DistinctKeys(elems) && i < |elems|
    requires forall j :: 0 <= j < |elems| ==> StatusOf(SideAt(mem, OwnSide(b, a)), elems[j].key) == Unknown
    requires forall j :: 0 <= j < |more| ==> !Removes(more[j], b, a, elems[i].key)
    ensures
      var mem' := Run(Step(mem, PutOp(a, b, elems)), more);
      Value(SideAt(mem', OwnSide(b, a)), elems[i].key) == Ok(elems[i])
  {
    hide OwnSide, PeerSide, PutAll, Value;
    OnlyPeerReads(a, b, b, a);
    var k := elems[i].key;
    PutAllReads(SideAt(mem, OwnSide(b, a)), elems, k);
    RunKeepsStored(Step(mem, PutOp(a, b, elems)), more, b, a, k);
  }

  /** A put by one chain and the removal by the other of a key that starts absent meet in either order. */
  lemma OpsCommute(mem: map<Where, Side>, a: Bytes, b: Bytes, e: Element, w: Where)
    requires a != b && AllConsistent(mem) && e.key !in SideAt(mem, OwnSide(b, a)).values
    ensures
      var put, remove := PutOp(a, b, [e]), RemoveOp(b, a, [e.key]);
      SideAt(Run(mem, [put, remove]), w) == SideAt(mem, w) == SideAt(Run(mem, [remove, put]), w)
  {
    hide Consistent, SetValue, RemoveValue;
    var put, remove := PutOp(a, b, [e]), RemoveOp(b, a, [e.key]);
    OnlyPeerReads(a, b, b, a);
    var s := SideAt(mem, OwnSide(b, a));
    PutRemoveCommute(s, e);
    RunTwo(mem, put, remove);
    RunTwo(mem, remove, put);
    OneElement(s, e);
    OneElement(RemoveValue(s, e.key).value, e);
    OneElement(SetValue(s, e).value, e);
  }

  lemma RunTwo(mem: map<Where, Side>, p: Op, q: Op)
    ensures Run(mem, [p, q]) == Step(Step(mem, p), q)
  {
    assert [p, q][..1] == [p] && [p][..0] == [];
    assert Run(mem, [p]) == Step(mem, p);
  }

  lemma OneElement(s: Side, e: Element)
    ensures PutAll(s, [e]) == SetValue(s, e) && RemoveAll(s, [e.key]) == RemoveValue(s, e.key)
  {
    hide SetValue, RemoveValue;
    assert [e][..0] == [] && [e.key][..0] == [];
  }

  // ---------------------------------------------------------------- the operations

  class Memory {
    var sides: map<Where, Side>

    method Put(chain: Bytes, peer: Bytes, elems: seq<Element>) returns (err: Option<Error>)
      modifies this
      ensures err == ErrorOf(PutAll(SideAt(old(sides), PeerSide(chain, peer)), elems))
      ensures err == None ==> sides == Step(old(sides), PutOp(chain, peer, elems))
      ensures err != None ==> sides == old(sides)
    {
      var s := SideAt(sides, PeerSide(chain, peer));
      var state := new State(s);
      for i := 0 to |elems|
        invariant PutAll(s, elems[..i]) == Ok(state.Now()) && sides == old(sides)
      {
        assert elems[..i + 1][..i] == elems[..i];
        err := state.SetValue(elems[i]);
        if err != None {
          PutPrefixFails(s, elems, i + 1);
          return;
        }
      }
      assert elems[..|elems|] == elems;
      sides := sides[PeerSide(chain, peer) := state.Now()];
      err := None;
    }

    method Remove(chain: Bytes, peer: Bytes, keys: seq<Bytes>) returns (err: Option<Error>)
      modifies this
      ensures err == ErrorOf(RemoveAll(SideAt(old(sides), OwnSide(chain, peer)), keys))
      ensures err == None ==> sides == Step(old(sides), RemoveOp(chain, peer, keys))
      ensures err != None ==> sides == old(sides)
    {
      var s := SideAt(sides, OwnSide(chain, peer));
      var state := new State(s);
      for i := 0 to |keys|
        invariant RemoveAll(s, keys[..i]) == Ok(state.Now()) && sides == old(sides)
      {
        assert keys[..i + 1][..i] == keys[..i];
        err := state.RemoveValue(keys[i]);
        if err != None {
          RemovePrefixFails(s, keys, i + 1);
          return;
        }
      }
      assert keys[..|keys|] == keys;
      sides := sides[OwnSide(chain, peer) := state.Now()];
      err := None;
    }

    /** The values of all the keys, or not found when any of them is missing. */
    method Get(chain: Bytes, peer: Bytes, keys: seq<Bytes>) returns (r: Result<seq<Bytes>>)
      ensures r.Ok? <==> forall i :: 0 <= i < |keys| ==> Value(SideAt(sides, OwnSide(chain, peer)), keys[i]).Ok?
      ensures r.Err? ==> r.error == NotFound
      ensures r.Ok? ==> |r.value| == |keys| &&
                        forall i :: 0 <= i < |keys| ==>
                                      r.value[i] == Value(SideAt(sides, OwnSide(chain, peer)), keys[i]).value.value
    {
      r := Fetch(SideAt(sides, OwnSide(chain, peer)), keys);
    }

    /** A page of values by trait. On a consistent side the lookup of an indexed key never fails. */
    method Indexed(chain: Bytes, peer: Bytes, traits: seq<Bytes>, startTrait: Bytes, startKey: Bytes, limit: int)
      returns (r: Result<seq<Bytes>>, lastTrait: Bytes, lastKey: Bytes, ghost ts: seq<Bytes>, ghost keys: seq<Bytes>)
      requires Consistent(SideAt(sides, OwnSide(chain, peer)))
      ensures Ordered(ts) && multiset(ts) == multiset(traits)
      ensures
        var todo := From(SideAt(sides, OwnSide(chain, peer)).index, ts, Pos(startTrait, startKey));
        var p := Collect(todo, {}, Cap(limit));
        && keys == p.keys
        && (|keys| == limit > 0 ==> 0 < p.visited <= |todo| && Pos(lastTrait, lastKey) == todo[p.visited - 1])
        && (|keys| < limit ==>
              Pos(lastTrait, lastKey) == EndOf(SideAt(sides, OwnSide(chain, peer)).index, ts, Pos(startTrait, startKey)))
      ensures r.Ok? && |r.value| == |keys| <= Cap(limit) && Distinct(keys)
      ensures
        var s := SideAt(sides, OwnSide(chain, peer));
        forall i :: 0 <= i < |keys| ==>
                      && Value(s, keys[i]).Ok?
                      && r.value[i] == Value(s, keys[i]).value.value
                      && CarriesAny(s, keys[i], traits)
    {
      var s := SideAt(sides, OwnSide(chain, peer));
      var sorted := SortTraits(traits);
      var page;
      page, lastTrait, lastKey := GetKeys(s.index, sorted, startTrait, startKey, limit);
      ts, keys := sorted, page;
      assert forall t :: t in sorted ==> t in multiset(sorted);
      PagePresent(s, ts, Pos(startTrait, startKey), Cap(limit));
      r := Fetch(s, page);
    }
  }

  /** The same through the calls: a put of new keys succeeds, and the peer then gets exactly the values put. */
  method PutAndGet(m: Memory, a: Bytes, b: Bytes, elems: seq<Element>) returns (values: seq<Bytes>)
    requires a != b && DistinctKeys(elems)
    requires forall j :: 0 <= j < |elems| ==> StatusOf(SideAt(m.sides, OwnSide(b, a)), elems[j].key) == Unknown
    modifies m
    ensures |values| == |elems| && forall i :: 0 <= i < |elems| ==> values[i] == elems[i].value
  {
    hide OwnSide, PeerSide, PutAll, Value, Step;
    OnlyPeerReads(a, b, b, a);
    PutAllReads(SideAt(m.sides, OwnSide(b, a)), elems, []);
    ghost var before := m.sides;
    var err := m.Put(a, b, elems);
    var keys := seq(|elems|, i requires 0 <= i < |elems| => elems[i].key);
    forall i | 0 <= i < |elems|
      ensures Value(SideAt(m.sides, OwnSide(b, a)), keys[i]) == Ok(elems[i])
    {
      PutThenRead(before, a, b, elems, i, []);
    }
    var r := m.Get(b, a, keys);
    values := r.value;
  }

  method Fetch(s: Side, keys: seq<Bytes>) returns (r: Result<seq<Bytes>>)
    ensures r.Ok? <==> forall i :: 0 <= i < |keys| ==> Value(s, keys[i]).Ok?
    ensures r.Err? ==> r.error == NotFound
    ensures r.Ok? ==> |r.value| == |keys| && forall i :: 0 <= i < |keys| ==> r.value[i] == Value(s, keys[i]).value.value
  {
    var values := [];
    for i := 0 to |keys|
      invariant |values| == i
      invariant forall j :: 0 <= j < i ==> Value(s, keys[j]).Ok? && values[j] == Value(s, keys[j]).value.value
    {
      var e := Value(s, keys[i]);
      if e.Err? {
        return Err(NotFound);
      }
      values := values + [e.value.value];
    }
    r := Ok(values);
  }

  ghost predicate CarriesAny(s: Side, k: Bytes, traits: seq<Bytes>) {
    exists t :: t in traits && Carries(s, k, t)
  }

  /** Every key on a page belongs to a present element that carries one of the traits. */
  lemma PagePresent(s: Side, ts: seq<Bytes>, start: Pos, limit: nat)
    requires Consistent(s)
    ensures
      var keys := Collect(From(s.index, ts, start), {}, limit).keys;
      && |keys| <= limit
      && Distinct(keys)
      && forall i :: 0 <= i < |keys| ==> CarriesAny(s, keys[i], ts)
  {
    var todo := From(s.index, ts, start);
    CollectFacts(todo, {}, limit);
    var keys := Collect(todo, {}, limit).keys;
    forall i | 0 <= i < |keys|
      ensures CarriesAny(s, keys[i], ts)
    {
      CollectCovers(todo, {}, limit, keys[i]);
      var j :| 0 <= j < |todo| && todo[j].key == keys[i];
      FromListed(s.index, ts, start, j);
      assert Carries(s, keys[i], todo[j].feature);
    }
  }

  lemma {:induction false} FromListed(index: map<Bytes, Dict>, ts: seq<Bytes>, start: Pos, j: nat)
    requires j < |From(index, ts, start)|
    ensures
      var p := From(index, ts, start)[j];
      p.feature in ts && p.key in ListOf(index, p.feature).keys
  {
    if Less(ts[0], start.feature) {
      FromListed(index, ts[1..], start, j);
    } else {
      var key := if Less(start.feature, ts[0]) then [] else start.key;
      var row := Row(ts[0], StartingAt(ListOf(index, ts[0]).keys, key));
      if j >= |row| {
        FromListed(index, ts[1..], start.(key := key), j - |row|);
      }
    }
  }
}
