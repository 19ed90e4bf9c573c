/** Iterating a linkeddb, and what its order means for a history of writes. */
module LinkedIterator {
  import opened Prelude
  import opened LinkedList
  import opened LinkedDB

  /** The pairs of a dictionary, newest key first. */
  function Entries(d: Dict): seq<(Bytes, Bytes)>
    requires WellFormed(d)
  {
    seq(|d.keys|, i requires 0 <= i < |d.keys| => assert d.keys[i] in d.keys; (d.keys[i], d.vals[d.keys[i]]))
  }

  class Iterator {
    const ldb: Database
    var initialized: bool
    var exhausted: bool
    var key: Bytes
    var value: Bytes
    var nextKey: Bytes
    /** Position of the next pair to be yielded. */
    ghost var pos: nat

    ghost predicate Valid(d: Dict)
      reads this, ldb
    {
      && ldb.Valid(d) && pos <= |d.keys|
      && (exhausted ==> pos == |d.keys|)
      && (!exhausted && !initialized ==> pos == 0)
      && (!exhausted && initialized ==> pos < |d.keys| && nextKey == d.keys[pos])
    }

    constructor (ldb: Database, ghost d: Dict)
      requires ldb.Valid(d)
      ensures Valid(d) && pos == 0 && this.ldb == ldb
    {
      this.ldb := ldb;
      initialized, exhausted, key, value, nextKey, pos := false, false, [], [], [], 0;
    }

    /** Starts at `start` if it is in the list, at the head otherwise. */
    constructor WithStart(ldb: Database, start: Bytes, ghost d: Dict)
      requires ldb.Valid(d)
      ensures Valid(d) && this.ldb == ldb
      ensures pos == if start in d.keys then IndexOf(d.keys, start) else 0
    {
      this.ldb := ldb;
      initialized, exhausted, key, value, nextKey, pos := false, false, [], [], [], 0;
      new;
      var has := ldb.Has(start, d);
      if has {
        initialized, nextKey := true, start;
        pos := IndexOf(d.keys, start);
      }
    }

    method Next(ghost d: Dict) returns (more: bool)
      requires Valid(d)
      modifies this, ldb
      ensures Valid(d) && ldb.db == old(ldb.db)
      ensures more <==> old(pos) < |d.keys|
      ensures pos == if more then old(pos) + 1 else old(pos)
      ensures more ==> (key, value) == Entries(d)[old(pos)]
    {
      hide NodeKey, IndexOf, NodeAt, NodeOf, HeadAt, Typed, WellFormed;
      if exhausted {
        key, value := [], [];
        return false;
      }
      if !initialized {
        initialized := true;
        var head := ldb.GetHeadKey();
        if head.None? {
          exhausted, key, value := true, [], [];
          return false;
        }
        nextKey := head.value;
      }
      var n := ldb.GetNode(nextKey);
      assert nextKey == d.keys[pos];
      NodeAtPos(ldb.db, d, pos);
      // A missing node ends the iteration; without an intervening delete there is none.
      if n.None? {
        assert false;
      }
      key, value := nextKey, n.value.value;
      nextKey, exhausted := n.value.next, !n.value.hasNext;
      pos := pos + 1;
      more := true;
    }
  }

  lemma NodeAtPos(db: Store, d: Dict, i: nat)
    requires Represents(db, d) && i < |d.keys|
    ensures d.keys[i] in d.vals && NodeAt(db, d.keys[i]) == Some(NodeAtIndex(d, i))
  {
    hide NodeKey;
    assert NodeAt(db, d.keys[i]) == NodeOf(d, d.keys[i]);
    IndexUnique(d.keys, i);
  }

  /** Draining an iterator yields every remaining pair exactly once, in order. */
  method Drain(it: Iterator, ghost d: Dict) returns (pairs: seq<(Bytes, Bytes)>)
    requires it.Valid(d)
    modifies it, it.ldb
    ensures it.Valid(d) && pairs == Entries(d)[old(it.pos)..] && it.ldb.db == old(it.ldb.db)
  {
    pairs := [];
    var more := it.Next(d);
    while more
      invariant it.Valid(d) && it.ldb.db == old(it.ldb.db)
      invariant if more then it.pos == old(it.pos) + |pairs| + 1 else it.pos == old(it.pos) + |pairs| == |d.keys|
      invariant more ==> (it.key, it.value) == Entries(d)[it.pos - 1]
      invariant pairs == Entries(d)[old(it.pos)..old(it.pos) + |pairs|]
      decreases |d.keys| - |pairs|
    {
      pairs := pairs + [(it.key, it.value)];
      more := it.Next(d);
    }
  }

  // ---------------------------------------------------------------- histories

  datatype Write = Put(key: Bytes, value: Bytes) | Delete(key: Bytes)

  /** The dictionary after a list of writes. */
  function Run(ws: seq<Write>): Dict {
    if ws == [] then EmptyDict()
    else
      var d := Run(ws[..|ws| - 1]);
      var w := ws[|ws| - 1];
      if w.Put? then PutDict(d, w.key, w.value) else DeleteDict(d, w.key)
  }

  /** The plain map after the same writes. */
  function Replay(ws: seq<Write>): map<Bytes, Bytes> {
    if ws == [] then map[]
    else
      var m := Replay(ws[..|ws| - 1]);
      var w := ws[|ws| - 1];
      if w.Put? then m[w.key := w.value] else m - {w.key}
  }

  /** The position of the write that last turned `k` from absent to present. */
  function InsertedAt(ws: seq<Write>, k: Bytes): int {
    if ws == [] then -1
    else
      var before, w := ws[..|ws| - 1], ws[|ws| - 1];
      if w.Put? && w.key == k && k !in Replay(before) then |ws| - 1 else InsertedAt(before, k)
  }

  lemma {:induction false} InsertedBefore(ws: seq<Write>, k: Bytes)
    ensures InsertedAt(ws, k) < |ws|
  {
    if ws != [] {
      InsertedBefore(ws[..|ws| - 1], k);
    }
  }

  /** The list is the plain map, each key once, ordered by when the key was last inserted, newest first. */
  lemma {:induction false} NewestFirst(ws: seq<Write>)
    ensures
      var d := Run(ws);
      && WellFormed(d) && d.vals == Replay(ws)
      && (forall i, j :: 0 <= i < j < |d.keys| ==> InsertedAt(ws, d.keys[i]) > InsertedAt(ws, d.keys[j]))
  {
    if ws != [] {
      var before, w := ws[..|ws| - 1], ws[|ws| - 1];
      NewestFirst(before);
      if w.Put? {
        PutWellFormed(Run(before), w.key, w.value);
        forall k
          ensures InsertedAt(before, k) < |ws| - 1
        {
          InsertedBefore(before, k);
        }
      } else {
        DeleteWellFormed(Run(before), w.key);
        DeleteOrder(before, w.key);
      }
    }
  }

  lemma DeleteOrder(before: seq<Write>, k: Bytes)
    requires
      var d := Run(before);
      && WellFormed(d) && d.vals == Replay(before)
      && (forall i, j :: 0 <= i < j < |d.keys| ==> InsertedAt(before, d.keys[i]) > InsertedAt(before, d.keys[j]))
    ensures
      var d := DeleteDict(Run(before), k);
      && d.vals == Replay(before) - {k}
      && (forall i, j :: 0 <= i < j < |d.keys| ==> InsertedAt(before, d.keys[i]) > InsertedAt(before, d.keys[j]))
  {
    hide Run, InsertedAt;
    var d := Run(before);
    assert d.vals - {k} == if k in d.vals then d.vals - {k} else d.vals;
  }

  /** The writes whose batch was written. */
  function Successful(ws: seq<Write>, fails: seq<bool>): seq<Write>
    requires |fails| == |ws|
  {
    if ws == [] then []
    else
      var before, last := Successful(ws[..|ws| - 1], fails[..|ws| - 1]), |ws| - 1;
      if fails[last] then before else before + [ws[last]]
  }

  lemma SuccessfulNext(ws: seq<Write>, fails: seq<bool>, i: nat)
    requires |fails| == |ws| && i < |ws|
    ensures
      var before := Successful(ws[..i], fails[..i]);
      && Successful(ws[..i + 1], fails[..i + 1]) == (if fails[i] then before else before + [ws[i]])
      && Run(before + [ws[i]]) == if ws[i].Put? then PutDict(Run(before), ws[i].key, ws[i].value) else DeleteDict(Run(before), ws[i].key)
  {
    assert ws[..i + 1][..i] == ws[..i] && fails[..i + 1][..i] == fails[..i];
    var before := Successful(ws[..i], fails[..i]);
    assert (before + [ws[i]])[..|before|] == before;
  }

  /** Any puts and deletes on a new list, any of whose batch writes may fail, followed by a full iteration: the pairs of
      the successful writes' dictionary, each key once, newest first. */
  method WriteThenRead(ws: seq<Write>, fails: seq<bool>) returns (pairs: seq<(Bytes, Bytes)>)
    requires |fails| == |ws|
    ensures WellFormed(Run(Successful(ws, fails))) && pairs == Entries(Run(Successful(ws, fails)))
  {
    hide Run, Successful, PutDict, DeleteDict;
    RunNothing();
    var ldb := new Database(map[], EmptyDict());
    for i := 0 to |ws|
      invariant fresh(ldb) && ldb.Valid(Run(Successful(ws[..i], fails[..i])))
    {
      ghost var d := Run(Successful(ws[..i], fails[..i]));
      SuccessfulNext(ws, fails, i);
      if ws[i].Put? {
        var r := ldb.Put(ws[i].key, ws[i].value, fails[i], d);
      } else {
        var r := ldb.Delete(ws[i].key, fails[i], d);
        DeleteAbsent(d, ws[i].key);
      }
    }
    assert ws[..|ws|] == ws && fails[..|ws|] == fails;
    ghost var d := Run(Successful(ws, fails));
    NewestFirst(Successful(ws, fails));
    var it := new Iterator(ldb, d);
    pairs := Drain(it, d);
    assert Entries(d)[0..] == Entries(d);
  }

  lemma RunNothing()
    ensures Run(Successful([], [])) == EmptyDict() && Represents(map[], EmptyDict())
  {
  }

  lemma DeleteAbsent(d: Dict, k: Bytes)
    requires WellFormed(d)
    ensures k !in d.vals ==> DeleteDict(d, k) == d
  {
  }
}
