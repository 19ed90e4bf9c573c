/** The merge iterator of versiondb: pending keys and base keys walked side by side. */
module VersionIterator {
  import opened Prelude
  import opened Order
  import opened VersionDB

  type Pair = (Bytes, Bytes)

  function Keys<V>(ps: seq<(Bytes, V)>): (ks: seq<Bytes>)
    ensures |ks| == |ps| && forall i :: 0 <= i < |ps| ==> ks[i] == ps[i].0
  {
    seq(|ps|, i requires 0 <= i < |ps| => ps[i].0)
  }

  ghost predicate SortedPairs<V>(ps: seq<(Bytes, V)>) {
    Sorted(Keys(ps))
  }

  /** What remains to be yielded, given what remains of the base and of the pending changes. */
  function Merge(base: seq<Pair>, mem: seq<(Bytes, Change)>): seq<Pair>
    decreases |base| + |mem|
  {
    if mem == [] then base
    else if base == [] || Less(mem[0].0, base[0].0) then Emit(mem[0], Merge(base, mem[1..]))
    else if Less(base[0].0, mem[0].0) then [base[0]] + Merge(base[1..], mem)
    else Emit(mem[0], Merge(base[1..], mem[1..]))
  }

  function Zip(ks: seq<Bytes>, vs: seq<Change>): (r: seq<(Bytes, Change)>)
    requires |ks| == |vs|
    ensures |r| == |ks| && forall i :: 0 <= i < |ks| ==> r[i] == (ks[i], vs[i])
  {
    seq(|ks|, i requires 0 <= i < |ks| => (ks[i], vs[i]))
  }

  lemma ZipTail(ks: seq<Bytes>, vs: seq<Change>)
    requires |ks| == |vs| > 0
    ensures Zip(ks, vs)[0] == (ks[0], vs[0]) && Zip(ks[1..], vs[1..]) == Zip(ks, vs)[1..]
  {
  }

  lemma MergeUnfold(base: seq<Pair>, mem: seq<(Bytes, Change)>)
    ensures mem == [] ==> Merge(base, mem) == base
    ensures mem != [] && (base == [] || Less(mem[0].0, base[0].0)) ==> Merge(base, mem) == Emit(mem[0], Merge(base, mem[1..]))
    ensures mem != [] && base != [] && !Less(mem[0].0, base[0].0) && Less(base[0].0, mem[0].0) ==>
              Merge(base, mem) == [base[0]] + Merge(base[1..], mem)
    ensures mem != [] && base != [] && !Less(mem[0].0, base[0].0) && !Less(base[0].0, mem[0].0) ==>
              Merge(base, mem) == Emit(mem[0], Merge(base[1..], mem[1..]))
  {
  }

  function Emit(m: (Bytes, Change), rest: seq<Pair>): seq<Pair> {
    if m.1.Deleted? then rest else [(m.0, m.1.value)] + rest
  }

  // ---------------------------------------------------------------- the iterator

  class Iterator {
    /** The base iterator, as memdb implements it: what it has not passed yet, its current pair first. */
    var inner: seq<Pair>
    var innerInitialized: bool
    var keys: seq<Bytes>
    var values: seq<Change>
    var initialized: bool
    var exhausted: bool
    var key: Bytes
    var value: Bytes

    ghost function BaseLeft(): seq<Pair>
      reads this
    {
      if initialized && exhausted then [] else inner
    }

    ghost function MemLeft(): seq<(Bytes, Change)>
      requires |keys| == |values|
      reads this
    {
      Zip(keys, values)
    }

    ghost predicate Valid()
      reads this
    {
      && |keys| == |values| && innerInitialized == initialized
      && (initialized && !exhausted ==> inner != [])
    }

    ghost function Left(): seq<Pair>
      requires |keys| == |values|
      reads this
    {
      Merge(BaseLeft(), MemLeft())
    }

    constructor (base: seq<Pair>, keys: seq<Bytes>, values: seq<Change>)
      requires |keys| == |values|
      ensures Valid() && BaseLeft() == base && this.keys == keys && this.values == values
    {
      inner, innerInitialized, this.keys, this.values := base, false, keys, values;
      initialized, exhausted, key, value := false, false, [], [];
    }

    method InnerNext() returns (more: bool)
      modifies `inner, `innerInitialized
      ensures innerInitialized
      ensures inner == if old(innerInitialized) && old(inner) != [] then old(inner)[1..] else old(inner)
      ensures more <==> inner != []
    {
      if !innerInitialized {
        innerInitialized := true;
        return inner != [];
      }
      if inner != [] {
        inner := inner[1..];
      }
      more := inner != [];
    }

    /** Moves the base iterator on and notes whether it is exhausted. */
    method AdvanceBase()
      requires Valid() && initialized && !exhausted
      modifies `inner, `innerInitialized, `exhausted
      ensures Valid() && BaseLeft() == old(BaseLeft())[1..]
    {
      var m := InnerNext();
      exhausted := !m;
    }

    /** Drops the first pending key. */
    method PopKey()
      requires Valid() && |keys| > 0
      modifies `keys, `values
      ensures Valid() && MemLeft() == old(MemLeft())[1..] && BaseLeft() == old(BaseLeft())
      ensures |keys| == old(|keys|) - 1
    {
      ZipTail(keys, values);
      keys, values := keys[1..], values[1..];
    }

    /** Yields the next pair of the merge, skipping deleted keys. */
    method Next() returns (more: bool)
      requires Valid()
      modifies this
      ensures Valid()
      ensures more <==> old(Left()) != []
      ensures more ==> old(Left()) == [(key, value)] + Left()
      ensures !more ==> Left() == []
    {
      hide Less, Merge, Zip;
      if !initialized {
        var m := InnerNext();
        exhausted, initialized := !m, true;
        assert BaseLeft() == old(BaseLeft()) && MemLeft() == old(MemLeft());
      }
      while true
        invariant Valid() && initialized && Left() == old(Left())
        decreases |keys|
      {
        if exhausted && |keys| == 0 {
          MergeUnfold(BaseLeft(), MemLeft());
          key, value := [], [];
          return false;
        }
        var found := Turn();
        if found {
          return true;
        }
      }
    }

    /** One turn of the loop: takes the smaller key, or both when they are equal, and yields it unless it is deleted. */
    method Turn() returns (found: bool)
      requires Valid() && initialized && !(exhausted && |keys| == 0)
      modifies this
      ensures Valid() && initialized
      ensures found ==> old(Left()) == [(key, value)] + Left()
      ensures !found ==> Left() == old(Left()) && |keys| < old(|keys|)
    {
      hide Less, Merge, Zip;
      MergeUnfold(BaseLeft(), MemLeft());
      if |keys| > 0 {
        ZipTail(keys, values);
      }
      if exhausted {
        var k, v := keys[0], values[0];
        PopKey();
        if v.Value? {
          key, value := k, v.value;
          return true;
        }
      } else if |keys| == 0 {
        key, value := inner[0].0, inner[0].1;
        AdvanceBase();
        MergeUnfold(BaseLeft(), MemLeft());
        return true;
      } else {
        var memKey, memValue, dbKey := keys[0], values[0], inner[0].0;
        if Less(memKey, dbKey) {
          PopKey();
          if memValue.Value? {
            key, value := memKey, memValue.value;
            return true;
          }
        } else if Less(dbKey, memKey) {
          key, value := dbKey, inner[0].1;
          AdvanceBase();
          return true;
        } else {
          PopKey();
          AdvanceBase();
          if memValue.Value? {
            key, value := memKey, memValue.value;
            return true;
          }
        }
      }
      found := false;
    }
  }

  /** Calling `Next` until it returns false. */
  method Drain(it: Iterator) returns (out: seq<Pair>)
    requires it.Valid()
    modifies it
    ensures it.Valid() && out == old(it.Left()) && it.Left() == []
  {
    out := [];
    var more := true;
    while more
      invariant it.Valid() && out + it.Left() == old(it.Left())
      invariant !more ==> it.Left() == []
      decreases |it.Left()|, more
    {
      ghost var left := it.Left();
      more := it.Next();
      if more {
        assert out + left == (out + [(it.key, it.value)]) + it.Left();
        out := out + [(it.key, it.value)];
      }
    }
  }

  // ---------------------------------------------------------------- what the merge contains

  predicate Wanted(k: Bytes, start: Bytes, prefix: Bytes) {
    prefix <= k && !Less(k, start)
  }

  /** The key begins with the prefix, byte for byte, and is the start or comes after it. */
  lemma WantedExactly(k: Bytes, start: Bytes, prefix: Bytes)
    ensures Wanted(k, start, prefix) <==>
            && |prefix| <= |k| && (forall i :: 0 <= i < |prefix| ==> k[i] == prefix[i])
            && (k == start || Less(start, k))
  {
    LessTotal(k, start);
    LessAsymmetric(k, start);
  }

  /** `ps` lists, in increasing order, exactly the entries of `m` in the wanted range. */
  ghost predicate Ranges<V>(ps: seq<(Bytes, V)>, m: map<Bytes, V>, start: Bytes, prefix: Bytes) {
    && SortedPairs(ps)
    && (forall i :: 0 <= i < |ps| ==> ps[i].0 in m && Wanted(ps[i].0, start, prefix) && ps[i].1 == m[ps[i].0])
    && (forall k :: k in m && Wanted(k, start, prefix) ==> (k, m[k]) in ps)
  }

  lemma FirstIsLeast<V>(ps: seq<(Bytes, V)>, p: (Bytes, V))
    requires SortedPairs(ps) && p in ps
    ensures p == ps[0] || (Less(ps[0].0, p.0) && p in ps[1..])
    ensures SortedPairs(ps[1..])
  {
    var i :| 0 <= i < |ps| && ps[i] == p;
    assert forall j :: 0 <= j < |ps| - 1 ==> Keys(ps[1..])[j] == Keys(ps)[j + 1];
    if i > 0 {
      assert Less(Keys(ps)[0], Keys(ps)[i]);
      assert ps[1..][i - 1] == p;
    }
  }

  lemma TailSorted<V>(ps: seq<(Bytes, V)>)
    requires SortedPairs(ps) && ps != []
    ensures SortedPairs(ps[1..])
  {
    assert forall j :: 0 <= j < |ps| - 1 ==> Keys(ps[1..])[j] == Keys(ps)[j + 1];
  }

  /** Every merged key comes from one of the two lists. */
  lemma {:induction false} MergeSource(base: seq<Pair>, mem: seq<(Bytes, Change)>, p: Pair)
    requires p in Merge(base, mem)
    ensures p in base || (p.0, Value(p.1)) in mem
    decreases |base| + |mem|
  {
    if mem != [] {
      if base == [] || Less(mem[0].0, base[0].0) {
        if p in Merge(base, mem[1..]) {
          MergeSource(base, mem[1..], p);
        }
      } else if Less(base[0].0, mem[0].0) {
        if p in Merge(base[1..], mem) {
          MergeSource(base[1..], mem, p);
        }
      } else if p in Merge(base[1..], mem[1..]) {
        MergeSource(base[1..], mem[1..], p);
      }
    }
  }

  /** A key below both lists is below everything merged from them. */
  lemma MergeAbove(base: seq<Pair>, mem: seq<(Bytes, Change)>, k: Bytes)
    requires SortedPairs(base) && SortedPairs(mem)
    requires base != [] ==> Less(k, base[0].0)
    requires mem != [] ==> Less(k, mem[0].0)
    ensures forall p :: p in Merge(base, mem) ==> Less(k, p.0)
  {
    forall p | p in Merge(base, mem)
      ensures Less(k, p.0)
    {
      MergeSource(base, mem, p);
      if p in base {
        FirstIsLeast(base, p);
        if p != base[0] {
          LessTransitive(k, base[0].0, p.0);
        }
      } else {
        FirstIsLeast(mem, (p.0, Value(p.1)));
        if (p.0, Value(p.1)) != mem[0] {
          LessTransitive(k, mem[0].0, p.0);
        }
      }
    }
  }

  lemma ConsSorted(p: Pair, rest: seq<Pair>)
    requires SortedPairs(rest) && forall r :: r in rest ==> Less(p.0, r.0)
    ensures SortedPairs([p] + rest)
  {
    if rest != [] {
      assert rest[0] in rest;
    }
    SortedCons(p.0, Keys(rest));
    assert Keys([p] + rest) == [p.0] + Keys(rest);
  }

  lemma HeadBelow<V>(ps: seq<(Bytes, V)>)
    requires SortedPairs(ps) && |ps| > 1
    ensures Less(ps[0].0, ps[1..][0].0)
  {
    assert Less(Keys(ps)[0], Keys(ps)[1]);
  }

  /** The merge is strictly increasing. */
  lemma {:induction false} MergeSorted(base: seq<Pair>, mem: seq<(Bytes, Change)>)
    requires SortedPairs(base) && SortedPairs(mem)
    ensures SortedPairs(Merge(base, mem))
    decreases |base| + |mem|
  {
    if mem != [] {
      TailSorted(mem);
      if |mem| > 1 {
        HeadBelow(mem);
      }
      if base != [] {
        TailSorted(base);
        if |base| > 1 {
          HeadBelow(base);
        }
        LessTotal(mem[0].0, base[0].0);
      }
      if base == [] || Less(mem[0].0, base[0].0) {
        MergeSorted(base, mem[1..]);
        MergeAbove(base, mem[1..], mem[0].0);
        EmitSorted(mem[0], Merge(base, mem[1..]));
      } else if Less(base[0].0, mem[0].0) {
        MergeSorted(base[1..], mem);
        MergeAbove(base[1..], mem, base[0].0);
        ConsSorted(base[0], Merge(base[1..], mem));
      } else {
        MergeSorted(base[1..], mem[1..]);
        MergeAbove(base[1..], mem[1..], mem[0].0);
        EmitSorted(mem[0], Merge(base[1..], mem[1..]));
      }
    }
  }

  lemma EmitSorted(m: (Bytes, Change), rest: seq<Pair>)
    requires SortedPairs(rest) && forall r :: r in rest ==> Less(m.0, r.0)
    ensures SortedPairs(Emit(m, rest))
  {
    if m.1.Value? {
      ConsSorted((m.0, m.1.value), rest);
    }
  }

  lemma KeyIn<V>(ps: seq<(Bytes, V)>, k: Bytes)
    ensures k in Keys(ps) <==> exists p :: p in ps && p.0 == k
  {
    if k in Keys(ps) {
      var i :| 0 <= i < |ps| && Keys(ps)[i] == k;
      assert ps[i] in ps;
    }
    if exists p :: p in ps && p.0 == k {
      var p :| p in ps && p.0 == k;
      var i :| 0 <= i < |ps| && ps[i] == p;
      assert Keys(ps)[i] == k;
    }
  }

  /** A key below the first of a sorted list is not in it. */
  lemma NotBelow<V>(ps: seq<(Bytes, V)>, k: Bytes)
    requires SortedPairs(ps) && (ps != [] ==> Less(k, ps[0].0))
    ensures k !in Keys(ps)
  {
    KeyIn(ps, k);
    forall p | p in ps
      ensures p.0 != k
    {
      FirstIsLeast(ps, p);
      LessAsymmetric(k, ps[0].0);
      LessAsymmetric(ps[0].0, p.0);
    }
  }

  lemma KeysTail<V>(ps: seq<(Bytes, V)>)
    requires SortedPairs(ps) && ps != []
    ensures SortedPairs(ps[1..]) && ps[0].0 !in Keys(ps[1..])
    ensures forall k :: k in Keys(ps) <==> k == ps[0].0 || k in Keys(ps[1..])
  {
    TailSorted(ps);
    if |ps| > 1 {
      HeadBelow(ps);
    }
    NotBelow(ps[1..], ps[0].0);
    assert Keys(ps) == [ps[0].0] + Keys(ps[1..]);
  }

  ghost predicate Merged(base: seq<Pair>, mem: seq<(Bytes, Change)>, p: Pair) {
    (p.0, Value(p.1)) in mem || (p in base && p.0 !in Keys(mem))
  }

  /** Dropping the first pending key from consideration. */
  lemma MergedMem(base: seq<Pair>, mem: seq<(Bytes, Change)>, p: Pair)
    requires SortedPairs(mem) && mem != [] && mem[0].0 !in Keys(base)
    ensures Merged(base, mem, p) <==> p in Emit(mem[0], []) || Merged(base, mem[1..], p)
  {
    KeysTail(mem);
    KeyIn(base, mem[0].0);
    KeyIn(mem[1..], p.0);
  }

  lemma MergedBase(base: seq<Pair>, mem: seq<(Bytes, Change)>, p: Pair)
    requires base != [] && base[0].0 !in Keys(mem)
    ensures Merged(base, mem, p) <==> p == base[0] || Merged(base[1..], mem, p)
  {
  }

  lemma MergedBoth(base: seq<Pair>, mem: seq<(Bytes, Change)>, p: Pair)
    requires SortedPairs(base) && SortedPairs(mem) && base != [] && mem != [] && base[0].0 == mem[0].0
    ensures Merged(base, mem, p) <==> p in Emit(mem[0], []) || Merged(base[1..], mem[1..], p)
  {
    KeysTail(mem);
    KeysTail(base);
    KeyIn(base[1..], mem[0].0);
    KeyIn(mem[1..], p.0);
  }

  lemma EmitIn(m: (Bytes, Change), rest: seq<Pair>, p: Pair)
    ensures p in Emit(m, rest) <==> p in Emit(m, []) || p in rest
  {
  }

  /** The merge contains the pending values, and the base pairs that no pending change overrides. */
  lemma {:induction false} MergeMember(base: seq<Pair>, mem: seq<(Bytes, Change)>, p: Pair)
    requires SortedPairs(base) && SortedPairs(mem)
    ensures p in Merge(base, mem) <==> Merged(base, mem, p)
    decreases |base| + |mem|
  {
    hide Merge, Less, Keys, Merged, Emit;
    MergeUnfold(base, mem);
    if mem == [] {
      MergedNone(base, p);
    } else {
      KeysTail(mem);
      if base != [] {
        KeysTail(base);
        LessTotal(mem[0].0, base[0].0);
      }
      if base == [] || Less(mem[0].0, base[0].0) {
        NotBelow(base, mem[0].0);
        MergeMember(base, mem[1..], p);
        MergedMem(base, mem, p);
        EmitIn(mem[0], Merge(base, mem[1..]), p);
      } else if Less(base[0].0, mem[0].0) {
        NotBelow(mem, base[0].0);
        MergeMember(base[1..], mem, p);
        MergedBase(base, mem, p);
      } else {
        MergeMember(base[1..], mem[1..], p);
        MergedBoth(base, mem, p);
        EmitIn(mem[0], Merge(base[1..], mem[1..]), p);
      }
    }
  }

  lemma MergedNone(base: seq<Pair>, p: Pair)
    ensures Merged(base, [], p) <==> p in base
  {
    var none: seq<(Bytes, Change)> := [];
    assert Keys(none) == [];
  }

  lemma RangesIn<V>(ps: seq<(Bytes, V)>, m: map<Bytes, V>, start: Bytes, prefix: Bytes, k: Bytes, v: V)
    requires Ranges(ps, m, start, prefix)
    ensures (k, v) in ps <==> k in m && Wanted(k, start, prefix) && m[k] == v
    ensures k in Keys(ps) <==> k in m && Wanted(k, start, prefix)
  {
    KeyIn(ps, k);
  }

  /** Merging the two ranges gives exactly the same range of the flattened map, in strictly increasing order. */
  lemma MergeIsFlatten(base: Base, mem: Pending, bs: seq<Pair>, ms: seq<(Bytes, Change)>, start: Bytes, prefix: Bytes)
    requires Ranges(bs, base, start, prefix) && Ranges(ms, mem, start, prefix)
    ensures Ranges(Merge(bs, ms), Flatten(base, mem), start, prefix)
  {
    hide Merge, Less, Keys;
    var out, flat := Merge(bs, ms), Flatten(base, mem);
    MergeSorted(bs, ms);
    forall k, v
      ensures (k, v) in out <==> k in flat && Wanted(k, start, prefix) && flat[k] == v
    {
      MergeMember(bs, ms, (k, v));
      RangesIn(bs, base, start, prefix, k, v);
      RangesIn(ms, mem, start, prefix, k, Value(v));
    }
    forall i | 0 <= i < |out|
      ensures out[i].0 in flat && Wanted(out[i].0, start, prefix) && out[i].1 == flat[out[i].0]
    {
      assert (out[i].0, out[i].1) in out;
    }
  }

  // ---------------------------------------------------------------- creating the iterator

  /** Collects the wanted keys, in whatever order the map is traversed, and sorts them. */
  method WantedKeys<V>(m: map<Bytes, V>, start: Bytes, prefix: Bytes) returns (ks: seq<Bytes>)
    ensures Sorted(ks) && forall k :: k in ks <==> k in m && Wanted(k, start, prefix)
  {
    ks := [];
    var left := m.Keys;
    while left != {}
      invariant left <= m.Keys && Sorted(ks)
      invariant forall k :: k in ks <==> k in m && k !in left && Wanted(k, start, prefix)
      decreases left
    {
      hide Less;
      var k :| k in left;
      if Wanted(k, start, prefix) {
        InsertSortedFacts(ks, k);
        ks := InsertSorted(ks, k);
      }
      left := left - {k};
    }
  }

  lemma RangesOf<V>(ks: seq<Bytes>, ps: seq<(Bytes, V)>, m: map<Bytes, V>, start: Bytes, prefix: Bytes)
    requires Sorted(ks) && forall k :: k in ks <==> k in m && Wanted(k, start, prefix)
    requires |ps| == |ks| && forall i :: 0 <= i < |ks| ==> ks[i] in m && ps[i] == (ks[i], m[ks[i]])
    ensures Ranges(ps, m, start, prefix)
  {
    hide Less;
    assert Keys(ps) == ks;
    forall k | k in m && Wanted(k, start, prefix)
      ensures (k, m[k]) in ps
    {
      var i :| 0 <= i < |ks| && ks[i] == k;
      assert ps[i] == (k, m[k]);
    }
  }

  /** What memdb iterates over. */
  method Select<V>(m: map<Bytes, V>, start: Bytes, prefix: Bytes) returns (ps: seq<(Bytes, V)>)
    ensures Ranges(ps, m, start, prefix)
  {
    hide Less;
    var ks := WantedKeys(m, start, prefix);
    assert forall i :: 0 <= i < |ks| ==> ks[i] in ks;
    ps := seq(|ks|, i requires 0 <= i < |ks| && ks[i] in m => (ks[i], m[ks[i]]));
    RangesOf(ks, ps, m, start, prefix);
  }

  method NewIterator(base: Base, mem: Pending, start: Bytes, prefix: Bytes) returns (it: Iterator)
    ensures fresh(it) && it.Valid() && Ranges(it.Left(), Flatten(base, mem), start, prefix)
  {
    hide Less, Merge, Flatten, Keys;
    var bs := Select(base, start, prefix);
    var keys := WantedKeys(mem, start, prefix);
    assert forall i :: 0 <= i < |keys| ==> keys[i] in keys;
    var values := seq(|keys|, i requires 0 <= i < |keys| && keys[i] in mem => mem[keys[i]]);
    it := new Iterator(bs, keys, values);
    RangesOf(keys, Zip(keys, values), mem, start, prefix);
    MergeIsFlatten(base, mem, bs, Zip(keys, values), start, prefix);
  }

  /** Draining a new iterator: exactly the wanted range of the flattened map, in increasing order, and then nothing. */
  method Scan(base: Base, mem: Pending, start: Bytes, prefix: Bytes) returns (out: seq<Pair>)
    ensures Ranges(out, Flatten(base, mem), start, prefix)
  {
    hide Less, Merge, Flatten, Keys;
    var it := NewIterator(base, mem, start, prefix);
    out := Drain(it);
  }
}
