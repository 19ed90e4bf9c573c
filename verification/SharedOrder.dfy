/** The trait lists all follow one order, the order in which the elements were put; and what that makes of reading them. */
module SharedOrder {
  import opened Prelude
  import opened LinkedList
  import opened SharedModel
  import opened SharedPages
  import opened SharedReader
  import opened SharedMemory

  /** The keys of `order` that carry a trait. */
  ghost function Filter(order: seq<Bytes>, s: Side, t: Bytes): seq<Bytes> {
    if order == [] then []
    else (if Carries(s, order[0], t) then [order[0]] else []) + Filter(order[1..], s, t)
  }

  /** `order` holds the present keys, newest first, and every list is the part of it that carries the trait. */
  ghost predicate Follows(s: Side, order: seq<Bytes>) {
    && Lists(s.index) && Distinct(order)
    && (forall k :: k in order <==> k in s.values && s.values[k].present)
    && (forall t :: ListOf(s.index, t).keys == Filter(order, s, t))
  }

  lemma {:induction false} FilterMember(order: seq<Bytes>, s: Side, t: Bytes, k: Bytes)
    ensures k in Filter(order, s, t) <==> k in order && Carries(s, k, t)
  {
    if order != [] {
      FilterMember(order[1..], s, t, k);
      assert order == [order[0]] + order[1..];
    }
  }

  lemma {:induction false} FilterConcat(a: seq<Bytes>, b: seq<Bytes>, s: Side, t: Bytes)
    ensures Filter(a + b, s, t) == Filter(a, s, t) + Filter(b, s, t)
  {
    if a == [] {
      assert a + b == b;
    } else {
      assert (a + b)[1..] == a[1..] + b;
      FilterConcat(a[1..], b, s, t);
    }
  }

  /** Only what the keys carry matters. */
  lemma {:induction false} FilterSame(order: seq<Bytes>, s: Side, s': Side, t: Bytes)
    requires forall k :: k in order ==> (Carries(s, k, t) <==> Carries(s', k, t))
    ensures Filter(order, s, t) == Filter(order, s', t)
  {
    if order != [] {
      assert order[0] in order;
      FilterSame(order[1..], s, s', t);
    }
  }

  lemma FollowsConsistent(s: Side, order: seq<Bytes>)
    requires Follows(s, order)
    ensures Consistent(s)
  {
    forall t, k
      ensures k in ListOf(s.index, t).keys <==> Carries(s, k, t)
    {
      FilterMember(order, s, t, k);
    }
  }

  // ---------------------------------------------------------------- every operation keeps an order

  function OrderAfterPut(s: Side, order: seq<Bytes>, e: Element): seq<Bytes> {
    if e.key in s.values then order else [e.key] + order
  }

  lemma PutFollows(s: Side, order: seq<Bytes>, e: Element)
    requires Follows(s, order) && SetValue(s, e).Ok?
    ensures Follows(SetValue(s, e).value, OrderAfterPut(s, order, e))
  {
    hide AddTraits, Filter;
    var s', order' := SetValue(s, e).value, OrderAfterPut(s, order, e);
    AddTraitsFacts(s.index, e.traits, e.key);
    forall t
      ensures ListOf(s'.index, t).keys == Filter(order', s', t)
    {
      FilterSame(order, s, s', t);
      assert ListOf(s.index, t).keys == Filter(order, s, t);
      if e.key !in s.values {
        NewInList(s, order, e, t);
        FilterCons(e.key, order, s', t);
      }
    }
  }

  lemma FilterCons(k: Bytes, order: seq<Bytes>, s: Side, t: Bytes)
    ensures Filter([k] + order, s, t) == (if Carries(s, k, t) then [k] else []) + Filter(order, s, t)
  {
    assert ([k] + order)[1..] == order;
  }

  lemma NewInList(s: Side, order: seq<Bytes>, e: Element, t: Bytes)
    requires Follows(s, order) && e.key !in s.values
    ensures PutDict(ListOf(s.index, t), e.key, []).keys == [e.key] + ListOf(s.index, t).keys
  {
    FilterMember(order, s, t, e.key);
    assert WellFormed(ListOf(s.index, t));
  }

  function Without(order: seq<Bytes>, k: Bytes): seq<Bytes> {
    if k in order then Remove(order, IndexOf(order, k)) else order
  }

  lemma RemoveFollows(s: Side, order: seq<Bytes>, key: Bytes)
    requires Follows(s, order) && RemoveValue(s, key).Ok?
    ensures Follows(RemoveValue(s, key).value, Without(order, key))
  {
    hide RemoveTraits, Filter, DeleteDict;
    var s', order' := RemoveValue(s, key).value, Without(order, key);
    if key in s.values {
      RemoveTraitsFacts(s.index, s.values[key].traits, key);
      RemoveFacts(order, IndexOf(order, key));
    }
    forall t
      ensures ListOf(s'.index, t).keys == Filter(order', s', t)
    {
      assert ListOf(s.index, t).keys == Filter(order, s, t);
      FilterSame(order', s, s', t);
      if key in s.values {
        DeletedFromList(s, order, key, t);
      }
    }
  }

  lemma DeletedFromList(s: Side, order: seq<Bytes>, key: Bytes, t: Bytes)
    requires Follows(s, order) && key in order
    ensures Filter(Without(order, key), s, t) ==
            if Carries(s, key, t) then DeleteDict(ListOf(s.index, t), key).keys else ListOf(s.index, t).keys
  {
    hide Filter, IndexOf, DeleteDict, WellFormed, Distinct;
    var i := IndexOf(order, key);
    var a, b := order[..i], order[i + 1..];
    SplitAround(order, i, s, t);
    FilterConcat(a, b, s, t);
    assert ListOf(s.index, t).keys == Filter(order, s, t);
    if Carries(s, key, t) {
      MiddleRemoved(ListOf(s.index, t), key, Filter(a, s, t), Filter(b, s, t));
    } else {
      assert Filter(a, s, t) + [] == Filter(a, s, t);
    }
  }

  lemma MiddleRemoved(d: Dict, key: Bytes, a: seq<Bytes>, b: seq<Bytes>)
    requires WellFormed(d) && d.keys == a + [key] + b
    ensures IndexOf(d.keys, key) == |a| && DeleteDict(d, key).keys == a + b
  {
    hide IndexOf;
    assert d.keys[|a|] == key;
    IndexUnique(d.keys, |a|);
    assert Remove(d.keys, |a|) == a + b;
  }

  /** A list around a key. */
  lemma SplitAround(order: seq<Bytes>, i: nat, s: Side, t: Bytes)
    requires i < |order|
    ensures Filter(order, s, t) ==
            Filter(order[..i], s, t) + (if Carries(s, order[i], t) then [order[i]] else []) + Filter(order[i + 1..], s, t)
  {
    hide Filter;
    assert order == order[..i] + ([order[i]] + order[i + 1..]);
    FilterConcat(order[..i], [order[i]] + order[i + 1..], s, t);
    FilterCons(order[i], order[i + 1..], s, t);
  }

  ghost predicate InOrder(s: Side) {
    exists order :: Follows(s, order)
  }

  lemma {:induction false} PutAllInOrder(s: Side, elems: seq<Element>)
    requires InOrder(s)
    ensures PutAll(s, elems).Ok? ==> InOrder(PutAll(s, elems).value)
  {
    hide Follows, SetValue;
    if elems != [] && PutAll(s, elems).Ok? {
      PutAllInOrder(s, elems[..|elems| - 1]);
      var s1 := PutAll(s, elems[..|elems| - 1]).value;
      var order :| Follows(s1, order);
      PutFollows(s1, order, elems[|elems| - 1]);
    }
  }

  lemma {:induction false} RemoveAllInOrder(s: Side, keys: seq<Bytes>)
    requires InOrder(s)
    ensures RemoveAll(s, keys).Ok? ==> InOrder(RemoveAll(s, keys).value)
  {
    hide Follows, RemoveValue;
    if keys != [] && RemoveAll(s, keys).Ok? {
      RemoveAllInOrder(s, keys[..|keys| - 1]);
      var s1 := RemoveAll(s, keys[..|keys| - 1]).value;
      var order :| Follows(s1, order);
      RemoveFollows(s1, order, keys[|keys| - 1]);
    }
  }

  /** After every run of puts and removals, all lists of a side follow one order of its keys. */
  lemma {:induction false} RunInOrder(ops: seq<Op>, w: Where)
    ensures InOrder(SideAt(Run(map[], ops), w))
  {
    hide InOrder;
    if ops == [] {
      EmptyInOrder();
    } else {
      var op := ops[|ops| - 1];
      var mem := Run(map[], ops[..|ops| - 1]);
      RunInOrder(ops[..|ops| - 1], w);
      if w == Target(op) {
        if op.PutOp? {
          PutAllInOrder(SideAt(mem, w), op.elems);
        } else {
          RemoveAllInOrder(SideAt(mem, w), op.keys);
        }
      }
    }
  }

  lemma EmptyInOrder()
    ensures InOrder(EmptySide())
  {
    assert Follows(EmptySide(), []);
  }

  // ---------------------------------------------------------------- reading

  /** `k` was put after the empty key. */
  ghost predicate NewerThanEmpty(order: seq<Bytes>, k: Bytes) {
    k in order && [] in order && IndexOf(order, k) < IndexOf(order, [])
  }

  /** The element carries a requested trait that the empty key's element lacks. */
  ghost predicate CarriesBeyond(s: Side, k: Bytes, traits: seq<Bytes>) {
    exists t :: t in traits && Carries(s, k, t) && !Carries(s, [], t)
  }

  /** A scan of a list passes over exactly the keys put after the empty key when the list has it. */
  lemma SeenExactly(s: Side, order: seq<Bytes>, t: Bytes, k: Bytes)
    requires Follows(s, order)
    ensures k in Seen(s.index, t) <==> Carries(s, k, t) && !(Carries(s, [], t) && NewerThanEmpty(order, k))
  {
    hide Filter, IndexOf, DeleteDict, WellFormed, Distinct;
    FilterMember(order, s, t, k);
    FilterMember(order, s, t, []);
    var keys := ListOf(s.index, t).keys;
    assert keys == Filter(order, s, t) && WellFormed(ListOf(s.index, t));
    if Carries(s, [], t) {
      var i := IndexOf(order, []);
      var a, b := order[..i], order[i + 1..];
      SplitAround(order, i, s, t);
      MiddleRemoved(ListOf(s.index, t), [], Filter(a, s, t), Filter(b, s, t));
      assert Seen(s.index, t) == [[]] + Filter(b, s, t);
      FilterMember(b, s, t, k);
      Sides(order, i, k);
    }
  }

  lemma Sides(order: seq<Bytes>, i: nat, k: Bytes)
    requires Distinct(order) && i < |order| && order[i] == []
    ensures IndexOf(order, []) == i
    ensures k in order[i + 1..] <==> k in order && k != [] && !NewerThanEmpty(order, k)
  {
    IndexUnique(order, i);
    if k in order {
      var j := IndexOf(order, k);
      if j > i {
        assert order[i + 1..][j - i - 1] == k;
      }
      if k in order[i + 1..] {
        var m :| 0 <= m < |order[i + 1..]| && order[i + 1..][m] == k;
        IndexUnique(order, i + 1 + m);
      }
    }
  }

  /** What reading all pages gives, in terms of the elements: everything that carries a requested trait, except what was
      put after the empty key and shares every requested trait with it. */
  ghost predicate Readable(s: Side, order: seq<Bytes>, traits: seq<Bytes>, k: Bytes) {
    CarriesAny(s, k, traits) && (NewerThanEmpty(order, k) ==> CarriesBeyond(s, k, traits))
  }

  lemma VisibleReadable(s: Side, order: seq<Bytes>, traits: seq<Bytes>, k: Bytes)
    requires Follows(s, order)
    ensures Visible(s.index, traits, k) <==> Readable(s, order, traits, k)
  {
    hide Follows, Seen;
    forall t
      ensures k in Seen(s.index, t) <==> Carries(s, k, t) && !(Carries(s, [], t) && NewerThanEmpty(order, k))
    {
      SeenExactly(s, order, t, k);
    }
  }

  /** Reading all pages gives exactly the keys that carry a requested trait if and only if every such key put after the
      empty key carries a requested trait the empty key lacks; in particular when the empty key carries none of them. */
  lemma ReadsAllExactly(s: Side, order: seq<Bytes>, traits: seq<Bytes>)
    requires Follows(s, order)
    ensures (forall k :: Visible(s.index, traits, k) <==> CarriesAny(s, k, traits)) <==>
            forall k :: NewerThanEmpty(order, k) && CarriesAny(s, k, traits) ==> CarriesBeyond(s, k, traits)
    ensures !CarriesAny(s, [], traits) ==> forall k :: Visible(s.index, traits, k) <==> CarriesAny(s, k, traits)
  {
    hide Follows, Visible, NewerThanEmpty;
    forall k
      ensures Visible(s.index, traits, k) <==> Readable(s, order, traits, k)
    {
      VisibleReadable(s, order, traits, k);
    }
    if !CarriesAny(s, [], traits) {
      forall k | CarriesAny(s, k, traits)
        ensures CarriesBeyond(s, k, traits)
      {
        var t :| t in traits && Carries(s, k, t);
        assert !Carries(s, [], t);
      }
    }
  }

  /** All pages of a side, for any limit of two or more: exactly the readable keys. */
  method ReadKeys(s: Side, traits: seq<Bytes>, limit: nat, ghost order: seq<Bytes>) returns (pages: seq<seq<Bytes>>)
    requires Follows(s, order) && limit >= 2
    ensures Proper(pages, limit)
    ensures forall k :: InPages(pages, k) <==> Readable(s, order, traits, k)
    ensures !CarriesAny(s, [], traits) ==> forall k :: InPages(pages, k) <==> CarriesAny(s, k, traits)
  {
    hide Visible, Readable, CarriesAny, InPages, Proper;
    pages := ReadAll(s.index, traits, limit);
    ReadsAllExactly(s, order, traits);
    forall k
      ensures Visible(s.index, traits, k) <==> Readable(s, order, traits, k)
    {
      VisibleReadable(s, order, traits, k);
    }
  }

  /** The empty key put first and another key after it, with the same trait: a scan misses the other key. */
  lemma EmptyKeyHides(t: Bytes, s: Side, s': Side)
    requires SetValue(EmptySide(), Element([], [], [t])) == Ok(s) && SetValue(s, Element([1], [], [t])) == Ok(s')
    ensures ListOf(s'.index, t).keys == [[1], []] && Seen(s'.index, t) == [[]]
  {
    hide AddTraits;
    EmptyInOrder();
    assert Follows(EmptySide(), []);
    AddTraitsFacts(map[], [t], []);
    AddTraitsFacts(s.index, [t], [1]);
    assert t in [t];
    assert ListOf(s.index, t).keys == [[]];
    assert ListOf(s'.index, t).keys == [[1], []];
    IndexUnique([[1], []], 1);
  }
}
