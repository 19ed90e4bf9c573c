/** One side of a shared memory space: the elements put for a chain, and an index of their traits. */
module SharedModel {
  import opened Prelude
  import opened LinkedList

  datatype Element = Element(key: Bytes, value: Bytes, traits: seq<Bytes>)

  /** `present` is false for a key that was removed before it was put. */
  datatype Entry = Entry(present: bool, value: Bytes, traits: seq<Bytes>)

  /** A trait's list is a linkeddb; an empty one leaves nothing stored. */
  datatype Side = Side(values: map<Bytes, Entry>, index: map<Bytes, Dict>)

  datatype Error = NotFound | Duplicated
  datatype Result<T> = Ok(value: T) | Err(error: Error)

  function ListOf(index: map<Bytes, Dict>, t: Bytes): Dict {
    if t in index then index[t] else EmptyDict()
  }

  function SetList(index: map<Bytes, Dict>, t: Bytes, d: Dict): map<Bytes, Dict> {
    if d == EmptyDict() then index - {t} else index[t := d]
  }

  /** The loop that adds a key to the list of each of its traits, with an empty value. */
  function AddTraits(index: map<Bytes, Dict>, traits: seq<Bytes>, k: Bytes): map<Bytes, Dict> {
    if traits == [] then index
    else
      var before, t := AddTraits(index, traits[..|traits| - 1], k), traits[|traits| - 1];
      SetList(before, t, PutDict(ListOf(before, t), k, []))
  }

  function RemoveTraits(index: map<Bytes, Dict>, traits: seq<Bytes>, k: Bytes): map<Bytes, Dict> {
    if traits == [] then index
    else
      var before, t := RemoveTraits(index, traits[..|traits| - 1], k), traits[|traits| - 1];
      SetList(before, t, DeleteDict(ListOf(before, t), k))
  }

  function SetValue(s: Side, e: Element): Result<Side> {
    if e.key in s.values then
      if s.values[e.key].present then Err(Duplicated) else Ok(s.(values := s.values - {e.key}))
    else
      Ok(Side(s.values[e.key := Entry(true, e.value, e.traits)], AddTraits(s.index, e.traits, e.key)))
  }

  function RemoveValue(s: Side, k: Bytes): Result<Side> {
    if k !in s.values then Ok(s.(values := s.values[k := Entry(false, [], [])]))
    else if !s.values[k].present then Err(Duplicated)
    else Ok(Side(s.values - {k}, RemoveTraits(s.index, s.values[k].traits, k)))
  }

  function Value(s: Side, k: Bytes): Result<Element> {
    if k in s.values && s.values[k].present then Ok(Element(k, s.values[k].value, s.values[k].traits)) else Err(NotFound)
  }

  // ---------------------------------------------------------------- what is put is what is read

  /** A key is unknown, holds an element that can be read, or was removed ahead of its put. */
  datatype Status = Unknown | Stored(e: Element) | RemovedAhead

  function StatusOf(s: Side, k: Bytes): Status {
    if k !in s.values then Unknown else if Value(s, k).Ok? then Stored(Value(s, k).value) else RemovedAhead
  }

  /** A put makes an unknown key readable with exactly what was put, cancels a removal ahead of it, and fails on a key
      that is readable already; no other key changes. */
  lemma PutReads(s: Side, e: Element, k: Bytes)
    ensures SetValue(s, e).Err? <==> StatusOf(s, e.key).Stored?
    ensures SetValue(s, e).Ok? ==>
              StatusOf(SetValue(s, e).value, k) ==
              if k != e.key then StatusOf(s, k) else if StatusOf(s, k).Unknown? then Stored(e) else Unknown
  {
  }

  /** A removal makes a readable key unknown, is noted for an unknown one, and fails the second time. */
  lemma RemoveReads(s: Side, key: Bytes, k: Bytes)
    ensures RemoveValue(s, key).Err? <==> StatusOf(s, key).RemovedAhead?
    ensures RemoveValue(s, key).Ok? ==>
              StatusOf(RemoveValue(s, key).value, k) ==
              if k != key then StatusOf(s, k) else if StatusOf(s, k).Unknown? then RemovedAhead else Unknown
  {
  }

  // ---------------------------------------------------------------- the index follows the elements

  /** The element stored under `k` is present and carries the trait `t`. */
  ghost predicate Carries(s: Side, k: Bytes, t: Bytes) {
    k in s.values && s.values[k].present && t in s.values[k].traits
  }

  ghost predicate Lists(index: map<Bytes, Dict>) {
    forall t :: WellFormed(ListOf(index, t)) && (t in index ==> index[t] != EmptyDict())
  }

  /** A key is in a trait's list exactly when its element is present and carries the trait. */
  ghost predicate Consistent(s: Side) {
    Lists(s.index) && forall t, k :: k in ListOf(s.index, t).keys <==> Carries(s, k, t)
  }

  lemma SetListFacts(index: map<Bytes, Dict>, t: Bytes, d: Dict)
    requires Lists(index) && WellFormed(d)
    ensures Lists(SetList(index, t, d))
    ensures forall x :: ListOf(SetList(index, t, d), x) == if x == t then d else ListOf(index, x)
  {
  }

  lemma {:induction false} AddTraitsFacts(index: map<Bytes, Dict>, traits: seq<Bytes>, k: Bytes)
    requires Lists(index)
    ensures Lists(AddTraits(index, traits, k))
    ensures forall t :: ListOf(AddTraits(index, traits, k), t) ==
                        if t in traits then PutDict(ListOf(index, t), k, []) else ListOf(index, t)
  {
    if traits != [] {
      var rest, last := traits[..|traits| - 1], traits[|traits| - 1];
      assert traits == rest + [last];
      AddTraitsFacts(index, rest, k);
      var before := AddTraits(index, rest, k);
      PutWellFormed(ListOf(before, last), k, []);
      SetListFacts(before, last, PutDict(ListOf(before, last), k, []));
      PutTwice(ListOf(index, last), k);
    }
  }

  lemma PutTwice(d: Dict, k: Bytes)
    ensures PutDict(PutDict(d, k, []), k, []) == PutDict(d, k, [])
  {
  }

  lemma {:induction false} RemoveTraitsFacts(index: map<Bytes, Dict>, traits: seq<Bytes>, k: Bytes)
    requires Lists(index)
    ensures Lists(RemoveTraits(index, traits, k))
    ensures forall t :: ListOf(RemoveTraits(index, traits, k), t) ==
                        if t in traits then DeleteDict(ListOf(index, t), k) else ListOf(index, t)
  {
    if traits != [] {
      hide DeleteDict;
      var rest, last := traits[..|traits| - 1], traits[|traits| - 1];
      assert traits == rest + [last];
      RemoveTraitsFacts(index, rest, k);
      var before := RemoveTraits(index, rest, k);
      DeleteWellFormed(ListOf(before, last), k);
      SetListFacts(before, last, DeleteDict(ListOf(before, last), k));
      DeleteTwice(ListOf(index, last), k);
    }
  }

  lemma DeleteTwice(d: Dict, k: Bytes)
    requires WellFormed(d)
    ensures DeleteDict(DeleteDict(d, k), k) == DeleteDict(d, k)
  {
    DeleteWellFormed(d, k);
  }

  lemma SetValueConsistent(s: Side, e: Element)
    requires Consistent(s) && SetValue(s, e).Ok?
    ensures Consistent(SetValue(s, e).value)
  {
    hide AddTraits;
    AddTraitsFacts(s.index, e.traits, e.key);
    var s' := SetValue(s, e).value;
    forall t, k
      ensures k in ListOf(s'.index, t).keys <==> Carries(s', k, t)
    {
      assert k in ListOf(s.index, t).keys <==> Carries(s, k, t);
      assert e.key in ListOf(s.index, t).keys <==> Carries(s, e.key, t);
      PutKeys(ListOf(s.index, t), e.key);
    }
  }

  lemma PutKeys(d: Dict, k: Bytes)
    requires WellFormed(d)
    ensures forall x :: x in PutDict(d, k, []).keys <==> x == k || x in d.keys
  {
  }

  lemma RemoveValueConsistent(s: Side, key: Bytes)
    requires Consistent(s) && RemoveValue(s, key).Ok?
    ensures Consistent(RemoveValue(s, key).value)
  {
    hide RemoveTraits, DeleteDict;
    if key in s.values {
      RemoveTraitsFacts(s.index, s.values[key].traits, key);
    }
    var s' := RemoveValue(s, key).value;
    forall t, k
      ensures k in ListOf(s'.index, t).keys <==> Carries(s', k, t)
    {
      assert k in ListOf(s.index, t).keys <==> Carries(s, k, t);
      DeleteWellFormed(ListOf(s.index, t), key);
    }
  }

  // ---------------------------------------------------------------- put and remove meet in either order

  /** Adding a key that no list has and removing it again gives back every list. */
  lemma AddRemove(index: map<Bytes, Dict>, traits: seq<Bytes>, k: Bytes)
    requires Lists(index) && forall t :: k !in ListOf(index, t).keys
    ensures RemoveTraits(AddTraits(index, traits, k), traits, k) == index
  {
    hide AddTraits, RemoveTraits;
    AddTraitsFacts(index, traits, k);
    var added := AddTraits(index, traits, k);
    RemoveTraitsFacts(added, traits, k);
    var back := RemoveTraits(added, traits, k);
    forall t
      ensures ListOf(back, t) == ListOf(index, t)
    {
      PutDelete(ListOf(index, t), k);
    }
    SameLists(back, index);
  }

  lemma PutDelete(d: Dict, k: Bytes)
    requires WellFormed(d) && k !in d.keys
    ensures DeleteDict(PutDict(d, k, []), k) == d
  {
    var p := PutDict(d, k, []);
    assert p.keys == [k] + d.keys && IndexOf(p.keys, k) == 0;
    assert Remove(p.keys, 0) == d.keys;
    assert p.vals - {k} == d.vals;
  }

  lemma SameLists(a: map<Bytes, Dict>, b: map<Bytes, Dict>)
    requires Lists(a) && Lists(b) && forall t :: ListOf(a, t) == ListOf(b, t)
    ensures a == b
  {
    forall t
      ensures (t in a <==> t in b) && (t in a ==> a[t] == b[t])
    {
      assert ListOf(a, t) == ListOf(b, t);
    }
  }

  /** One put and one removal of a key that starts absent reach the same state in either order: the one before both. */
  lemma PutRemoveCommute(s: Side, e: Element)
    requires Consistent(s) && e.key !in s.values
    ensures SetValue(s, e).Ok? && RemoveValue(SetValue(s, e).value, e.key) == Ok(s)
    ensures RemoveValue(s, e.key).Ok? && SetValue(RemoveValue(s, e.key).value, e) == Ok(s)
  {
    hide AddTraits, RemoveTraits;
    forall t
      ensures e.key !in ListOf(s.index, t).keys
    {
      assert e.key in ListOf(s.index, t).keys <==> Carries(s, e.key, t);
    }
    AddRemove(s.index, e.traits, e.key);
    var put := SetValue(s, e).value;
    assert put.values - {e.key} == s.values;
    var removed := RemoveValue(s, e.key).value;
    assert removed.values - {e.key} == s.values;
  }
}
