/** The ordered map that linkeddb stores: keys newest first, and a value per key;
    and what each key's doubly linked node must be for the stored nodes to represent it. */
module LinkedList {
  import opened Prelude

  datatype Node = Node(value: Bytes, hasNext: bool, next: Bytes, hasPrevious: bool, previous: Bytes)

  datatype Dict = Dict(keys: seq<Bytes>, vals: map<Bytes, Bytes>)

  ghost predicate Distinct(keys: seq<Bytes>) {
    forall i, j :: 0 <= i < j < |keys| ==> keys[i] != keys[j]
  }

  ghost predicate WellFormed(d: Dict) {
    Distinct(d.keys) && forall k :: k in d.keys <==> k in d.vals
  }

  function IndexOf(keys: seq<Bytes>, k: Bytes): (i: nat)
    requires k in keys
    ensures i < |keys| && keys[i] == k
  {
    if keys[0] == k then 0 else 1 + IndexOf(keys[1..], k)
  }

  lemma IndexUnique(keys: seq<Bytes>, i: nat)
    requires Distinct(keys) && i < |keys|
    ensures IndexOf(keys, keys[i]) == i
  {
  }

  function EmptyDict(): Dict { Dict([], map[]) }

  /** A new key becomes the head; an existing key keeps its place. */
  function PutDict(d: Dict, k: Bytes, v: Bytes): Dict {
    if k in d.vals then d.(vals := d.vals[k := v]) else Dict([k] + d.keys, d.vals[k := v])
  }

  function Remove(keys: seq<Bytes>, i: nat): seq<Bytes>
    requires i < |keys|
  {
    keys[..i] + keys[i + 1..]
  }

  function DeleteDict(d: Dict, k: Bytes): Dict {
    if k in d.keys then Dict(Remove(d.keys, IndexOf(d.keys, k)), d.vals - {k}) else d
  }

  function NodeAtIndex(d: Dict, i: nat): Node
    requires i < |d.keys| && d.keys[i] in d.vals
  {
    var last := i + 1 == |d.keys|;
    Node(d.vals[d.keys[i]], !last, if last then [] else d.keys[i + 1], i > 0, if i > 0 then d.keys[i - 1] else [])
  }

  /** The node that must be stored for a key, if any. */
  function NodeOf(d: Dict, k: Bytes): Option<Node> {
    if k in d.keys && k in d.vals then Some(NodeAtIndex(d, IndexOf(d.keys, k))) else None
  }

  function HeadOf(d: Dict): Option<Bytes> {
    if d.keys == [] then None else Some(d.keys[0])
  }

  lemma PutWellFormed(d: Dict, k: Bytes, v: Bytes)
    requires WellFormed(d)
    ensures WellFormed(PutDict(d, k, v))
  {
  }

  lemma RemoveFacts(keys: seq<Bytes>, i: nat)
    requires Distinct(keys) && i < |keys|
    ensures Distinct(Remove(keys, i)) && (forall k :: k in Remove(keys, i) <==> k in keys && k != keys[i])
  {
    var r := Remove(keys, i);
    assert forall j :: 0 <= j < |r| ==> r[j] == if j < i then keys[j] else keys[j + 1];
    forall k | k in keys && k != keys[i]
      ensures k in r
    {
      var j := IndexOf(keys, k);
      assert r[if j < i then j else j - 1] == k;
    }
  }

  lemma DeleteWellFormed(d: Dict, k: Bytes)
    requires WellFormed(d)
    ensures WellFormed(DeleteDict(d, k))
    ensures forall x :: x in DeleteDict(d, k).keys <==> x in d.keys && x != k
  {
    if k in d.keys {
      RemoveFacts(d.keys, IndexOf(d.keys, k));
    }
  }

  /** Overwriting a value touches one node. */
  lemma PutOldNode(d: Dict, k: Bytes, v: Bytes, x: Bytes)
    requires WellFormed(d) && k in d.vals
    ensures NodeOf(PutDict(d, k, v), x) == if x == k then Some(NodeOf(d, k).value.(value := v)) else NodeOf(d, x)
  {
    if x in d.keys {
      var i := IndexOf(d.keys, x);
      assert d.keys[i] == x;
    }
  }

  /** Adding a key touches the new node and the old head. */
  lemma PutNewNode(d: Dict, k: Bytes, v: Bytes, x: Bytes)
    requires WellFormed(d) && k !in d.vals
    ensures NodeOf(PutDict(d, k, v), x) ==
            if x == k then Some(Node(v, d.keys != [], if d.keys != [] then d.keys[0] else [], false, []))
            else if d.keys != [] && x == d.keys[0] then Some(NodeOf(d, x).value.(hasPrevious := true, previous := k))
            else NodeOf(d, x)
  {
    hide IndexOf;
    var d' := PutDict(d, k, v);
    PutWellFormed(d, k, v);
    if x == k {
      IndexUnique(d'.keys, 0);
    } else if x in d.keys {
      var i := IndexOf(d.keys, x);
      assert d'.keys[i + 1] == x;
      IndexUnique(d'.keys, i + 1);
      if i > 0 {
        assert d.keys[0] != d.keys[i];
      }
    }
  }

  /** Where the other nodes end up, and what they hold, once position `p` is removed. */
  lemma DeleteAtIndex(d: Dict, d': Dict, p: nat, i: nat, j: nat)
    requires WellFormed(d) && WellFormed(d') && p < |d.keys| && i < |d.keys| && i != p
    requires d' == Dict(Remove(d.keys, p), d.vals - {d.keys[p]}) && j == if i < p then i else i - 1
    ensures j < |d'.keys| && d'.keys[j] == d.keys[i]
    ensures
      var n, m := NodeAtIndex(d, p), NodeAtIndex(d, i);
      NodeAtIndex(d', j) ==
      if i + 1 == p then m.(hasNext := n.hasNext, next := n.next)
      else if i == p + 1 then m.(hasPrevious := n.hasPrevious, previous := n.previous)
      else m
  {
    hide Distinct;
    assert d.keys[i] != d.keys[p] by {
      DistinctAt(d.keys, i, p);
    }
    assert d'.keys[j] == d.keys[i];
    assert j > 0 ==> d'.keys[j - 1] == d.keys[if i == p + 1 then i - 2 else i - 1];
    assert j + 1 < |d'.keys| ==> d'.keys[j + 1] == d.keys[if i + 1 == p then i + 2 else i + 1];
  }

  lemma DistinctAt(keys: seq<Bytes>, i: nat, j: nat)
    requires Distinct(keys) && i < |keys| && j < |keys| && i != j
    ensures keys[i] != keys[j]
  {
  }

  /** Removing a key touches its node and its two neighbours. */
  lemma DeleteNode(d: Dict, k: Bytes, x: Bytes)
    requires WellFormed(d) && k in d.keys
    ensures
      var n := NodeOf(d, k).value;
      NodeOf(DeleteDict(d, k), x) ==
      if x == k then None
      else if n.hasPrevious && x == n.previous then Some(NodeOf(d, x).value.(hasNext := n.hasNext, next := n.next))
      else if n.hasNext && x == n.next then Some(NodeOf(d, x).value.(hasPrevious := n.hasPrevious, previous := n.previous))
      else NodeOf(d, x)
  {
    hide IndexOf, Remove;
    var d', p := DeleteDict(d, k), IndexOf(d.keys, k);
    DeleteWellFormed(d, k);
    if x != k && x in d.keys {
      var i := IndexOf(d.keys, x);
      var j := if i < p then i else i - 1;
      DeleteAtIndex(d, d', p, i, j);
      IndexUnique(d'.keys, j);
      DeleteNeighbours(d, p, i);
    }
  }

  /** Positions next to the removed one are told apart by their keys. */
  lemma DeleteNeighbours(d: Dict, p: nat, i: nat)
    requires WellFormed(d) && p < |d.keys| && i < |d.keys| && i != p
    ensures p > 0 ==> (d.keys[i] == d.keys[p - 1] <==> i == p - 1)
    ensures p + 1 < |d.keys| ==> (d.keys[i] == d.keys[p + 1] <==> i == p + 1)
  {
  }

  lemma DeleteHead(d: Dict, k: Bytes)
    requires WellFormed(d) && k in d.keys
    ensures
      var n := NodeOf(d, k).value;
      HeadOf(DeleteDict(d, k)) == if n.hasPrevious then HeadOf(d) else if n.hasNext then Some(n.next) else None
  {
  }
}
