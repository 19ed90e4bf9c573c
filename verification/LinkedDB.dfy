/** linkeddb: the list kept inside a key/value store, with its caches and staged updates. */
module LinkedDB {
  import opened Prelude
  import opened LinkedList

  /** What the underlying store holds: a serialized node, or the head key. */
  datatype Stored = NodeBytes(node: Node) | KeyBytes(key: Bytes)

  type Store = map<Bytes, Stored>

  datatype Op = PutOp(key: Bytes, value: Stored) | DeleteOp(key: Bytes)

  function ApplyOne(db: Store, op: Op): Store {
    match op
    case PutOp(k, v) => db[k := v]
    case DeleteOp(k) => db - {k}
  }

  /** The store after an atomic batch write. */
  function Apply(db: Store, ops: seq<Op>): Store {
    if ops == [] then db else ApplyOne(Apply(db, ops[..|ops| - 1]), ops[|ops| - 1])
  }

  lemma ApplyAppend(db: Store, ops: seq<Op>, op: Op)
    ensures Apply(db, ops + [op]) == ApplyOne(Apply(db, ops), op)
  {
    assert (ops + [op])[..|ops|] == ops;
  }

  const HEAD_KEY: Bytes := [1]

  function NodeKey(k: Bytes): Bytes { [0] + k }

  lemma NodeKeyInjective(k: Bytes, x: Bytes)
    ensures NodeKey(k) == NodeKey(x) <==> k == x
    ensures NodeKey(k) != HEAD_KEY
  {
    assert NodeKey(k)[1..] == k && NodeKey(x)[1..] == x;
    assert NodeKey(k)[0] == 0 && HEAD_KEY[0] == 1;
  }

  function NodeAt(db: Store, k: Bytes): Option<Node> {
    if NodeKey(k) in db && db[NodeKey(k)].NodeBytes? then Some(db[NodeKey(k)].node) else None
  }

  function HeadAt(db: Store): Option<Bytes> {
    if HEAD_KEY in db && db[HEAD_KEY].KeyBytes? then Some(db[HEAD_KEY].key) else None
  }

  /** Every entry is the head key or a node. */
  ghost predicate Typed(db: Store) {
    && (HEAD_KEY in db ==> db[HEAD_KEY].KeyBytes?)
    && (forall k :: NodeKey(k) in db ==> db[NodeKey(k)].NodeBytes?)
  }

  /** The store holds exactly the doubly linked list of `d`. */
  ghost predicate Represents(db: Store, d: Dict) {
    WellFormed(d) && Typed(db) && HeadAt(db) == HeadOf(d) && forall k :: NodeAt(db, k) == NodeOf(d, k)
  }

  /** Writing the batch gives the head `head`, the nodes `nodes`, and leaves every other node as it is. */
  ghost predicate Stages(db: Store, batch: seq<Op>, head: Option<Bytes>, nodes: map<Bytes, Option<Node>>) {
    && Typed(Apply(db, batch)) && HeadAt(Apply(db, batch)) == head
    && (forall k :: NodeAt(Apply(db, batch), k) == if k in nodes then nodes[k] else NodeAt(db, k))
  }

  lemma StageHead(db: Store, batch: seq<Op>, head: Option<Bytes>, nodes: map<Bytes, Option<Node>>, h: Option<Bytes>)
    requires Stages(db, batch, head, nodes)
    ensures Stages(db, batch + [if h.Some? then PutOp(HEAD_KEY, KeyBytes(h.value)) else DeleteOp(HEAD_KEY)], h, nodes)
  {
    hide NodeKey, Apply;
    ApplyAppend(db, batch, if h.Some? then PutOp(HEAD_KEY, KeyBytes(h.value)) else DeleteOp(HEAD_KEY));
    HeadDiffers();
  }

  lemma StageNode(db: Store, batch: seq<Op>, head: Option<Bytes>, nodes: map<Bytes, Option<Node>>, k: Bytes, n: Option<Node>)
    requires Stages(db, batch, head, nodes)
    ensures Stages(db, batch + [if n.Some? then PutOp(NodeKey(k), NodeBytes(n.value)) else DeleteOp(NodeKey(k))], head, nodes[k := n])
  {
    hide NodeKey, Apply, ApplyOne, NodeAt, HeadAt, Typed;
    var op := if n.Some? then PutOp(NodeKey(k), NodeBytes(n.value)) else DeleteOp(NodeKey(k));
    ApplyAppend(db, batch, op);
    OneNode(Apply(db, batch), op, k, n);
  }

  /** Writing or deleting one node leaves the head and the other nodes. */
  lemma OneNode(db: Store, op: Op, k: Bytes, n: Option<Node>)
    requires Typed(db) && op == if n.Some? then PutOp(NodeKey(k), NodeBytes(n.value)) else DeleteOp(NodeKey(k))
    ensures Typed(ApplyOne(db, op)) && HeadAt(ApplyOne(db, op)) == HeadAt(db)
    ensures forall x :: NodeAt(ApplyOne(db, op), x) == if x == k then n else NodeAt(db, x)
  {
    hide NodeKey;
    NodeKeysDiffer(k);
  }

  datatype Result = Ok | WriteFailed

  class Database {
    var db: Store
    var batch: seq<Op>
    var headKeyIsSynced: bool
    var headKeyExists: bool
    var headKey: Bytes
    var headKeyIsUpdated: bool
    var updatedHeadKeyExists: bool
    var updatedHeadKey: Bytes
    var nodeCache: map<Bytes, Option<Node>>
    var updatedNodes: map<Bytes, Option<Node>>

    /** Whatever is cached, including a cached absence, is what is stored. */
    ghost predicate Coherent()
      reads `db, `headKeyIsSynced, `headKeyExists, `headKey, `nodeCache
    {
      && (headKeyIsSynced ==> HeadAt(db) == if headKeyExists then Some(headKey) else None)
      && (forall k :: k in nodeCache ==> nodeCache[k] == NodeAt(db, k))
    }

    ghost predicate Valid(d: Dict)
      reads this
    {
      Represents(db, d) && Coherent()
    }

    ghost function StagedHead(): Option<Bytes>
      reads this
    {
      if !headKeyIsUpdated then HeadAt(db) else if updatedHeadKeyExists then Some(updatedHeadKey) else None
    }

    ghost predicate Staged()
      reads this
    {
      Stages(db, batch, StagedHead(), updatedNodes)
    }

    constructor (db: Store, ghost d: Dict)
      requires Represents(db, d)
      ensures Valid(d) && this.db == db
    {
      this.db, batch := db, [];
      headKeyIsSynced, headKeyExists, headKey := false, false, [];
      headKeyIsUpdated, updatedHeadKeyExists, updatedHeadKey := false, false, [];
      nodeCache, updatedNodes := map[], map[];
    }

    /** The cache may drop any entries when one is added. */
    method CachePut(k: Bytes, n: Option<Node>)
      requires Coherent() && n == NodeAt(db, k)
      modifies `nodeCache
      ensures Coherent()
    {
      var evicted :| evicted <= nodeCache.Keys;
      nodeCache := (nodeCache - evicted)[k := n];
    }

    method GetNode(k: Bytes) returns (n: Option<Node>)
      requires Coherent() && Typed(db)
      modifies `nodeCache
      ensures Coherent() && n == NodeAt(db, k)
    {
      if k in nodeCache {
        return nodeCache[k];
      }
      n := if NodeKey(k) in db then Some(db[NodeKey(k)].node) else None;
      CachePut(k, n);
    }

    method GetHeadKey() returns (h: Option<Bytes>)
      requires Coherent() && Typed(db)
      modifies `headKeyIsSynced, `headKeyExists, `headKey
      ensures Coherent() && h == HeadAt(db)
    {
      if headKeyIsSynced {
        return if headKeyExists then Some(headKey) else None;
      }
      headKeyIsSynced := true;
      if HEAD_KEY in db {
        headKeyExists, headKey := true, db[HEAD_KEY].key;
        return Some(headKey);
      }
      headKeyExists := false;
      h := None;
    }

    method PutHeadKey(k: Bytes)
      requires Staged()
      modifies `headKeyIsUpdated, `updatedHeadKeyExists, `updatedHeadKey, `batch
      ensures Staged() && headKeyIsUpdated && updatedHeadKeyExists && updatedHeadKey == k
    {
      hide NodeKey, Apply, Stages, HeadAt;
      StageHead(db, batch, StagedHead(), updatedNodes, Some(k));
      headKeyIsUpdated, updatedHeadKeyExists, updatedHeadKey := true, true, k;
      batch := batch + [PutOp(HEAD_KEY, KeyBytes(k))];
    }

    method DeleteHeadKey()
      requires Staged()
      modifies `headKeyIsUpdated, `updatedHeadKeyExists, `batch
      ensures Staged() && headKeyIsUpdated && !updatedHeadKeyExists
    {
      hide NodeKey, Apply, Stages, HeadAt;
      StageHead(db, batch, StagedHead(), updatedNodes, None);
      headKeyIsUpdated, updatedHeadKeyExists := true, false;
      batch := batch + [DeleteOp(HEAD_KEY)];
    }

    method PutNode(k: Bytes, n: Node)
      requires Staged()
      modifies `updatedNodes, `batch
      ensures Staged() && updatedNodes == old(updatedNodes)[k := Some(n)]
    {
      hide NodeKey, Apply, Stages, HeadAt;
      StageNode(db, batch, StagedHead(), updatedNodes, k, Some(n));
      updatedNodes := updatedNodes[k := Some(n)];
      batch := batch + [PutOp(NodeKey(k), NodeBytes(n))];
    }

    method RemoveNode(k: Bytes)
      requires Staged()
      modifies `updatedNodes, `batch
      ensures Staged() && updatedNodes == old(updatedNodes)[k := None]
    {
      hide NodeKey, Apply, Stages, HeadAt;
      StageNode(db, batch, StagedHead(), updatedNodes, k, None);
      updatedNodes := updatedNodes[k := None];
      batch := batch + [DeleteOp(NodeKey(k))];
    }

    method ResetBatch()
      requires Typed(db)
      modifies `headKeyIsUpdated, `updatedNodes, `batch
      ensures Staged() && !headKeyIsUpdated && updatedNodes == map[]
    {
      headKeyIsUpdated, updatedNodes, batch := false, map[], [];
    }

    /** `fails` is the outcome of the underlying batch write, which is atomic. */
    method WriteBatch(fails: bool) returns (r: Result)
      requires Staged() && Coherent() && Typed(db)
      modifies `db, `headKeyIsSynced, `headKeyExists, `headKey, `nodeCache
      ensures Coherent() && r == if fails then WriteFailed else Ok
      ensures db == if fails then old(db) else Apply(old(db), batch)
    {
      hide NodeKey, Apply, NodeAt, HeadAt, Typed, Stages;
      if fails {
        return WriteFailed;
      }
      // Adding the updated nodes to the cache may drop any other entries, and even some of the added ones.
      var evicted :| evicted <= nodeCache.Keys + updatedNodes.Keys;
      CacheAfterWrite(db, batch, StagedHead(), updatedNodes, nodeCache, evicted);
      db := Apply(db, batch);
      if headKeyIsUpdated {
        headKeyIsSynced, headKeyExists, headKey := true, updatedHeadKeyExists, updatedHeadKey;
      }
      nodeCache := nodeCache + updatedNodes - evicted;
      r := Ok;
    }

    method Has(k: Bytes, ghost d: Dict) returns (b: bool)
      requires Valid(d)
      ensures b <==> k in d.vals
    {
      assert NodeAt(db, k) == NodeOf(d, k);
      b := NodeKey(k) in db;
    }

    method Get(k: Bytes, ghost d: Dict) returns (v: Option<Bytes>)
      requires Valid(d)
      modifies `nodeCache
      ensures Valid(d) && v == if k in d.vals then Some(d.vals[k]) else None
    {
      var n := GetNode(k);
      v := if n.Some? then Some(n.value.value) else None;
    }

    /** The head key and its value. */
    method Head(ghost d: Dict) returns (h: Option<(Bytes, Bytes)>)
      requires Valid(d)
      modifies `nodeCache, `headKeyIsSynced, `headKeyExists, `headKey
      ensures Valid(d) && h == if d.keys == [] then None else Some((d.keys[0], d.vals[d.keys[0]]))
    {
      var k := GetHeadKey();
      if k.None? {
        return None;
      }
      var n := GetNode(k.value);
      assert NodeAt(db, k.value) == NodeOf(d, k.value);
      h := Some((k.value, n.value.value));
    }

    /** Puts `k`; the batch write fails or not as the store decides, and then changes nothing. */
    method Put(k: Bytes, v: Bytes, fails: bool, ghost d: Dict) returns (r: Result)
      requires Valid(d)
      modifies this
      ensures Valid(if fails then d else PutDict(d, k, v)) && r == if fails then WriteFailed else Ok
      ensures fails ==> db == old(db)
    {
      hide NodeKey, Apply, NodeOf, NodeAt, HeadAt, PutDict, Represents, Typed, Stages;
      RepresentsTyped(db, d);
      ResetBatch();
      var existing := GetNode(k);
      if existing.Some? {
        PutNode(k, existing.value.(value := v));
        PutOldRepresents(db, batch, updatedNodes, d, k, v);
        r := WriteBatch(fails);
        return;
      }
      var newHead := Node(v, false, [], false, []);
      var oldKey := GetHeadKey();
      if oldKey.Some? {
        var oldHead := GetNode(oldKey.value);
        HeadHasNode(db, d);
        PutNode(oldKey.value, oldHead.value.(hasPrevious := true, previous := k));
        newHead := newHead.(hasNext := true, next := oldKey.value);
      }
      PutNode(k, newHead);
      PutHeadKey(k);
      PutNewRepresents(db, batch, updatedNodes, d, k, v);
      r := WriteBatch(fails);
    }

    method Delete(k: Bytes, fails: bool, ghost d: Dict) returns (r: Result)
      requires Valid(d)
      modifies this
      ensures k !in d.vals ==> r == Ok && db == old(db)
      ensures k in d.vals ==> r == if fails then WriteFailed else Ok
      ensures Valid(if r == WriteFailed then d else DeleteDict(d, k))
      ensures r == WriteFailed ==> db == old(db)
    {
      hide NodeKey, Apply, NodeOf, NodeAt, HeadAt, DeleteDict, Represents, Typed, Stages;
      RepresentsTyped(db, d);
      var found := GetNode(k);
      KnownNode(db, d, k);
      if found.None? {
        return Ok;
      }
      var n := found.value;
      ResetBatch();
      RemoveNode(k);
      Relink(k, n);
      DeleteRepresents(db, batch, StagedHead(), updatedNodes, d, k, n);
      r := WriteBatch(fails);
    }

    /** Stages the changes to the neighbours of a removed node and to the head. */
    method Relink(k: Bytes, n: Node)
      requires Staged() && Coherent() && Typed(db) && updatedNodes == map[k := None] && !headKeyIsUpdated
      requires n.hasPrevious ==> NodeAt(db, n.previous).Some?
      requires (n.hasNext ==> NodeAt(db, n.next).Some?) && (!n.hasPrevious ==> n.previous == [])
      modifies this
      ensures Staged() && Coherent() && db == old(db) && updatedNodes == StagedDelete(db, k, n)
      ensures StagedHead() == if n.hasPrevious then HeadAt(db) else if n.hasNext then Some(n.next) else None
    {
      hide NodeKey, Apply, NodeAt, HeadAt, Typed, Stages;
      if n.hasPrevious {
        var previous := GetNode(n.previous);
        PutNode(n.previous, previous.value.(hasNext := n.hasNext, next := n.next));
        if n.hasNext {
          var next := GetNode(n.next);
          PutNode(n.next, next.value.(hasPrevious := true, previous := n.previous));
        }
      } else if !n.hasNext {
        DeleteHeadKey();
      } else {
        PutHeadKey(n.next);
        var next := GetNode(n.next);
        PutNode(n.next, next.value.(hasPrevious := false, previous := []));
      }
    }
  }

  lemma RepresentsTyped(db: Store, d: Dict)
    requires Represents(db, d)
    ensures Typed(db)
  {
  }

  lemma CacheAfterWrite(db: Store, batch: seq<Op>, head: Option<Bytes>, nodes: map<Bytes, Option<Node>>,
                        cache: map<Bytes, Option<Node>>, evicted: set<Bytes>)
    requires Stages(db, batch, head, nodes) && forall k :: k in cache ==> cache[k] == NodeAt(db, k)
    ensures forall k :: k in cache + nodes - evicted ==> (cache + nodes - evicted)[k] == NodeAt(Apply(db, batch), k)
    ensures HeadAt(Apply(db, batch)) == head
  {
    hide NodeKey, Apply;
  }

  lemma HeadDiffers()
    ensures forall k :: NodeKey(k) != HEAD_KEY
  {
    forall k
      ensures NodeKey(k) != HEAD_KEY
    {
      NodeKeyInjective(k, k);
    }
  }

  lemma NodeKeysDiffer(k: Bytes)
    ensures forall x :: NodeKey(x) == NodeKey(k) <==> x == k
    ensures NodeKey(k) != HEAD_KEY
  {
    forall x
      ensures NodeKey(x) == NodeKey(k) <==> x == k
    {
      NodeKeyInjective(x, k);
    }
    NodeKeyInjective(k, k);
  }

  /** When the staged nodes are those in which two dictionaries differ, writing the batch leads from one to the other. */
  lemma Rewrites(db: Store, batch: seq<Op>, head: Option<Bytes>, nodes: map<Bytes, Option<Node>>, d: Dict, d': Dict)
    requires Represents(db, d) && Stages(db, batch, head, nodes) && WellFormed(d') && head == HeadOf(d')
    requires forall x :: NodeOf(d', x) == if x in nodes then nodes[x] else NodeOf(d, x)
    ensures Represents(Apply(db, batch), d')
  {
    hide NodeKey, Apply, NodeOf;
    forall x
      ensures NodeAt(Apply(db, batch), x) == NodeOf(d', x)
    {
      assert NodeAt(db, x) == NodeOf(d, x);
    }
  }

  lemma HeadHasNode(db: Store, d: Dict)
    requires Represents(db, d) && HeadAt(db).Some?
    ensures d.keys != [] && HeadAt(db) == Some(d.keys[0]) && NodeAt(db, d.keys[0]) == NodeOf(d, d.keys[0])
    ensures NodeAt(db, d.keys[0]).Some?
  {
    hide NodeKey;
  }

  lemma PutOldRepresents(db: Store, batch: seq<Op>, nodes: map<Bytes, Option<Node>>, d: Dict, k: Bytes, v: Bytes)
    requires Represents(db, d) && NodeAt(db, k).Some? && nodes == map[k := Some(NodeAt(db, k).value.(value := v))]
    requires Stages(db, batch, HeadAt(db), nodes)
    ensures Represents(Apply(db, batch), PutDict(d, k, v))
  {
    hide NodeKey, Apply, IndexOf;
    assert NodeAt(db, k) == NodeOf(d, k);
    var d' := PutDict(d, k, v);
    PutWellFormed(d, k, v);
    forall x
      ensures NodeOf(d', x) == if x in nodes then nodes[x] else NodeOf(d, x)
    {
      PutOldNode(d, k, v, x);
    }
    Rewrites(db, batch, HeadAt(db), nodes, d, d');
  }

  lemma PutNewRepresents(db: Store, batch: seq<Op>, nodes: map<Bytes, Option<Node>>, d: Dict, k: Bytes, v: Bytes)
    requires Represents(db, d) && NodeAt(db, k).None? && Stages(db, batch, Some(k), nodes)
    requires HeadAt(db).None? ==> nodes == map[k := Some(Node(v, false, [], false, []))]
    requires HeadAt(db).Some? ==>
      var h := HeadAt(db).value;
      && NodeAt(db, h).Some?
      && nodes == map[h := Some(NodeAt(db, h).value.(hasPrevious := true, previous := k))]
                     [k := Some(Node(v, true, h, false, []))]
    ensures Represents(Apply(db, batch), PutDict(d, k, v))
  {
    hide NodeKey, Apply, IndexOf;
    assert NodeAt(db, k) == NodeOf(d, k);
    var d' := PutDict(d, k, v);
    PutWellFormed(d, k, v);
    forall x
      ensures NodeOf(d', x) == if x in nodes then nodes[x] else NodeOf(d, x)
    {
      PutNewNode(d, k, v, x);
      assert NodeAt(db, x) == NodeOf(d, x);
    }
    Rewrites(db, batch, Some(k), nodes, d, d');
  }

  /** A stored node's neighbours are stored too, and no two of the three coincide. */
  lemma KnownNode(db: Store, d: Dict, k: Bytes)
    requires Represents(db, d)
    ensures NodeAt(db, k).Some? <==> k in d.vals
    ensures NodeAt(db, k).None? ==> DeleteDict(d, k) == d
    ensures NodeAt(db, k).Some? ==>
      var n := NodeAt(db, k).value;
      && (n.hasPrevious ==> NodeAt(db, n.previous).Some? && n.previous != k)
      && (n.hasNext ==> NodeAt(db, n.next).Some? && n.next != k)
      && (n.hasPrevious && n.hasNext ==> n.previous != n.next)
      && (!n.hasPrevious ==> n.previous == [])
  {
    hide NodeKey, IndexOf, Remove;
    assert NodeAt(db, k) == NodeOf(d, k);
    if k in d.keys {
      var i := IndexOf(d.keys, k);
      assert i > 0 ==> NodeAt(db, d.keys[i - 1]) == NodeOf(d, d.keys[i - 1]);
      assert i + 1 < |d.keys| ==> NodeAt(db, d.keys[i + 1]) == NodeOf(d, d.keys[i + 1]);
    }
  }

  /** The nodes that `Delete` stages. */
  function StagedDelete(db: Store, k: Bytes, n: Node): map<Bytes, Option<Node>>
    requires n.hasPrevious ==> NodeAt(db, n.previous).Some?
    requires n.hasNext ==> NodeAt(db, n.next).Some?
  {
    var gone := map[k := None];
    var unlinked :=
      if n.hasPrevious then gone[n.previous := Some(NodeAt(db, n.previous).value.(hasNext := n.hasNext, next := n.next))]
      else gone;
    if n.hasNext then
      unlinked[n.next := Some(NodeAt(db, n.next).value.(hasPrevious := n.hasPrevious, previous := n.previous))]
    else unlinked
  }

  lemma DeleteRepresents(db: Store, batch: seq<Op>, head: Option<Bytes>, nodes: map<Bytes, Option<Node>>, d: Dict, k: Bytes, n: Node)
    requires Represents(db, d) && NodeAt(db, k) == Some(n)
    requires n.hasPrevious ==> NodeAt(db, n.previous).Some?
    requires n.hasNext ==> NodeAt(db, n.next).Some?
    requires nodes == StagedDelete(db, k, n) && Stages(db, batch, head, nodes)
    requires head == if n.hasPrevious then HeadAt(db) else if n.hasNext then Some(n.next) else None
    ensures Represents(Apply(db, batch), DeleteDict(d, k))
  {
    hide NodeKey, Apply, IndexOf, DeleteDict, StagedDelete;
    KnownNode(db, d, k);
    assert NodeAt(db, k) == NodeOf(d, k);
    var d' := DeleteDict(d, k);
    DeleteWellFormed(d, k);
    DeleteHead(d, k);
    forall x
      ensures NodeOf(d', x) == if x in nodes then nodes[x] else NodeOf(d, x)
    {
      DeleteStaged(db, d, k, n, x);
    }
    Rewrites(db, batch, head, nodes, d, d');
  }

  lemma DeleteStaged(db: Store, d: Dict, k: Bytes, n: Node, x: Bytes)
    requires Represents(db, d) && NodeAt(db, k) == Some(n)
    requires n.hasPrevious ==> NodeAt(db, n.previous).Some?
    requires n.hasNext ==> NodeAt(db, n.next).Some?
    ensures
      var nodes := StagedDelete(db, k, n);
      NodeOf(DeleteDict(d, k), x) == if x in nodes then nodes[x] else NodeOf(d, x)
  {
    hide NodeKey, IndexOf, DeleteDict, NodeOf;
    KnownNode(db, d, k);
    assert NodeAt(db, k) == NodeOf(d, k) && NodeAt(db, x) == NodeOf(d, x);
    NodeOfSome(d, k);
    DeleteNode(d, k, x);
  }

  lemma NodeOfSome(d: Dict, k: Bytes)
    requires NodeOf(d, k).Some?
    ensures k in d.keys
  {
  }
}
