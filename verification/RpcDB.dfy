/** rpcdb batches: the client sends a batch backwards, deduplicated and in chunks;
    the server collects the chunks of a batch and writes them at once. */
module RpcDB {
  import opened Prelude
  import opened VersionDB

  const MAX_BATCH_SIZE := 64 * 1024
  const BASE_ELEMENT_SIZE := 8

  datatype Request = Request(id: int, puts: seq<KeyChange>, deletes: seq<KeyChange>, continues: bool)

  /** The order in which the server records a request: puts before deletes. */
  function Writes(r: Request): seq<KeyChange> {
    r.puts + r.deletes
  }

  function ElementSize(w: KeyChange): nat {
    BASE_ELEMENT_SIZE + |w.key| + if w.change.Value? then |w.change.value| else 0
  }

  function Size(ws: seq<KeyChange>): nat {
    if ws == [] then 0 else ElementSize(ws[0]) + Size(ws[1..])
  }

  // ---------------------------------------------------------------- lists of writes

  ghost predicate Mentions(ws: seq<KeyChange>, k: Bytes) {
    exists w :: w in ws && w.key == k
  }

  lemma {:induction false} RecordKeys(m: Pending, ws: seq<KeyChange>, k: Bytes)
    ensures k in Record(m, ws) <==> k in m || Mentions(ws, k)
  {
    if ws != [] {
      var before, w := ws[..|ws| - 1], ws[|ws| - 1];
      assert ws == before + [w];
      RecordKeys(m, before, k);
      assert Mentions(ws, k) <==> Mentions(before, k) || w.key == k;
    }
  }

  /** Writes to other keys do not disturb a key. */
  lemma {:induction false} RecordOther(m: Pending, k: Bytes, c: Change, b: seq<KeyChange>)
    requires !Mentions(b, k)
    ensures Record(m[k := c], b) == Record(m, b)[k := c]
  {
    if b != [] {
      var before, w := b[..|b| - 1], b[|b| - 1];
      assert b == before + [w] && w in b;
      assert !Mentions(before, k) by {
        assert forall x :: x in before ==> x in b;
      }
      RecordOther(m, k, c, before);
      assert w.key != k;
      assert Record(m, before)[k := c][w.key := w.change] == Record(m, before)[w.key := w.change][k := c];
    }
  }

  /** A write may be inserted anywhere before writes to other keys. */
  lemma RecordInsert(a: seq<KeyChange>, w: KeyChange, b: seq<KeyChange>)
    requires !Mentions(b, w.key)
    ensures Record(map[], a + [w] + b) == Record(map[], a + b)[w.key := w.change]
  {
    RecordConcat(map[], a + [w], b);
    RecordConcat(map[], a, b);
    assert (a + [w])[..|a|] == a;
    RecordOther(Record(map[], a), w.key, w.change, b);
  }

  /** The last write to a key decides its change. */
  lemma LastWrite(ws: seq<KeyChange>, i: nat)
    requires i < |ws| && !Mentions(ws[i + 1..], ws[i].key)
    ensures ws[i].key in Record(map[], ws) && Record(map[], ws)[ws[i].key] == ws[i].change
  {
    hide Record, Mentions;
    assert ws == ws[..i] + [ws[i]] + ws[i + 1..];
    RecordInsert(ws[..i], ws[i], ws[i + 1..]);
  }

  // ---------------------------------------------------------------- the server

  datatype Response = Done | Failed

  class Server {
    var db: Base
    var batches: map<int, seq<KeyChange>>

    ghost function Collected(id: int): seq<KeyChange>
      reads this
    {
      if id in batches then batches[id] else []
    }

    constructor (db: Base)
      ensures this.db == db && batches == map[]
    {
      this.db, batches := db, map[];
    }

    /** `fails` says whether the underlying batch reports an error, when it is added to or when it is written, which is
        atomic; the batch is then freed. */
    method WriteBatch(req: Request, fails: bool) returns (r: Response)
      modifies this
      ensures fails ==> r == Failed && db == old(db) && batches == old(batches) - {req.id}
      ensures !fails ==> r == Done
      ensures !fails && req.continues ==> db == old(db) && batches == old(batches)[req.id := old(Collected(req.id)) + Writes(req)]
      ensures !fails && !req.continues ==>
                batches == old(batches) - {req.id} && db == Write(old(db), old(Collected(req.id)) + Writes(req))
    {
      hide Write;
      var batch := AddRequest(if req.id in batches then batches[req.id] else [], req);
      if req.continues && !fails {
        batches := batches[req.id := batch];
        return Done;
      }
      batches := batches - {req.id};
      if fails {
        return Failed;
      }
      db := Write(db, batch);
      r := Done;
    }
  }

  /** Adds the puts of a request to a batch, and then its deletes. */
  method AddRequest(start: seq<KeyChange>, req: Request) returns (batch: seq<KeyChange>)
    ensures batch == start + Writes(req)
  {
    batch := start;
    for i := 0 to |req.puts|
      invariant batch == start + req.puts[..i]
    {
      batch := batch + [req.puts[i]];
    }
    for i := 0 to |req.deletes|
      invariant batch == start + req.puts + req.deletes[..i]
    {
      batch := batch + [req.deletes[i]];
    }
  }

  // ---------------------------------------------------------------- the client

  /** The lengths of the keys, and of the values that are put. */
  function KeyBytes(ws: seq<KeyChange>): nat {
    if ws == [] then 0 else |ws[0].key| + KeyBytes(ws[1..])
  }

  function ValueBytes(ws: seq<KeyChange>): nat {
    if ws == [] then 0
    else (match ws[0].change case Value(v) => |v| case Deleted => 0) + ValueBytes(ws[1..])
  }

  /** Eight bytes an element, and the lengths of keys and values. */
  function Accounted(r: Request): nat {
    8 * (|r.puts| + |r.deletes|) + KeyBytes(r.puts) + KeyBytes(r.deletes) + ValueBytes(r.puts)
  }

  /** Puts carry values and deletes do not. */
  ghost predicate Kinds(puts: seq<KeyChange>, deletes: seq<KeyChange>) {
    (forall w :: w in puts ==> w.change.Value?) && (forall w :: w in deletes ==> w.change.Deleted?)
  }

  /** At most 64 KiB are accounted for, or there is a single element. */
  ghost predicate Bounded(r: Request) {
    Kinds(r.puts, r.deletes) && (Accounted(r) <= 65536 || |r.puts| + |r.deletes| == 1)
  }

  /** No two requests in a row would have fit in one. */
  ghost predicate Packed(rs: seq<Request>) {
    forall i :: 0 < i < |rs| ==> Accounted(rs[i - 1]) + Accounted(rs[i]) > 65536
  }

  lemma {:induction false} SizeAccounted(ws: seq<KeyChange>)
    ensures Size(ws) == 8 * |ws| + KeyBytes(ws) + ValueBytes(ws)
  {
    if ws != [] {
      SizeAccounted(ws[1..]);
    }
  }

  lemma {:induction false} NoValues(ws: seq<KeyChange>)
    requires forall w :: w in ws ==> w.change.Deleted?
    ensures ValueBytes(ws) == 0
  {
    if ws != [] {
      NoValues(ws[1..]);
    }
  }

  lemma {:induction false} SizeConcat(a: seq<KeyChange>, b: seq<KeyChange>)
    ensures Size(a + b) == Size(a) + Size(b)
  {
    if a == [] {
      assert a + b == b;
    } else {
      assert (a + b)[1..] == a[1..] + b;
      SizeConcat(a[1..], b);
    }
  }

  ghost predicate OncePerKey(ws: seq<KeyChange>) {
    forall i, j :: 0 <= i < j < |ws| ==> ws[i].key != ws[j].key
  }

  lemma OnceMore(a: seq<KeyChange>, w: KeyChange, b: seq<KeyChange>)
    requires OncePerKey(a + b) && !Mentions(a + b, w.key)
    ensures OncePerKey(a + [w] + b)
  {
    var all, ws := a + b, a + [w] + b;
    forall i, j | 0 <= i < j < |ws|
      ensures ws[i].key != ws[j].key
    {
      var i' := if i <= |a| then i else i - 1;
      var j' := if j <= |a| then j else j - 1;
      assert i != |a| ==> ws[i] == all[i'] && all[i'] in all;
      assert j != |a| ==> ws[j] == all[j'] && all[j'] in all;
    }
  }

  /** The collected writes hold, once for every key seen so far, the change that the whole batch decides. */
  ghost predicate Agrees(sent: seq<KeyChange>, ws: seq<KeyChange>, seen: set<Bytes>) {
    var done, all := Record(map[], sent), Record(map[], ws);
    OncePerKey(sent) && done.Keys == seen && forall k :: k in seen ==> k in all && done[k] == all[k]
  }

  lemma AgreesNext(sent: seq<KeyChange>, puts: seq<KeyChange>, deletes: seq<KeyChange>, ws: seq<KeyChange>, i: nat, seen: set<Bytes>)
    requires i < |ws| && ws[i].key !in seen && Agrees(sent + puts + deletes, ws, seen)
    requires forall k :: Mentions(ws[i + 1..], k) ==> k in seen
    ensures Agrees(sent + (puts + [ws[i]]) + deletes, ws, seen + {ws[i].key})
    ensures Agrees(sent + puts + (deletes + [ws[i]]), ws, seen + {ws[i].key})
  {
    hide Record, OncePerKey;
    var w := ws[i];
    LastWrite(ws, i);
    var all := sent + puts + deletes;
    assert all + [] == all;
    RecordKeys(map[], all, w.key);
    assert !Mentions(deletes, w.key) by {
      assert forall x :: x in deletes ==> x in all;
    }
    OnceMore(sent + puts, w, deletes);
    OnceMore(all, w, []);
    RecordInsert(sent + puts, w, deletes);
    assert sent + (puts + [w]) + deletes == sent + puts + [w] + deletes;
    RecordInsert(all, w, []);
    assert sent + puts + (deletes + [w]) == all + [w] + [] && all + [] == all;
  }

  lemma MentionsCons(ws: seq<KeyChange>, i: nat)
    requires i < |ws|
    ensures forall k :: Mentions(ws[i..], k) <==> k == ws[i].key || Mentions(ws[i + 1..], k)
  {
    assert ws[i..] == [ws[i]] + ws[i + 1..];
  }

  /** Once every key was seen, the collected writes decide the same changes as the batch. */
  lemma AgreesAll(sent: seq<KeyChange>, ws: seq<KeyChange>, seen: set<Bytes>, db: Base)
    requires Agrees(sent, ws, seen) && forall k :: Mentions(ws, k) ==> k in seen
    ensures Record(map[], sent) == Record(map[], ws) && Write(db, sent) == Write(db, ws)
    ensures OncePerKey(sent)
  {
    hide Record, Write, OncePerKey;
    forall k
      ensures k in Record(map[], ws) ==> k in seen
    {
      RecordKeys(map[], ws, k);
    }
    assert Record(map[], sent) == Record(map[], ws);
    RecordIsWrite(db, map[], sent);
    RecordIsWrite(db, map[], ws);
    assert Flatten(db, map[]) == db;
  }

  /** All writes of a list of requests, in the order the server records them. */
  function AllWrites(rs: seq<Request>): seq<KeyChange> {
    if rs == [] then [] else AllWrites(rs[..|rs| - 1]) + Writes(rs[|rs| - 1])
  }

  lemma AllWritesAppend(rs: seq<Request>, r: Request)
    ensures AllWrites(rs + [r]) == AllWrites(rs) + r.puts + r.deletes
  {
    assert (rs + [r])[..|rs|] == rs;
  }

  /** All requests of one batch: every one but the last continues. */
  ghost predicate OneBatch(rs: seq<Request>, id: int) {
    rs != [] && forall i :: 0 <= i < |rs| ==> rs[i].id == id && rs[i].continues == (i < |rs| - 1) && Bounded(rs[i])
  }

  ghost predicate Continuing(rs: seq<Request>, id: int) {
    forall i :: 0 <= i < |rs| ==> rs[i].id == id && rs[i].continues && Bounded(rs[i])
  }

  lemma BoundedRequest(r: Request, size: nat)
    requires size == Size(r.puts) + Size(r.deletes) && Kinds(r.puts, r.deletes)
    requires size <= MAX_BATCH_SIZE || |r.puts| + |r.deletes| == 1
    ensures Bounded(r) && Accounted(r) == size
  {
    SizeAccounted(r.puts);
    SizeAccounted(r.deletes);
    NoValues(r.deletes);
  }

  /** The last request so far and the elements collected since do not fit in one. */
  ghost predicate Overfull(sent: seq<Request>, size: nat) {
    sent != [] ==> Accounted(sent[|sent| - 1]) + size > 65536
  }

  lemma PackedNext(sent: seq<Request>, req: Request)
    requires Packed(sent) && Overfull(sent, Accounted(req))
    ensures Packed(sent + [req])
  {
  }

  /** What may go wrong with the client's request number `at`: the server reports an error, the request does not reach
      it, or its reply does not come back. */
  datatype Fault = NoFault | Refused(at: nat) | RequestLost(at: nat) | ReplyLost(at: nat)

  predicate Strikes(f: Fault, i: nat) {
    !f.NoFault? && f.at == i
  }

  method Send(server: Server, req: Request, fault: Fault, i: nat) returns (r: Response)
    modifies server
    ensures r == if Strikes(fault, i) then Failed else Done
    ensures server.batches - {req.id} == old(server.batches) - {req.id}
    ensures !Strikes(fault, i) || fault.ReplyLost? ==>
              server.db == (if req.continues then old(server.db) else Write(old(server.db), old(server.Collected(req.id)) + Writes(req)))
    ensures !Strikes(fault, i) ==>
              server.batches == if req.continues then old(server.batches)[req.id := old(server.Collected(req.id)) + Writes(req)]
                                else old(server.batches) - {req.id}
    ensures Strikes(fault, i) && !fault.ReplyLost? ==> server.db == old(server.db)
  {
    hide Write;
    if Strikes(fault, i) && fault.RequestLost? {
      return Failed;
    }
    r := server.WriteBatch(req, Strikes(fault, i) && fault.Refused?);
    if Strikes(fault, i) {
      r := Failed;
    }
  }

  /** `Write` of a client batch; `sent` are the requests made. The server's database changes at most once, with the last
      request, and then as if the writes had been replayed in order; a failed write has changed nothing, unless it was
      the last reply that got lost. */
  method ClientWrite(server: Server, ws: seq<KeyChange>, id: int, fault: Fault) returns (r: Response, sent: seq<Request>)
    requires id !in server.batches
    modifies server
    ensures sent != [] && (r == Failed <==> Strikes(fault, |sent| - 1))
    ensures server.batches - {id} == old(server.batches)
    ensures r == Done ==> server.batches == old(server.batches) && server.db == Write(old(server.db), ws)
    ensures Packed(sent) && forall req :: req in sent ==> Bounded(req)
    ensures r == Done ==> OneBatch(sent, id) && Record(map[], AllWrites(sent)) == Record(map[], ws)
    ensures r == Done ==> OncePerKey(AllWrites(sent))
    ensures r == Failed ==> server.db == if fault.ReplyLost? && !sent[|sent| - 1].continues then Write(old(server.db), ws) else old(server.db)
  {
    hide Write, Record, Size, AllWrites, Bounded, Mentions, Agrees, Writes, ElementSize, Strikes, Accounted, Packed, OncePerKey;
    var puts: seq<KeyChange>, deletes: seq<KeyChange> := [], [];
    var currentSize, seen: set<Bytes> := 0, {};
    sent := [];
    ClientStart(ws);
    for i := |ws| downto 0
      invariant forall k :: k in seen <==> Mentions(ws[i..], k)
      invariant Agrees(AllWrites(sent) + puts + deletes, ws, seen)
      invariant server.db == old(server.db)
      invariant server.batches == if sent == [] then old(server.batches) else old(server.batches)[id := AllWrites(sent)]
      invariant currentSize == Size(puts) + Size(deletes)
      invariant currentSize <= MAX_BATCH_SIZE || |puts| + |deletes| == 1
      invariant Continuing(sent, id) && Kinds(puts, deletes) && Packed(sent) && Overfull(sent, currentSize)
    {
      var kv := ws[i];
      MentionsCons(ws, i);
      if kv.key !in seen {
        var sizeChange := ElementSize(kv);
        if currentSize + sizeChange > MAX_BATCH_SIZE {
          var req := Request(id, puts, deletes, true);
          BoundedRequest(req, currentSize);
          r := Send(server, req, fault, |sent|);
          Flushed(sent, req);
          PackedNext(sent, req);
          sent := sent + [req];
          if r == Failed {
            return;
          }
          currentSize, deletes, puts := 0, [], [];
        }
        AgreesNext(AllWrites(sent), puts, deletes, ws, i, seen);
        seen := seen + {kv.key};
        currentSize := currentSize + sizeChange;
        SizeAppend(puts, kv);
        SizeAppend(deletes, kv);
        if kv.change.Deleted? {
          deletes := deletes + [kv];
        } else {
          puts := puts + [kv];
        }
      }
    }
    var req := Request(id, puts, deletes, false);
    BoundedRequest(req, currentSize);
    Flushed(sent, req);
    PackedNext(sent, req);
    assert ws[0..] == ws;
    AgreesAll(AllWrites(sent) + puts + deletes, ws, seen, server.db);
    r := Send(server, req, fault, |sent|);
    sent := sent + [req];
  }

  lemma ClientStart(ws: seq<KeyChange>)
    ensures Agrees(AllWrites([]) + [] + [], ws, {}) && Size([]) == 0 && AllWrites([]) == [] && Packed([])
    ensures forall k :: !Mentions(ws[|ws|..], k)
  {
    assert Record(map[], []) == map[];
  }

  lemma SizeAppend(ws: seq<KeyChange>, w: KeyChange)
    ensures Size(ws + [w]) == Size(ws) + ElementSize(w) && Size([]) == 0
  {
    SizeConcat(ws, [w]);
    assert [w][1..] == [];
  }

  lemma Flushed(sent: seq<Request>, req: Request)
    ensures AllWrites(sent + [req]) == AllWrites(sent) + req.puts + req.deletes
    ensures AllWrites(sent) + Writes(req) == AllWrites(sent) + req.puts + req.deletes
    ensures AllWrites(sent + [req]) + [] + [] == AllWrites(sent) + req.puts + req.deletes
  {
    hide AllWrites;
    AllWritesAppend(sent, req);
  }

  // ---------------------------------------------------------------- interleaved clients

  datatype ServerState = ServerState(db: Base, batches: map<int, seq<KeyChange>>)

  /** A request that reaches the server, and whether the underlying batch reports an error. */
  datatype Call = Call(req: Request, fails: bool)

  function Collect(s: ServerState, id: int): seq<KeyChange> {
    if id in s.batches then s.batches[id] else []
  }

  function Serve(s: ServerState, c: Call): ServerState {
    var id, batch := c.req.id, Collect(s, c.req.id) + Writes(c.req);
    if c.fails then s.(batches := s.batches - {id})
    else if c.req.continues then s.(batches := s.batches[id := batch])
    else ServerState(Write(s.db, batch), s.batches - {id})
  }

  function ServeAll(s: ServerState, calls: seq<Call>): ServerState {
    if calls == [] then s else Serve(ServeAll(s, calls[..|calls| - 1]), calls[|calls| - 1])
  }

  /** The calls for one id, in order. */
  function Only(calls: seq<Call>, id: int): seq<Call> {
    if calls == [] then []
    else
      var before, c := Only(calls[..|calls| - 1], id), calls[|calls| - 1];
      if c.req.id == id then before + [c] else before
  }

  /** The writes of an id since its last completed or failed batch, read off that id's own calls. */
  function Open(own: seq<Call>): seq<KeyChange> {
    if own == [] then []
    else
      var c := own[|own| - 1];
      if c.req.continues && !c.fails then Open(own[..|own| - 1]) + Writes(c.req) else []
  }

  /** The batches completed, in the order of their last requests, each read off its own calls. */
  function Completed(calls: seq<Call>): seq<seq<KeyChange>> {
    if calls == [] then []
    else
      var before, c := calls[..|calls| - 1], calls[|calls| - 1];
      if c.req.continues || c.fails then Completed(before) else Completed(before) + [Open(Only(before, c.req.id)) + Writes(c.req)]
  }

  function WriteEach(db: Base, batches: seq<seq<KeyChange>>): Base {
    if batches == [] then db
    else Write(WriteEach(db, batches[..|batches| - 1]), batches[|batches| - 1])
  }

  /** However the requests of different batches interleave, and whichever fail, the server writes each batch whole, when
      its last request succeeds, and other batches have no part in it. */
  lemma {:induction false} NoInterference(db: Base, calls: seq<Call>)
    ensures
      var s := ServeAll(ServerState(db, map[]), calls);
      s.db == WriteEach(db, Completed(calls)) && forall id :: Collect(s, id) == Open(Only(calls, id))
  {
    if calls != [] {
      var before, c := calls[..|calls| - 1], calls[|calls| - 1];
      NoInterference(db, before);
      var s := ServeAll(ServerState(db, map[]), before);
      assert Collect(s, c.req.id) == Open(Only(before, c.req.id));
      forall id
        ensures Collect(Serve(s, c), id) == Open(Only(calls, id))
      {
        OpenNext(s, before, c, id);
        assert calls == before + [c];
      }
      if !c.req.continues && !c.fails {
        var batch := Open(Only(before, c.req.id)) + Writes(c.req);
        assert (Completed(before) + [batch])[..|Completed(before)|] == Completed(before);
      }
    }
  }

  lemma OpenNext(s: ServerState, before: seq<Call>, c: Call, id: int)
    requires Collect(s, id) == Open(Only(before, id))
    ensures Collect(Serve(s, c), id) == Open(Only(before + [c], id))
  {
    hide Write, Only, Open, Writes;
    OnlyAppend(before, c, id);
    OpenAppend(Only(before, id), c);
  }

  lemma OnlyAppend(before: seq<Call>, c: Call, id: int)
    ensures Only(before + [c], id) == if c.req.id == id then Only(before, id) + [c] else Only(before, id)
  {
    assert (before + [c])[..|before|] == before;
  }

  lemma OpenAppend(own: seq<Call>, c: Call)
    ensures Open(own + [c]) == if c.req.continues && !c.fails then Open(own) + Writes(c.req) else []
  {
    assert (own + [c])[..|own|] == own;
  }

  function Succeeding(rs: seq<Request>): seq<Call> {
    if rs == [] then [] else Succeeding(rs[..|rs| - 1]) + [Call(rs[|rs| - 1], false)]
  }

  lemma {:induction false} ContinuingOpen(rs: seq<Request>, id: int)
    requires Continuing(rs, id)
    ensures Open(Succeeding(rs)) == AllWrites(rs)
  {
    if rs != [] {
      ContinuingOpen(rs[..|rs| - 1], id);
      var before := Succeeding(rs[..|rs| - 1]);
      assert (before + [Call(rs[|rs| - 1], false)])[..|before|] == before;
    }
  }

  /** A client batch whose requests reach the server in order, among any others, is written as an in-order replay. */
  lemma BatchEquivalence(before: seq<Call>, last: Request, sent: seq<Request>, ws: seq<KeyChange>, id: int, db: Base)
    requires OneBatch(sent, id) && Record(map[], AllWrites(sent)) == Record(map[], ws)
    requires Only(before, id) == Succeeding(sent[..|sent| - 1]) && last == sent[|sent| - 1]
    ensures
      var s := ServeAll(ServerState(db, map[]), before);
      Serve(s, Call(last, false)).db == Write(s.db, ws)
  {
    var s := ServeAll(ServerState(db, map[]), before);
    NoInterference(db, before);
    assert Collect(s, id) == Open(Only(before, id));
    ContinuingOpen(sent[..|sent| - 1], id);
    assert AllWrites(sent) == Collect(s, id) + Writes(last);
    SameRecord(s.db, AllWrites(sent), ws);
  }

  lemma SameRecord(db: Base, a: seq<KeyChange>, b: seq<KeyChange>)
    requires Record(map[], a) == Record(map[], b)
    ensures Write(db, a) == Write(db, b)
  {
    RecordIsWrite(db, map[], a);
    RecordIsWrite(db, map[], b);
    assert Flatten(db, map[]) == db;
  }
}
