/** versiondb: pending changes kept in memory over a base database. */
module VersionDB {
  import opened Prelude

  datatype Change = Value(value: Bytes) | Deleted

  type Base = map<Bytes, Bytes>
  type Pending = map<Bytes, Change>

  /** The base overridden by the pending changes. */
  function Flatten(base: Base, mem: Pending): Base {
    map k | k in base.Keys + mem.Keys && (if k in mem then mem[k].Value? else true) ::
      if k in mem then mem[k].value else base[k]
  }

  datatype KeyChange = KeyChange(key: Bytes, change: Change)

  /** An in-order batch write to the base. */
  function Write(base: Base, ws: seq<KeyChange>): Base {
    if ws == [] then base
    else
      var b := Write(base, ws[..|ws| - 1]);
      var w := ws[|ws| - 1];
      if w.change.Value? then b[w.key := w.change.value] else b - {w.key}
  }

  /** The same writes, recorded as pending changes. */
  function Record(mem: Pending, ws: seq<KeyChange>): Pending {
    if ws == [] then mem
    else Record(mem, ws[..|ws| - 1])[ws[|ws| - 1].key := ws[|ws| - 1].change]
  }

  lemma FlattenPut(base: Base, mem: Pending, k: Bytes, c: Change)
    ensures Flatten(base, mem[k := c]) ==
            if c.Value? then Flatten(base, mem)[k := c.value] else Flatten(base, mem) - {k}
  {
  }

  /** Recording a batch changes the view as writing it in order would. */
  lemma {:induction false} RecordIsWrite(base: Base, mem: Pending, ws: seq<KeyChange>)
    ensures Flatten(base, Record(mem, ws)) == Write(Flatten(base, mem), ws)
  {
    if ws != [] {
      var before, w := ws[..|ws| - 1], ws[|ws| - 1];
      RecordIsWrite(base, mem, before);
      FlattenPut(base, Record(mem, before), w.key, w.change);
    }
  }

  /** `ws` lists every pending change once, in some order. */
  ghost predicate Lists(ws: seq<KeyChange>, mem: Pending) {
    Record(map[], ws) == mem && |ws| == |mem|
  }

  /** Whatever the order in which the changes are listed, writing them flattens the base. */
  lemma CommitFlattens(base: Base, mem: Pending, ws: seq<KeyChange>)
    requires Lists(ws, mem)
    ensures Write(base, ws) == Flatten(base, mem)
  {
    RecordIsWrite(base, map[], ws);
    assert Flatten(base, map[]) == base;
  }

  datatype Error = Closed | NotFound | WriteError
  datatype Result<T> = Ok(value: T) | Err(error: Error)

  class Database {
    var open: bool
    var mem: Pending
    var base: Base
    var batch: seq<KeyChange>

    ghost function View(): Base
      reads this
    {
      Flatten(base, mem)
    }

    constructor (base: Base)
      ensures open && View() == base && this.base == base && mem == map[]
    {
      this.base, mem, open, batch := base, map[], true, [];
      new;
      assert Flatten(base, map[]) == base;
    }

    method Has(k: Bytes) returns (r: Result<bool>)
      ensures r == if !open then Err(Closed) else Ok(k in View())
    {
      if !open {
        return Err(Closed);
      }
      if k in mem {
        return Ok(mem[k].Value?);
      }
      r := Ok(k in base);
    }

    method Get(k: Bytes) returns (r: Result<Bytes>)
      ensures r == if !open then Err(Closed) else if k in View() then Ok(View()[k]) else Err(NotFound)
    {
      if !open {
        return Err(Closed);
      }
      if k in mem {
        return if mem[k].Deleted? then Err(NotFound) else Ok(mem[k].value);
      }
      r := if k in base then Ok(base[k]) else Err(NotFound);
    }

    method Put(k: Bytes, v: Bytes) returns (r: Result<()>)
      modifies `mem
      ensures !open ==> r == Err(Closed) && mem == old(mem)
      ensures open ==> r == Ok(()) && View() == old(View())[k := v]
    {
      if !open {
        return Err(Closed);
      }
      FlattenPut(base, mem, k, Value(v));
      mem := mem[k := Value(v)];
      r := Ok(());
    }

    method Delete(k: Bytes) returns (r: Result<()>)
      modifies `mem
      ensures !open ==> r == Err(Closed) && mem == old(mem)
      ensures open ==> r == Ok(()) && View() == old(View()) - {k}
    {
      if !open {
        return Err(Closed);
      }
      FlattenPut(base, mem, k, Deleted);
      mem := mem[k := Deleted];
      r := Ok(());
    }

    /** `Write` of a batch created on this database. */
    method WriteBatch(ws: seq<KeyChange>) returns (r: Result<()>)
      modifies `mem
      ensures !open ==> r == Err(Closed) && mem == old(mem)
      ensures open ==> r == Ok(()) && View() == Write(old(View()), ws)
    {
      if !open {
        return Err(Closed);
      }
      for i := 0 to |ws|
        invariant mem == Record(old(mem), ws[..i])
      {
        assert ws[..i + 1][..i] == ws[..i];
        mem := mem[ws[i].key := ws[i].change];
      }
      assert ws[..|ws|] == ws;
      RecordIsWrite(base, old(mem), ws);
      r := Ok(());
    }

    /** Lists the pending changes in whatever order the map is traversed. */
    method CommitBatch() returns (r: Result<seq<KeyChange>>)
      modifies `batch
      ensures !open ==> r == Err(Closed) && batch == old(batch)
      ensures open ==> r == Ok(batch) && Lists(batch, mem) && Write(base, batch) == View()
    {
      if !open {
        return Err(Closed);
      }
      batch := [];
      var left := mem.Keys;
      while left != {}
        invariant left <= mem.Keys && |batch| + |left| == |mem.Keys|
        invariant Record(map[], batch) == map k | k in mem && k !in left :: mem[k]
        decreases left
      {
        var k :| k in left;
        RecordAppend(map[], batch, KeyChange(k, mem[k]));
        batch := batch + [KeyChange(k, mem[k])];
        left := left - {k};
      }
      assert |mem.Keys| == |mem|;
      CommitFlattens(base, mem, batch);
      r := Ok(batch);
    }

    /** Writes the pending changes to the base; the base's atomic write may fail. */
    method Commit(fails: bool) returns (r: Result<()>)
      modifies this
      ensures open == old(open)
      ensures !open ==> r == Err(Closed)
      ensures open && fails ==> r == Err(WriteError)
      ensures open && !fails ==> r == Ok(()) && mem == map[] && base == old(View())
      ensures r.Err? ==> mem == old(mem) && base == old(base)
      ensures View() == old(View())
    {
      hide Flatten, Lists, Write;
      var b := CommitBatch();
      if b.Err? {
        return Err(b.error);
      }
      if fails {
        return Err(WriteError);
      }
      base := Write(base, batch);
      batch := [];
      Abort();
      r := Ok(());
    }

    /** Drops every pending change. */
    method Abort()
      modifies `mem
      ensures mem == map[] && View() == base
    {
      mem := map[];
      assert Flatten(base, map[]) == base;
    }

    /** Keeps the pending changes over another base. */
    method SetDatabase(newBase: Base) returns (r: Result<()>)
      modifies `base, `batch
      ensures !open ==> r == Err(Closed) && base == old(base)
      ensures open ==> r == Ok(()) && base == newBase && View() == Flatten(newBase, mem)
    {
      if !open {
        return Err(Closed);
      }
      base, batch := newBase, [];
      r := Ok(());
    }
  }

  lemma RecordAppend(mem: Pending, ws: seq<KeyChange>, w: KeyChange)
    ensures Record(mem, ws + [w]) == Record(mem, ws)[w.key := w.change]
  {
    assert (ws + [w])[..|ws|] == ws;
  }

  // ---------------------------------------------------------------- runs

  datatype State = State(base: Base, mem: Pending)

  datatype Call =
    | PutCall(key: Bytes, value: Bytes)
    | DeleteCall(key: Bytes)
    | BatchCall(writes: seq<KeyChange>)
    | CommitCall(order: seq<KeyChange>)
    | AbortCall
    | SetCall(newBase: Base)

  /** `Commit` may list the pending changes in any order. */
  ghost predicate Possible(s: State, c: Call) {
    c.CommitCall? ==> Lists(c.order, s.mem)
  }

  function Step(s: State, c: Call): State {
    match c
    case PutCall(k, v) => s.(mem := s.mem[k := Value(v)])
    case DeleteCall(k) => s.(mem := s.mem[k := Deleted])
    case BatchCall(ws) => s.(mem := Record(s.mem, ws))
    case CommitCall(ws) => State(Write(s.base, ws), map[])
    case AbortCall => s.(mem := map[])
    case SetCall(b) => s.(base := b)
  }

  /** A plain map, a committed copy of it, and the writes made since. */
  datatype Reference = Reference(view: Base, committed: Base, pending: seq<KeyChange>)

  function Written(r: Reference, ws: seq<KeyChange>): Reference {
    r.(view := Write(r.view, ws), pending := r.pending + ws)
  }

  function RefStep(r: Reference, c: Call): Reference {
    match c
    case PutCall(k, v) => Written(r, [KeyChange(k, Value(v))])
    case DeleteCall(k) => Written(r, [KeyChange(k, Deleted)])
    case BatchCall(ws) => Written(r, ws)
    case CommitCall(_) => Reference(r.view, r.view, [])
    case AbortCall => Reference(r.committed, r.committed, [])
    case SetCall(b) => Reference(Write(b, r.pending), b, r.pending)
  }

  ghost predicate PossibleRun(s: State, cs: seq<Call>)
    decreases |cs|
  {
    cs == [] || (Possible(s, cs[0]) && PossibleRun(Step(s, cs[0]), cs[1..]))
  }

  function StepAll(s: State, cs: seq<Call>): State
    decreases |cs|
  {
    if cs == [] then s else StepAll(Step(s, cs[0]), cs[1..])
  }

  function RefStepAll(r: Reference, cs: seq<Call>): Reference
    decreases |cs|
  {
    if cs == [] then r else RefStepAll(RefStep(r, cs[0]), cs[1..])
  }

  ghost predicate Refines(s: State, r: Reference) {
    Flatten(s.base, s.mem) == r.view && s.base == r.committed && s.mem == Record(map[], r.pending)
  }

  /** Over every sequence of calls, whatever the traversal orders, reads see the plain map. */
  lemma {:induction false} Transparent(s: State, r: Reference, cs: seq<Call>)
    requires Refines(s, r) && PossibleRun(s, cs)
    ensures Refines(StepAll(s, cs), RefStepAll(r, cs))
    decreases |cs|
  {
    if cs != [] {
      StepRefines(s, r, cs[0]);
      Transparent(Step(s, cs[0]), RefStep(r, cs[0]), cs[1..]);
    }
  }

  lemma StepRefines(s: State, r: Reference, c: Call)
    requires Refines(s, r) && Possible(s, c)
    ensures Refines(Step(s, c), RefStep(r, c))
  {
    assert forall b: Base :: Flatten(b, map[]) == b;
    match c {
      case PutCall(k, v) => WriteRefines(s, r, [KeyChange(k, Value(v))]);
      case DeleteCall(k) => WriteRefines(s, r, [KeyChange(k, Deleted)]);
      case BatchCall(ws) => WriteRefines(s, r, ws);
      case CommitCall(ws) => CommitFlattens(s.base, s.mem, ws);
      case AbortCall =>
      case SetCall(b) => RecordIsWrite(b, map[], r.pending);
    }
    if c.PutCall? || c.DeleteCall? {
      var w := KeyChange(c.key, if c.PutCall? then Value(c.value) else Deleted);
      assert [w][..0] == [] && Record(s.mem, [w]) == s.mem[w.key := w.change];
    }
  }

  lemma WriteRefines(s: State, r: Reference, ws: seq<KeyChange>)
    requires Refines(s, r)
    ensures Refines(s.(mem := Record(s.mem, ws)), Written(r, ws))
  {
    RecordIsWrite(s.base, s.mem, ws);
    RecordConcat(map[], r.pending, ws);
  }

  lemma {:induction false} RecordConcat(m: Pending, a: seq<KeyChange>, b: seq<KeyChange>)
    ensures Record(m, a + b) == Record(Record(m, a), b)
  {
    if b == [] {
      assert a + b == a;
    } else {
      var before, w := b[..|b| - 1], b[|b| - 1];
      RecordConcat(m, a, before);
      assert (a + b)[..|a + b| - 1] == a + before;
    }
  }
}
