/** The type registry of the linear codec: consecutive 32-bit ids, some skipped. */
module Registry {
  import opened CodecModel

  datatype Reg = Reg(toType: map<nat, Type>, toID: map<Type, nat>, next: nat)

  function Empty(): Reg { Reg(map[], map[], 0) }

  /** A type that is already registered is refused. */
  function Register(r: Reg, t: Type): Reg {
    if t in r.toID then r else Reg(r.toType[r.next := t], r.toID[t := r.next], (r.next + 1) % UINT32)
  }

  function Skip(r: Reg, num: int): Reg {
    r.(next := (r.next + num) % UINT32)
  }

  function ToCodec(r: Reg, maxLen: nat, implements: set<(Type, nat)>): Codec {
    Codec(r.toType, r.toID, maxLen, implements)
  }

  ghost predicate Sound(r: Reg) {
    r.next < UINT32 && Bijective(ToCodec(r, 0, {}))
  }

  class Types {
    var toType: map<nat, Type>
    var toID: map<Type, nat>
    var next: nat

    constructor ()
      ensures Now() == Empty()
    {
      toType, toID, next := map[], map[], 0;
    }

    function Now(): Reg
      reads this
    {
      Reg(toType, toID, next)
    }

    method RegisterType(t: Type) returns (ok: bool)
      modifies this
      ensures ok == (t !in old(toID)) && Now() == Register(old(Now()), t)
    {
      if t in toID {
        return false;
      }
      toType := toType[next := t];
      toID := toID[t := next];
      next := (next + 1) % UINT32;
      ok := true;
    }

    method SkipRegistrations(num: int)
      modifies this`next
      ensures Now() == Skip(old(Now()), num)
    {
      next := (next + num) % UINT32;
    }
  }

  /** Registering a new type keeps the two maps inverse exactly when the next id is unused. */
  lemma RegisterExactly(r: Reg, t: Type)
    requires Sound(r) && t !in r.toID
    ensures Sound(Register(r, t)) <==> r.next !in r.toType
  {
    var r' := Register(r, t);
    if r.next in r.toType {
      var u := r.toType[r.next];
      assert u in r.toID && r'.toID[u] == r.next;
    } else {
      forall u | u in r'.toID
        ensures r'.toID[u] < UINT32 && r'.toID[u] in r'.toType && r'.toType[r'.toID[u]] == u
      {
        assert u != t ==> r.toID[u] in r.toType;
      }
      forall id | id in r'.toType
        ensures r'.toType[id] in r'.toID && r'.toID[r'.toType[id]] == id
      {
        assert id != r.next ==> r.toType[id] in r.toID;
      }
    }
  }

  // ---------------------------------------------------------------- runs

  datatype Op = RegisterOp(t: Type) | SkipOp(num: int)

  function Do(r: Reg, op: Op): Reg {
    if op.RegisterOp? then Register(r, op.t) else Skip(r, op.num)
  }

  function Run(ops: seq<Op>): Reg {
    if ops == [] then Empty() else Do(Run(ops[..|ops| - 1]), ops[|ops| - 1])
  }

  /** The operation does not give out an id a second time. */
  ghost predicate Unused(r: Reg, op: Op) {
    op.RegisterOp? && op.t !in r.toID ==> r.next !in r.toType
  }

  /** No registration of the run gives out an id a second time. */
  ghost predicate Clean(ops: seq<Op>) {
    ops == [] || (Clean(ops[..|ops| - 1]) && Unused(Run(ops[..|ops| - 1]), ops[|ops| - 1]))
  }

  /** Some registered type no longer has its id to itself. */
  ghost predicate Lost(r: Reg) {
    exists t :: t in r.toID && !(r.toID[t] in r.toType && r.toType[r.toID[t]] == t)
  }

  /** Once a type has lost its id it never gets it back: the type cannot be registered again. */
  lemma LostStays(r: Reg, op: Op)
    requires Lost(r)
    ensures Lost(Do(r, op))
  {
    var t :| t in r.toID && !(r.toID[t] in r.toType && r.toType[r.toID[t]] == t);
    var r' := Do(r, op);
    assert t in r'.toID && !(r'.toID[t] in r'.toType && r'.toType[r'.toID[t]] == t);
  }

  /** Over every run of registrations and skips, negative ones included, the registry is a bijection exactly when no
      registration gave out an id a second time. */
  lemma {:induction false} RunExactly(ops: seq<Op>)
    ensures Sound(Run(ops)) <==> Clean(ops)
    ensures !Clean(ops) ==> Lost(Run(ops))
  {
    if ops != [] {
      var before, op := ops[..|ops| - 1], ops[|ops| - 1];
      RunExactly(before);
      var r := Run(before);
      if !Clean(before) {
        LostStays(r, op);
      } else if op.RegisterOp? && op.t !in r.toID {
        RegisterExactly(r, op.t);
        if r.next in r.toType {
          var u := r.toType[r.next];
          assert u in r.toID && Do(r, op).toID[u] == r.next && Do(r, op).toType[r.next] == op.t;
        }
      }
    }
  }

  // ---------------------------------------------------------------- a condition on the counts

  /** How many ids an operation uses up. */
  function Uses(r: Reg, op: Op): int {
    if op.SkipOp? then op.num else if op.t in r.toID then 0 else 1
  }

  function Used(ops: seq<Op>): int {
    if ops == [] then 0 else Used(ops[..|ops| - 1]) + Uses(Run(ops[..|ops| - 1]), ops[|ops| - 1])
  }

  /** Over every run the next id is the number used up so far, in 32 bits. */
  lemma {:induction false} NextIsUsed(ops: seq<Op>)
    ensures Run(ops).next == Used(ops) % UINT32
  {
    hide Do, Uses;
    if ops != [] {
      var before, op := ops[..|ops| - 1], ops[|ops| - 1];
      NextIsUsed(before);
      NextMoves(Run(before), op);
      ModAdd(Used(before), Uses(Run(before), op));
    }
  }

  lemma NextMoves(r: Reg, op: Op)
    requires r.next < UINT32
    ensures Do(r, op).next == (r.next + Uses(r, op)) % UINT32
  {
  }

  lemma ModAdd(a: int, n: int)
    ensures (a % UINT32 + n) % UINT32 == (a + n) % UINT32
  {
    var q := a / UINT32;
    assert a == UINT32 * q + a % UINT32;
  }

  /** A type gets as its id how many were used up before it, counting from zero, and keeps it. */
  lemma {:induction false} GivenID(ops: seq<Op>, i: nat)
    requires i < |ops| && ops[i].RegisterOp? && ops[i].t !in Run(ops[..i]).toID
    ensures ops[i].t in Run(ops).toID && Run(ops).toID[ops[i].t] == Used(ops[..i]) % UINT32
  {
    var before := ops[..|ops| - 1];
    if i == |ops| - 1 {
      NextIsUsed(before);
    } else {
      assert before[..i] == ops[..i];
      GivenID(before, i);
    }
  }

  ghost predicate Forward(ops: seq<Op>) {
    forall i :: 0 <= i < |ops| && ops[i].SkipOp? ==> ops[i].num >= 0
  }

  /** Skipping forward only, and using up at most 2^32 ids, no id is given out twice. */
  lemma {:induction false} RunSound(ops: seq<Op>)
    requires Forward(ops) && Used(ops) <= UINT32
    ensures
      var r := Run(ops);
      Sound(r) && 0 <= Used(ops) && r.next == Used(ops) % UINT32 && forall id :: id in r.toType ==> id < Used(ops)
  {
    if ops != [] {
      var before, op := ops[..|ops| - 1], ops[|ops| - 1];
      assert ops == before + [op] && op == ops[|ops| - 1];
      RunSound(before);
      StepSound(Run(before), op, Used(before));
    }
  }

  lemma StepSound(r: Reg, op: Op, used: nat)
    requires Sound(r) && r.next == used % UINT32 && (forall id :: id in r.toType ==> id < used)
    requires 0 <= Uses(r, op) && used + Uses(r, op) <= UINT32
    ensures
      var r', used' := Do(r, op), used + Uses(r, op);
      Sound(r') && r'.next == used' % UINT32 && forall id :: id in r'.toType ==> id < used'
  {
    if op.RegisterOp? && op.t !in r.toID {
      assert r.next == used;
      RegisterExactly(r, op.t);
    }
  }

  /** A negative skip moves back onto used ids, and the next registration takes over an id already given out. */
  lemma SkipBackBreaks(a: Type, b: Type)
    requires a != b
    ensures !Sound(Register(Skip(Register(Empty(), a), -1), b))
  {
    var r := Skip(Register(Empty(), a), -1);
    assert r.next == 0 && Sound(r) by {
      RegisterExactly(Empty(), a);
    }
    RegisterExactly(r, b);
  }
}
