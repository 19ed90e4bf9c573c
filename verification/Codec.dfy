/** Marshal and unmarshal as they run: against a packer with a write offset, a size limit and a sticky error. */
module Codec {
  import opened Prelude
  import opened BigEndian
  import opened CodecModel
  import opened CodecRoundTrip

  class Packer {
    var bytes: Bytes
    var offset: nat
    var err: Option<Error>
    const maxSize: nat

    constructor (input: Bytes, limit: nat)
      ensures Valid() && err == None && Written() == [] && Left() == input && maxSize == limit
    {
      bytes, offset, err, maxSize := input, 0, None, limit;
    }

    ghost predicate Valid()
      reads this
    {
      offset <= |bytes|
    }

    ghost function Written(): Bytes
      requires Valid()
      reads this
    {
      bytes[..offset]
    }

    ghost function Left(): Bytes
      requires Valid()
      reads this
    {
      bytes[offset..]
    }

    /** How far the packer can be written. */
    ghost function Room(): nat
      reads this
    {
      if |bytes| > maxSize then |bytes| else maxSize
    }

    /** Running out of room overrides an earlier error; any error stops the write. */
    method Pack(bs: Bytes)
      requires Valid()
      modifies this
      ensures Valid() && Room() == old(Room())
      ensures err == if old(offset) + |bs| > old(Room()) then Some(BadLength) else old(err)
      ensures Written() == if err.Some? then old(Written()) else old(Written()) + bs
    {
      var needed := offset + |bs|;
      if needed > |bytes| {
        if needed > maxSize {
          err := Some(BadLength);
        } else {
          bytes := bytes + seq(needed - |bytes|, _ => 0);
        }
      }
      if err.Some? {
        return;
      }
      bytes := bytes[..offset] + bs + bytes[needed..];
      offset := needed;
    }

    method Unpack(n: nat) returns (bs: Bytes)
      requires Valid() && err == None
      modifies this`offset, this`err
      ensures Valid() && err == if |old(Left())| < n then Some(BadLength) else None
      ensures err.Some? ==> bs == []
      ensures err.None? ==> bs == old(Left())[..n] && Left() == old(Left())[n..]
    {
      if |bytes| - offset < n {
        err := Some(BadLength);
        return [];
      }
      bs := bytes[offset..offset + n];
      offset := offset + n;
    }
  }

  // ---------------------------------------------------------------- marshal

  /** How many bytes of room marshal asks for before it ends or fails. A text that is too long asks for all of it. */
  function Reach(c: Codec, t: Type, v: Value, max: nat): nat
    requires HasType(c, t, v)
    decreases v, 1
  {
    match t
    case Unsigned(w) => w
    case Signed(w) => w
    case Bool => 1
    case Str => if |v.s| > MAX_STRING_LEN then |v.s| else 2 + |v.s|
    case Pointer(to) => if v.Nil? then 0 else Reach(c, to, v.v, c.maxLen)
    case Interface(_) => if v.Nil? || v.t !in c.toID then 0 else 4 + Reach(c, v.t, v.v, c.maxLen)
    case Slice(elem) => if |v.vs| % UINT32 > max then 0 else 4 + ReachMany(c, elem, v.vs)
    case Array(elem, _) => if |v.vs| % UINT32 > c.maxLen then 0 else ReachMany(c, elem, v.vs)
    case Struct(_, fields) => ReachFields(c, fields, v.vs)
  }

  function ReachMany(c: Codec, elem: Type, vs: seq<Value>): nat
    requires forall i :: 0 <= i < |vs| ==> HasType(c, elem, vs[i])
    decreases vs, 0
  {
    if vs == [] then 0
    else Reach(c, elem, vs[0], c.maxLen) + if Encode(c, elem, vs[0], c.maxLen).Err? then 0 else ReachMany(c, elem, vs[1..])
  }

  function ReachFields(c: Codec, fs: Fields, vs: seq<Value>): nat
    requires HasFields(c, fs, vs)
    decreases vs, 0
  {
    match fs
    case NoFields => 0
    case Field(t, max, rest) =>
      Reach(c, t, vs[0], max) + if Encode(c, t, vs[0], max).Err? then 0 else ReachFields(c, rest, vs[1..])
  }

  /** Running out of room, or else the value's own error; without either the encoding is appended. */
  ghost predicate Wrote(err: Option<Error>, r: Result<Bytes>, reach: nat, before: Bytes, room: nat, after: Bytes) {
    && err == (if |before| + reach > room then Some(BadLength) else if r.Err? then Some(r.error) else None)
    && (err == None ==> after == before + r.value && reach == |r.value|)
  }

  method Marshal(c: Codec, t: Type, v: Value, max: nat, p: Packer) returns (err: Option<Error>)
    requires HasType(c, t, v) && p.Valid() && p.err == None
    modifies p
    ensures p.Valid() && p.Room() == old(p.Room()) && (err == None ==> p.err == None)
    ensures Wrote(err, Encode(c, t, v, max), Reach(c, t, v, max), old(p.Written()), old(p.Room()), p.Written())
    decreases v, 2
  {
    match t {
      case Unsigned(w) =>
        p.Pack(Big(v.n, w));
        err := p.err;
      case Signed(w) =>
        WrapRange(v.n, w);
        p.Pack(Big(Wrap(v.n, w), w));
        err := p.err;
      case Bool =>
        p.Pack([if v.b then 1 else 0]);
        err := p.err;
      case Str =>
        err := MarshalText(v.s, p);
      case Pointer(to) =>
        if v.Nil? {
          err := Some(MarshalNil);
        } else {
          err := Marshal(c, to, v.v, c.maxLen, p);
        }
      case Interface(_) =>
        err := MarshalDynamic(c, t, v, max, p);
      case Slice(_) =>
        err := MarshalSlice(c, t, v, max, p);
      case Array(elem, _) =>
        if |v.vs| % UINT32 > c.maxLen {
          err := Some(TooLong);
        } else {
          err := MarshalMany(c, elem, v.vs, p);
        }
      case Struct(_, fields) =>
        err := MarshalFields(c, fields, v.vs, p);
    }
  }

  method MarshalText(s: Bytes, p: Packer) returns (err: Option<Error>)
    requires p.Valid() && p.err == None
    modifies p
    ensures p.Valid() && p.Room() == old(p.Room()) && (err == None ==> p.err == None)
    ensures Wrote(err, if |s| > MAX_STRING_LEN then Err(InvalidInput) else Ok(Big(|s|, 2) + s), if |s| > MAX_STRING_LEN then |s| else 2 + |s|, old(p.Written()), old(p.Room()), p.Written())
  {
    hide Big;
    if |s| > MAX_STRING_LEN {
      p.err := Some(InvalidInput);
    }
    p.Pack(Big(|s|, 2));
    p.Pack(s);
    err := p.err;
  }

  method MarshalDynamic(c: Codec, t: Type, v: Value, max: nat, p: Packer) returns (err: Option<Error>)
    requires t.Interface? && HasType(c, t, v) && p.Valid() && p.err == None
    modifies p
    ensures p.Valid() && p.Room() == old(p.Room()) && (err == None ==> p.err == None)
    ensures Wrote(err, Encode(c, t, v, max), Reach(c, t, v, max), old(p.Written()), old(p.Room()), p.Written())
    decreases v, 1
  {
    if v.Nil? {
      return Some(MarshalNil);
    }
    if v.t !in c.toID {
      return Some(Unregistered);
    }
    p.Pack(Big(c.toID[v.t], 4));
    if p.err.Some? {
      return p.err;
    }
    err := Marshal(c, v.t, v.v, c.maxLen, p);
  }

  method MarshalSlice(c: Codec, t: Type, v: Value, max: nat, p: Packer) returns (err: Option<Error>)
    requires t.Slice? && HasType(c, t, v) && p.Valid() && p.err == None
    modifies p
    ensures p.Valid() && p.Room() == old(p.Room()) && (err == None ==> p.err == None)
    ensures Wrote(err, Encode(c, t, v, max), Reach(c, t, v, max), old(p.Written()), old(p.Room()), p.Written())
    decreases v, 1
  {
    hide EncodeMany, ReachMany, Big;
    var n := |v.vs| % UINT32;
    if n > max {
      return Some(TooLong);
    }
    p.Pack(Big(n, 4));
    if p.err.Some? {
      return p.err;
    }
    if t.elem == Unsigned(1) {
      var bs := Bulk(c, v.vs);
      BulkReach(c, v.vs);
      p.Pack(bs);
      err := p.err;
    } else {
      err := MarshalMany(c, t.elem, v.vs, p);
    }
  }

  /** The bytes of a byte slice, without visiting each. */
  function Bulk(c: Codec, vs: seq<Value>): (bs: Bytes)
    requires forall i :: 0 <= i < |vs| ==> HasType(c, Unsigned(1), vs[i])
    ensures EncodeMany(c, Unsigned(1), vs) == Ok(bs)
  {
    Powers();
    BulkBytes(c, vs);
    var bs: Bytes := seq(|vs|, i requires 0 <= i < |vs| => vs[i].n);
    BulkSame(bs, EncodeMany(c, Unsigned(1), vs).value, vs);
    bs
  }

  lemma BulkSame(bs: Bytes, r: Bytes, vs: seq<Value>)
    requires Numbers(r) == vs && |bs| == |vs| && forall i :: 0 <= i < |vs| ==> vs[i] == Number(bs[i])
    ensures bs == r
  {
    assert |r| == |Numbers(r)|;
    forall i | 0 <= i < |bs|
      ensures bs[i] == r[i]
    {
      assert Numbers(r)[i] == vs[i];
    }
  }

  lemma {:induction false} BulkReach(c: Codec, vs: seq<Value>)
    requires forall i :: 0 <= i < |vs| ==> HasType(c, Unsigned(1), vs[i])
    ensures ReachMany(c, Unsigned(1), vs) == |vs|
  {
    if vs != [] {
      BulkReach(c, vs[1..]);
    }
  }

  method MarshalMany(c: Codec, elem: Type, vs: seq<Value>, p: Packer) returns (err: Option<Error>)
    requires (forall i :: 0 <= i < |vs| ==> HasType(c, elem, vs[i])) && p.Valid() && p.err == None
    modifies p
    ensures p.Valid() && p.Room() == old(p.Room()) && (err == None ==> p.err == None)
    ensures Wrote(err, EncodeMany(c, elem, vs), ReachMany(c, elem, vs), old(p.Written()), old(p.Room()), p.Written())
    decreases vs, 0
  {
    hide Encode, EncodeMany, HasType, Reach, ReachMany;
    ghost var done: Bytes, before := [], p.Written();
    assert vs[0..] == vs;
    JoinNothing(EncodeMany(c, elem, vs));
    for i := 0 to |vs|
      invariant p.Valid() && p.Room() == old(p.Room()) && p.err == None && p.Written() == before + done
      invariant |before| + |done| <= p.Room()
      invariant EncodeMany(c, elem, vs) == Join(Ok(done), EncodeMany(c, elem, vs[i..]))
      invariant ReachMany(c, elem, vs) == |done| + ReachMany(c, elem, vs[i..])
    {
      ManyNext(c, elem, vs, i, done);
      err := Marshal(c, elem, vs[i], c.maxLen, p);
      if err.Some? {
        return;
      }
      done := done + Encode(c, elem, vs[i], c.maxLen).value;
    }
    ManyNone(c, elem, vs[|vs|..]);
    err := None;
  }

  lemma JoinNothing(r: Result<Bytes>)
    ensures Join(Ok([]), r) == r
  {
    if r.Ok? {
      assert [] + r.value == r.value;
    }
  }

  lemma ManyNone(c: Codec, elem: Type, vs: seq<Value>)
    requires vs == []
    ensures EncodeMany(c, elem, vs) == Ok([]) && ReachMany(c, elem, vs) == 0
  {
  }

  lemma ManyNext(c: Codec, elem: Type, vs: seq<Value>, i: nat, done: Bytes)
    requires i < |vs| && forall i :: 0 <= i < |vs| ==> HasType(c, elem, vs[i])
    ensures
      var a, b := Encode(c, elem, vs[i], c.maxLen), EncodeMany(c, elem, vs[i + 1..]);
      Join(Ok(done), EncodeMany(c, elem, vs[i..])) ==
      if a.Err? then a else Join(Ok(done + a.value), b)
    ensures ReachMany(c, elem, vs[i..]) ==
            Reach(c, elem, vs[i], c.maxLen) + if Encode(c, elem, vs[i], c.maxLen).Err? then 0 else ReachMany(c, elem, vs[i + 1..])
  {
    hide Encode, HasType, Reach;
    assert vs[i..][0] == vs[i] && vs[i..][1..] == vs[i + 1..];
    var a, b := Encode(c, elem, vs[i], c.maxLen), EncodeMany(c, elem, vs[i + 1..]);
    if a.Ok? && b.Ok? {
      assert done + (a.value + b.value) == done + a.value + b.value;
    }
  }

  method MarshalFields(c: Codec, fields: Fields, vs: seq<Value>, p: Packer) returns (err: Option<Error>)
    requires HasFields(c, fields, vs) && p.Valid() && p.err == None
    modifies p
    ensures p.Valid() && p.Room() == old(p.Room()) && (err == None ==> p.err == None)
    ensures Wrote(err, EncodeFields(c, fields, vs), ReachFields(c, fields, vs), old(p.Written()), old(p.Room()), p.Written())
    decreases vs, 0
  {
    hide Encode, EncodeFields, HasType, Reach, ReachFields;
    ghost var done: Bytes, before := [], p.Written();
    var fs, i := fields, 0;
    assert vs[0..] == vs;
    JoinNothing(EncodeFields(c, fields, vs));
    while fs.Field?
      invariant i <= |vs| && HasFields(c, fs, vs[i..])
      invariant p.Valid() && p.Room() == old(p.Room()) && p.err == None && p.Written() == before + done
      invariant |before| + |done| <= p.Room()
      invariant EncodeFields(c, fields, vs) == Join(Ok(done), EncodeFields(c, fs, vs[i..]))
      invariant ReachFields(c, fields, vs) == |done| + ReachFields(c, fs, vs[i..])
      decreases fs
    {
      FieldNext(c, fs, vs[i..], done);
      assert vs[i..][0] == vs[i] && vs[i..][1..] == vs[i + 1..];
      err := Marshal(c, fs.head, vs[i], fs.maxLen, p);
      if err.Some? {
        return;
      }
      done := done + Encode(c, fs.head, vs[i], fs.maxLen).value;
      fs, i := fs.rest, i + 1;
    }
    FieldNone(c, fs, vs[i..]);
    err := None;
  }

  lemma FieldNone(c: Codec, fs: Fields, vs: seq<Value>)
    requires fs.NoFields? && HasFields(c, fs, vs)
    ensures EncodeFields(c, fs, vs) == Ok([]) && ReachFields(c, fs, vs) == 0
  {
  }

  lemma FieldNext(c: Codec, fs: Fields, vs: seq<Value>, done: Bytes)
    requires fs.Field? && HasFields(c, fs, vs)
    ensures
      var a, b := Encode(c, fs.head, vs[0], fs.maxLen), EncodeFields(c, fs.rest, vs[1..]);
      Join(Ok(done), EncodeFields(c, fs, vs)) == if a.Err? then a else Join(Ok(done + a.value), b)
    ensures ReachFields(c, fs, vs) ==
            Reach(c, fs.head, vs[0], fs.maxLen) + if Encode(c, fs.head, vs[0], fs.maxLen).Err? then 0 else ReachFields(c, fs.rest, vs[1..])
  {
    hide Encode, HasType, Reach;
    var a, b := Encode(c, fs.head, vs[0], fs.maxLen), EncodeFields(c, fs.rest, vs[1..]);
    if a.Ok? && b.Ok? {
      assert done + (a.value + b.value) == done + a.value + b.value;
    }
  }

  // ---------------------------------------------------------------- unmarshal

  /** Reading returns what decoding the rest of the input returns, and leaves the packer after it. */
  ghost predicate Read(r: Result<Value>, d: Result<Parsed>, left: Bytes) {
    if r.Ok? then d == Ok(Parsed(r.value, left)) else d == Err(r.error)
  }

  ghost predicate ReadList(r: Result<seq<Value>>, d: Result<ParsedList>, left: Bytes) {
    if r.Ok? then d == Ok(ParsedList(r.value, left)) else d == Err(r.error)
  }

  method ReadValue(c: Codec, t: Type, max: nat, p: Packer) returns (r: Result<Value>)
    requires p.Valid() && p.err == None
    modifies p`offset, p`err
    ensures p.Valid() && (r.Ok? ==> p.err == None && |p.Left()| <= |old(p.Left())|)
    ensures Read(r, Decode(c, t, old(p.Left()), max), p.Left())
    decreases |p.Left()|, t, 1
  {
    ghost var left := p.Left();
    match t {
      case Unsigned(w) =>
        var bs := p.Unpack(w);
        r := if p.err.Some? then Err(BadLength) else Ok(Number(FromBig(bs)));
      case Signed(w) =>
        var bs := p.Unpack(w);
        r := if p.err.Some? then Err(BadLength) else Ok(Number(Unwrap(FromBig(bs), w)));
      case Bool =>
        var bs := p.Unpack(1);
        if p.err.Some? {
          return Err(BadLength);
        }
        r := if bs[0] > 1 then Err(BadBool) else Ok(Truth(bs[0] == 1));
      case Str =>
        r := ReadText(p);
      case Pointer(to) =>
        r := ReadValue(c, to, c.maxLen, p);
        if r.Ok? {
          r := Ok(Ref(r.value));
        }
      case Interface(_) =>
        r := ReadDynamic(c, t, max, p);
      case Slice(_) =>
        r := ReadSlice(c, t, max, p);
      case Array(elem, len) =>
        var items := ReadItems(c, elem, len, p);
        r := if items.Ok? then Ok(List(items.value)) else Err(items.error);
      case Struct(_, fields) =>
        var items := ReadFields(c, fields, p);
        r := if items.Ok? then Ok(List(items.value)) else Err(items.error);
    }
  }

  method ReadText(p: Packer) returns (r: Result<Value>)
    requires p.Valid() && p.err == None
    modifies p`offset, p`err
    ensures p.Valid() && (r.Ok? ==> p.err == None && |p.Left()| <= |old(p.Left())|)
    ensures
      var bs := old(p.Left());
      if |bs| < 2 || |bs| < 2 + FromBig(bs[..2]) then r == Err(BadLength)
      else r == Ok(Text(bs[2..2 + FromBig(bs[..2])])) && p.Left() == bs[2 + FromBig(bs[..2])..]
  {
    hide FromBig;
    ghost var bs := p.Left();
    var size := p.Unpack(2);
    if p.err.Some? {
      return Err(BadLength);
    }
    ghost var n := FromBig(size);
    var s := p.Unpack(FromBig(size));
    if p.err == None {
      assert bs[2..][..n] == bs[2..2 + n] && bs[2..][n..] == bs[2 + n..];
    }
    r := if p.err.Some? then Err(BadLength) else Ok(Text(s));
  }

  method ReadDynamic(c: Codec, t: Type, max: nat, p: Packer) returns (r: Result<Value>)
    requires t.Interface? && p.Valid() && p.err == None
    modifies p`offset, p`err
    ensures p.Valid() && (r.Ok? ==> p.err == None && |p.Left()| <= |old(p.Left())|)
    ensures Read(r, Decode(c, t, old(p.Left()), max), p.Left())
    decreases |p.Left()|, t, 0
  {
    hide FromBig;
    var prefix := p.Unpack(4);
    if p.err.Some? {
      return Err(BadLength);
    }
    var id := FromBig(prefix);
    if id !in c.toType {
      return Err(UnknownID);
    }
    if (c.toType[id], t.name) !in c.implements {
      return Err(NotImplemented);
    }
    r := ReadValue(c, c.toType[id], c.maxLen, p);
    if r.Ok? {
      r := Ok(Dynamic(c.toType[id], r.value));
    }
  }

  method ReadSlice(c: Codec, t: Type, max: nat, p: Packer) returns (r: Result<Value>)
    requires t.Slice? && p.Valid() && p.err == None
    modifies p`offset, p`err
    ensures p.Valid() && (r.Ok? ==> p.err == None && |p.Left()| <= |old(p.Left())|)
    ensures Read(r, Decode(c, t, old(p.Left()), max), p.Left())
    decreases |p.Left()|, t, 0
  {
    hide FromBig, DecodeItems;
    var size := p.Unpack(4);
    if p.err.Some? {
      return Err(BadLength);
    }
    var n := FromBig(size);
    if n > max || n > MAX_INT32 {
      return Err(TooLong);
    }
    var items := ReadItems(c, t.elem, n, p);
    r := if items.Ok? then Ok(List(items.value)) else Err(items.error);
  }

  method ReadItems(c: Codec, elem: Type, n: nat, p: Packer) returns (r: Result<seq<Value>>)
    requires p.Valid() && p.err == None
    modifies p`offset, p`err
    ensures p.Valid() && (r.Ok? ==> p.err == None && |p.Left()| <= |old(p.Left())|)
    ensures ReadList(r, DecodeItems(c, elem, n, old(p.Left())), p.Left())
    decreases |p.Left()|, elem, 2
  {
    if elem == Unsigned(1) {
      var bs := p.Unpack(n);
      return if p.err.Some? then Err(BadLength) else Ok(Numbers(bs));
    }
    hide Decode, DecodeMany;
    ghost var left := p.Left();
    var vs := [];
    AfterNothing(DecodeMany(c, elem, n, left));
    for i := 0 to n
      invariant p.Valid() && p.err == None && |p.Left()| <= |left|
      invariant DecodeMany(c, elem, n, left) == After(vs, DecodeMany(c, elem, n - i, p.Left()))
    {
      ManyFirst(c, elem, n - i, p.Left(), vs);
      var v := ReadValue(c, elem, c.maxLen, p);
      if v.Err? {
        return Err(v.error);
      }
      vs := vs + [v.value];
    }
    DecodeNone(c, elem, p.Left());
    assert vs + [] == vs;
    r := Ok(vs);
  }

  lemma AfterNothing(r: Result<ParsedList>)
    ensures After([], r) == r
  {
    if r.Ok? {
      assert [] + r.value.vs == r.value.vs;
    }
  }

  function After(vs: seq<Value>, r: Result<ParsedList>): Result<ParsedList> {
    if r.Err? then r else Ok(ParsedList(vs + r.value.vs, r.value.rest))
  }

  lemma ManyFirst(c: Codec, elem: Type, n: nat, bs: Bytes, vs: seq<Value>)
    requires n > 0
    ensures
      var a := Decode(c, elem, bs, c.maxLen);
      After(vs, DecodeMany(c, elem, n, bs)) ==
      if a.Err? then Err(a.error) else After(vs + [a.value.v], DecodeMany(c, elem, n - 1, a.value.rest))
  {
    hide Decode;
    var a := Decode(c, elem, bs, c.maxLen);
    if a.Ok? {
      var b := DecodeMany(c, elem, n - 1, a.value.rest);
      if b.Ok? {
        assert vs + ([a.value.v] + b.value.vs) == vs + [a.value.v] + b.value.vs;
      }
    }
  }

  method ReadFields(c: Codec, fields: Fields, p: Packer) returns (r: Result<seq<Value>>)
    requires p.Valid() && p.err == None
    modifies p`offset, p`err
    ensures p.Valid() && (r.Ok? ==> p.err == None && |p.Left()| <= |old(p.Left())|)
    ensures ReadList(r, DecodeFields(c, fields, old(p.Left())), p.Left())
    decreases |p.Left()|, fields, 2
  {
    hide Decode, DecodeFields;
    ghost var left := p.Left();
    var vs, fs := [], fields;
    AfterNothing(DecodeFields(c, fields, left));
    while fs.Field?
      invariant p.Valid() && p.err == None && |p.Left()| <= |left|
      invariant fs == fields || fs < fields
      invariant DecodeFields(c, fields, left) == After(vs, DecodeFields(c, fs, p.Left()))
      decreases fs
    {
      FieldFirst(c, fs, p.Left(), vs);
      var v := ReadValue(c, fs.head, fs.maxLen, p);
      if v.Err? {
        return Err(v.error);
      }
      vs, fs := vs + [v.value], fs.rest;
    }
    DecodeNoFields(c, p.Left());
    assert vs + [] == vs;
    r := Ok(vs);
  }

  lemma FieldFirst(c: Codec, fs: Fields, bs: Bytes, vs: seq<Value>)
    requires fs.Field?
    ensures
      var a := Decode(c, fs.head, bs, fs.maxLen);
      After(vs, DecodeFields(c, fs, bs)) ==
      if a.Err? then Err(a.error) else After(vs + [a.value.v], DecodeFields(c, fs.rest, a.value.rest))
  {
    hide Decode;
    var a := Decode(c, fs.head, bs, fs.maxLen);
    if a.Ok? {
      var b := DecodeFields(c, fs.rest, a.value.rest);
      if b.Ok? {
        assert vs + ([a.value.v] + b.value.vs) == vs + [a.value.v] + b.value.vs;
      }
    }
  }

  /** The public entry point: the whole input must be used. */
  method UnmarshalBytes(c: Codec, t: Type, bs: Bytes) returns (r: Result<Value>)
    ensures r == Unmarshal(c, t, bs)
  {
    hide Decode;
    var p := new Packer(bs, 0);
    r := ReadValue(c, t, c.maxLen, p);
    if r.Ok? && p.offset != |bs| {
      r := Err(ExtraSpace);
    }
  }
}
