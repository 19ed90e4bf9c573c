/** The type-directed codec: type descriptors, values, and what marshal writes and unmarshal reads. */
module CodecModel {
  import opened Prelude
  import opened BigEndian

  const MAX_STRING_LEN := 65535
  const MAX_INT32 := 0x7fff_ffff
  const UINT32 := 0x1_0000_0000

  /** A finite Go type. An interface is known by name and implemented by registered types;
      structs with the same fields are told apart by name. */
  datatype Type =
    | Unsigned(width: nat)
    | Signed(width: nat)
    | Bool
    | Str
    | Pointer(to: Type)
    | Interface(name: nat)
    | Slice(elem: Type)
    | Array(elem: Type, len: nat)
    | Struct(name: nat, fields: Fields)

  /** The serialized fields of a struct, each with its maximum slice length. */
  datatype Fields = NoFields | Field(head: Type, maxLen: nat, rest: Fields)

  /** Slices, arrays and structs are lists of values; a nil slice is an empty one. */
  datatype Value =
    | Number(n: int)
    | Truth(b: bool)
    | Text(s: Bytes)
    | Nil
    | Ref(v: Value)
    | Dynamic(t: Type, v: Value)
    | List(vs: seq<Value>)

  datatype Error = MarshalNil | TooLong | InvalidInput | Unregistered | BadLength | BadBool | UnknownID | NotImplemented | ExtraSpace

  datatype Result<T> = Ok(value: T) | Err(error: Error)

  /** The registered types by id and back, the codec's slice limit, and which types implement which interface. */
  datatype Codec = Codec(toType: map<nat, Type>, toID: map<Type, nat>, maxLen: nat, implements: set<(Type, nat)>)

  ghost predicate Bijective(c: Codec) {
    && (forall t :: t in c.toID ==> c.toID[t] < UINT32 && c.toID[t] in c.toType && c.toType[c.toID[t]] == t)
    && (forall id :: id in c.toType ==> c.toType[id] in c.toID && c.toID[c.toType[id]] == id)
  }

  // ---------------------------------------------------------------- typing

  /** A Go value of this type. */
  predicate HasType(c: Codec, t: Type, v: Value)
    decreases v
  {
    match t
    case Unsigned(w) => v.Number? && 0 <= v.n < Pow256(w)
    case Signed(w) => v.Number? && InSigned(v.n, w)
    case Bool => v.Truth?
    case Str => v.Text?
    case Pointer(to) => v.Nil? || (v.Ref? && HasType(c, to, v.v))
    case Interface(name) => v.Nil? || (v.Dynamic? && (v.t, name) in c.implements && HasType(c, v.t, v.v))
    case Slice(elem) => v.List? && forall i :: 0 <= i < |v.vs| ==> HasType(c, elem, v.vs[i])
    case Array(elem, len) => v.List? && |v.vs| == len && forall i :: 0 <= i < |v.vs| ==> HasType(c, elem, v.vs[i])
    case Struct(_, fields) => v.List? && HasFields(c, fields, v.vs)
  }

  predicate HasFields(c: Codec, fs: Fields, vs: seq<Value>)
    decreases vs
  {
    match fs
    case NoFields => vs == []
    case Field(t, _, rest) => vs != [] && HasType(c, t, vs[0]) && HasFields(c, rest, vs[1..])
  }

  // ---------------------------------------------------------------- marshal

  function Join(a: Result<Bytes>, b: Result<Bytes>): Result<Bytes> {
    if a.Err? then a else if b.Err? then b else Ok(a.value + b.value)
  }

  /** `max` limits a slice directly under this type; what is nested deeper goes by the codec's own limit. */
  function Encode(c: Codec, t: Type, v: Value, max: nat): Result<Bytes>
    requires HasType(c, t, v)
    decreases v, 1
  {
    match t
    case Unsigned(w) => Ok(Big(v.n, w))
    case Signed(w) => WrapRange(v.n, w); Ok(Big(Wrap(v.n, w), w))
    case Bool => Ok([if v.b then 1 else 0])
    case Str => if |v.s| > MAX_STRING_LEN then Err(InvalidInput) else Ok(Big(|v.s|, 2) + v.s)
    case Pointer(to) => if v.Nil? then Err(MarshalNil) else Encode(c, to, v.v, c.maxLen)
    case Interface(_) =>
      if v.Nil? then Err(MarshalNil)
      else if v.t !in c.toID then Err(Unregistered)
      else Join(Ok(Big(c.toID[v.t], 4)), Encode(c, v.t, v.v, c.maxLen))
    case Slice(elem) =>
      // The length is truncated to 32 bits before it is compared and written.
      if |v.vs| % UINT32 > max then Err(TooLong)
      else Join(Ok(Big(|v.vs| % UINT32, 4)), EncodeMany(c, elem, v.vs))
    case Array(elem, _) => if |v.vs| % UINT32 > c.maxLen then Err(TooLong) else EncodeMany(c, elem, v.vs)
    case Struct(_, fields) => EncodeFields(c, fields, v.vs)
  }

  function EncodeMany(c: Codec, elem: Type, vs: seq<Value>): Result<Bytes>
    requires forall i :: 0 <= i < |vs| ==> HasType(c, elem, vs[i])
    decreases vs, 0
  {
    if vs == [] then Ok([]) else Join(Encode(c, elem, vs[0], c.maxLen), EncodeMany(c, elem, vs[1..]))
  }

  function EncodeFields(c: Codec, fs: Fields, vs: seq<Value>): Result<Bytes>
    requires HasFields(c, fs, vs)
    decreases vs, 0
  {
    match fs
    case NoFields => Ok([])
    case Field(t, max, rest) => Join(Encode(c, t, vs[0], max), EncodeFields(c, rest, vs[1..]))
  }

  lemma WrapRange(n: int, w: nat)
    requires InSigned(n, w)
    ensures Wrap(n, w) >= 0
  {
  }

  // ---------------------------------------------------------------- unmarshal

  datatype Parsed = Parsed(v: Value, rest: Bytes)
  datatype ParsedList = ParsedList(vs: seq<Value>, rest: Bytes)

  function Numbers(bs: Bytes): seq<Value> {
    seq(|bs|, i requires 0 <= i < |bs| => Number(bs[i]))
  }

  function Decode(c: Codec, t: Type, bs: Bytes, max: nat): (r: Result<Parsed>)
    ensures r.Ok? ==> |r.value.rest| <= |bs|
    decreases |bs|, t, 0, 0
  {
    match t
    case Unsigned(w) => if |bs| < w then Err(BadLength) else Ok(Parsed(Number(FromBig(bs[..w])), bs[w..]))
    case Signed(w) => if |bs| < w then Err(BadLength) else Ok(Parsed(Number(Unwrap(FromBig(bs[..w]), w)), bs[w..]))
    case Bool =>
      if |bs| < 1 then Err(BadLength)
      else if bs[0] > 1 then Err(BadBool)
      else Ok(Parsed(Truth(bs[0] == 1), bs[1..]))
    case Str =>
      if |bs| < 2 then Err(BadLength)
      else
        var n := FromBig(bs[..2]);
        if |bs| < 2 + n then Err(BadLength) else Ok(Parsed(Text(bs[2..2 + n]), bs[2 + n..]))
    case Pointer(to) =>
      var r := Decode(c, to, bs, c.maxLen);
      if r.Err? then r else Ok(Parsed(Ref(r.value.v), r.value.rest))
    case Interface(name) =>
      if |bs| < 4 then Err(BadLength)
      else
        var id := FromBig(bs[..4]);
        if id !in c.toType then Err(UnknownID)
        else if (c.toType[id], name) !in c.implements then Err(NotImplemented)
        else
          var r := Decode(c, c.toType[id], bs[4..], c.maxLen);
          if r.Err? then r else Ok(Parsed(Dynamic(c.toType[id], r.value.v), r.value.rest))
    case Slice(elem) =>
      if |bs| < 4 then Err(BadLength)
      else
        var n := FromBig(bs[..4]);
        if n > max || n > MAX_INT32 then Err(TooLong) else AsList(DecodeItems(c, elem, n, bs[4..]))
    case Array(elem, len) => AsList(DecodeItems(c, elem, len, bs))
    case Struct(_, fields) => AsList(DecodeFields(c, fields, bs))
  }

  function AsList(r: Result<ParsedList>): Result<Parsed> {
    if r.Err? then Err(r.error) else Ok(Parsed(List(r.value.vs), r.value.rest))
  }

  /** Bytes are read in bulk, anything else one by one. */
  function DecodeItems(c: Codec, elem: Type, n: nat, bs: Bytes): (r: Result<ParsedList>)
    ensures r.Ok? ==> |r.value.rest| <= |bs|
    decreases |bs|, elem, 2, 0
  {
    if elem == Unsigned(1) then
      if |bs| < n then Err(BadLength) else Ok(ParsedList(Numbers(bs[..n]), bs[n..]))
    else DecodeMany(c, elem, n, bs)
  }

  function DecodeMany(c: Codec, elem: Type, n: nat, bs: Bytes): (r: Result<ParsedList>)
    ensures r.Ok? ==> |r.value.rest| <= |bs|
    decreases |bs|, elem, 1, n
  {
    if n == 0 then Ok(ParsedList([], bs))
    else
      var a := Decode(c, elem, bs, c.maxLen);
      if a.Err? then Err(a.error)
      else
        var b := DecodeMany(c, elem, n - 1, a.value.rest);
        if b.Err? then b else Ok(ParsedList([a.value.v] + b.value.vs, b.value.rest))
  }

  function DecodeFields(c: Codec, fs: Fields, bs: Bytes): (r: Result<ParsedList>)
    ensures r.Ok? ==> |r.value.rest| <= |bs|
    decreases |bs|, fs, 1, 0
  {
    match fs
    case NoFields => Ok(ParsedList([], bs))
    case Field(t, max, rest) =>
      var a := Decode(c, t, bs, max);
      if a.Err? then Err(a.error)
      else
        var b := DecodeFields(c, rest, a.value.rest);
        if b.Err? then b else Ok(ParsedList([a.value.v] + b.value.vs, b.value.rest))
  }

  /** The whole input must be used. */
  function Unmarshal(c: Codec, t: Type, bs: Bytes): Result<Value> {
    var r := Decode(c, t, bs, c.maxLen);
    if r.Err? then Err(r.error) else if r.value.rest != [] then Err(ExtraSpace) else Ok(r.value.v)
  }
}
