/** The bytes on the wire, said without reference to what marshal and unmarshal compute. */
module CodecWire {
  import opened Prelude
  import opened BigEndian
  import opened CodecModel
  import opened CodecRoundTrip
  import opened CodecCanonical

  /** The layout of a value: numbers in as many bytes as their type has, most significant first and negative ones in
      two's complement; one byte for a boolean; a string after its length in two bytes; the value in an interface after
      the id of its type in four; the elements of a slice after their number in four; arrays and structs plainly one
      after the other. */
  ghost predicate Wire(ids: map<Type, nat>, t: Type, v: Value, bs: Bytes)
    decreases v, 1
  {
    match t
    case Unsigned(w) => v.Number? && Lays(bs, v.n, w)
    case Signed(w) => v.Number? && Lays(bs, v.n, w)
    case Bool => v.Truth? && bs == [if v.b then 1 else 0]
    case Str => v.Text? && |bs| >= 2 && Lays(bs[..2], |v.s|, 2) && bs[2..] == v.s
    case Pointer(to) => v.Ref? && Wire(ids, to, v.v, bs)
    case Interface(_) =>
      v.Dynamic? && v.t in ids && |bs| >= 4 && Lays(bs[..4], ids[v.t], 4) && Wire(ids, v.t, v.v, bs[4..])
    case Slice(elem) => v.List? && |bs| >= 4 && Lays(bs[..4], |v.vs|, 4) && WireMany(ids, elem, v.vs, bs[4..])
    case Array(elem, len) => v.List? && |v.vs| == len && WireMany(ids, elem, v.vs, bs)
    case Struct(_, fields) => v.List? && WireFields(ids, fields, v.vs, bs)
  }

  ghost predicate WireMany(ids: map<Type, nat>, elem: Type, vs: seq<Value>, bs: Bytes)
    decreases vs, 0
  {
    if vs == [] then bs == []
    else exists k :: 0 <= k <= |bs| && Wire(ids, elem, vs[0], bs[..k]) && WireMany(ids, elem, vs[1..], bs[k..])
  }

  ghost predicate WireFields(ids: map<Type, nat>, fs: Fields, vs: seq<Value>, bs: Bytes)
    decreases vs, 0
  {
    match fs
    case NoFields => vs == [] && bs == []
    case Field(t, _, rest) =>
      vs != [] && exists k :: 0 <= k <= |bs| && Wire(ids, t, vs[0], bs[..k]) && WireFields(ids, rest, vs[1..], bs[k..])
  }

  // ---------------------------------------------------------------- a value has one layout

  lemma LaysOne(a: Bytes, b: Bytes, n: int, w: nat)
    requires Lays(a, n, w) && Lays(b, n, w)
    ensures a == b
  {
  }

  lemma {:induction false} WireOne(ids: map<Type, nat>, t: Type, v: Value, a: Bytes, b: Bytes)
    requires Wire(ids, t, v, a) && Wire(ids, t, v, b)
    ensures a == b
    decreases v, 1
  {
    hide Lays, WireMany, WireFields;
    match t {
      case Unsigned(w) => LaysOne(a, b, v.n, w);
      case Signed(w) => LaysOne(a, b, v.n, w);
      case Bool =>
      case Str =>
        LaysOne(a[..2], b[..2], |v.s|, 2);
        assert a == a[..2] + a[2..] && b == b[..2] + b[2..];
      case Pointer(to) => WireOne(ids, to, v.v, a, b);
      case Interface(_) =>
        LaysOne(a[..4], b[..4], ids[v.t], 4);
        WireOne(ids, v.t, v.v, a[4..], b[4..]);
        assert a == a[..4] + a[4..] && b == b[..4] + b[4..];
      case Slice(elem) =>
        LaysOne(a[..4], b[..4], |v.vs|, 4);
        WireManyOne(ids, elem, v.vs, a[4..], b[4..]);
        assert a == a[..4] + a[4..] && b == b[..4] + b[4..];
      case Array(elem, _) => WireManyOne(ids, elem, v.vs, a, b);
      case Struct(_, fields) => WireFieldsOne(ids, fields, v.vs, a, b);
    }
  }

  lemma {:induction false} WireManyOne(ids: map<Type, nat>, elem: Type, vs: seq<Value>, a: Bytes, b: Bytes)
    requires WireMany(ids, elem, vs, a) && WireMany(ids, elem, vs, b)
    ensures a == b
    decreases vs, 0
  {
    hide Wire;
    if vs != [] {
      var i :| 0 <= i <= |a| && Wire(ids, elem, vs[0], a[..i]) && WireMany(ids, elem, vs[1..], a[i..]);
      var j :| 0 <= j <= |b| && Wire(ids, elem, vs[0], b[..j]) && WireMany(ids, elem, vs[1..], b[j..]);
      WireOne(ids, elem, vs[0], a[..i], b[..j]);
      WireManyOne(ids, elem, vs[1..], a[i..], b[j..]);
      assert a == a[..i] + a[i..] && b == b[..j] + b[j..];
    }
  }

  lemma {:induction false} WireFieldsOne(ids: map<Type, nat>, fs: Fields, vs: seq<Value>, a: Bytes, b: Bytes)
    requires WireFields(ids, fs, vs, a) && WireFields(ids, fs, vs, b)
    ensures a == b
    decreases vs, 0
  {
    hide Wire;
    if fs.Field? {
      var i :| 0 <= i <= |a| && Wire(ids, fs.head, vs[0], a[..i]) && WireFields(ids, fs.rest, vs[1..], a[i..]);
      var j :| 0 <= j <= |b| && Wire(ids, fs.head, vs[0], b[..j]) && WireFields(ids, fs.rest, vs[1..], b[j..]);
      WireOne(ids, fs.head, vs[0], a[..i], b[..j]);
      WireFieldsOne(ids, fs.rest, vs[1..], a[i..], b[j..]);
      assert a == a[..i] + a[i..] && b == b[..j] + b[j..];
    }
  }

  // ---------------------------------------------------------------- marshal writes it

  lemma SignedLays(n: int, w: nat)
    requires InSigned(n, w)
    ensures Wrap(n, w) >= 0 && Lays(Big(Wrap(n, w), w), n, w)
  {
    hide Big, Lays;
    WrapFacts(n, w);
    BigLays(Wrap(n, w), w);
    assert n % Pow256(w) == Wrap(n, w) by {
      QuotientUnique(n, Pow256(w), if n < 0 then -1 else 0, Wrap(n, w));
    }
    LaysRemainder(Big(Wrap(n, w), w), n, w);
  }

  /** A length in four bytes is truncated. */
  lemma LengthLays(n: nat)
    ensures Lays(Big(n % UINT32, 4), n, 4)
  {
    hide Big, Lays;
    Powers();
    BigLays(n % UINT32, 4);
    LaysRemainder(Big(n % UINT32, 4), n, 4);
  }

  lemma {:induction false} EncodeWire(c: Codec, t: Type, v: Value, max: nat)
    requires HasType(c, t, v) && Encode(c, t, v, max).Ok?
    ensures Wire(c.toID, t, v, Encode(c, t, v, max).value)
    decreases v, 1
  {
    hide Lays, WireMany, WireFields, Big, EncodeMany, EncodeFields, HasFields;
    var bs := Encode(c, t, v, max).value;
    match t {
      case Unsigned(w) => BigLays(v.n, w);
      case Signed(w) => SignedLays(v.n, w);
      case Bool =>
      case Str =>
        BigLays(|v.s|, 2);
        HeadTail(Big(|v.s|, 2), v.s);
      case Pointer(to) => EncodeWire(c, to, v.v, c.maxLen);
      case Interface(_) =>
        BigLays(c.toID[v.t], 4);
        EncodeWire(c, v.t, v.v, c.maxLen);
        HeadTail(Big(c.toID[v.t], 4), Encode(c, v.t, v.v, c.maxLen).value);
      case Slice(elem) =>
        LengthLays(|v.vs|);
        EncodeManyWire(c, elem, v.vs);
        HeadTail(Big(|v.vs| % UINT32, 4), EncodeMany(c, elem, v.vs).value);
      case Array(elem, _) => EncodeManyWire(c, elem, v.vs);
      case Struct(_, fields) => EncodeFieldsWire(c, fields, v.vs);
    }
  }

  lemma HeadTail(a: Bytes, b: Bytes)
    ensures (a + b)[..|a|] == a && (a + b)[|a|..] == b
  {
  }

  lemma {:induction false} EncodeManyWire(c: Codec, elem: Type, vs: seq<Value>)
    requires (forall i :: 0 <= i < |vs| ==> HasType(c, elem, vs[i])) && EncodeMany(c, elem, vs).Ok?
    ensures WireMany(c.toID, elem, vs, EncodeMany(c, elem, vs).value)
    decreases vs, 0
  {
    hide Wire, Encode, HasType;
    if vs != [] {
      EncodeWire(c, elem, vs[0], c.maxLen);
      EncodeManyWire(c, elem, vs[1..]);
      HeadTail(Encode(c, elem, vs[0], c.maxLen).value, EncodeMany(c, elem, vs[1..]).value);
    }
  }

  lemma {:induction false} EncodeFieldsWire(c: Codec, fs: Fields, vs: seq<Value>)
    requires HasFields(c, fs, vs) && EncodeFields(c, fs, vs).Ok?
    ensures WireFields(c.toID, fs, vs, EncodeFields(c, fs, vs).value)
    decreases vs, 0
  {
    hide Wire, Encode, HasType;
    if fs.Field? {
      EncodeWire(c, fs.head, vs[0], fs.maxLen);
      EncodeFieldsWire(c, fs.rest, vs[1..]);
      HeadTail(Encode(c, fs.head, vs[0], fs.maxLen).value, EncodeFields(c, fs.rest, vs[1..]).value);
    }
  }

  /** What marshal writes for a value is its layout and nothing else. */
  lemma MarshalIsWire(c: Codec, t: Type, v: Value, max: nat, bs: Bytes)
    requires HasType(c, t, v) && Encode(c, t, v, max).Ok?
    ensures Encode(c, t, v, max) == Ok(bs) <==> Wire(c.toID, t, v, bs)
  {
    hide Wire, Encode, HasType;
    EncodeWire(c, t, v, max);
    if Wire(c.toID, t, v, bs) {
      WireOne(c.toID, t, v, bs, Encode(c, t, v, max).value);
    }
  }

  /** What unmarshal reads is the layout of the value it returns. */
  lemma UnmarshalIsWire(c: Codec, t: Type, bs: Bytes, max: nat)
    requires Bijective(c) && Decode(c, t, bs, max).Ok?
    ensures
      var p := Decode(c, t, bs, max).value;
      var used := |bs| - |p.rest|;
      bs[used..] == p.rest && Wire(c.toID, t, p.v, bs[..used])
  {
    hide Encode, Decode, HasType, SlicesFit, ArraysFit, Wire;
    var d := c.(maxLen := c.maxLen + UINT32);
    var p := Decode(c, t, bs, max).value;
    LargerLimit(c, d, t, bs, max, max);
    Canonical(d, t, bs, max);
    AllArraysFit(d, t, p.v);
    EncodeWire(d, t, p.v, max);
    HeadTail(Encode(d, t, p.v, max).value, p.rest);
  }
}
