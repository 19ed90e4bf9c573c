/** What unmarshal accepts is exactly what marshal would have written for the value it returns. */
module CodecCanonical {
  import opened Prelude
  import opened BigEndian
  import opened CodecModel
  import opened CodecRoundTrip

  /** Marshal limits the length of an array; unmarshal does not. */
  predicate ArraysFit(c: Codec, t: Type, v: Value)
    decreases v, 1
  {
    match t
    case Pointer(to) => v.Ref? ==> ArraysFit(c, to, v.v)
    case Interface(_) => v.Dynamic? ==> ArraysFit(c, v.t, v.v)
    case Slice(elem) => v.List? ==> ItemsFit(c, elem, v.vs)
    case Array(elem, len) => v.List? ==> |v.vs| % UINT32 <= c.maxLen && ItemsFit(c, elem, v.vs)
    case Struct(_, fields) => v.List? ==> FieldArraysFit(c, fields, v.vs)
    case _ => true
  }

  predicate ItemsFit(c: Codec, elem: Type, vs: seq<Value>)
    decreases vs, 0
  {
    forall i :: 0 <= i < |vs| ==> ArraysFit(c, elem, vs[i])
  }

  predicate FieldArraysFit(c: Codec, fs: Fields, vs: seq<Value>)
    decreases vs, 0
  {
    match fs
    case NoFields => true
    case Field(t, _, rest) => vs != [] ==> ArraysFit(c, t, vs[0]) && FieldArraysFit(c, rest, vs[1..])
  }

  /** `bs` is what marshal writes for `v`, then `rest`; marshal refuses `v` only over an array's length. */
  ghost predicate Writes(c: Codec, t: Type, v: Value, max: nat, bs: Bytes, rest: Bytes) {
    && HasType(c, t, v)
    && SlicesFit(t, v)
    && (Encode(c, t, v, max).Ok? <==> ArraysFit(c, t, v))
    && (Encode(c, t, v, max).Ok? ==> bs == Encode(c, t, v, max).value + rest)
  }

  ghost predicate WritesMany(c: Codec, elem: Type, vs: seq<Value>, bs: Bytes, rest: Bytes) {
    && (forall i :: 0 <= i < |vs| ==> HasType(c, elem, vs[i]))
    && AllFit(elem, vs)
    && (EncodeMany(c, elem, vs).Ok? <==> ItemsFit(c, elem, vs))
    && (EncodeMany(c, elem, vs).Ok? ==> bs == EncodeMany(c, elem, vs).value + rest)
  }

  ghost predicate WritesFields(c: Codec, fs: Fields, vs: seq<Value>, bs: Bytes, rest: Bytes) {
    && HasFields(c, fs, vs)
    && FieldsFit(fs, vs)
    && (EncodeFields(c, fs, vs).Ok? <==> FieldArraysFit(c, fs, vs))
    && (EncodeFields(c, fs, vs).Ok? ==> bs == EncodeFields(c, fs, vs).value + rest)
  }

  lemma {:induction false} Canonical(c: Codec, t: Type, bs: Bytes, max: nat)
    requires Bijective(c) && Decode(c, t, bs, max).Ok?
    ensures
      var p := Decode(c, t, bs, max).value;
      Writes(c, t, p.v, max, bs, p.rest)
    decreases |bs|, t, 1
  {
    hide *;
    match t {
      case Unsigned(_) => UnsignedCanonical(c, t, bs, max);
      case Signed(_) => SignedCanonical(c, t, bs, max);
      case Bool => BoolCanonical(c, t, bs, max);
      case Str => TextCanonical(c, t, bs, max);
      case Pointer(_) => PointerCanonical(c, t, bs, max);
      case Interface(_) => DynamicCanonical(c, t, bs, max);
      case Slice(_) => SliceCanonical(c, t, bs, max);
      case Array(_, _) => ArrayCanonical(c, t, bs, max);
      case Struct(_, _) => StructCanonical(c, t, bs, max);
    }
  }

  lemma SplitAt(bs: Bytes, w: nat)
    requires w <= |bs|
    ensures FromBig(bs[..w]) < Pow256(w) && bs == Big(FromBig(bs[..w]), w) + bs[w..]
  {
    BigCanonical(bs[..w]);
  }

  lemma UnsignedCanonical(c: Codec, t: Type, bs: Bytes, max: nat)
    requires t.Unsigned? && Decode(c, t, bs, max).Ok?
    ensures
      var p := Decode(c, t, bs, max).value;
      Writes(c, t, p.v, max, bs, p.rest)
  {
    hide Big, FromBig, Pow256;
    SplitAt(bs, t.width);
  }

  lemma SignedCanonical(c: Codec, t: Type, bs: Bytes, max: nat)
    requires t.Signed? && Decode(c, t, bs, max).Ok?
    ensures
      var p := Decode(c, t, bs, max).value;
      Writes(c, t, p.v, max, bs, p.rest)
  {
    hide Big, FromBig, Pow256;
    SplitAt(bs, t.width);
    UnwrapFacts(FromBig(bs[..t.width]), t.width);
  }

  lemma BoolCanonical(c: Codec, t: Type, bs: Bytes, max: nat)
    requires t.Bool? && Decode(c, t, bs, max).Ok?
    ensures
      var p := Decode(c, t, bs, max).value;
      Writes(c, t, p.v, max, bs, p.rest)
  {
    assert bs == [bs[0]] + bs[1..];
  }

  lemma TextCanonical(c: Codec, t: Type, bs: Bytes, max: nat)
    requires t.Str? && Decode(c, t, bs, max).Ok?
    ensures
      var p := Decode(c, t, bs, max).value;
      Writes(c, t, p.v, max, bs, p.rest)
  {
    hide Big, FromBig;
    Powers();
    SplitAt(bs, 2);
    var n := FromBig(bs[..2]);
    assert bs[2..] == bs[2..2 + n] + bs[2 + n..];
    assert bs == Big(n, 2) + bs[2..2 + n] + bs[2 + n..];
  }

  lemma {:induction false} PointerCanonical(c: Codec, t: Type, bs: Bytes, max: nat)
    requires Bijective(c) && t.Pointer? && Decode(c, t, bs, max).Ok?
    ensures
      var p := Decode(c, t, bs, max).value;
      Writes(c, t, p.v, max, bs, p.rest)
    decreases |bs|, t, 0
  {
    hide Bijective;
    Canonical(c, t.to, bs, c.maxLen);
  }

  lemma {:induction false} ArrayCanonical(c: Codec, t: Type, bs: Bytes, max: nat)
    requires Bijective(c) && t.Array? && Decode(c, t, bs, max).Ok?
    ensures
      var p := Decode(c, t, bs, max).value;
      Writes(c, t, p.v, max, bs, p.rest)
    decreases |bs|, t, 0
  {
    hide Bijective, DecodeItems, EncodeMany, AllFit, ItemsFit;
    ItemsCanonical(c, t.elem, t.len, bs);
  }

  lemma {:induction false} StructCanonical(c: Codec, t: Type, bs: Bytes, max: nat)
    requires Bijective(c) && t.Struct? && Decode(c, t, bs, max).Ok?
    ensures
      var p := Decode(c, t, bs, max).value;
      Writes(c, t, p.v, max, bs, p.rest)
    decreases |bs|, t, 0
  {
    hide Bijective, DecodeFields, EncodeFields, HasFields, FieldsFit, FieldArraysFit;
    FieldsCanonical(c, t.fields, bs);
  }

  lemma {:induction false} DynamicCanonical(c: Codec, t: Type, bs: Bytes, max: nat)
    requires Bijective(c) && t.Interface? && Decode(c, t, bs, max).Ok?
    ensures
      var p := Decode(c, t, bs, max).value;
      Writes(c, t, p.v, max, bs, p.rest)
    decreases |bs|, t, 0
  {
    hide Big, FromBig, Encode, HasType, SlicesFit, ArraysFit, Writes;
    var p, id := Decode(c, t, bs, max).value, FromBig(bs[..4]);
    Canonical(c, c.toType[id], bs[4..], c.maxLen);
    SplitAt(bs, 4);
    DynamicWrites(c, t, p.v, max, bs, p.rest);
  }

  lemma DynamicWrites(c: Codec, t: Type, v: Value, max: nat, bs: Bytes, rest: Bytes)
    requires t.Interface? && v.Dynamic? && (v.t, t.name) in c.implements && v.t in c.toID
    requires |bs| >= 4 && bs == Big(c.toID[v.t], 4) + bs[4..] && Writes(c, v.t, v.v, c.maxLen, bs[4..], rest)
    ensures Writes(c, t, v, max, bs, rest)
  {
    hide Big;
    if Encode(c, v.t, v.v, c.maxLen).Ok? {
      var inner := Encode(c, v.t, v.v, c.maxLen).value;
      assert bs == Big(c.toID[v.t], 4) + inner + rest;
    }
  }

  lemma {:induction false} SliceCanonical(c: Codec, t: Type, bs: Bytes, max: nat)
    requires Bijective(c) && t.Slice? && Decode(c, t, bs, max).Ok?
    ensures
      var p := Decode(c, t, bs, max).value;
      Writes(c, t, p.v, max, bs, p.rest)
    decreases |bs|, t, 0
  {
    hide Bijective, DecodeItems, EncodeMany, AllFit, ItemsFit, Big, FromBig;
    var p, n := Decode(c, t, bs, max).value, FromBig(bs[..4]);
    ItemsCanonical(c, t.elem, n, bs[4..]);
    SplitAt(bs, 4);
    assert |p.v.vs| == n == n % UINT32;
    if Encode(c, t, p.v, max).Ok? {
      var inner := EncodeMany(c, t.elem, p.v.vs).value;
      assert bs == Big(n, 4) + (inner + p.rest);
    }
  }

  lemma {:induction false} ItemsCanonical(c: Codec, elem: Type, n: nat, bs: Bytes)
    requires Bijective(c) && DecodeItems(c, elem, n, bs).Ok?
    ensures
      var p := DecodeItems(c, elem, n, bs).value;
      |p.vs| == n && WritesMany(c, elem, p.vs, bs, p.rest)
    decreases |bs|, elem, 3
  {
    if elem == Unsigned(1) {
      BulkCanonical(c, bs[..n]);
      assert bs == bs[..n] + bs[n..];
    } else {
      ManyCanonical(c, elem, n, bs);
    }
  }

  lemma BulkCanonical(c: Codec, bs: Bytes)
    ensures
      var vs := Numbers(bs);
      && (forall i :: 0 <= i < |vs| ==> HasType(c, Unsigned(1), vs[i]))
      && AllFit(Unsigned(1), vs)
      && ItemsFit(c, Unsigned(1), vs)
      && EncodeMany(c, Unsigned(1), vs) == Ok(bs)
  {
    hide EncodeMany;
    Powers();
    var vs := Numbers(bs);
    BulkBytes(c, vs);
    var r := EncodeMany(c, Unsigned(1), vs).value;
    forall i | 0 <= i < |bs|
      ensures r[i] == bs[i]
    {
      assert Numbers(r)[i] == vs[i];
    }
    assert r == bs;
  }

  lemma {:induction false} ManyCanonical(c: Codec, elem: Type, n: nat, bs: Bytes)
    requires Bijective(c) && DecodeMany(c, elem, n, bs).Ok?
    ensures
      var p := DecodeMany(c, elem, n, bs).value;
      |p.vs| == n && WritesMany(c, elem, p.vs, bs, p.rest)
    decreases |bs|, elem, 2, n
  {
    hide Encode, Decode, HasType, SlicesFit, ArraysFit, Bijective;
    if n > 0 {
      var a := Decode(c, elem, bs, c.maxLen).value;
      var b := DecodeMany(c, elem, n - 1, a.rest).value;
      Canonical(c, elem, bs, c.maxLen);
      ManyCanonical(c, elem, n - 1, a.rest);
      ManyWrites(c, elem, a, b, bs);
    }
  }

  lemma ManyWrites(c: Codec, elem: Type, a: Parsed, b: ParsedList, bs: Bytes)
    requires Writes(c, elem, a.v, c.maxLen, bs, a.rest) && WritesMany(c, elem, b.vs, a.rest, b.rest)
    ensures WritesMany(c, elem, [a.v] + b.vs, bs, b.rest)
  {
    hide Encode, HasType, SlicesFit, ArraysFit;
    var vs := [a.v] + b.vs;
    assert vs[1..] == b.vs && vs[0] == a.v;
    if EncodeMany(c, elem, vs).Ok? {
      var x, y := Encode(c, elem, a.v, c.maxLen).value, EncodeMany(c, elem, b.vs).value;
      assert x + (y + b.rest) == x + y + b.rest;
    }
    if ItemsFit(c, elem, vs) {
      assert ArraysFit(c, elem, vs[0]);
      assert forall i :: 0 <= i < |b.vs| ==> b.vs[i] == vs[i + 1];
    }
  }

  lemma {:induction false} FieldsCanonical(c: Codec, fs: Fields, bs: Bytes)
    requires Bijective(c) && DecodeFields(c, fs, bs).Ok?
    ensures
      var p := DecodeFields(c, fs, bs).value;
      WritesFields(c, fs, p.vs, bs, p.rest)
    decreases |bs|, fs, 1
  {
    hide Encode, Decode, HasType, SlicesFit, ArraysFit, Bijective;
    if fs.Field? {
      var a := Decode(c, fs.head, bs, fs.maxLen).value;
      var b := DecodeFields(c, fs.rest, a.rest).value;
      Canonical(c, fs.head, bs, fs.maxLen);
      FieldsCanonical(c, fs.rest, a.rest);
      FieldWrites(c, fs, a, b, bs);
    }
  }

  lemma FieldWrites(c: Codec, fs: Fields, a: Parsed, b: ParsedList, bs: Bytes)
    requires fs.Field? && Writes(c, fs.head, a.v, fs.maxLen, bs, a.rest) && WritesFields(c, fs.rest, b.vs, a.rest, b.rest)
    ensures WritesFields(c, fs, [a.v] + b.vs, bs, b.rest)
  {
    hide Encode, HasType, SlicesFit, ArraysFit;
    var vs := [a.v] + b.vs;
    assert vs[1..] == b.vs && vs[0] == a.v;
    if EncodeFields(c, fs, vs).Ok? {
      var x, y := Encode(c, fs.head, a.v, fs.maxLen).value, EncodeFields(c, fs.rest, b.vs).value;
      assert x + (y + b.rest) == x + y + b.rest;
    }
  }

  // ---------------------------------------------------------------- the two together

  /** A value that marshals is read back, with any suffix left over, exactly when no slice in it is too long. */
  lemma RoundTripExactly(c: Codec, t: Type, v: Value, max: nat, suffix: Bytes)
    requires Bijective(c) && HasType(c, t, v) && Encode(c, t, v, max).Ok?
    ensures Decode(c, t, Encode(c, t, v, max).value + suffix, max) == Ok(Parsed(v, suffix)) <==> SlicesFit(t, v)
  {
    hide Encode, Decode, HasType, SlicesFit, Bijective;
    var bs := Encode(c, t, v, max).value + suffix;
    if SlicesFit(t, v) {
      RoundTrip(c, t, v, max, suffix);
    }
    if Decode(c, t, bs, max) == Ok(Parsed(v, suffix)) {
      Canonical(c, t, bs, max);
    }
  }

  // ---------------------------------------------------------------- a larger limit

  /** What is accepted under a limit is accepted, with the same result, under a larger one. */
  lemma {:induction false} LargerLimit(c: Codec, d: Codec, t: Type, bs: Bytes, max: nat, max': nat)
    requires Larger(c, d) && max <= max' && Decode(c, t, bs, max).Ok?
    ensures Decode(d, t, bs, max') == Decode(c, t, bs, max)
    decreases |bs|, t, 0
  {
    hide DecodeItems, DecodeFields, FromBig, Unwrap;
    match t {
      case Pointer(to) => LargerLimit(c, d, to, bs, c.maxLen, d.maxLen);
      case Interface(_) => LargerLimit(c, d, c.toType[FromBig(bs[..4])], bs[4..], c.maxLen, d.maxLen);
      case Slice(elem) => ItemsLarger(c, d, elem, FromBig(bs[..4]), bs[4..]);
      case Array(elem, len) => ItemsLarger(c, d, elem, len, bs);
      case Struct(_, fields) => FieldsLarger(c, d, fields, bs);
      case _ =>
    }
  }

  ghost predicate Larger(c: Codec, d: Codec) {
    d == c.(maxLen := d.maxLen) && c.maxLen <= d.maxLen
  }

  lemma {:induction false} ItemsLarger(c: Codec, d: Codec, elem: Type, n: nat, bs: Bytes)
    requires Larger(c, d) && DecodeItems(c, elem, n, bs).Ok?
    ensures DecodeItems(d, elem, n, bs) == DecodeItems(c, elem, n, bs)
    decreases |bs|, elem, 2
  {
    hide DecodeMany;
    if elem != Unsigned(1) {
      ManyLarger(c, d, elem, n, bs);
    }
  }

  lemma {:induction false} ManyLarger(c: Codec, d: Codec, elem: Type, n: nat, bs: Bytes)
    requires Larger(c, d) && DecodeMany(c, elem, n, bs).Ok?
    ensures DecodeMany(d, elem, n, bs) == DecodeMany(c, elem, n, bs)
    decreases |bs|, elem, 1, n
  {
    hide Decode;
    if n > 0 {
      LargerLimit(c, d, elem, bs, c.maxLen, d.maxLen);
      ManyLarger(c, d, elem, n - 1, Decode(c, elem, bs, c.maxLen).value.rest);
    }
  }

  lemma {:induction false} FieldsLarger(c: Codec, d: Codec, fs: Fields, bs: Bytes)
    requires Larger(c, d) && DecodeFields(c, fs, bs).Ok?
    ensures DecodeFields(d, fs, bs) == DecodeFields(c, fs, bs)
    decreases |bs|, fs, 1
  {
    hide Decode;
    if fs.Field? {
      LargerLimit(c, d, fs.head, bs, fs.maxLen, fs.maxLen);
      FieldsLarger(c, d, fs.rest, Decode(c, fs.head, bs, fs.maxLen).value.rest);
    }
  }

  /** Under a limit of 2^32 every array fits. */
  lemma {:induction false} AllArraysFit(d: Codec, t: Type, v: Value)
    requires d.maxLen >= UINT32
    ensures ArraysFit(d, t, v)
    decreases v, 1
  {
    match t {
      case Pointer(to) =>
        if v.Ref? {
          AllArraysFit(d, to, v.v);
        }
      case Interface(_) =>
        if v.Dynamic? {
          AllArraysFit(d, v.t, v.v);
        }
      case Slice(elem) =>
        if v.List? {
          AllItemsFit(d, elem, v.vs);
        }
      case Array(elem, _) =>
        if v.List? {
          AllItemsFit(d, elem, v.vs);
        }
      case Struct(_, fields) =>
        if v.List? {
          AllFieldsFit(d, fields, v.vs);
        }
      case _ =>
    }
  }

  lemma {:induction false} AllItemsFit(d: Codec, elem: Type, vs: seq<Value>)
    requires d.maxLen >= UINT32
    ensures ItemsFit(d, elem, vs)
    decreases vs, 0
  {
    forall i | 0 <= i < |vs|
      ensures ArraysFit(d, elem, vs[i])
    {
      AllArraysFit(d, elem, vs[i]);
    }
  }

  lemma {:induction false} AllFieldsFit(d: Codec, fs: Fields, vs: seq<Value>)
    requires d.maxLen >= UINT32
    ensures FieldArraysFit(d, fs, vs)
    decreases vs, 0
  {
    if fs.Field? && vs != [] {
      AllArraysFit(d, fs.head, vs[0]);
      AllFieldsFit(d, fs.rest, vs[1..]);
    }
  }

  /** Two inputs that unmarshal to the same value are the same bytes. */
  lemma UnmarshalInjective(c: Codec, t: Type, a: Bytes, b: Bytes)
    requires Bijective(c) && Unmarshal(c, t, a).Ok? && Unmarshal(c, t, a) == Unmarshal(c, t, b)
    ensures a == b
  {
    hide Encode, Decode, HasType, SlicesFit, ArraysFit;
    var d := c.(maxLen := c.maxLen + UINT32);
    LargerLimit(c, d, t, a, c.maxLen, d.maxLen);
    LargerLimit(c, d, t, b, c.maxLen, d.maxLen);
    Canonical(d, t, a, d.maxLen);
    Canonical(d, t, b, d.maxLen);
    AllArraysFit(d, t, Unmarshal(c, t, a).value);
  }

  // ---------------------------------------------------------------- values that fail

  /** 2^32 empty structs marshal to the length zero, even under limit zero, and are read back as none. */
  lemma LongSliceFails(c: Codec, vs: seq<Value>, suffix: Bytes)
    requires Bijective(c) && |vs| == UINT32 && forall i :: 0 <= i < UINT32 ==> vs[i] == List([])
    ensures
      var t, v := Slice(Struct(0, NoFields)), List(vs);
      && HasType(c, t, v) && Encode(c, t, v, 0) == Ok(Big(0, 4)) && !SlicesFit(t, v)
      && Decode(c, t, Big(0, 4) + suffix, 0) == Ok(Parsed(List([]), suffix))
  {
    EmptyStructs(c, vs);
    Powers();
    NumberRoundTrip(0, 4, suffix);
    assert Big(0, 4) + [] == Big(0, 4);
    DecodeNone(c, Struct(0, NoFields), suffix);
  }

  lemma {:induction false} EmptyStructs(c: Codec, vs: seq<Value>)
    requires forall i :: 0 <= i < |vs| ==> vs[i] == List([])
    ensures
      && (forall i :: 0 <= i < |vs| ==> HasType(c, Struct(0, NoFields), vs[i]))
      && EncodeMany(c, Struct(0, NoFields), vs) == Ok([])
  {
    if vs != [] {
      EmptyStructs(c, vs[1..]);
      var empty: Bytes := [];
      assert Encode(c, Struct(0, NoFields), vs[0], c.maxLen) == Ok([]) && empty + empty == empty;
    }
  }

  /** An array of one element is read under limit zero, and marshal refuses to write it back. */
  lemma LongArrayRefused(c: Codec)
    requires c.maxLen == 0
    ensures
      var t := Array(Bool, 1);
      && Decode(c, t, [1], 0) == Ok(Parsed(List([Truth(true)]), []))
      && HasType(c, t, List([Truth(true)])) && Encode(c, t, List([Truth(true)]), 0) == Err(TooLong)
  {
    assert [1][1..] == [] && [Truth(true)] + [] == [Truth(true)];
    assert Decode(c, Bool, [1], 0) == Ok(Parsed(Truth(true), []));
    DecodeNone(c, Bool, []);
    DecodeOneMore(c, Bool, [1], Parsed(Truth(true), []), 0, ParsedList([], []));
  }

  /** Unmarshal of exactly what marshal wrote; anything after it is refused. */
  lemma UnmarshalMarshal(c: Codec, t: Type, v: Value, suffix: Bytes)
    requires Bijective(c) && HasType(c, t, v) && Encode(c, t, v, c.maxLen).Ok? && SlicesFit(t, v)
    ensures Unmarshal(c, t, Encode(c, t, v, c.maxLen).value + suffix) == if suffix == [] then Ok(v) else Err(ExtraSpace)
  {
    hide Encode, Decode, HasType, SlicesFit, Bijective;
    RoundTrip(c, t, v, c.maxLen, suffix);
  }
}
