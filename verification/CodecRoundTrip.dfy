/** Unmarshal undoes marshal, and marshal undoes unmarshal. */
module CodecRoundTrip {
  import opened Prelude
  import opened BigEndian
  import opened CodecModel

  /** No slice anywhere in the value is longer than unmarshal accepts. */
  predicate SlicesFit(t: Type, v: Value)
    decreases v, 1
  {
    match t
    case Pointer(to) => v.Ref? ==> SlicesFit(to, v.v)
    case Interface(_) => v.Dynamic? ==> SlicesFit(v.t, v.v)
    case Slice(elem) => v.List? ==> |v.vs| <= 0x7fff_ffff && AllFit(elem, v.vs)
    case Array(elem, _) => v.List? ==> AllFit(elem, v.vs)
    case Struct(_, fields) => v.List? ==> FieldsFit(fields, v.vs)
    case _ => true
  }

  predicate AllFit(elem: Type, vs: seq<Value>)
    decreases vs, 0
  {
    forall i :: 0 <= i < |vs| ==> SlicesFit(elem, vs[i])
  }

  predicate FieldsFit(fs: Fields, vs: seq<Value>)
    decreases vs, 0
  {
    match fs
    case NoFields => true
    case Field(t, _, rest) => vs != [] ==> SlicesFit(t, vs[0]) && FieldsFit(rest, vs[1..])
  }

  // ---------------------------------------------------------------- decode after encode

  lemma {:induction false} RoundTrip(c: Codec, t: Type, v: Value, max: nat, suffix: Bytes)
    requires Bijective(c) && HasType(c, t, v) && Encode(c, t, v, max).Ok? && SlicesFit(t, v)
    ensures Decode(c, t, Encode(c, t, v, max).value + suffix, max) == Ok(Parsed(v, suffix))
    decreases v, 1
  {
    var bs := Encode(c, t, v, max).value;
    match t {
      case Unsigned(w) => NumberRoundTrip(v.n, w, suffix);
      case Signed(w) =>
        WrapFacts(v.n, w);
        NumberRoundTrip(Wrap(v.n, w), w, suffix);
      case Bool => assert (bs + suffix)[1..] == suffix;
      case Str => TextRoundTrip(v.s, suffix);
      case Pointer(to) => RoundTrip(c, to, v.v, c.maxLen, suffix);
      case Interface(_) => DynamicRoundTrip(c, t, v, max, suffix);
      case Slice(_) => SliceRoundTrip(c, t, v, max, suffix);
      case Array(elem, _) => ItemsRoundTrip(c, elem, v.vs, suffix);
      case Struct(_, fields) => FieldsRoundTrip(c, fields, v.vs, suffix);
    }
  }

  lemma NumberRoundTrip(n: nat, w: nat, suffix: Bytes)
    requires n < Pow256(w)
    ensures
      var bs := Big(n, w) + suffix;
      |bs| >= w && FromBig(bs[..w]) == n && bs[w..] == suffix
  {
    BigRoundTrip(n, w);
    assert (Big(n, w) + suffix)[..w] == Big(n, w);
  }

  lemma Powers()
    ensures Pow256(1) == 256 && Pow256(2) == MAX_STRING_LEN + 1 && Pow256(4) == UINT32
  {
    assert Pow256(0) == 1 && Pow256(1) == 256 && Pow256(2) == 65536 && Pow256(3) == 16777216;
  }

  lemma TextRoundTrip(s: Bytes, suffix: Bytes)
    requires |s| <= MAX_STRING_LEN
    ensures
      var bs := Big(|s|, 2) + s + suffix;
      |bs| >= 2 && FromBig(bs[..2]) == |s| && bs[2..2 + |s|] == s && bs[2 + |s|..] == suffix
  {
    Powers();
    NumberRoundTrip(|s|, 2, s + suffix);
    assert Big(|s|, 2) + s + suffix == Big(|s|, 2) + (s + suffix);
  }

  lemma {:induction false} DynamicRoundTrip(c: Codec, t: Type, v: Value, max: nat, suffix: Bytes)
    requires Bijective(c) && t.Interface? && HasType(c, t, v) && Encode(c, t, v, max).Ok? && SlicesFit(t, v)
    ensures Decode(c, t, Encode(c, t, v, max).value + suffix, max) == Ok(Parsed(v, suffix))
    decreases v, 0
  {
    var id, inner := c.toID[v.t], Encode(c, v.t, v.v, c.maxLen).value;
    RoundTrip(c, v.t, v.v, c.maxLen, suffix);
    Powers();
    NumberRoundTrip(id, 4, inner + suffix);
    assert Big(id, 4) + inner + suffix == Big(id, 4) + (inner + suffix);
  }

  lemma {:induction false} SliceRoundTrip(c: Codec, t: Type, v: Value, max: nat, suffix: Bytes)
    requires Bijective(c) && t.Slice? && HasType(c, t, v) && Encode(c, t, v, max).Ok? && SlicesFit(t, v)
    ensures Decode(c, t, Encode(c, t, v, max).value + suffix, max) == Ok(Parsed(v, suffix))
    decreases v, 0
  {
    hide Encode, Decode, DecodeItems, EncodeMany, AllFit, Bijective, FromBig, Big;
    SliceEncoding(c, t, v, max);
    var n, inner := |v.vs|, EncodeMany(c, t.elem, v.vs).value;
    ItemsRoundTrip(c, t.elem, v.vs, suffix);
    Powers();
    NumberRoundTrip(n, 4, inner + suffix);
    var bs := Encode(c, t, v, max).value + suffix;
    assert bs == Big(n, 4) + (inner + suffix);
    DecodeSlice(c, t.elem, n, bs, max, ParsedList(v.vs, suffix));
  }

  lemma SliceEncoding(c: Codec, t: Type, v: Value, max: nat)
    requires t.Slice? && HasType(c, t, v) && Encode(c, t, v, max).Ok? && |v.vs| <= MAX_INT32
    ensures (forall i :: 0 <= i < |v.vs| ==> HasType(c, t.elem, v.vs[i])) && EncodeMany(c, t.elem, v.vs).Ok?
    ensures |v.vs| <= max && Encode(c, t, v, max).value == Big(|v.vs|, 4) + EncodeMany(c, t.elem, v.vs).value
  {
    hide EncodeMany, Big;
  }

  lemma DecodeSlice(c: Codec, elem: Type, n: nat, bs: Bytes, max: nat, items: ParsedList)
    requires |bs| >= 4 && FromBig(bs[..4]) == n && n <= max && n <= MAX_INT32 && DecodeItems(c, elem, n, bs[4..]) == Ok(items)
    ensures Decode(c, Slice(elem), bs, max) == Ok(Parsed(List(items.vs), items.rest))
  {
    hide DecodeItems, FromBig;
  }

  lemma {:induction false} ItemsRoundTrip(c: Codec, elem: Type, vs: seq<Value>, suffix: Bytes)
    requires Bijective(c) && (forall i :: 0 <= i < |vs| ==> HasType(c, elem, vs[i]))
    requires EncodeMany(c, elem, vs).Ok? && AllFit(elem, vs)
    ensures DecodeItems(c, elem, |vs|, EncodeMany(c, elem, vs).value + suffix) == Ok(ParsedList(vs, suffix))
    decreases vs, 1
  {
    if elem == Unsigned(1) {
      BulkBytes(c, vs);
      var bs := EncodeMany(c, elem, vs).value;
      assert (bs + suffix)[..|vs|] == bs && (bs + suffix)[|vs|..] == suffix;
    } else {
      ManyRoundTrip(c, elem, vs, suffix);
    }
  }

  /** Packing bytes one by one writes what packing them in bulk writes. */
  lemma {:induction false} BulkBytes(c: Codec, vs: seq<Value>)
    requires forall i :: 0 <= i < |vs| ==> HasType(c, Unsigned(1), vs[i])
    ensures
      var r := EncodeMany(c, Unsigned(1), vs);
      r.Ok? && |r.value| == |vs| && Numbers(r.value) == vs
  {
    Powers();
    if vs != [] {
      BulkBytes(c, vs[1..]);
      var n := vs[0].n;
      assert Big(n, 1) == [n] by {
        assert Big(n / 256, 0) == [];
      }
      assert vs == [vs[0]] + vs[1..];
      assert Numbers([n] + EncodeMany(c, Unsigned(1), vs[1..]).value) == vs;
    }
  }

  lemma {:induction false} ManyRoundTrip(c: Codec, elem: Type, vs: seq<Value>, suffix: Bytes)
    requires Bijective(c) && (forall i :: 0 <= i < |vs| ==> HasType(c, elem, vs[i]))
    requires EncodeMany(c, elem, vs).Ok? && AllFit(elem, vs)
    ensures DecodeMany(c, elem, |vs|, EncodeMany(c, elem, vs).value + suffix) == Ok(ParsedList(vs, suffix))
    decreases vs, 0
  {
    hide Encode, Decode, DecodeMany, HasType, SlicesFit, Bijective;
    var bs := EncodeMany(c, elem, vs).value + suffix;
    if vs == [] {
      assert bs == suffix;
      DecodeNone(c, elem, bs);
    } else {
      var a, b := Encode(c, elem, vs[0], c.maxLen).value, EncodeMany(c, elem, vs[1..]).value;
      RoundTrip(c, elem, vs[0], c.maxLen, b + suffix);
      ManyRoundTrip(c, elem, vs[1..], suffix);
      assert bs == a + (b + suffix);
      assert vs == [vs[0]] + vs[1..];
      DecodeOneMore(c, elem, bs, Parsed(vs[0], b + suffix), |vs| - 1, ParsedList(vs[1..], suffix));
    }
  }

  lemma DecodeNone(c: Codec, elem: Type, bs: Bytes)
    ensures DecodeMany(c, elem, 0, bs) == Ok(ParsedList([], bs))
  {
  }

  lemma DecodeOneMore(c: Codec, elem: Type, bs: Bytes, first: Parsed, n: nat, others: ParsedList)
    requires Decode(c, elem, bs, c.maxLen) == Ok(first) && DecodeMany(c, elem, n, first.rest) == Ok(others)
    ensures DecodeMany(c, elem, n + 1, bs) == Ok(ParsedList([first.v] + others.vs, others.rest))
  {
    hide Decode;
  }

  lemma {:induction false} FieldsRoundTrip(c: Codec, fs: Fields, vs: seq<Value>, suffix: Bytes)
    requires Bijective(c) && HasFields(c, fs, vs) && EncodeFields(c, fs, vs).Ok? && FieldsFit(fs, vs)
    ensures DecodeFields(c, fs, EncodeFields(c, fs, vs).value + suffix) == Ok(ParsedList(vs, suffix))
    decreases vs, 0
  {
    hide Encode, Decode, DecodeFields, HasType, SlicesFit, Bijective;
    var bs := EncodeFields(c, fs, vs).value + suffix;
    if fs.NoFields? {
      assert bs == suffix;
      DecodeNoFields(c, bs);
    } else {
      var a, b := Encode(c, fs.head, vs[0], fs.maxLen).value, EncodeFields(c, fs.rest, vs[1..]).value;
      RoundTrip(c, fs.head, vs[0], fs.maxLen, b + suffix);
      FieldsRoundTrip(c, fs.rest, vs[1..], suffix);
      assert bs == a + (b + suffix);
      assert vs == [vs[0]] + vs[1..];
      DecodeField(c, fs, bs, Parsed(vs[0], b + suffix), ParsedList(vs[1..], suffix));
    }
  }

  lemma DecodeNoFields(c: Codec, bs: Bytes)
    ensures DecodeFields(c, NoFields, bs) == Ok(ParsedList([], bs))
  {
  }

  lemma DecodeField(c: Codec, fs: Fields, bs: Bytes, first: Parsed, others: ParsedList)
    requires fs.Field? && Decode(c, fs.head, bs, fs.maxLen) == Ok(first) && DecodeFields(c, fs.rest, first.rest) == Ok(others)
    ensures DecodeFields(c, fs, bs) == Ok(ParsedList([first.v] + others.vs, others.rest))
  {
    hide Decode;
  }
}
