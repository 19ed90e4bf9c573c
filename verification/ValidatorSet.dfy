/** The weighted validator set: parallel slices with an index map, masking, a cached total and a lazily loaded sampler. */
module ValidatorSet {
  import opened Prelude

  type ID = Bytes

  datatype Validator = Validator(id: ID, weight: nat)

  /** `loaded` is the copy of the weights that the sampler was last initialized with. */
  datatype State = State(
    vdrs: seq<Validator>,
    weights: seq<nat>,
    sampled: seq<nat>,
    index: map<ID, nat>,
    total: nat,
    masked: set<ID>,
    initialized: bool,
    loaded: seq<nat>)

  function Empty(): (s: State)
    ensures Valid(s)
  {
    State([], [], [], map[], 0, {}, false, [])
  }

  // ---------------------------------------------------------------- sums

  function Sum(s: seq<nat>): nat {
    if s == [] then 0 else Sum(s[..|s| - 1]) + s[|s| - 1]
  }

  lemma SumSnoc(s: seq<nat>, x: nat)
    ensures Sum(s + [x]) == Sum(s) + x
  {
    assert (s + [x])[..|s|] == s;
  }

  lemma {:induction false} SumUpdate(s: seq<nat>, i: nat, x: nat)
    requires i < |s|
    ensures s[i] <= Sum(s) && Sum(s[i := x]) == Sum(s) - s[i] + x
  {
    if i == |s| - 1 {
      assert s[i := x][..i] == s[..i];
    } else {
      SumUpdate(s[..|s| - 1], i, x);
      assert s[i := x][..|s| - 1] == s[..|s| - 1][i := x];
    }
  }

  function SwapRemove<T>(s: seq<T>, i: nat): seq<T>
    requires i < |s|
  {
    s[i := s[|s| - 1]][..|s| - 1]
  }

  lemma SumSwapRemove(s: seq<nat>, i: nat)
    requires i < |s|
    ensures s[i] <= Sum(s) && Sum(SwapRemove(s, i)) == Sum(s) - s[i]
  {
    hide Sum, SwapRemove;
    SumUpdate(s, i, s[|s| - 1]);
    SwappedLast(s, i);
    SumSnoc(SwapRemove(s, i), s[|s| - 1]);
  }

  lemma SwappedLast(s: seq<nat>, i: nat)
    requires i < |s|
    ensures s[i := s[|s| - 1]] == SwapRemove(s, i) + [s[|s| - 1]]
  {
  }

  lemma {:induction false} SumAtMost(a: seq<nat>, b: seq<nat>)
    requires |a| == |b| && forall i :: 0 <= i < |a| ==> a[i] <= b[i]
    ensures Sum(a) <= Sum(b)
  {
    if a != [] {
      SumAtMost(a[..|a| - 1], b[..|b| - 1]);
    }
  }

  // ---------------------------------------------------------------- what every run keeps

  /** The index map and the validator slice are inverse. */
  ghost predicate Indexed(vdrs: seq<Validator>, index: map<ID, nat>) {
    && (forall i :: 0 <= i < |vdrs| ==> vdrs[i].id in index && index[vdrs[i].id] == i)
    && (forall id :: id in index ==> index[id] < |vdrs| && vdrs[index[id]].id == id)
  }

  function Visible(masked: set<ID>, v: Validator): nat {
    if v.id in masked then 0 else v.weight
  }

  /** Weights are positive, and a validator is sampled with its weight unless it is masked. */
  ghost predicate Weighted(vdrs: seq<Validator>, weights: seq<nat>, sampled: seq<nat>, masked: set<ID>) {
    && |weights| == |sampled| == |vdrs|
    && forall i :: 0 <= i < |vdrs| ==>
                     vdrs[i].weight == weights[i] > 0 && sampled[i] == Visible(masked, vdrs[i])
  }

  /** The sampler has the current weights, except perhaps for zeros at the end. */
  ghost predicate Loaded(loaded: seq<nat>, sampled: seq<nat>) {
    && |loaded| <= |sampled|
    && (forall i :: 0 <= i < |loaded| ==> loaded[i] == sampled[i])
    && (forall i :: |loaded| <= i < |sampled| ==> sampled[i] == 0)
  }

  ghost predicate Small(weights: seq<nat>) {
    forall i :: 0 <= i < |weights| ==> weights[i] <= MAX_UINT64
  }

  ghost predicate Valid(s: State) {
    && Indexed(s.vdrs, s.index)
    && Weighted(s.vdrs, s.weights, s.sampled, s.masked)
    && s.total == Sum(s.sampled) <= MAX_UINT64
    && Small(s.weights)
    && (s.initialized ==> Loaded(s.loaded, s.sampled))
  }

  /** What the set means: the weight of each validator. */
  function Weights(vdrs: seq<Validator>, index: map<ID, nat>): map<ID, nat>
    requires Indexed(vdrs, index)
  {
    map id | id in index :: vdrs[index[id]].weight
  }

  // ---------------------------------------------------------------- changes to the slices

  lemma AppendKeeps(vdrs: seq<Validator>, index: map<ID, nat>, v: Validator)
    requires Indexed(vdrs, index) && v.id !in index
    ensures Indexed(vdrs + [v], index[v.id := |vdrs|])
    ensures Weights(vdrs + [v], index[v.id := |vdrs|]) == Weights(vdrs, index)[v.id := v.weight]
  {
  }

  lemma UpdateKeeps(vdrs: seq<Validator>, index: map<ID, nat>, i: nat, w: nat)
    requires Indexed(vdrs, index) && i < |vdrs|
    ensures Indexed(vdrs[i := vdrs[i].(weight := w)], index)
    ensures Weights(vdrs[i := vdrs[i].(weight := w)], index) == Weights(vdrs, index)[vdrs[i].id := w]
  {
  }

  lemma RemoveKeeps(vdrs: seq<Validator>, index: map<ID, nat>, id: ID)
    requires Indexed(vdrs, index) && id in index
    ensures
      var index' := index[vdrs[|vdrs| - 1].id := index[id]] - {id};
      && Indexed(SwapRemove(vdrs, index[id]), index')
      && Weights(SwapRemove(vdrs, index[id]), index') == Weights(vdrs, index) - {id}
  {
    var i, e := index[id], |vdrs| - 1;
    var vdrs', index' := SwapRemove(vdrs, i), index[vdrs[e].id := i] - {id};
    forall x | x in index'
      ensures index'[x] < |vdrs'| && vdrs'[index'[x]].id == x && vdrs'[index'[x]].weight == vdrs[index[x]].weight
    {
      assert vdrs[index[x]].id == x;
    }
  }

  // ---------------------------------------------------------------- operations

  /** A new validator is entered without weight, at the end of the slices. */
  function WithEntry(s: State, id: ID): State {
    if id in s.index then s
    else s.(vdrs := s.vdrs + [Validator(id, 0)], weights := s.weights + [0], sampled := s.sampled + [0],
            index := s.index[id := |s.vdrs|])
  }

  /** Addition that wraps around, and addition that stops at the largest number. */
  function Wrap64(x: nat): nat {
    x % (MAX_UINT64 + 1)
  }

  function Min(a: nat, b: nat): nat {
    if a < b then a else b
  }

  /** A masked validator leaves the sampled weights, the total and the sampler alone; so do, for the last two, weights
      whose total does not fit. */
  function Raise(s: State, i: nat, w: nat): State
    requires i < |s.vdrs| == |s.weights| == |s.sampled|
  {
    var t := s.(weights := s.weights[i := Wrap64(s.weights[i] + w)],
                vdrs := s.vdrs[i := Validator(s.vdrs[i].id, Min(s.vdrs[i].weight + w, MAX_UINT64))]);
    if s.vdrs[i].id in s.masked then t
    else
      var u := t.(sampled := s.sampled[i := Wrap64(s.sampled[i] + w)]);
      if s.total + w > MAX_UINT64 then u else u.(total := s.total + w, initialized := false)
  }

  function AddWeight(s: State, id: ID, w: nat): State
    requires Indexed(s.vdrs, s.index) && |s.weights| == |s.sampled| == |s.vdrs|
  {
    Raise(WithEntry(s, id), WithEntry(s, id).index[id], w)
  }

  /** The last entry moves into the removed one's place. */
  function Remove(s: State, id: ID): State
    requires Indexed(s.vdrs, s.index) && |s.weights| == |s.sampled| == |s.vdrs| && id in s.index
  {
    var i := s.index[id];
    s.(vdrs := SwapRemove(s.vdrs, i), weights := SwapRemove(s.weights, i), sampled := SwapRemove(s.sampled, i),
       index := s.index[s.vdrs[|s.vdrs| - 1].id := i] - {id}, initialized := false)
  }

  function RemoveWeight(s: State, id: ID, weight: nat): State
    requires Valid(s)
  {
    if id !in s.index then s
    else
      var i := s.index[id];
      var w := Min(s.weights[i], weight);
      WithinTotal(s, i);
      var t := Lower(s, i, w);
      UpdateKeeps(s.vdrs, s.index, i, s.vdrs[i].weight - w);
      if t.vdrs[i].weight == 0 then Remove(t, id) else t
  }

  function Lower(s: State, i: nat, w: nat): State
    requires i < |s.vdrs| == |s.weights| == |s.sampled| && w <= s.weights[i] == s.vdrs[i].weight
    requires s.vdrs[i].id !in s.masked ==> w <= s.sampled[i] && w <= s.total
  {
    var t := s.(weights := s.weights[i := s.weights[i] - w], vdrs := s.vdrs[i := Validator(s.vdrs[i].id, s.vdrs[i].weight - w)],
                initialized := false);
    if s.vdrs[i].id in s.masked then t else t.(total := s.total - w, sampled := s.sampled[i := s.sampled[i] - w])
  }

  lemma WithinTotal(s: State, i: nat)
    requires Valid(s) && i < |s.vdrs|
    ensures s.vdrs[i].id !in s.masked ==> s.weights[i] == s.sampled[i] <= s.total
  {
    SumUpdate(s.sampled, i, 0);
  }

  function Mask(s: State, id: ID): State
    requires Valid(s)
  {
    if id in s.masked then s
    else if id !in s.index then s.(masked := s.masked + {id})
    else
      var i := s.index[id];
      WithinTotal(s, i);
      s.(masked := s.masked + {id}, sampled := s.sampled[i := 0], total := s.total - s.weights[i], initialized := false)
  }

  function Unmask(s: State, id: ID): State
    requires Valid(s)
  {
    if id !in s.masked then s
    else if id !in s.index then s.(masked := s.masked - {id})
    else
      var i := s.index[id];
      var t := s.(masked := s.masked - {id}, sampled := s.sampled[i := s.weights[i]]);
      if s.total + s.weights[i] > MAX_UINT64 then t else t.(total := s.total + s.weights[i], initialized := false)
  }

  function Load(s: State): State {
    if s.initialized then s else s.(initialized := true, loaded := s.sampled)
  }

  // ---------------------------------------------------------------- each operation keeps the invariant and means what it says

  /** The weight of a validator, zero if it is not one. */
  function WeightOf(s: State, id: ID): nat {
    if id in s.index && s.index[id] < |s.weights| then s.weights[s.index[id]] else 0
  }

  /** A masked validator's own weight must fit; otherwise the total must. */
  predicate AddFits(s: State, id: ID, w: nat) {
    if id in s.masked then WeightOf(s, id) + w <= MAX_UINT64 else s.total + w <= MAX_UINT64
  }

  lemma AddWeightKeeps(s: State, id: ID, w: nat)
    requires Valid(s) && w > 0 && AddFits(s, id, w)
    ensures
      var r := AddWeight(s, id, w);
      && Valid(r)
      && r.masked == s.masked
      && Weights(r.vdrs, r.index) ==
         Weights(s.vdrs, s.index)[id := w + if id in s.index then Weights(s.vdrs, s.index)[id] else 0]
      && r.loaded == s.loaded && r.initialized == (id in s.masked && s.initialized)
  {
    hide Sum, AddWeight, Weights;
    AddSampler(s, id, w);
    if id in s.index {
      AddOldKeeps(s, id, w);
    } else {
      AddNewKeeps(s, id, w);
    }
  }

  /** The sampler has to be loaded again exactly when what it draws from changed. */
  lemma AddSampler(s: State, id: ID, w: nat)
    requires Valid(s) && AddFits(s, id, w)
    ensures
      var r := AddWeight(s, id, w);
      r.loaded == s.loaded && r.initialized == (id in s.masked && s.initialized)
  {
    hide Sum, Loaded;
  }

  /** When it fits, nothing wraps. */
  lemma RaiseFits(s: State, i: nat, w: nat)
    requires Valid(s) && i < |s.vdrs| && w > 0 && AddFits(s, s.vdrs[i].id, w)
    ensures s.weights[i] + w <= MAX_UINT64
    ensures
      var t := s.(weights := s.weights[i := s.weights[i] + w], vdrs := s.vdrs[i := Validator(s.vdrs[i].id, s.weights[i] + w)]);
      Raise(s, i, w) ==
      if s.vdrs[i].id in s.masked then t
      else t.(sampled := s.sampled[i := s.weights[i] + w], total := s.total + w, initialized := false)
  {
    hide Sum, Indexed, Loaded, Wrap64;
    WithinTotal(s, i);
    WeightOfEntry(s, i);
    WrapMoves(s.weights[i], w);
  }

  lemma WeightOfEntry(s: State, i: nat)
    requires Valid(s) && i < |s.vdrs|
    ensures WeightOf(s, s.vdrs[i].id) == s.weights[i]
  {
    hide Sum;
  }

  lemma AddOldKeeps(s: State, id: ID, w: nat)
    requires Valid(s) && w > 0 && AddFits(s, id, w) && id in s.index
    ensures
      var r := AddWeight(s, id, w);
      && Valid(r)
      && r.masked == s.masked
      && Weights(r.vdrs, r.index) == Weights(s.vdrs, s.index)[id := w + Weights(s.vdrs, s.index)[id]]
  {
    hide Sum, Raise, Weights;
    var i := s.index[id];
    RaiseFits(s, i, w);
    WeightAt(s, id);
    UpdateKeeps(s.vdrs, s.index, i, s.vdrs[i].weight + w);
    SumUpdate(s.sampled, i, s.sampled[i] + w);
  }

  lemma AddNewKeeps(s: State, id: ID, w: nat)
    requires Valid(s) && w > 0 && AddFits(s, id, w) && id !in s.index
    ensures
      var r := AddWeight(s, id, w);
      && Valid(r)
      && r.masked == s.masked
      && Weights(r.vdrs, r.index) == Weights(s.vdrs, s.index)[id := w]
  {
    hide Sum, AddWeight, Weights;
    AddNewShape(s, id, w);
    AppendKeeps(s.vdrs, s.index, Validator(id, w));
    SumSnoc(s.sampled, if id in s.masked then 0 else w);
  }

  /** A new validator whose weight fits is appended. */
  lemma AddNewShape(s: State, id: ID, w: nat)
    requires Valid(s) && id !in s.index && AddFits(s, id, w)
    ensures
      var r, m := AddWeight(s, id, w), id in s.masked;
      r == s.(vdrs := s.vdrs + [Validator(id, w)], weights := s.weights + [w], sampled := s.sampled + [if m then 0 else w],
              index := s.index[id := |s.vdrs|], total := if m then s.total else s.total + w, initialized := m && s.initialized)
  {
    hide Sum;
    var r := AddWeight(s, id, w);
    assert r.vdrs == s.vdrs + [Validator(id, w)];
    assert r.weights == s.weights + [w];
    assert r.sampled == s.sampled + [if id in s.masked then 0 else w];
  }

  /** When it does not fit, the invariant is lost: a masked validator has two weights, or the total is stale. */
  lemma AddBreaks(s: State, id: ID, w: nat)
    requires Valid(s) && 0 < w <= MAX_UINT64 && !AddFits(s, id, w)
    ensures !Valid(AddWeight(s, id, w))
  {
    hide Sum, Valid, Raise, Indexed;
    ValidIndexed(s);
    InRange(s);
    var t := WithEntry(s, id);
    EntryShape(s, id);
    if id in s.masked {
      TwoWeights(t, t.index[id], w);
    } else {
      StaleTotal(t, t.index[id], w);
    }
  }

  /** An entry without weight changes neither the total nor the weights. */
  lemma EntryShape(s: State, id: ID)
    requires Valid(s)
    ensures
      var t := WithEntry(s, id);
      && t.index[id] < |t.vdrs| == |t.weights| == |t.sampled| && t.vdrs[t.index[id]].id == id
      && t.weights[t.index[id]] == t.vdrs[t.index[id]].weight == WeightOf(s, id) <= MAX_UINT64
      && t.sampled[t.index[id]] <= MAX_UINT64
      && t.total == s.total == Sum(t.sampled) && t.masked == s.masked
  {
    hide Sum;
    SumSnoc(s.sampled, 0);
  }

  lemma TwoWeights(t: State, i: nat, w: nat)
    requires i < |t.vdrs| == |t.weights| == |t.sampled| && t.vdrs[i].id in t.masked
    requires t.weights[i] == t.vdrs[i].weight <= MAX_UINT64 && w <= MAX_UINT64 < t.weights[i] + w
    ensures !Valid(Raise(t, i, w))
  {
    hide Sum, Indexed, Loaded, Wrap64;
    WrapMoves(t.weights[i], w);
    var r := Raise(t, i, w);
    assert r.weights[i] < MAX_UINT64 == r.vdrs[i].weight;
  }

  lemma StaleTotal(t: State, i: nat, w: nat)
    requires i < |t.vdrs| == |t.weights| == |t.sampled| && t.vdrs[i].id !in t.masked
    requires t.total == Sum(t.sampled) && t.sampled[i] <= MAX_UINT64 && 0 < w <= MAX_UINT64 < t.total + w
    ensures !Valid(Raise(t, i, w))
  {
    hide Sum, Indexed, Loaded, Wrap64, Weighted, Small;
    WrapMoves(t.sampled[i], w);
    SumUpdate(t.sampled, i, Wrap64(t.sampled[i] + w));
  }

  lemma WrapMoves(x: nat, w: nat)
    requires x <= MAX_UINT64 && w <= MAX_UINT64
    ensures x + w <= MAX_UINT64 ==> Wrap64(x + w) == x + w
    ensures x + w > MAX_UINT64 ==> Wrap64(x + w) < MAX_UINT64
    ensures w > 0 ==> Wrap64(x + w) != x
  {
    if x + w > MAX_UINT64 {
      assert Wrap64(x + w) == x + w - (MAX_UINT64 + 1);
    }
  }

  lemma RemoveWeightKeeps(s: State, id: ID, weight: nat)
    requires Valid(s) && weight > 0
    ensures
      var r, ws := RemoveWeight(s, id, weight), Weights(s.vdrs, s.index);
      && Valid(r)
      && r.masked == s.masked
      && Weights(r.vdrs, r.index) == Reduced(ws, id, weight)
  {
    hide Sum, Weights, RemoveWeight;
    WeightAt(s, id);
    if id in s.index {
      if s.weights[s.index[id]] <= weight {
        RemoveAllKeeps(s, id, weight);
      } else {
        RemoveSomeKeeps(s, id, weight);
      }
    } else {
      NothingRemoved(s, id, weight);
    }
  }

  /** A validator left with no weight is gone. */
  function Reduced(ws: map<ID, nat>, id: ID, weight: nat): map<ID, nat> {
    if id !in ws then ws else if ws[id] <= weight then ws - {id} else ws[id := ws[id] - weight]
  }

  lemma WeightAt(s: State, id: ID)
    requires Valid(s)
    ensures id in Weights(s.vdrs, s.index) <==> id in s.index
    ensures id in s.index ==> Weights(s.vdrs, s.index)[id] == s.weights[s.index[id]]
  {
  }

  lemma RemoveSomeKeeps(s: State, id: ID, weight: nat)
    requires Valid(s) && weight > 0 && id in s.index && s.weights[s.index[id]] > weight
    ensures
      var r := RemoveWeight(s, id, weight);
      && Valid(r)
      && r.masked == s.masked
      && Weights(r.vdrs, r.index) == Weights(s.vdrs, s.index)[id := s.weights[s.index[id]] - weight]
  {
    hide Sum, Weights;
    var i := s.index[id];
    WithinTotal(s, i);
    UpdateKeeps(s.vdrs, s.index, i, s.vdrs[i].weight - weight);
    if id !in s.masked {
      SumUpdate(s.sampled, i, s.sampled[i] - weight);
    }
  }

  lemma RemoveAllKeeps(s: State, id: ID, weight: nat)
    requires Valid(s) && weight > 0 && id in s.index && s.weights[s.index[id]] <= weight
    ensures
      var r := RemoveWeight(s, id, weight);
      && Valid(r)
      && r.masked == s.masked
      && Weights(r.vdrs, r.index) == Weights(s.vdrs, s.index) - {id}
  {
    hide Sum, Weights, RemoveWeight, SwapRemove, Indexed;
    RemoveAllShape(s, id, weight);
    var i := s.index[id];
    RemoveKeeps(s.vdrs, s.index, id);
    WeightedSwap(s.vdrs, s.weights, s.sampled, s.masked, i);
    SumSwapRemove(s.sampled, i);
    SmallSwap(s.weights, i);
  }

  lemma SmallSwap(weights: seq<nat>, i: nat)
    requires Small(weights) && i < |weights|
    ensures Small(SwapRemove(weights, i))
  {
  }

  lemma NothingRemoved(s: State, id: ID, weight: nat)
    requires Valid(s) && id !in s.index
    ensures RemoveWeight(s, id, weight) == s
  {
  }

  lemma RemoveAllShape(s: State, id: ID, weight: nat)
    requires Valid(s) && weight > 0 && id in s.index && s.weights[s.index[id]] <= weight
    ensures
      var i := s.index[id];
      && i < |s.vdrs| && s.sampled[i] <= s.total
      && RemoveWeight(s, id, weight) ==
         s.(vdrs := SwapRemove(s.vdrs, i), weights := SwapRemove(s.weights, i), sampled := SwapRemove(s.sampled, i),
            index := s.index[s.vdrs[|s.vdrs| - 1].id := i] - {id}, total := s.total - s.sampled[i], initialized := false)
  {
    hide Sum, SwapRemove;
    var i := s.index[id];
    SumUpdate(s.sampled, i, 0);
    SwapUpdate(s.vdrs, i, Validator(id, 0));
    SwapUpdate(s.weights, i, 0);
    SwapUpdate(s.sampled, i, 0);
    LastMoved(s.vdrs, i);
  }

  /** What a removed entry held last does not matter. */
  lemma SwapUpdate<T>(s: seq<T>, i: nat, x: T)
    requires i < |s|
    ensures SwapRemove(s[i := x], i) == SwapRemove(s, i)
  {
  }

  lemma LastMoved(vdrs: seq<Validator>, i: nat)
    requires i < |vdrs|
    ensures vdrs[i := vdrs[i].(weight := 0)][|vdrs| - 1].id == vdrs[|vdrs| - 1].id
  {
  }

  lemma WeightedSwap(vdrs: seq<Validator>, weights: seq<nat>, sampled: seq<nat>, masked: set<ID>, i: nat)
    requires Weighted(vdrs, weights, sampled, masked) && i < |vdrs|
    ensures Weighted(SwapRemove(vdrs, i), SwapRemove(weights, i), SwapRemove(sampled, i), masked)
  {
  }

  lemma MaskKeeps(s: State, id: ID)
    requires Valid(s)
    ensures
      var r := Mask(s, id);
      Valid(r) && r.masked == s.masked + {id} && r.vdrs == s.vdrs && r.index == s.index && r.weights == s.weights
  {
    hide Sum;
    if id in s.index && id !in s.masked {
      var i := s.index[id];
      WithinTotal(s, i);
      SumUpdate(s.sampled, i, 0);
    }
  }

  predicate UnmaskFits(s: State, id: ID) {
    id in s.masked ==> s.total + WeightOf(s, id) <= MAX_UINT64
  }

  /** Revealing keeps the invariant exactly when the total still fits. */
  lemma UnmaskExactly(s: State, id: ID)
    requires Valid(s)
    ensures
      var r := Unmask(s, id);
      && (Valid(r) <==> UnmaskFits(s, id))
      && r.masked == s.masked - {id} && r.vdrs == s.vdrs && r.index == s.index && r.weights == s.weights
  {
    hide Sum;
    if id in s.index && id in s.masked {
      var i := s.index[id];
      SumUpdate(s.sampled, i, s.weights[i]);
    }
  }

  /** When the sum of all weights, masked included, fits, revealing always does. */
  lemma SumFits(s: State, id: ID)
    requires Valid(s) && Sum(s.weights) <= MAX_UINT64
    ensures UnmaskFits(s, id)
  {
    hide Sum;
    if id in s.index && id in s.masked {
      var i := s.index[id];
      SumUpdate(s.sampled, i, s.weights[i]);
      SumAtMost(s.sampled[i := s.weights[i]], s.weights);
    } else {
      SumAtMost(s.sampled, s.weights);
    }
  }

  // ---------------------------------------------------------------- replacing the whole set

  function HasID(vdrs: seq<Validator>, id: ID): bool {
    exists i :: 0 <= i < |vdrs| && vdrs[i].id == id
  }

  /** The first validator with each id, those without weight left out. */
  function Kept(vdrs: seq<Validator>): seq<Validator> {
    if vdrs == [] then []
    else
      var rest, v := Kept(vdrs[..|vdrs| - 1]), vdrs[|vdrs| - 1];
      if HasID(rest, v.id) || v.weight == 0 then rest else rest + [v]
  }

  /** The weight of the validators that are not masked. */
  function VisibleSum(vdrs: seq<Validator>, masked: set<ID>): nat {
    if vdrs == [] then 0 else VisibleSum(vdrs[..|vdrs| - 1], masked) + Visible(masked, vdrs[|vdrs| - 1])
  }

  lemma VisibleSumSnoc(vdrs: seq<Validator>, v: Validator, masked: set<ID>)
    ensures VisibleSum(vdrs + [v], masked) == VisibleSum(vdrs, masked) + Visible(masked, v)
  {
    assert (vdrs + [v])[..|vdrs|] == vdrs;
  }

  /** The cached total is that weight. */
  lemma {:induction false} SampledSum(vdrs: seq<Validator>, weights: seq<nat>, sampled: seq<nat>, masked: set<ID>)
    requires Weighted(vdrs, weights, sampled, masked)
    ensures Sum(sampled) == VisibleSum(vdrs, masked)
  {
    if vdrs != [] {
      var e := |vdrs| - 1;
      SampledSum(vdrs[..e], weights[..e], sampled[..e], masked);
    }
  }

  lemma HasIDIndexed(vdrs: seq<Validator>, index: map<ID, nat>, id: ID)
    requires Indexed(vdrs, index)
    ensures HasID(vdrs, id) <==> id in index
  {
    if id in index {
      assert vdrs[index[id]].id == id;
    }
  }

  /** An entry of the index map is within the slices. */
  lemma InRange(s: State)
    requires Valid(s)
    ensures |s.weights| == |s.sampled| == |s.vdrs|
    ensures forall id :: id in s.index ==> s.index[id] < |s.vdrs| && s.vdrs[s.index[id]].id == id
    ensures forall i :: 0 <= i < |s.vdrs| ==> s.vdrs[i].weight == s.weights[i]
  {
    hide Sum;
  }

  function Cleared(s: State): State {
    State([], [], [], map[], 0, s.masked, false, s.loaded)
  }

  lemma ClearedKeeps(s: State)
    ensures Valid(Cleared(s))
  {
  }

  /** A state on the way to a replaced set, and whether the loop goes on. */
  datatype Building = Building(s: State, ok: bool)

  /** One validator of the list: skipped, or appended; the loop stops with an error when the total does not fit. */
  function Enter(b: Building, v: Validator): Building {
    if !b.ok || v.id in b.s.index || v.weight == 0 then b
    else
      var t := b.s.(vdrs := b.s.vdrs + [v], weights := b.s.weights + [v.weight], index := b.s.index[v.id := |b.s.vdrs|],
                    sampled := b.s.sampled + [Visible(b.s.masked, v)]);
      if v.id in b.s.masked then Building(t, true)
      else if b.s.total + v.weight > MAX_UINT64 then Building(t, false)
      else Building(t.(total := b.s.total + v.weight), true)
  }

  function Rebuilt(s: State, list: seq<Validator>): Building {
    if list == [] then Building(Cleared(s), true) else Enter(Rebuilt(s, list[..|list| - 1]), list[|list| - 1])
  }

  ghost predicate SmallList(list: seq<Validator>) {
    forall i :: 0 <= i < |list| ==> list[i].weight <= MAX_UINT64
  }

  /** As long as it goes on the set is valid and holds what the list keeps; when it stops the total is wrong. */
  ghost predicate BuildingFrom(b: Building, s: State, list: seq<Validator>) {
    && b.s.masked == s.masked && b.s.loaded == s.loaded && !b.s.initialized
    && (b.ok <==> VisibleSum(Kept(list), s.masked) <= MAX_UINT64)
    && (b.ok <==> Valid(b.s))
    && (b.ok ==> b.s.vdrs == Kept(list))
  }

  lemma {:induction false} RebuiltExactly(s: State, list: seq<Validator>)
    requires SmallList(list)
    ensures BuildingFrom(Rebuilt(s, list), s, list)
  {
    hide Sum, Valid, Enter, Kept, VisibleSum;
    if list == [] {
      ClearedKeeps(s);
      NothingKept(s.masked);
    } else {
      var before, v := list[..|list| - 1], list[|list| - 1];
      RebuiltExactly(s, before);
      EnterExactly(Rebuilt(s, before), s, before, v);
      assert list == before + [v];
    }
  }

  lemma NothingKept(masked: set<ID>)
    ensures Kept([]) == [] && VisibleSum([], masked) == 0
  {
  }

  lemma EnterExactly(b: Building, s: State, list: seq<Validator>, v: Validator)
    requires BuildingFrom(b, s, list) && v.weight <= MAX_UINT64
    ensures BuildingFrom(Enter(b, v), s, list + [v])
  {
    hide Sum, Valid, VisibleSum;
    KeptSnoc(list, v);
    VisibleSumSnoc(Kept(list), v, s.masked);
    if b.ok {
      ValidIndexed(b.s);
      HasIDIndexed(b.s.vdrs, b.s.index, v.id);
      if v.id !in b.s.index && v.weight > 0 {
        EnterNew(b.s, v);
      }
      TotalIsVisible(b.s);
    }
  }

  lemma KeptSnoc(list: seq<Validator>, v: Validator)
    ensures Kept(list + [v]) == if HasID(Kept(list), v.id) || v.weight == 0 then Kept(list) else Kept(list) + [v]
  {
    assert (list + [v])[..|list|] == list;
  }

  lemma TotalIsVisible(s: State)
    requires Valid(s)
    ensures s.total == VisibleSum(s.vdrs, s.masked) <= MAX_UINT64
  {
    SampledSum(s.vdrs, s.weights, s.sampled, s.masked);
  }

  /** Appending a validator in the loop keeps the set valid exactly when the total fits. */
  lemma EnterNew(s: State, v: Validator)
    requires Valid(s) && !s.initialized && v.id !in s.index && 0 < v.weight <= MAX_UINT64
    ensures
      var r := Enter(Building(s, true), v);
      && (r.ok <==> v.id in s.masked || s.total + v.weight <= MAX_UINT64)
      && (r.ok <==> Valid(r.s))
      && r.s.vdrs == s.vdrs + [v] && r.s.masked == s.masked && r.s.loaded == s.loaded && !r.s.initialized
  {
    hide Sum, Weights;
    AppendKeeps(s.vdrs, s.index, v);
    SumSnoc(s.sampled, Visible(s.masked, v));
  }

  /** The weights of a list of validators. */
  function WeightsIn(vdrs: seq<Validator>): map<ID, nat> {
    if vdrs == [] then map[] else WeightsIn(vdrs[..|vdrs| - 1])[vdrs[|vdrs| - 1].id := vdrs[|vdrs| - 1].weight]
  }

  /** The slices alone determine the weights. */
  lemma {:induction false} IndexedWeights(vdrs: seq<Validator>, index: map<ID, nat>)
    requires Indexed(vdrs, index)
    ensures Weights(vdrs, index) == WeightsIn(vdrs)
  {
    if vdrs == [] {
      assert index == map[];
    } else {
      var e := |vdrs| - 1;
      var v := vdrs[e];
      var rest := index - {v.id};
      assert Indexed(vdrs[..e], rest);
      IndexedWeights(vdrs[..e], rest);
    }
  }

  // ---------------------------------------------------------------- whole runs

  datatype Op =
    | ReplaceOp(list: seq<Validator>)
    | AddOp(id: ID, w: nat)
    | RemoveOp(id: ID, w: nat)
    | MaskOp(id: ID)
    | UnmaskOp(id: ID)
    | LoadOp

  /** What the code does, in 64 bits. */
  function Do(s: State, op: Op): State
    requires Valid(s)
  {
    match op
    case ReplaceOp(list) => Rebuilt(s, list).s
    case AddOp(id, w) => if w == 0 then s else AddWeight(s, id, w)
    case RemoveOp(id, w) => if w == 0 then s else RemoveWeight(s, id, w)
    case MaskOp(id) => Mask(s, id)
    case UnmaskOp(id) => Unmask(s, id)
    case LoadOp => Load(s)
  }

  /** The numbers of an operation are 64-bit. */
  ghost predicate Uint64(op: Op) {
    (op.AddOp? ==> op.w <= MAX_UINT64) && (op.ReplaceOp? ==> SmallList(op.list))
  }

  /** The total that the sampler draws from, or the weight of a masked validator that is added to, still fits. */
  predicate Fits(s: State, op: Op) {
    match op
    case ReplaceOp(list) => VisibleSum(Kept(list), s.masked) <= MAX_UINT64
    case AddOp(id, w) => w > 0 ==> AddFits(s, id, w)
    case UnmaskOp(id) => UnmaskFits(s, id)
    case _ => true
  }

  /** What an operation does to the weights and to what is masked. */
  function WeightsAfter(ws: map<ID, nat>, op: Op): map<ID, nat> {
    match op
    case ReplaceOp(list) => WeightsIn(Kept(list))
    case AddOp(id, w) => if w == 0 then ws else ws[id := w + if id in ws then ws[id] else 0]
    case RemoveOp(id, w) => if w == 0 then ws else Reduced(ws, id, w)
    case _ => ws
  }

  function MaskedAfter(masked: set<ID>, op: Op): set<ID> {
    match op
    case MaskOp(id) => masked + {id}
    case UnmaskOp(id) => masked - {id}
    case _ => masked
  }

  lemma DoKeeps(s: State, op: Op)
    requires Valid(s) && Uint64(op) && Fits(s, op)
    ensures
      var r := Do(s, op);
      && Valid(r)
      && Weights(r.vdrs, r.index) == WeightsAfter(Weights(s.vdrs, s.index), op)
      && r.masked == MaskedAfter(s.masked, op)
  {
    hide Valid, Sum, AddWeight, RemoveWeight, Mask, Unmask, Load, Weights, Indexed, Rebuilt, Kept, VisibleSum;
    ValidIndexed(s);
    WeightAt(s, if op.LoadOp? || op.ReplaceOp? then [] else op.id);
    match op {
      case ReplaceOp(list) =>
        RebuiltExactly(s, list);
        ValidIndexed(Rebuilt(s, list).s);
        IndexedWeights(Kept(list), Rebuilt(s, list).s.index);
      case AddOp(id, w) =>
        if w > 0 {
          AddWeightKeeps(s, id, w);
        }
      case RemoveOp(id, w) =>
        if w > 0 {
          RemoveWeightKeeps(s, id, w);
        }
      case MaskOp(id) => MaskKeeps(s, id);
      case UnmaskOp(id) => UnmaskExactly(s, id);
      case LoadOp => LoadKeeps(s);
    }
    ValidIndexed(Do(s, op));
  }

  /** Each operation keeps the invariant exactly when its numbers fit. */
  lemma DoExactly(s: State, op: Op)
    requires Valid(s) && Uint64(op)
    ensures Valid(Do(s, op)) <==> Fits(s, op)
  {
    hide Valid, Sum, AddWeight, RemoveWeight, Mask, Unmask, Load, Weights, Indexed, Rebuilt, Kept, VisibleSum, AddFits, UnmaskFits;
    if Fits(s, op) {
      DoKeeps(s, op);
    } else if op.ReplaceOp? {
      RebuiltExactly(s, op.list);
    } else if op.AddOp? {
      AddBreaks(s, op.id, op.w);
    } else {
      UnmaskExactly(s, op.id);
    }
  }

  lemma ValidIndexed(s: State)
    requires Valid(s)
    ensures Indexed(s.vdrs, s.index)
  {
  }

  lemma LoadKeeps(s: State)
    requires Valid(s)
    ensures
      var r := Load(s);
      && Valid(r)
      && r.initialized
      && r.vdrs == s.vdrs && r.index == s.index && r.masked == s.masked
  {
    hide Sum;
  }

  ghost function Run(s: State, ops: seq<Op>): Option<State>
    requires Valid(s)
    ensures Run(s, ops).Some? ==> Valid(Run(s, ops).value)
  {
    if ops == [] then Some(s)
    else
      var r := Run(s, ops[..|ops| - 1]);
      if r.None? || !Uint64(ops[|ops| - 1]) || !Fits(r.value, ops[|ops| - 1]) then None
      else
        DoKeeps(r.value, ops[|ops| - 1]);
        Some(Do(r.value, ops[|ops| - 1]))
  }

  function WeightsOf(ops: seq<Op>): map<ID, nat> {
    if ops == [] then map[] else WeightsAfter(WeightsOf(ops[..|ops| - 1]), ops[|ops| - 1])
  }

  function MaskedOf(ops: seq<Op>): set<ID> {
    if ops == [] then {} else MaskedAfter(MaskedOf(ops[..|ops| - 1]), ops[|ops| - 1])
  }

  /** Every run from the empty set that fits keeps the invariant, and ends with the weights and the mask it should. */
  lemma {:induction false} RunKeeps(ops: seq<Op>)
    requires Run(Empty(), ops).Some?
    ensures
      var s := Run(Empty(), ops).value;
      && Valid(s)
      && Weights(s.vdrs, s.index) == WeightsOf(ops)
      && s.masked == MaskedOf(ops)
      && s.total <= MAX_UINT64
      && forall i :: 0 <= i < |s.vdrs| ==> (s.sampled[i] == 0 <==> s.vdrs[i].id in s.masked)
  {
    hide Sum, Do;
    if ops != [] {
      RunKeeps(ops[..|ops| - 1]);
      DoKeeps(Run(Empty(), ops[..|ops| - 1]).value, ops[|ops| - 1]);
    }
  }

  /** Two validators whose weights add up to more than 64 bits: after the second addition the total is only the first
      one's weight, and the sampler keeps weights without the second. */
  lemma OverflowBreaks(a: ID, b: ID)
    requires a != b
    ensures
      var first := Do(Empty(), AddOp(a, MAX_UINT64));
      && Valid(first) && Valid(Load(first)) && !Fits(Load(first), AddOp(b, 1))
      && var r := Do(Load(first), AddOp(b, 1));
      && !Valid(r) && r.total == MAX_UINT64 && r.sampled == [MAX_UINT64, 1] && r.initialized && r.loaded == [MAX_UINT64]
  {
    hide Valid, Sum, Raise;
    var v := Validator(a, MAX_UINT64);
    var first := Do(Empty(), AddOp(a, MAX_UINT64));
    DoExactly(Empty(), AddOp(a, MAX_UINT64));
    AddNewShape(Empty(), a, MAX_UINT64);
    LoadKeeps(first);
    DoExactly(Load(first), AddOp(b, 1));
    var t := WithEntry(Load(first), b);
    assert t.vdrs == [v, Validator(b, 0)] && t.weights == [MAX_UINT64, 0] && t.sampled == [MAX_UINT64, 0];
    OneMore(t);
  }

  lemma OneMore(t: State)
    requires |t.vdrs| == |t.weights| == 2 && t.sampled == [MAX_UINT64, 0] && t.vdrs[1].id !in t.masked && t.total == MAX_UINT64
    ensures
      var r := Raise(t, 1, 1);
      r.total == t.total && r.initialized == t.initialized && r.loaded == t.loaded && r.sampled == [MAX_UINT64, 1]
  {
  }

  // ---------------------------------------------------------------- what an overflow leaves behind

  /** An addition that overflows is entered in the slices, wrapped around or cut off at the maximum; the total, and what
      the sampler has, are as before. */
  lemma AddLeaves(s: State, id: ID, w: nat)
    requires Valid(s) && 0 < w <= MAX_UINT64 && !AddFits(s, id, w)
    ensures
      var r, x := AddWeight(s, id, w), WeightOf(s, id);
      && r.total == s.total && r.initialized == s.initialized && r.loaded == s.loaded && r.masked == s.masked
      && r.index == (if id in s.index then s.index else s.index[id := |s.vdrs|])
      && var i := r.index[id];
      && i < |r.vdrs| == |r.weights| == |r.sampled|
      && r.vdrs[i] == Validator(id, if x + w > MAX_UINT64 then MAX_UINT64 else x + w)
      && r.weights[i] == (if x + w > MAX_UINT64 then x + w - (MAX_UINT64 + 1) else x + w)
      && r.sampled[i] == (if id in s.masked then 0 else r.weights[i])
      && forall j :: 0 <= j < |s.vdrs| && j != i ==>
                       r.vdrs[j] == s.vdrs[j] && r.weights[j] == s.weights[j] && r.sampled[j] == s.sampled[j]
  {
    hide Sum, Indexed, Loaded, Wrap64;
    EntryShape(s, id);
    ValidIndexed(s);
    var t := WithEntry(s, id);
    EntrySampled(s, id);
    WrapValue(t.weights[t.index[id]], w);
  }

  lemma EntrySampled(s: State, id: ID)
    requires Valid(s)
    ensures
      var t := WithEntry(s, id);
      id in t.index && t.index[id] < |t.sampled| && t.sampled[t.index[id]] == if id in s.masked then 0 else WeightOf(s, id)
  {
    hide Sum;
  }

  lemma WrapValue(x: nat, w: nat)
    requires x <= MAX_UINT64 && w <= MAX_UINT64
    ensures Wrap64(x + w) == if x + w > MAX_UINT64 then x + w - (MAX_UINT64 + 1) else x + w
  {
  }

  /** A revelation that overflows puts the weight back and leaves the total, and what the sampler has, as before. */
  lemma UnmaskLeaves(s: State, id: ID)
    requires Valid(s) && !UnmaskFits(s, id)
    ensures
      var r := Unmask(s, id);
      && r.total == s.total && r.initialized == s.initialized && r.loaded == s.loaded && r.masked == s.masked - {id}
      && id in s.index && s.index[id] < |s.sampled|
      && r.sampled == s.sampled[s.index[id] := WeightOf(s, id)]
  {
    hide Sum;
  }

  /** A replacement that overflows leaves what the list keeps up to and including the first validator with which the
      total does not fit, and the total without it. */
  lemma {:induction false} RebuiltLeaves(s: State, list: seq<Validator>) returns (k: nat)
    requires SmallList(list) && !Rebuilt(s, list).ok
    ensures
      var r := Rebuilt(s, list).s;
      && k < |Kept(list)| && r.vdrs == Kept(list)[..k + 1]
      && r.total == VisibleSum(Kept(list)[..k], s.masked) <= MAX_UINT64 < VisibleSum(Kept(list)[..k + 1], s.masked)
  {
    hide Sum, Valid, Kept, VisibleSum, Enter;
    var before, v := list[..|list| - 1], list[|list| - 1];
    assert list == before + [v];
    KeptSnoc(before, v);
    RebuiltExactly(s, before);
    var b := Rebuilt(s, before);
    if b.ok {
      k := |Kept(before)|;
      TotalIsVisible(b.s);
      EnterStops(b, v);
      ValidIndexed(b.s);
      HasIDIndexed(b.s.vdrs, b.s.index, v.id);
      VisibleSumSnoc(Kept(before), v, s.masked);
      assert (Kept(before) + [v])[..k] == Kept(before) && (Kept(before) + [v])[..k + 1] == Kept(before) + [v];
    } else {
      k := RebuiltLeaves(s, before);
      EnterStopped(b, v);
      assert Kept(list)[..k] == Kept(before)[..k] && Kept(list)[..k + 1] == Kept(before)[..k + 1];
    }
  }

  lemma EnterStops(b: Building, v: Validator)
    requires b.ok && !Enter(b, v).ok
    ensures v.id !in b.s.index && v.weight > 0 && v.id !in b.s.masked && b.s.total + v.weight > MAX_UINT64
    ensures Enter(b, v).s.vdrs == b.s.vdrs + [v] && Enter(b, v).s.total == b.s.total
  {
  }

  lemma EnterStopped(b: Building, v: Validator)
    requires !b.ok
    ensures Enter(b, v) == b
  {
  }
}
