/** The validator set's methods, updating its slices in place. */
module Validators {
  import opened Prelude
  import opened ValidatorSet

  class Set {
    var vdrs: seq<Validator>
    var weights: seq<nat>
    var sampled: seq<nat>
    var index: map<ID, nat>
    var total: nat
    var masked: set<ID>
    var initialized: bool
    var loaded: seq<nat>

    constructor ()
      ensures Now() == Empty()
    {
      vdrs, weights, sampled, index := [], [], [], map[];
      total, masked, initialized, loaded := 0, {}, false, [];
    }

    function Now(): State
      reads this
    {
      State(vdrs, weights, sampled, index, total, masked, initialized, loaded)
    }

    /** An overflow is not reported: the total then stays as it was, and so does what the sampler has. */
    method AddWeight(id: ID, w: nat)
      requires Valid(Now()) && w <= MAX_UINT64
      modifies this
      ensures Now() == Do(old(Now()), AddOp(id, w))
      ensures Valid(Now()) <==> Fits(old(Now()), AddOp(id, w))
    {
      hide Valid, Indexed, Sum, Raise;
      DoExactly(Now(), AddOp(id, w));
      InRange(Now());
      ValidIndexed(Now());
      if w == 0 {
        return;
      }
      var i := Enter(id);
      RaiseAt(i, w);
    }

    method Enter(id: ID) returns (i: nat)
      requires |vdrs| == |weights| == |sampled|
      modifies this
      ensures Now() == WithEntry(old(Now()), id) && i == index[id]
    {
      if id in index {
        return index[id];
      }
      i := |vdrs|;
      vdrs, weights, sampled := vdrs + [Validator(id, 0)], weights + [0], sampled + [0];
      index := index[id := i];
    }

    method RaiseAt(i: nat, w: nat)
      requires i < |vdrs| == |weights| == |sampled|
      modifies this
      ensures Now() == Raise(old(Now()), i, w)
    {
      weights := weights[i := Wrap64(weights[i] + w)];
      vdrs := vdrs[i := Validator(vdrs[i].id, Min(vdrs[i].weight + w, MAX_UINT64))];
      if vdrs[i].id in masked {
        return;
      }
      sampled := sampled[i := Wrap64(sampled[i] + w)];
      if total + w > MAX_UINT64 {
        return;
      }
      total, initialized := total + w, false;
    }

    method RemoveWeight(id: ID, weight: nat)
      requires Valid(Now())
      modifies this
      ensures Valid(Now()) && Now() == Do(old(Now()), RemoveOp(id, weight))
    {
      hide Valid, Indexed, Sum, Lower, SwapRemove;
      DoKeeps(Now(), RemoveOp(id, weight));
      ValidIndexed(Now());
      InRange(Now());
      if weight == 0 || id !in index {
        return;
      }
      var i := index[id];
      WithinTotal(Now(), i);
      LowerKeepsIndex(Now(), i, Min(weights[i], weight));
      LowerAt(i, Min(weights[i], weight));
      if vdrs[i].weight == 0 {
        SwapOut(id);
      }
    }

    method LowerAt(i: nat, w: nat)
      requires i < |vdrs| == |weights| == |sampled| && w <= weights[i] == vdrs[i].weight
      requires vdrs[i].id !in masked ==> w <= sampled[i] && w <= total
      modifies this
      ensures Now() == Lower(old(Now()), i, w)
    {
      weights := weights[i := weights[i] - w];
      vdrs := vdrs[i := Validator(vdrs[i].id, vdrs[i].weight - w)];
      if vdrs[i].id !in masked {
        total := total - w;
        sampled := sampled[i := sampled[i] - w];
      }
      initialized := false;
    }

    /** The last entry takes the removed one's place. Its weight is already out of the total. */
    method SwapOut(id: ID)
      requires id in index && index[id] < |vdrs| == |weights| == |sampled|
      modifies this
      ensures
        var i := old(index[id]);
        Now() == old(Now()).(vdrs := SwapRemove(old(vdrs), i), weights := SwapRemove(old(weights), i),
                             sampled := SwapRemove(old(sampled), i),
                             index := old(index)[old(vdrs)[|old(vdrs)| - 1].id := i] - {id}, initialized := false)
    {
      var i, e := index[id], |vdrs| - 1;
      index := index[vdrs[e].id := i];
      vdrs := vdrs[i := vdrs[e]];
      weights := weights[i := weights[e]];
      sampled := sampled[i := sampled[e]];
      index := index - {id};
      vdrs, weights, sampled := vdrs[..e], weights[..e], sampled[..e];
      initialized := false;
    }

    method MaskValidator(id: ID)
      requires Valid(Now())
      modifies this
      ensures Valid(Now()) && Now() == Do(old(Now()), MaskOp(id))
    {
      hide Valid, Indexed, Sum;
      DoKeeps(Now(), MaskOp(id));
      InRange(Now());
      if id in masked {
        return;
      }
      masked := masked + {id};
      if id !in index {
        return;
      }
      var i := index[id];
      WithinTotal(old(Now()), i);
      sampled := sampled[i := 0];
      total := total - weights[i];
      initialized := false;
    }

    /** `ok` is false when the total would overflow; the validator is then revealed and the total stale. */
    method RevealValidator(id: ID) returns (ok: bool)
      requires Valid(Now())
      modifies this
      ensures Now() == Do(old(Now()), UnmaskOp(id))
      ensures (ok <==> Fits(old(Now()), UnmaskOp(id))) && (Valid(Now()) <==> ok)
    {
      hide Valid, Indexed, Sum, UnmaskFits;
      DoExactly(Now(), UnmaskOp(id));
      UnmaskedFits(Now(), id);
      InRange(Now());
      if id !in masked {
        return true;
      }
      masked := masked - {id};
      if id !in index {
        return true;
      }
      var i := index[id];
      sampled := sampled[i := weights[i]];
      if total + weights[i] > MAX_UINT64 {
        return false;
      }
      total := total + weights[i];
      initialized := false;
      ok := true;
    }

    /** The list replaces the validators; what is masked stays masked. `ok` is false when the total would overflow. */
    method Replace(list: seq<Validator>) returns (ok: bool)
      requires SmallList(list)
      modifies this
      ensures Rebuilt(old(Now()), list) == Building(Now(), ok)
      ensures ok <==> VisibleSum(Kept(list), old(masked)) <= MAX_UINT64
      ensures Valid(Now()) <==> ok
      ensures masked == old(masked) && !initialized && (ok ==> vdrs == Kept(list))
    {
      ghost var s := Now();
      RebuiltExactly(s, list);
      hide Valid, Sum, Kept, VisibleSum, ValidatorSet.Enter;
      vdrs, weights, sampled, index, total, initialized := [], [], [], map[], 0, false;
      ok := true;
      assert list[..0] == [];
      for i := 0 to |list|
        invariant ok && Rebuilt(s, list[..i]) == Building(Now(), ok)
      {
        assert list[..i + 1][..i] == list[..i];
        ok := Append(list[i]);
        if !ok {
          RebuiltStops(s, list, i + 1);
          return;
        }
      }
      assert list[..|list|] == list;
    }

    /** One turn of that loop. */
    method Append(v: Validator) returns (ok: bool)
      modifies this
      ensures ValidatorSet.Enter(Building(old(Now()), true), v) == Building(Now(), ok)
    {
      if v.id in index || v.weight == 0 {
        return true;
      }
      vdrs, weights, index := vdrs + [v], weights + [v.weight], index[v.id := |vdrs|];
      if v.id in masked {
        sampled := sampled + [0];
        return true;
      }
      sampled := sampled + [v.weight];
      if total + v.weight > MAX_UINT64 {
        return false;
      }
      total := total + v.weight;
      ok := true;
    }

    /** Whatever positively weighted entries the sampler draws from the weights it has loaded, they are current
        validators that are not masked. `ready` says that the sampler takes the weights, when it is given them; `drawn`
        is its draw, `None` being its error. Weights that it did not take are never drawn from: it is given them again. */
    method Sample(size: nat, ready: bool, drawn: Option<seq<nat>>) returns (sample: Answer)
      requires Valid(Now()) && (drawn.Some? ==> |drawn.value| == size)
      requires drawn.Some? ==> forall i :: 0 <= i < size ==> Drawable(Load(Now()).loaded, drawn.value[i])
      modifies this`initialized, this`loaded
      ensures Valid(Now())
      ensures sample.NotReady? <==> size > 0 && !old(initialized) && !ready
      ensures sample.NotDrawn? <==> size > 0 && (old(initialized) || ready) && drawn.None?
      ensures Now() == if size == 0 || sample.NotReady? then old(Now()) else Do(old(Now()), LoadOp)
      ensures sample.Sampled? ==> |sample.ids| == size
      ensures sample.Sampled? ==>
                forall i :: 0 <= i < size ==>
                              drawn.value[i] < |vdrs| && sample.ids[i] == vdrs[drawn.value[i]].id &&
                              sample.ids[i] in Weights(vdrs, index) && sample.ids[i] !in masked
    {
      if size == 0 {
        return Sampled([]);
      }
      LoadKeeps(Now());
      if !initialized {
        if !ready {
          return NotReady;
        }
        loaded := sampled;
        initialized := true;
      }
      if drawn.None? {
        return NotDrawn;
      }
      var picked := Picked(Now(), drawn.value);
      sample := Sampled(picked);
    }
  }

  /** A sample, or the error of the sampler's `Initialize` or of its `Sample`. */
  datatype Answer = NotReady | NotDrawn | Sampled(ids: seq<ID>)

  lemma UnmaskedFits(s: State, id: ID)
    requires Valid(s)
    ensures UnmaskFits(s, id) <==> !(id in s.masked && id in s.index && s.total + s.weights[s.index[id]] > MAX_UINT64)
  {
    hide Sum;
  }

  /** After an overflow the rest of the list is not looked at. */
  lemma {:induction false} RebuiltStops(s: State, list: seq<Validator>, i: nat)
    requires i <= |list| && !Rebuilt(s, list[..i]).ok
    ensures Rebuilt(s, list) == Rebuilt(s, list[..i])
    decreases |list|
  {
    if i == |list| {
      assert list[..i] == list;
    } else {
      var before := list[..|list| - 1];
      assert before[..i] == list[..i];
      RebuiltStops(s, before, i);
    }
  }

  lemma LowerKeepsIndex(s: State, i: nat, w: nat)
    requires i < |s.vdrs| == |s.weights| == |s.sampled| && w <= s.weights[i] == s.vdrs[i].weight
    requires s.vdrs[i].id !in s.masked ==> w <= s.sampled[i] && w <= s.total
    ensures
      var t := Lower(s, i, w);
      t.index == s.index && |t.vdrs| == |t.weights| == |t.sampled| == |s.vdrs|
  {
  }

  predicate Drawable(loaded: seq<nat>, i: nat) {
    i < |loaded| && loaded[i] > 0
  }

  method Picked(s: State, draws: seq<nat>) returns (sample: seq<ID>)
    requires Valid(s) && s.initialized && forall i :: 0 <= i < |draws| ==> Drawable(s.loaded, draws[i])
    ensures |sample| == |draws|
    ensures forall i :: 0 <= i < |sample| ==>
                          draws[i] < |s.vdrs| && sample[i] == s.vdrs[draws[i]].id &&
                          sample[i] in Weights(s.vdrs, s.index) && sample[i] !in s.masked
  {
    hide Sum;
    sample := [];
    for i := 0 to |draws|
      invariant |sample| == i
      invariant forall j :: 0 <= j < i ==>
                              draws[j] < |s.vdrs| && sample[j] == s.vdrs[draws[j]].id &&
                              sample[j] in Weights(s.vdrs, s.index) && sample[j] !in s.masked
    {
      var d := draws[i];
      assert s.loaded[d] == s.sampled[d];
      sample := sample + [s.vdrs[d].id];
    }
  }
}
