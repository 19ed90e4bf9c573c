/** Splitting keeps the order: unit by unit, the groups one after the other are the allocations one after the other. */
module GenesisOrder {
  import opened Prelude
  import opened Genesis

  /** As many units of one key. */
  function Same(k: Key, amount: nat): seq<Key> {
    seq(amount, _ => k)
  }

  /** Whose each unit is, and until when it is locked, in order. */
  function Units(a: Allocation, us: seq<LockedAmount>): seq<Key> {
    if us == [] then []
    else Units(a, us[..|us| - 1]) + Same(Key(a.eth, a.avax, us[|us| - 1].locktime), us[|us| - 1].amount)
  }

  function AllUnits(allocs: seq<Allocation>): seq<Key> {
    if allocs == [] then []
    else AllUnits(allocs[..|allocs| - 1]) + Units(allocs[|allocs| - 1], allocs[|allocs| - 1].unlocks)
  }

  function GroupUnits(groups: seq<seq<Allocation>>): seq<Key> {
    if groups == [] then [] else GroupUnits(groups[..|groups| - 1]) + AllUnits(groups[|groups| - 1])
  }

  /** What has been laid out so far, the allocation `a` being under way. */
  function Laid(s: Split, a: Allocation): seq<Key> {
    GroupUnits(s.groups) + AllUnits(s.node) + Units(a, s.part)
  }

  lemma UnitsSnoc(a: Allocation, us: seq<LockedAmount>, u: LockedAmount)
    ensures Units(a, us + [u]) == Units(a, us) + Same(Key(a.eth, a.avax, u.locktime), u.amount)
  {
    assert (us + [u])[..|us|] == us;
  }

  lemma AllUnitsSnoc(allocs: seq<Allocation>, a: Allocation)
    ensures AllUnits(allocs + [a]) == AllUnits(allocs) + Units(a, a.unlocks)
  {
    assert (allocs + [a])[..|allocs|] == allocs;
  }

  lemma GroupUnitsSnoc(groups: seq<seq<Allocation>>, g: seq<Allocation>)
    ensures GroupUnits(groups + [g]) == GroupUnits(groups) + AllUnits(g)
  {
    assert (groups + [g])[..|groups|] == groups;
  }

  lemma {:induction false} UnitsOwner(a: Allocation, b: Allocation, us: seq<LockedAmount>)
    requires a.eth == b.eth && a.avax == b.avax
    ensures Units(a, us) == Units(b, us)
  {
    if us != [] {
      UnitsOwner(a, b, us[..|us| - 1]);
    }
  }

  lemma CloseLaid(s: Split, w: nat, a: Allocation, u: LockedAmount)
    requires s.amount <= w
    ensures Laid(Close(s, w, a, u), a) == Laid(s, a) + Same(Key(a.eth, a.avax, u.locktime), w - s.amount)
  {
    hide Units, AllUnits, GroupUnits, Same;
    var v := LockedAmount(w - s.amount, u.locktime);
    var b := Fill(a, s.part + [v]);
    UnitsSnoc(a, s.part, v);
    UnitsOwner(a, b, s.part + [v]);
    AllUnitsSnoc(s.node, b);
    GroupUnitsSnoc(s.groups, s.node + [b]);
    NothingLaid(a);
  }

  lemma NothingLaid(a: Allocation)
    ensures Units(a, []) == [] && AllUnits([]) == [] && GroupUnits([]) == []
  {
  }

  lemma SamePlus(k: Key, x: nat, y: nat)
    ensures Same(k, x) + Same(k, y) == Same(k, x + y)
  {
  }

  lemma {:induction false} PourLaid(s: Split, w: nat, n: nat, a: Allocation, u: LockedAmount)
    requires Room(s, w, n)
    ensures Laid(Pour(s, w, n, a, u), a) == Laid(s, a) + Same(Key(a.eth, a.avax, u.locktime), u.amount)
    decreases n - |s.groups|
  {
    hide Units, AllUnits, GroupUnits, Same, Laid;
    var k := Key(a.eth, a.avax, u.locktime);
    if s.amount + u.amount > w && |s.groups| < n - 1 {
      var x := w - s.amount;
      CloseLaid(s, w, a, u);
      PourLaid(Close(s, w, a, u), w, n, a, u.(amount := u.amount - x));
      SamePlus(k, x, u.amount - x);
      assert Laid(s, a) + (Same(k, x) + Same(k, u.amount - x)) == Laid(s, a) + Same(k, x) + Same(k, u.amount - x);
    } else {
      PartLaid(s, a, u);
    }
  }

  lemma PartLaid(s: Split, a: Allocation, u: LockedAmount)
    ensures Laid(s.(part := s.part + [u], amount := s.amount + u.amount), a) ==
            Laid(s, a) + Same(Key(a.eth, a.avax, u.locktime), u.amount)
    ensures u.amount == 0 ==> Laid(s, a) == Laid(s, a) + Same(Key(a.eth, a.avax, u.locktime), u.amount)
  {
    UnitsSnoc(a, s.part, u);
  }

  lemma {:induction false} PourAllLaid(s: Split, w: nat, n: nat, a: Allocation, us: seq<LockedAmount>)
    requires Room(s, w, n)
    ensures Laid(PourAll(s, w, n, a, us), a) == Laid(s, a) + Units(a, us)
  {
    hide Laid, Same, Pour;
    if us != [] {
      PourAllLaid(s, w, n, a, us[..|us| - 1]);
      PourLaid(PourAll(s, w, n, a, us[..|us| - 1]), w, n, a, us[|us| - 1]);
    }
  }

  lemma {:induction false} SpreadLaid(w: nat, n: nat, allocs: seq<Allocation>)
    requires n >= 1
    ensures
      var s := Spread(w, n, allocs);
      s.part == [] && GroupUnits(s.groups) + AllUnits(s.node) == AllUnits(allocs)
  {
    hide GroupUnits, Units, PourAll, Same;
    if allocs == [] {
      NothingLaid(Allocation([], [], 0, []));
    } else {
      var rest, a := allocs[..|allocs| - 1], allocs[|allocs| - 1];
      SpreadLaid(w, n, rest);
      var s := Spread(w, n, rest);
      NothingLaid(a);
      PourAllLaid(s, w, n, a, a.unlocks);
      var t := PourAll(s, w, n, a, a.unlocks);
      UnitsOwner(a, Fill(a, t.part), t.part);
      AllUnitsSnoc(t.node, Fill(a, t.part));
      var g, l, p := GroupUnits(t.groups), AllUnits(t.node), Units(a, t.part);
      assert g + (l + p) == g + l + p && g + l + [] == g + l;
      assert Laid(s, a) == AllUnits(rest) + [] == AllUnits(rest);
    }
  }

  // ---------------------------------------------------------------- only locked amounts are handed out

  ghost predicate OnlyLocked(group: seq<Allocation>) {
    forall i :: 0 <= i < |group| ==> group[i].initial == 0 && group[i].unlocks != []
  }

  ghost predicate OnlyLockedSoFar(s: Split) {
    OnlyLocked(s.node) && forall i :: 0 <= i < |s.groups| ==> OnlyLocked(s.groups[i])
  }

  lemma {:induction false} PourOnlyLocked(s: Split, w: nat, n: nat, a: Allocation, u: LockedAmount)
    requires Room(s, w, n) && OnlyLockedSoFar(s)
    ensures OnlyLockedSoFar(Pour(s, w, n, a, u))
    decreases n - |s.groups|
  {
    if s.amount + u.amount > w && |s.groups| < n - 1 {
      PourOnlyLocked(Close(s, w, a, u), w, n, a, u.(amount := u.amount - (w - s.amount)));
    }
  }

  lemma {:induction false} PourAllOnlyLocked(s: Split, w: nat, n: nat, a: Allocation, us: seq<LockedAmount>)
    requires Room(s, w, n) && OnlyLockedSoFar(s)
    ensures OnlyLockedSoFar(PourAll(s, w, n, a, us))
  {
    if us != [] {
      PourAllOnlyLocked(s, w, n, a, us[..|us| - 1]);
      PourOnlyLocked(PourAll(s, w, n, a, us[..|us| - 1]), w, n, a, us[|us| - 1]);
    }
  }

  lemma {:induction false} SpreadOnlyLocked(w: nat, n: nat, allocs: seq<Allocation>)
    requires n >= 1
    ensures OnlyLockedSoFar(Spread(w, n, allocs))
  {
    if allocs != [] {
      var rest, a := allocs[..|allocs| - 1], allocs[|allocs| - 1];
      SpreadOnlyLocked(w, n, rest);
      PourAllOnlyLocked(Spread(w, n, rest), w, n, a, a.unlocks);
    }
  }

  /** Unit by unit the groups are the allocations, in the same order; they hold no initial amounts and nothing empty. */
  lemma SplitInOrder(n: nat, allocs: seq<Allocation>)
    requires n >= 1
    ensures
      var groups := Groups(Spread(Sum(None, allocs) / n, n, allocs));
      GroupUnits(groups) == AllUnits(allocs) && forall i :: 0 <= i < |groups| ==> OnlyLocked(groups[i])
  {
    hide GroupUnits, AllUnits, Spread, OnlyLocked;
    var w := Sum(None, allocs) / n;
    var s := Spread(w, n, allocs);
    SpreadLaid(w, n, allocs);
    SpreadOnlyLocked(w, n, allocs);
    GroupUnitsSnoc(s.groups, s.node);
  }
}
