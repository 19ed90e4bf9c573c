/** Splitting the initially staked allocations evenly among the first stakers, and where every unit of the supply goes. */
module Genesis {
  import opened Prelude

  datatype LockedAmount = LockedAmount(amount: nat, locktime: nat)

  datatype Allocation = Allocation(eth: Bytes, avax: Bytes, initial: nat, unlocks: seq<LockedAmount>)

  /** Whose money, and until when it is locked. */
  datatype Key = Key(eth: Bytes, avax: Bytes, locktime: nat)

  // ---------------------------------------------------------------- sums, over one key or over everything

  function Counted(k: Option<Key>, a: Allocation, u: LockedAmount): nat {
    if k.None? || k.value == Key(a.eth, a.avax, u.locktime) then u.amount else 0
  }

  function UnlockSum(k: Option<Key>, a: Allocation, us: seq<LockedAmount>): nat {
    if us == [] then 0 else UnlockSum(k, a, us[..|us| - 1]) + Counted(k, a, us[|us| - 1])
  }

  function Sum(k: Option<Key>, allocs: seq<Allocation>): nat {
    if allocs == [] then 0
    else Sum(k, allocs[..|allocs| - 1]) + UnlockSum(k, allocs[|allocs| - 1], allocs[|allocs| - 1].unlocks)
  }

  function GroupsSum(k: Option<Key>, groups: seq<seq<Allocation>>): nat {
    if groups == [] then 0 else GroupsSum(k, groups[..|groups| - 1]) + Sum(k, groups[|groups| - 1])
  }

  lemma UnlockSumSnoc(k: Option<Key>, a: Allocation, us: seq<LockedAmount>, u: LockedAmount)
    ensures UnlockSum(k, a, us + [u]) == UnlockSum(k, a, us) + Counted(k, a, u)
  {
    assert (us + [u])[..|us|] == us;
  }

  lemma SumSnoc(k: Option<Key>, allocs: seq<Allocation>, a: Allocation)
    ensures Sum(k, allocs + [a]) == Sum(k, allocs) + UnlockSum(k, a, a.unlocks)
  {
    assert (allocs + [a])[..|allocs|] == allocs;
  }

  lemma GroupsSumSnoc(k: Option<Key>, groups: seq<seq<Allocation>>, g: seq<Allocation>)
    ensures GroupsSum(k, groups + [g]) == GroupsSum(k, groups) + Sum(k, g)
  {
    assert (groups + [g])[..|groups|] == groups;
  }

  /** Sums depend on whose the unlocks are, not on the rest of the allocation. */
  lemma {:induction false} UnlockSumOwner(k: Option<Key>, a: Allocation, b: Allocation, us: seq<LockedAmount>)
    requires a.eth == b.eth && a.avax == b.avax
    ensures UnlockSum(k, a, us) == UnlockSum(k, b, us)
  {
    if us != [] {
      UnlockSumOwner(k, a, b, us[..|us| - 1]);
    }
  }

  // ---------------------------------------------------------------- the split, step by step

  /** Finished groups, the group being filled, the unlocks of the current allocation, and the group's amount so far. */
  datatype Split = Split(groups: seq<seq<Allocation>>, node: seq<Allocation>, part: seq<LockedAmount>, amount: nat)

  function Fill(a: Allocation, us: seq<LockedAmount>): Allocation {
    a.(initial := 0, unlocks := us)
  }

  predicate Room(s: Split, w: nat, n: nat) {
    |s.groups| < n && (|s.groups| < n - 1 ==> s.amount <= w)
  }

  /** The part of an unlock that completes the current group. */
  function Close(s: Split, w: nat, a: Allocation, u: LockedAmount): Split
    requires s.amount <= w
  {
    Split(s.groups + [s.node + [Fill(a, s.part + [LockedAmount(w - s.amount, u.locktime)])]], [], [], 0)
  }

  function Pour(s: Split, w: nat, n: nat, a: Allocation, u: LockedAmount): (r: Split)
    requires Room(s, w, n)
    ensures Room(r, w, n)
    decreases n - |s.groups|
  {
    if s.amount + u.amount > w && |s.groups| < n - 1 then
      Pour(Close(s, w, a, u), w, n, a, u.(amount := u.amount - (w - s.amount)))
    else if u.amount == 0 then s
    else s.(part := s.part + [u], amount := s.amount + u.amount)
  }

  function PourAll(s: Split, w: nat, n: nat, a: Allocation, us: seq<LockedAmount>): (r: Split)
    requires Room(s, w, n)
    ensures Room(r, w, n)
  {
    if us == [] then s else Pour(PourAll(s, w, n, a, us[..|us| - 1]), w, n, a, us[|us| - 1])
  }

  function Finish(s: Split, a: Allocation): Split {
    s.(node := if s.part == [] then s.node else s.node + [Fill(a, s.part)], part := [])
  }

  function Spread(w: nat, n: nat, allocs: seq<Allocation>): (r: Split)
    requires n >= 1
    ensures Room(r, w, n)
  {
    if allocs == [] then Split([], [], [], 0)
    else
      var a := allocs[|allocs| - 1];
      Finish(PourAll(Spread(w, n, allocs[..|allocs| - 1]), w, n, a, a.unlocks), a)
  }

  function Groups(s: Split): seq<seq<Allocation>> {
    s.groups + [s.node]
  }

  // ---------------------------------------------------------------- conservation

  function Held(k: Option<Key>, s: Split, a: Allocation): nat {
    GroupsSum(k, s.groups) + Sum(k, s.node) + UnlockSum(k, a, s.part)
  }

  lemma CloseHeld(k: Option<Key>, s: Split, w: nat, a: Allocation, u: LockedAmount)
    requires s.amount <= w
    ensures Held(k, Close(s, w, a, u), a) == Held(k, s, a) + Counted(k, a, u.(amount := w - s.amount))
  {
    var v := LockedAmount(w - s.amount, u.locktime);
    var b := Fill(a, s.part + [v]);
    UnlockSumSnoc(k, a, s.part, v);
    UnlockSumOwner(k, a, b, s.part + [v]);
    SumSnoc(k, s.node, b);
    GroupsSumSnoc(k, s.groups, s.node + [b]);
  }

  lemma {:induction false} PourHeld(k: Option<Key>, s: Split, w: nat, n: nat, a: Allocation, u: LockedAmount)
    requires Room(s, w, n)
    ensures Held(k, Pour(s, w, n, a, u), a) == Held(k, s, a) + Counted(k, a, u)
    decreases n - |s.groups|
  {
    if s.amount + u.amount > w && |s.groups| < n - 1 {
      CloseHeld(k, s, w, a, u);
      PourHeld(k, Close(s, w, a, u), w, n, a, u.(amount := u.amount - (w - s.amount)));
    } else {
      UnlockSumSnoc(k, a, s.part, u);
    }
  }

  lemma {:induction false} PourAllHeld(k: Option<Key>, s: Split, w: nat, n: nat, a: Allocation, us: seq<LockedAmount>)
    requires Room(s, w, n)
    ensures Held(k, PourAll(s, w, n, a, us), a) == Held(k, s, a) + UnlockSum(k, a, us)
  {
    if us != [] {
      PourAllHeld(k, s, w, n, a, us[..|us| - 1]);
      PourHeld(k, PourAll(s, w, n, a, us[..|us| - 1]), w, n, a, us[|us| - 1]);
    }
  }

  /** Nothing is lost or moved to another owner or lock time. */
  lemma {:induction false} SpreadConserves(k: Option<Key>, w: nat, n: nat, allocs: seq<Allocation>)
    requires n >= 1
    ensures
      var s := Spread(w, n, allocs);
      s.part == [] && GroupsSum(k, s.groups) + Sum(k, s.node) == Sum(k, allocs)
  {
    if allocs != [] {
      var rest, a := allocs[..|allocs| - 1], allocs[|allocs| - 1];
      SpreadConserves(k, w, n, rest);
      var s := Spread(w, n, rest);
      PourAllHeld(k, s, w, n, a, a.unlocks);
      var t := PourAll(s, w, n, a, a.unlocks);
      UnlockSumOwner(k, a, Fill(a, t.part), t.part);
      SumSnoc(k, t.node, Fill(a, t.part));
    }
  }

  // ---------------------------------------------------------------- equal shares

  /** Finished groups hold exactly the node weight, and the running amount is the current group's. */
  ghost predicate Even(s: Split, w: nat, a: Allocation) {
    && (forall i :: 0 <= i < |s.groups| ==> Sum(None, s.groups[i]) == w)
    && s.amount == Sum(None, s.node) + UnlockSum(None, a, s.part)
  }

  lemma CloseEven(s: Split, w: nat, a: Allocation, u: LockedAmount)
    requires Even(s, w, a) && s.amount <= w
    ensures Even(Close(s, w, a, u), w, a)
  {
    var v := LockedAmount(w - s.amount, u.locktime);
    var b := Fill(a, s.part + [v]);
    UnlockSumSnoc(None, a, s.part, v);
    UnlockSumOwner(None, a, b, s.part + [v]);
    SumSnoc(None, s.node, b);
  }

  lemma {:induction false} PourEven(s: Split, w: nat, n: nat, a: Allocation, u: LockedAmount)
    requires Room(s, w, n) && Even(s, w, a)
    ensures Even(Pour(s, w, n, a, u), w, a)
    decreases n - |s.groups|
  {
    if s.amount + u.amount > w && |s.groups| < n - 1 {
      CloseEven(s, w, a, u);
      PourEven(Close(s, w, a, u), w, n, a, u.(amount := u.amount - (w - s.amount)));
    } else {
      UnlockSumSnoc(None, a, s.part, u);
    }
  }

  lemma {:induction false} PourAllEven(s: Split, w: nat, n: nat, a: Allocation, us: seq<LockedAmount>)
    requires Room(s, w, n) && Even(s, w, a)
    ensures Even(PourAll(s, w, n, a, us), w, a)
  {
    if us != [] {
      PourAllEven(s, w, n, a, us[..|us| - 1]);
      PourEven(PourAll(s, w, n, a, us[..|us| - 1]), w, n, a, us[|us| - 1]);
    }
  }

  lemma {:induction false} SpreadEven(w: nat, n: nat, allocs: seq<Allocation>)
    requires n >= 1
    ensures
      var s := Spread(w, n, allocs);
      (forall i :: 0 <= i < |s.groups| ==> Sum(None, s.groups[i]) == w) && s.amount == Sum(None, s.node)
  {
    if allocs != [] {
      var rest, a := allocs[..|allocs| - 1], allocs[|allocs| - 1];
      SpreadEven(w, n, rest);
      SpreadConserves(None, w, n, rest);
      var s := Spread(w, n, rest);
      PourAllEven(s, w, n, a, a.unlocks);
      var t := PourAll(s, w, n, a, a.unlocks);
      UnlockSumOwner(None, a, Fill(a, t.part), t.part);
      SumSnoc(None, t.node, Fill(a, t.part));
    }
  }

  lemma {:induction false} EvenTotal(groups: seq<seq<Allocation>>, w: nat)
    requires forall i :: 0 <= i < |groups| ==> Sum(None, groups[i]) == w
    ensures GroupsSum(None, groups) == |groups| * w
  {
    if groups != [] {
      EvenTotal(groups[..|groups| - 1], w);
      assert |groups| * w == (|groups| - 1) * w + w;
    }
  }

  /** All groups but the last are complete exactly when there is something to split, or just one group. */
  lemma SpreadCount(n: nat, allocs: seq<Allocation>)
    requires n >= 1
    ensures
      var total := Sum(None, allocs);
      |Spread(total / n, n, allocs).groups| == n - 1 <==> total > 0 || n == 1
  {
    var total := Sum(None, allocs);
    var w := total / n;
    hide Spread, Sum, GroupsSum;
    var s := Spread(w, n, allocs);
    SpreadEven(w, n, allocs);
    SpreadConserves(None, w, n, allocs);
    EvenTotal(s.groups, w);
    if |s.groups| < n - 1 {
      Incomplete(|s.groups|, n, w, s.amount, total);
    }
    if total == 0 {
      NothingToSplit(n, allocs);
    }
  }

  /** Fewer complete groups than that could only hold a zero total. */
  lemma Incomplete(g: nat, n: nat, w: nat, amount: nat, total: nat)
    requires g < n - 1 && w == total / n && amount <= w && g * w + amount == total
    ensures total == 0
  {
    ShareBound(total, n, w);
    Fewer(g, n, w);
  }

  lemma ShareBound(total: nat, n: nat, w: nat)
    requires n >= 1 && w == total / n
    ensures n * w <= total && (w == 0 || (n - 1) * w < total)
  {
    assert n * (total / n) <= total;
    assert (n - 1) * w == n * w - w;
  }

  lemma Fewer(g: nat, n: nat, w: nat)
    requires g < n - 1
    ensures g * w + w <= (n - 1) * w
  {
    assert g * w + w == (g + 1) * w;
    assert (n - 1 - (g + 1)) * w >= 0;
    assert (n - 1) * w == (g + 1) * w + (n - 1 - (g + 1)) * w;
  }

  /** With a zero total no group is ever completed. */
  lemma {:induction false} NothingToSplit(n: nat, allocs: seq<Allocation>)
    requires n >= 1 && Sum(None, allocs) == 0
    ensures Spread(0, n, allocs) == Split([], [], [], 0)
  {
    if allocs != [] {
      var a := allocs[|allocs| - 1];
      NothingToSplit(n, allocs[..|allocs| - 1]);
      NothingToPour(n, a, a.unlocks);
    }
  }

  lemma {:induction false} NothingToPour(n: nat, a: Allocation, us: seq<LockedAmount>)
    requires n >= 1 && UnlockSum(None, a, us) == 0
    ensures PourAll(Split([], [], [], 0), 0, n, a, us) == Split([], [], [], 0)
  {
    if us != [] {
      NothingToPour(n, a, us[..|us| - 1]);
    }
  }

  // ---------------------------------------------------------------- the code

  /** What a split into `n` groups must be. */
  ghost predicate Splits(groups: seq<seq<Allocation>>, allocs: seq<Allocation>, n: nat)
    requires n >= 1
  {
    var total := Sum(None, allocs);
    && |groups| == n
    && (forall i :: 0 <= i < n - 1 ==> Sum(None, groups[i]) == total / n)
    && Sum(None, groups[n - 1]) == total - (n - 1) * (total / n)
    && forall k :: GroupsSum(k, groups) == Sum(k, allocs)
  }

  /** The groups are an even split exactly when there is something to split, or just one group. */
  lemma SpreadSplits(n: nat, allocs: seq<Allocation>)
    requires n >= 1
    ensures Splits(Groups(Spread(Sum(None, allocs) / n, n, allocs)), allocs, n) <==> Sum(None, allocs) > 0 || n == 1
  {
    var total := Sum(None, allocs);
    var w := total / n;
    var s := Spread(w, n, allocs);
    var groups := Groups(s);
    SpreadCount(n, allocs);
    SpreadEven(w, n, allocs);
    forall k
      ensures GroupsSum(k, groups) == Sum(k, allocs)
    {
      SpreadConserves(k, w, n, allocs);
      GroupsSumSnoc(k, s.groups, s.node);
    }
    EvenTotal(s.groups, w);
    GroupsSumSnoc(None, s.groups, s.node);
  }

  /** What is held and still to be poured stays within the total, so no 64-bit sum overflows. */
  ghost predicate Budget(s: Split, w: nat, a: Allocation, u: LockedAmount, total: nat) {
    Even(s, w, a) && Held(None, s, a) + u.amount <= total
  }

  lemma BudgetFits(s: Split, w: nat, n: nat, a: Allocation, u: LockedAmount, total: nat)
    requires Budget(s, w, a, u, total) && Room(s, w, n)
    ensures s.amount + u.amount <= total
    ensures s.amount + u.amount > w && |s.groups| < n - 1 ==>
              Budget(Close(s, w, a, u), w, a, u.(amount := u.amount - (w - s.amount)), total)
  {
    if s.amount + u.amount > w && |s.groups| < n - 1 {
      CloseEven(s, w, a, u);
      CloseHeld(None, s, w, a, u);
    }
  }

  lemma {:induction false} UnlockSumPrefix(a: Allocation, us: seq<LockedAmount>, j: nat)
    requires j <= |us|
    ensures UnlockSum(None, a, us[..j]) <= UnlockSum(None, a, us)
  {
    if j < |us| {
      UnlockSumPrefix(a, us[..|us| - 1], j);
      assert us[..|us| - 1][..j] == us[..j];
    } else {
      assert us[..j] == us;
    }
  }

  lemma {:induction false} SumPrefix(allocs: seq<Allocation>, i: nat)
    requires i <= |allocs|
    ensures Sum(None, allocs[..i]) <= Sum(None, allocs)
  {
    if i < |allocs| {
      SumPrefix(allocs[..|allocs| - 1], i);
      assert allocs[..|allocs| - 1][..i] == allocs[..i];
    } else {
      assert allocs[..i] == allocs;
    }
  }

  /** The budget at unlock `j` of allocation `i`. */
  lemma BudgetAt(allocs: seq<Allocation>, i: nat, j: nat, w: nat, n: nat)
    requires n >= 1 && i < |allocs| && j < |allocs[i].unlocks|
    ensures
      var a := allocs[i];
      Budget(PourAll(Spread(w, n, allocs[..i]), w, n, a, a.unlocks[..j]), w, a, a.unlocks[j], Sum(None, allocs))
  {
    hide Spread, PourAll;
    var a := allocs[i];
    var us := a.unlocks;
    var s := Spread(w, n, allocs[..i]);
    SpreadEven(w, n, allocs[..i]);
    SpreadConserves(None, w, n, allocs[..i]);
    PourAllEven(s, w, n, a, us[..j]);
    PourAllHeld(None, s, w, n, a, us[..j]);
    assert us[..j + 1] == us[..j] + [us[j]];
    UnlockSumSnoc(None, a, us[..j], us[j]);
    UnlockSumPrefix(a, us, j + 1);
    assert allocs[..i + 1] == allocs[..i] + [a];
    SumSnoc(None, allocs[..i], a);
    SumPrefix(allocs, i + 1);
  }

  method TotalAmount(allocs: seq<Allocation>) returns (total: nat)
    ensures total == Sum(None, allocs)
  {
    total := 0;
    for i := 0 to |allocs|
      invariant total == Sum(None, allocs[..i])
    {
      var a := allocs[i];
      for j := 0 to |a.unlocks|
        invariant total == Sum(None, allocs[..i]) + UnlockSum(None, a, a.unlocks[..j])
      {
        assert a.unlocks[..j + 1][..j] == a.unlocks[..j];
        total := total + a.unlocks[j].amount;
      }
      assert a.unlocks[..|a.unlocks|] == a.unlocks;
      assert allocs[..i + 1] == allocs[..i] + [a];
      SumSnoc(None, allocs[..i], a);
    }
    assert allocs[..|allocs|] == allocs;
  }

  /** One unlock: as much as completes the current group, again and again, then the rest. */
  method PourOne(s: Split, w: nat, n: nat, a: Allocation, unlock: LockedAmount, ghost total: nat) returns (r: Split)
    requires Room(s, w, n) && Budget(s, w, a, unlock, total) && total <= MAX_UINT64
    ensures r == Pour(s, w, n, a, unlock)
  {
    hide Pour, Budget;
    var groups, node, part, amount: nat := s.groups, s.node, s.part, s.amount;
    var u := unlock;
    ghost var now := s;
    while amount + u.amount > w && |groups| < n - 1
      invariant now == Split(groups, node, part, amount) && Room(now, w, n) && Budget(now, w, a, u, total)
      invariant Pour(now, w, n, a, u) == Pour(s, w, n, a, unlock)
      decreases n - |groups|
    {
      BudgetFits(now, w, n, a, u, total);
      PourCloses(now, w, n, a, u);
      assert amount + u.amount <= MAX_UINT64;
      now := Close(now, w, a, u);
      var amountToAdd := w - amount;
      part := part + [LockedAmount(amountToAdd, u.locktime)];
      u := u.(amount := u.amount - amountToAdd);
      node := node + [Fill(a, part)];
      groups := groups + [node];
      node, amount, part := [], 0, [];
    }
    PourEnds(now, w, n, a, u);
    if u.amount != 0 {
      part := part + [u];
      amount := amount + u.amount;
    }
    r := Split(groups, node, part, amount);
  }

  lemma PourCloses(s: Split, w: nat, n: nat, a: Allocation, u: LockedAmount)
    requires Room(s, w, n) && s.amount + u.amount > w && |s.groups| < n - 1
    ensures Pour(s, w, n, a, u) == Pour(Close(s, w, a, u), w, n, a, u.(amount := u.amount - (w - s.amount)))
  {
  }

  lemma PourEnds(s: Split, w: nat, n: nat, a: Allocation, u: LockedAmount)
    requires Room(s, w, n) && !(s.amount + u.amount > w && |s.groups| < n - 1)
    ensures Pour(s, w, n, a, u) == if u.amount == 0 then s else s.(part := s.part + [u], amount := s.amount + u.amount)
  {
  }

  method SplitAllocations(allocs: seq<Allocation>, n: nat) returns (groups: seq<seq<Allocation>>)
    requires n >= 1 && Sum(None, allocs) <= MAX_UINT64
    ensures groups == Groups(Spread(Sum(None, allocs) / n, n, allocs))
    ensures Splits(groups, allocs, n) <==> Sum(None, allocs) > 0 || n == 1
  {
    hide Sum, Pour, Splits;
    var total := TotalAmount(allocs);
    var w := total / n;
    var s := Split([], [], [], 0);
    for i := 0 to |allocs|
      invariant s == Spread(w, n, allocs[..i])
    {
      var a := allocs[i];
      var t := s;
      for j := 0 to |a.unlocks|
        invariant t == PourAll(s, w, n, a, a.unlocks[..j])
      {
        BudgetAt(allocs, i, j, w, n);
        assert a.unlocks[..j + 1][..j] == a.unlocks[..j];
        t := PourOne(t, w, n, a, a.unlocks[j], total);
      }
      assert a.unlocks[..|a.unlocks|] == a.unlocks;
      assert allocs[..i + 1][..i] == allocs[..i];
      s := Finish(t, a);
    }
    assert allocs[..|allocs|] == allocs;
    groups := s.groups + [s.node];
    SpreadSplits(n, allocs);
  }
}
