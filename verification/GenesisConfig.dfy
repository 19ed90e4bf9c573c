/** Where the genesis configuration's amounts go: X-chain holders, P-chain outputs and initial stakes. */
module GenesisConfig {
  import opened Prelude
  import opened Genesis
  import opened GenesisOrder

  datatype UTXO = UTXO(locktime: nat, amount: nat, avax: Bytes, eth: Bytes)

  function UtxoSum(k: Option<Key>, us: seq<UTXO>): nat {
    if us == [] then 0
    else
      var u := us[|us| - 1];
      UtxoSum(k, us[..|us| - 1]) + if k.None? || k.value == Key(u.eth, u.avax, u.locktime) then u.amount else 0
  }

  function StakedSum(k: Option<Key>, stakes: seq<seq<UTXO>>): nat {
    if stakes == [] then 0 else StakedSum(k, stakes[..|stakes| - 1]) + UtxoSum(k, stakes[|stakes| - 1])
  }

  function InitialSum(allocs: seq<Allocation>): nat {
    if allocs == [] then 0 else InitialSum(allocs[..|allocs| - 1]) + allocs[|allocs| - 1].initial
  }

  function Total(amounts: seq<nat>): nat {
    if amounts == [] then 0 else Total(amounts[..|amounts| - 1]) + amounts[|amounts| - 1]
  }

  /** The outputs of an unlock schedule. */
  function Outputs(a: Allocation, us: seq<LockedAmount>): seq<UTXO> {
    if us == [] then []
    else Outputs(a, us[..|us| - 1]) + [UTXO(us[|us| - 1].locktime, us[|us| - 1].amount, a.avax, a.eth)]
  }

  lemma UtxoSnoc(k: Option<Key>, us: seq<UTXO>, a: Allocation, l: LockedAmount)
    ensures UtxoSum(k, us + [UTXO(l.locktime, l.amount, a.avax, a.eth)]) == UtxoSum(k, us) + Counted(k, a, l)
  {
    assert (us + [UTXO(l.locktime, l.amount, a.avax, a.eth)])[..|us|] == us;
  }

  // ---------------------------------------------------------------- supply

  /** The checked sum: an error exactly when the total does not fit in 64 bits. */
  method InitialSupply(allocs: seq<Allocation>) returns (r: Option<nat>)
    ensures r == if InitialSum(allocs) + Sum(None, allocs) <= MAX_UINT64 then Some(InitialSum(allocs) + Sum(None, allocs)) else None
  {
    var supply := 0;
    for i := 0 to |allocs|
      invariant supply == InitialSum(allocs[..i]) + Sum(None, allocs[..i]) <= MAX_UINT64
    {
      var a := allocs[i];
      Prefixes(allocs, i);
      if supply + a.initial > MAX_UINT64 {
        return None;
      }
      var next := supply + a.initial;
      for j := 0 to |a.unlocks|
        invariant next == supply + a.initial + UnlockSum(None, a, a.unlocks[..j]) <= MAX_UINT64
      {
        assert a.unlocks[..j + 1][..j] == a.unlocks[..j];
        UnlockSumPrefix(a, a.unlocks, j + 1);
        if next + a.unlocks[j].amount > MAX_UINT64 {
          return None;
        }
        next := next + a.unlocks[j].amount;
      }
      assert a.unlocks[..|a.unlocks|] == a.unlocks;
      supply := next;
    }
    assert allocs[..|allocs|] == allocs;
    r := Some(supply);
  }

  lemma Prefixes(allocs: seq<Allocation>, i: nat)
    requires i < |allocs|
    ensures InitialSum(allocs[..i + 1]) == InitialSum(allocs[..i]) + allocs[i].initial <= InitialSum(allocs)
    ensures Sum(None, allocs[..i + 1]) == Sum(None, allocs[..i]) + UnlockSum(None, allocs[i], allocs[i].unlocks) <= Sum(None, allocs)
  {
    assert allocs[..i + 1][..i] == allocs[..i];
    SumPrefix(allocs, i + 1);
    InitialPrefix(allocs, i + 1);
  }

  lemma {:induction false} InitialPrefix(allocs: seq<Allocation>, i: nat)
    requires i <= |allocs|
    ensures InitialSum(allocs[..i]) <= InitialSum(allocs)
  {
    if i < |allocs| {
      InitialPrefix(allocs[..|allocs| - 1], i);
      assert allocs[..|allocs| - 1][..i] == allocs[..i];
    } else {
      assert allocs[..i] == allocs;
    }
  }

  // ---------------------------------------------------------------- the three destinations

  /** How many allocations have a given initial amount. */
  function WithInitial(allocs: seq<Allocation>, x: nat): nat {
    if allocs == [] then 0 else WithInitial(allocs[..|allocs| - 1], x) + if allocs[|allocs| - 1].initial == x then 1 else 0
  }

  /** X-chain holders: every positive initial amount. */
  method Holders(allocs: seq<Allocation>) returns (holders: seq<nat>, amount: nat)
    ensures amount == Total(holders) == InitialSum(allocs)
    ensures forall x :: multiset(holders)[x] == if x > 0 then WithInitial(allocs, x) else 0
  {
    holders, amount := [], 0;
    for i := 0 to |allocs|
      invariant amount == Total(holders) == InitialSum(allocs[..i])
      invariant forall x :: multiset(holders)[x] == if x > 0 then WithInitial(allocs[..i], x) else 0
    {
      assert allocs[..i + 1][..i] == allocs[..i];
      if allocs[i].initial > 0 {
        assert (holders + [allocs[i].initial])[..|holders|] == holders;
        holders := holders + [allocs[i].initial];
        amount := amount + allocs[i].initial;
      }
    }
    assert allocs[..|allocs|] == allocs;
  }

  function Staked(allocs: seq<Allocation>, stakers: set<Bytes>): seq<Allocation> {
    if allocs == [] then []
    else
      var rest, a := Staked(allocs[..|allocs| - 1], stakers), allocs[|allocs| - 1];
      if a.avax in stakers then rest + [a] else rest
  }

  function Unstaked(allocs: seq<Allocation>, stakers: set<Bytes>): seq<Allocation> {
    if allocs == [] then []
    else
      var rest, a := Unstaked(allocs[..|allocs| - 1], stakers), allocs[|allocs| - 1];
      if a.avax !in stakers then rest + [a] else rest
  }

  /** Whose each unit of some outputs is, and until when it is locked, in order. */
  function UtxoUnits(us: seq<UTXO>): seq<Key> {
    if us == [] then []
    else
      var u := us[|us| - 1];
      UtxoUnits(us[..|us| - 1]) + Same(Key(u.eth, u.avax, u.locktime), u.amount)
  }

  function StakeUnits(stakes: seq<seq<UTXO>>): seq<Key> {
    if stakes == [] then [] else StakeUnits(stakes[..|stakes| - 1]) + UtxoUnits(stakes[|stakes| - 1])
  }

  lemma UtxoUnitsSnoc(us: seq<UTXO>, u: UTXO)
    ensures UtxoUnits(us + [u]) == UtxoUnits(us) + Same(Key(u.eth, u.avax, u.locktime), u.amount)
  {
    assert (us + [u])[..|us|] == us;
  }

  lemma {:induction false} UtxoUnitsConcat(a: seq<UTXO>, b: seq<UTXO>)
    ensures UtxoUnits(a + b) == UtxoUnits(a) + UtxoUnits(b)
  {
    hide Same;
    if b == [] {
      assert a + b == a;
    } else {
      assert (a + b)[..|a + b| - 1] == a + b[..|b| - 1];
      UtxoUnitsConcat(a, b[..|b| - 1]);
    }
  }

  lemma {:induction false} OutputsUnits(a: Allocation, us: seq<LockedAmount>)
    ensures UtxoUnits(Outputs(a, us)) == Units(a, us)
  {
    if us != [] {
      var u := us[|us| - 1];
      OutputsUnits(a, us[..|us| - 1]);
      UtxoUnitsSnoc(Outputs(a, us[..|us| - 1]), UTXO(u.locktime, u.amount, a.avax, a.eth));
    }
  }

  /** A staker's outputs are its group, unit by unit. */
  lemma {:induction false} GroupOutputsUnits(group: seq<Allocation>)
    ensures UtxoUnits(GroupOutputs(group)) == AllUnits(group)
  {
    hide UtxoUnits, Outputs, Units;
    if group == [] {
      NoUnits();
    } else {
      var a := group[|group| - 1];
      GroupOutputsUnits(group[..|group| - 1]);
      OutputsUnits(a, a.unlocks);
      UtxoUnitsConcat(GroupOutputs(group[..|group| - 1]), Outputs(a, a.unlocks));
    }
  }

  lemma NoUnits()
    ensures UtxoUnits([]) == [] && AllUnits([]) == [] && StakeUnits([]) == [] && GroupUnits([]) == []
  {
  }

  lemma {:induction false} StakesUnits(stakes: seq<seq<UTXO>>, groups: seq<seq<Allocation>>)
    requires |stakes| == |groups| && forall i :: 0 <= i < |stakes| ==> stakes[i] == GroupOutputs(groups[i])
    ensures StakeUnits(stakes) == GroupUnits(groups)
  {
    hide UtxoUnits, AllUnits, GroupOutputs;
    if stakes != [] {
      StakesUnits(stakes[..|stakes| - 1], groups[..|groups| - 1]);
      GroupOutputsUnits(groups[|groups| - 1]);
    }
  }

  /** What is staked is everything that belongs to a staker. */
  lemma {:induction false} StakedExactly(allocs: seq<Allocation>, stakers: set<Bytes>, k: Key)
    ensures Sum(Some(k), Staked(allocs, stakers)) == if k.avax in stakers then Sum(Some(k), allocs) else 0
  {
    hide UnlockSum;
    if allocs != [] {
      var before, a := allocs[..|allocs| - 1], allocs[|allocs| - 1];
      StakedExactly(before, stakers, k);
      assert (Staked(before, stakers) + [a])[..|Staked(before, stakers)|] == Staked(before, stakers);
      if a.avax != k.avax {
        OtherOwner(Some(k), a, a.unlocks);
      }
    }
  }

  lemma {:induction false} OtherOwner(k: Option<Key>, a: Allocation, us: seq<LockedAmount>)
    requires k.Some? && k.value.avax != a.avax
    ensures UnlockSum(k, a, us) == 0
  {
    if us != [] {
      OtherOwner(k, a, us[..|us| - 1]);
    }
  }

  /** P-chain outputs of the allocations that are not staked; the staked ones are set aside. */
  method Unlocked(allocs: seq<Allocation>, stakers: set<Bytes>) returns (utxos: seq<UTXO>, skipped: seq<Allocation>, amount: nat)
    ensures skipped == Staked(allocs, stakers)
    ensures forall k :: UtxoSum(k, utxos) + Sum(k, skipped) == Sum(k, allocs)
    ensures amount == UtxoSum(None, utxos)
    ensures UtxoUnits(utxos) == AllUnits(Unstaked(allocs, stakers)) && forall i :: 0 <= i < |utxos| ==> utxos[i].amount > 0
  {
    hide UtxoUnits, AllUnits, Units;
    NoUnits();
    utxos, skipped, amount := [], [], 0;
    for i := 0 to |allocs|
      invariant UtxoUnits(utxos) == AllUnits(Unstaked(allocs[..i], stakers))
      invariant forall i :: 0 <= i < |utxos| ==> utxos[i].amount > 0
      invariant skipped == Staked(allocs[..i], stakers) && amount == UtxoSum(None, utxos)
      invariant forall k :: UtxoSum(k, utxos) + Sum(k, skipped) == Sum(k, allocs[..i])
    {
      var a := allocs[i];
      assert allocs[..i + 1] == allocs[..i] + [a] && allocs[..i + 1][..i] == allocs[..i];
      if a.avax in stakers {
        SkipOne(allocs[..i], a, skipped, utxos);
        skipped := skipped + [a];
        continue;
      }
      var more, added := PositiveOutputs(a);
      AddOne(allocs[..i], a, skipped, utxos, more);
      UtxoUnitsConcat(utxos, more);
      AllUnitsSnoc(Unstaked(allocs[..i], stakers), a);
      utxos, amount := utxos + more, amount + added;
    }
    assert allocs[..|allocs|] == allocs;
  }

  lemma SkipOne(done: seq<Allocation>, a: Allocation, skipped: seq<Allocation>, utxos: seq<UTXO>)
    requires forall k :: UtxoSum(k, utxos) + Sum(k, skipped) == Sum(k, done)
    ensures forall k :: UtxoSum(k, utxos) + Sum(k, skipped + [a]) == Sum(k, done + [a])
  {
    forall k
      ensures UtxoSum(k, utxos) + Sum(k, skipped + [a]) == Sum(k, done + [a])
    {
      SumSnoc(k, skipped, a);
      SumSnoc(k, done, a);
    }
  }

  lemma AddOne(done: seq<Allocation>, a: Allocation, skipped: seq<Allocation>, utxos: seq<UTXO>, more: seq<UTXO>)
    requires forall k :: UtxoSum(k, utxos) + Sum(k, skipped) == Sum(k, done)
    requires forall k :: UtxoSum(k, more) == UnlockSum(k, a, a.unlocks)
    ensures forall k :: UtxoSum(k, utxos + more) + Sum(k, skipped) == Sum(k, done + [a])
    ensures UtxoSum(None, utxos + more) == UtxoSum(None, utxos) + UtxoSum(None, more)
  {
    forall k
      ensures UtxoSum(k, utxos + more) + Sum(k, skipped) == Sum(k, done + [a])
    {
      UtxoConcat(k, utxos, more);
      SumSnoc(k, done, a);
    }
    UtxoConcat(None, utxos, more);
  }

  lemma {:induction false} UtxoConcat(k: Option<Key>, a: seq<UTXO>, b: seq<UTXO>)
    ensures UtxoSum(k, a + b) == UtxoSum(k, a) + UtxoSum(k, b)
  {
    if b == [] {
      assert a + b == a;
    } else {
      assert (a + b)[..|a + b| - 1] == a + b[..|b| - 1];
      UtxoConcat(k, a, b[..|b| - 1]);
    }
  }

  lemma NoOutputs(a: Allocation)
    ensures UtxoUnits([]) == [] == Units(a, a.unlocks[..0]) && forall k :: UtxoSum(k, []) == 0 == UnlockSum(k, a, a.unlocks[..0])
  {
  }

  /** An output for one more unlock; without an amount there need not be one. */
  lemma OneMoreOutput(a: Allocation, us: seq<LockedAmount>, u: LockedAmount, utxos: seq<UTXO>)
    requires UtxoUnits(utxos) == Units(a, us) && forall k :: UtxoSum(k, utxos) == UnlockSum(k, a, us)
    ensures
      var more := utxos + [UTXO(u.locktime, u.amount, a.avax, a.eth)];
      && UtxoUnits(more) == Units(a, us + [u]) && (forall k :: UtxoSum(k, more) == UnlockSum(k, a, us + [u]))
      && UtxoSum(None, more) == UtxoSum(None, utxos) + u.amount
    ensures u.amount == 0 ==> UtxoUnits(utxos) == Units(a, us + [u]) && forall k :: UtxoSum(k, utxos) == UnlockSum(k, a, us + [u])
  {
    hide UtxoUnits, Units, UtxoSum, UnlockSum;
    UtxoUnitsSnoc(utxos, UTXO(u.locktime, u.amount, a.avax, a.eth));
    UnitsSnoc(a, us, u);
    forall k
      ensures UnlockSum(k, a, us + [u]) == UnlockSum(k, a, us) + Counted(k, a, u)
      ensures UtxoSum(k, utxos + [UTXO(u.locktime, u.amount, a.avax, a.eth)]) == UtxoSum(k, utxos) + Counted(k, a, u)
    {
      UtxoSnoc(k, utxos, a, u);
      UnlockSumSnoc(k, a, us, u);
    }
  }

  method PositiveOutputs(a: Allocation) returns (utxos: seq<UTXO>, amount: nat)
    ensures forall k :: UtxoSum(k, utxos) == UnlockSum(k, a, a.unlocks)
    ensures amount == UtxoSum(None, utxos)
    ensures UtxoUnits(utxos) == Units(a, a.unlocks) && forall i :: 0 <= i < |utxos| ==> utxos[i].amount > 0
  {
    hide UtxoUnits, Units, UtxoSum, UnlockSum;
    NoOutputs(a);
    utxos, amount := [], 0;
    for j := 0 to |a.unlocks|
      invariant UtxoUnits(utxos) == Units(a, a.unlocks[..j])
      invariant forall k :: UtxoSum(k, utxos) == UnlockSum(k, a, a.unlocks[..j])
      invariant amount == UtxoSum(None, utxos)
      invariant forall i :: 0 <= i < |utxos| ==> utxos[i].amount > 0
    {
      var u := a.unlocks[j];
      assert a.unlocks[..j + 1] == a.unlocks[..j] + [u];
      OneMoreOutput(a, a.unlocks[..j], u, utxos);
      if u.amount > 0 {
        utxos := utxos + [UTXO(u.locktime, u.amount, a.avax, a.eth)];
        amount := amount + u.amount;
      }
    }
    assert a.unlocks[..|a.unlocks|] == a.unlocks;
  }

  /** One staker's outputs: everything in its group, zero amounts included. */
  function GroupOutputs(group: seq<Allocation>): seq<UTXO> {
    if group == [] then []
    else
      var a := group[|group| - 1];
      GroupOutputs(group[..|group| - 1]) + Outputs(a, a.unlocks)
  }

  lemma {:induction false} OutputsSum(k: Option<Key>, a: Allocation, us: seq<LockedAmount>)
    ensures UtxoSum(k, Outputs(a, us)) == UnlockSum(k, a, us)
  {
    if us != [] {
      OutputsSum(k, a, us[..|us| - 1]);
      UtxoSnoc(k, Outputs(a, us[..|us| - 1]), a, us[|us| - 1]);
    }
  }

  lemma {:induction false} GroupOutputsSum(k: Option<Key>, group: seq<Allocation>)
    ensures UtxoSum(k, GroupOutputs(group)) == Sum(k, group)
  {
    if group != [] {
      var a := group[|group| - 1];
      GroupOutputsSum(k, group[..|group| - 1]);
      OutputsSum(k, a, a.unlocks);
      UtxoConcat(k, GroupOutputs(group[..|group| - 1]), Outputs(a, a.unlocks));
    }
  }

  /** The innermost loop: one allocation's unlocks. */
  method AllOutputs(a: Allocation) returns (utxos: seq<UTXO>, amount: nat)
    ensures utxos == Outputs(a, a.unlocks) && amount == UnlockSum(None, a, a.unlocks)
  {
    utxos, amount := [], 0;
    for j := 0 to |a.unlocks|
      invariant utxos == Outputs(a, a.unlocks[..j]) && amount == UnlockSum(None, a, a.unlocks[..j])
    {
      var u := a.unlocks[j];
      assert a.unlocks[..j + 1][..j] == a.unlocks[..j];
      utxos := utxos + [UTXO(u.locktime, u.amount, a.avax, a.eth)];
      amount := amount + u.amount;
    }
    assert a.unlocks[..|a.unlocks|] == a.unlocks;
  }

  method StakeOutputs(group: seq<Allocation>) returns (utxos: seq<UTXO>, amount: nat)
    ensures utxos == GroupOutputs(group) && amount == UtxoSum(None, utxos)
  {
    hide UtxoSum, UnlockSum, Outputs;
    utxos, amount := [], 0;
    for i := 0 to |group|
      invariant utxos == GroupOutputs(group[..i]) && amount == Sum(None, group[..i])
    {
      var more, added := AllOutputs(group[i]);
      assert group[..i + 1][..i] == group[..i];
      utxos, amount := utxos + more, amount + added;
    }
    assert group[..|group|] == group;
    GroupOutputsSum(None, group);
  }

  /** Every staker's outputs. The code indexes the groups by staker, and is out of range exactly when there are fewer
      groups than stakers. */
  method Stakes(groups: seq<seq<Allocation>>, n: nat) returns (stakes: Option<seq<seq<UTXO>>>, amount: nat)
    ensures stakes.Some? <==> n <= |groups|
    ensures stakes.Some? ==> |stakes.value| == n && forall i :: 0 <= i < n ==> stakes.value[i] == GroupOutputs(groups[i])
    ensures stakes.Some? ==> forall k :: StakedSum(k, stakes.value) == GroupsSum(k, groups[..n])
    ensures stakes.Some? ==> amount == StakedSum(None, stakes.value)
  {
    var done: seq<seq<UTXO>> := [];
    amount := 0;
    for i := 0 to n
      invariant i <= |groups|
      invariant |done| == i && forall j :: 0 <= j < i ==> done[j] == GroupOutputs(groups[j])
      invariant forall k :: StakedSum(k, done) == GroupsSum(k, groups[..i])
      invariant amount == StakedSum(None, done)
    {
      if i == |groups| {
        return None, amount;
      }
      var utxos, added := StakeOutputs(groups[i]);
      StakesNext(groups, i, done, utxos);
      done, amount := done + [utxos], amount + added;
    }
    stakes := Some(done);
  }

  lemma StakesNext(groups: seq<seq<Allocation>>, i: nat, done: seq<seq<UTXO>>, utxos: seq<UTXO>)
    requires i < |groups| && utxos == GroupOutputs(groups[i])
    requires forall k :: StakedSum(k, done) == GroupsSum(k, groups[..i])
    ensures forall k :: StakedSum(k, done + [utxos]) == GroupsSum(k, groups[..i + 1])
    ensures StakedSum(None, done + [utxos]) == StakedSum(None, done) + UtxoSum(None, utxos)
  {
    assert (done + [utxos])[..|done|] == done && groups[..i + 1][..i] == groups[..i];
    forall k
      ensures StakedSum(k, done + [utxos]) == GroupsSum(k, groups[..i + 1])
    {
      GroupOutputsSum(k, groups[i]);
    }
  }

  // ---------------------------------------------------------------- all of it

  /** How building the amounts of a genesis ends. The last two are run-time panics. */
  datatype Outcome =
    | Built(supply: nat, holders: seq<nat>, utxos: seq<UTXO>, stakes: seq<seq<UTXO>>, amount: nat)
    | SupplyOverflow
    | DivideByZero
    | IndexOutOfRange

  /** Where every amount of the configuration must go. */
  ghost predicate Distributes(r: Outcome, allocs: seq<Allocation>, stakers: set<Bytes>, n: nat)
    requires r.Built? && n >= 1
  {
    && r.amount == Total(r.holders) + UtxoSum(None, r.utxos) + StakedSum(None, r.stakes) == r.supply
    && r.supply == InitialSum(allocs) + Sum(None, allocs)
    && Total(r.holders) == InitialSum(allocs)
    && (forall x :: multiset(r.holders)[x] == if x > 0 then WithInitial(allocs, x) else 0)
    && (forall k :: UtxoSum(k, r.utxos) + StakedSum(k, r.stakes) == Sum(k, allocs))
    && (forall k :: StakedSum(k, r.stakes) == Sum(k, Staked(allocs, stakers)))
    && (forall k: Key :: StakedSum(Some(k), r.stakes) == if k.avax in stakers then Sum(Some(k), allocs) else 0)
    && UtxoUnits(r.utxos) == AllUnits(Unstaked(allocs, stakers)) && StakeUnits(r.stakes) == AllUnits(Staked(allocs, stakers))
    && |r.stakes| == n
    && forall i :: 0 <= i < n - 1 ==> UtxoSum(None, r.stakes[i]) == Sum(None, Staked(allocs, stakers)) / n
  }

  method FromConfig(allocs: seq<Allocation>, stakers: set<Bytes>, n: nat) returns (r: Outcome)
    ensures r == SupplyOverflow <==> InitialSum(allocs) + Sum(None, allocs) > MAX_UINT64
    ensures r == DivideByZero <==> InitialSum(allocs) + Sum(None, allocs) <= MAX_UINT64 && n == 0
    ensures r == IndexOutOfRange <==>
            InitialSum(allocs) + Sum(None, allocs) <= MAX_UINT64 && n > 1 && Sum(None, Staked(allocs, stakers)) == 0
    ensures r.Built? ==> Distributes(r, allocs, stakers, n)
  {
    hide Sum, UtxoSum, StakedSum, GroupsSum, Staked, InitialSum, Splits, UtxoUnits, AllUnits, StakeUnits, GroupUnits, Spread;
    var holders, amount := Holders(allocs);
    var supply := InitialSupply(allocs);
    if supply.None? {
      return SupplyOverflow;
    }
    var utxos, skipped, added := Unlocked(allocs, stakers);
    amount := amount + added;
    if n == 0 {
      return DivideByZero;
    }
    assert UtxoSum(None, utxos) + Sum(None, skipped) == Sum(None, allocs);
    var groups := SplitAllocations(skipped, n);
    GroupCount(skipped, n);
    var stakes;
    stakes, added := Stakes(groups, n);
    if stakes.None? {
      return IndexOutOfRange;
    }
    amount := amount + added;
    AllPlaced(allocs, skipped, utxos, groups, stakes.value, n);
    StakesUnits(stakes.value, groups);
    SplitInOrder(n, skipped);
    forall k: Key
      ensures Sum(Some(k), skipped) == if k.avax in stakers then Sum(Some(k), allocs) else 0
    {
      StakedExactly(allocs, stakers, k);
    }
    r := Built(supply.value, holders, utxos, stakes.value, amount);
  }

  /** There is a group for every staker exactly when something is staked, or there is one staker. */
  lemma GroupCount(skipped: seq<Allocation>, n: nat)
    requires n >= 1
    ensures
      var groups := Groups(Spread(Sum(None, skipped) / n, n, skipped));
      |groups| <= n && (n <= |groups| <==> Sum(None, skipped) > 0 || n == 1)
  {
    SpreadCount(n, skipped);
  }

  lemma AllPlaced(allocs: seq<Allocation>, skipped: seq<Allocation>, utxos: seq<UTXO>, groups: seq<seq<Allocation>>,
                  stakes: seq<seq<UTXO>>, n: nat)
    requires n >= 1 && Splits(groups, skipped, n) && |stakes| == n
    requires forall k :: UtxoSum(k, utxos) + Sum(k, skipped) == Sum(k, allocs)
    requires forall k :: StakedSum(k, stakes) == GroupsSum(k, groups[..n])
    requires forall i :: 0 <= i < n ==> stakes[i] == GroupOutputs(groups[i])
    ensures forall k :: StakedSum(k, stakes) == Sum(k, skipped)
    ensures forall k :: UtxoSum(k, utxos) + StakedSum(k, stakes) == Sum(k, allocs)
    ensures forall i :: 0 <= i < n - 1 ==> UtxoSum(None, stakes[i]) == Sum(None, skipped) / n
  {
    hide Sum, UtxoSum, StakedSum, GroupsSum;
    assert groups[..n] == groups;
    forall k
      ensures StakedSum(k, stakes) == Sum(k, skipped)
    {
      assert GroupsSum(k, groups) == Sum(k, skipped);
    }
    forall i | 0 <= i < n - 1
      ensures UtxoSum(None, stakes[i]) == Sum(None, skipped) / n
    {
      GroupOutputsSum(None, groups[i]);
    }
  }
}
