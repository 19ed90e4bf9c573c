/** The outbound message throttler: all or nothing from the same two pools, and no waiting. */
module Outbound {
  import opened Prelude
  import opened Sums
  import opened InboundModel

  datatype Pools = Pools(remainingVdr: int, remainingAtLarge: int, vdrUsed: Counts, atLargeUsed: Counts)

  function Full(cfg: Config): Pools {
    Pools(cfg.vdrAlloc, cfg.atLargeAlloc, map[], map[])
  }

  /** What a node could still take from each pool. */
  function AtLargeLeft(cfg: Config, t: Pools, n: NodeID): int {
    Min(cfg.nodeMax - Lookup(t.atLargeUsed, n), t.remainingAtLarge)
  }

  function VdrLeft(t: Pools, n: NodeID, share: nat): int {
    Min(t.remainingVdr, VdrAllowed(share, Lookup(t.vdrUsed, n)))
  }

  function Acquired(cfg: Config, t: Pools, size: nat, n: NodeID, share: nat): Option<Pools> {
    var a := Min(size, AtLargeLeft(cfg, t, n));
    var v := Min(size - a, VdrLeft(t, n, share));
    if size - a - v != 0 then None
    else Some(Pools(Spend(t.remainingVdr, v), Spend(t.remainingAtLarge, a), Charge(t.vdrUsed, n, v), Charge(t.atLargeUsed, n, a)))
  }

  /** Validator bytes are given back first. */
  function Released(t: Pools, size: nat, n: NodeID): Pools {
    var v := Min(size, Lookup(t.vdrUsed, n));
    var a := size - v;
    Pools(t.remainingVdr + v, t.remainingAtLarge + a,
          Store(t.vdrUsed, n, Lookup(t.vdrUsed, n) - v), Store(t.atLargeUsed, n, Lookup(t.atLargeUsed, n) - a))
  }

  function Used(t: Pools, n: NodeID): int {
    Lookup(t.vdrUsed, n) + Lookup(t.atLargeUsed, n)
  }

  /** What is left plus what is used is the allocation, in each pool; no node is over its limit. */
  ghost predicate Conserved(cfg: Config, t: Pools) {
    && Positive(t.vdrUsed) && Positive(t.atLargeUsed)
    && t.remainingVdr >= 0 && t.remainingAtLarge >= 0
    && t.remainingVdr + Total(t.vdrUsed) == cfg.vdrAlloc
    && t.remainingAtLarge + Total(t.atLargeUsed) == cfg.atLargeAlloc
    && forall n :: Lookup(t.atLargeUsed, n) <= cfg.nodeMax
  }

  lemma FullConserved(cfg: Config)
    ensures Conserved(cfg, Full(cfg)) && forall n :: Used(Full(cfg), n) == 0
  {
  }

  /** A message is accepted exactly when the two pools together have room for all of it. */
  lemma AcquireExactly(cfg: Config, t: Pools, size: nat, n: NodeID, share: nat)
    requires Conserved(cfg, t)
    ensures
      var used := Lookup(t.vdrUsed, n);
      Acquired(cfg, t, size, n, share).Some? <==>
      size <= Min(cfg.nodeMax - Lookup(t.atLargeUsed, n), t.remainingAtLarge)
              + Min(t.remainingVdr, if share > used then share - used else 0)
  {
    assert Lookup(t.atLargeUsed, n) <= cfg.nodeMax;
    LookupAtMostTotal(t.vdrUsed, n);
  }

  /** At-large bytes come first, up to the node's limit; validator bytes make up the rest, never past the share. */
  lemma AcquireTakes(cfg: Config, t: Pools, size: nat, n: NodeID, share: nat)
    requires Conserved(cfg, t) && Acquired(cfg, t, size, n, share).Some?
    ensures
      var t' := Acquired(cfg, t, size, n, share).value;
      var a, v := Lookup(t'.atLargeUsed, n) - Lookup(t.atLargeUsed, n), Lookup(t'.vdrUsed, n) - Lookup(t.vdrUsed, n);
      && a >= 0 && v >= 0 && a + v == size
      && t'.remainingAtLarge == t.remainingAtLarge - a && t'.remainingVdr == t.remainingVdr - v
      && (v > 0 ==> Lookup(t'.vdrUsed, n) <= share)
      && (v > 0 ==> t'.remainingAtLarge == 0 || Lookup(t'.atLargeUsed, n) == cfg.nodeMax)
  {
    hide Total, Charge, Positive;
    assert Lookup(t.atLargeUsed, n) <= cfg.nodeMax;
    LookupAtMostTotal(t.vdrUsed, n);
    var a := Min(size, AtLargeLeft(cfg, t, n));
    ChargeTotal(t.atLargeUsed, n, a);
    ChargeTotal(t.vdrUsed, n, size - a);
  }

  /** Validator bytes are given back before at-large ones. */
  lemma ReleaseGives(cfg: Config, t: Pools, size: nat, n: NodeID)
    requires Conserved(cfg, t) && size <= Used(t, n)
    ensures
      var t' := Released(t, size, n);
      var a, v := Lookup(t.atLargeUsed, n) - Lookup(t'.atLargeUsed, n), Lookup(t.vdrUsed, n) - Lookup(t'.vdrUsed, n);
      && a >= 0 && v >= 0 && a + v == size && (a > 0 ==> Lookup(t'.vdrUsed, n) == 0)
      && t'.remainingAtLarge == t.remainingAtLarge + a && t'.remainingVdr == t.remainingVdr + v
  {
    LookupAtMostTotal(t.vdrUsed, n);
    LookupAtMostTotal(t.atLargeUsed, n);
  }

  lemma StoreFacts(used: Counts, n: NodeID, bytes: int)
    requires Positive(used) && 0 <= bytes <= Lookup(used, n)
    ensures Positive(Store(used, n, Lookup(used, n) - bytes))
    ensures Total(Store(used, n, Lookup(used, n) - bytes)) == Total(used) - bytes
    ensures forall k :: Lookup(Store(used, n, Lookup(used, n) - bytes), k) == Lookup(used, k) - if k == n then bytes else 0
  {
    TotalStore(used, n, Lookup(used, n) - bytes);
  }

  lemma AcquireKeeps(cfg: Config, t: Pools, size: nat, n: NodeID, share: nat)
    requires Conserved(cfg, t) && Acquired(cfg, t, size, n, share).Some?
    ensures
      var t' := Acquired(cfg, t, size, n, share).value;
      Conserved(cfg, t') && forall k :: Used(t', k) == Used(t, k) + if k == n then size else 0
  {
    hide Total, Charge, Positive;
    var a := Min(size, AtLargeLeft(cfg, t, n));
    ChargeTotal(t.atLargeUsed, n, a);
    ChargeTotal(t.vdrUsed, n, size - a);
  }

  /** Releasing no more than a node uses never underflows, and gives exactly that much back. */
  lemma ReleaseKeeps(cfg: Config, t: Pools, size: nat, n: NodeID)
    requires Conserved(cfg, t) && size <= Used(t, n)
    ensures Conserved(cfg, Released(t, size, n))
    ensures forall k :: Used(Released(t, size, n), k) == Used(t, k) - if k == n then size else 0
  {
    hide Total, Store;
    var v := Min(size, Lookup(t.vdrUsed, n));
    StoreFacts(t.vdrUsed, n, v);
    StoreFacts(t.atLargeUsed, n, size - v);
    var t' := Released(t, size, n);
    forall k
      ensures Lookup(t'.atLargeUsed, k) <= cfg.nodeMax
    {
      assert Lookup(t.atLargeUsed, k) <= cfg.nodeMax;
    }
  }

  /** How much of a message each pool takes, and how much no pool takes. */
  method Grants(cfg: Config, t: Pools, size: nat, n: NodeID, share: nat) returns (a: int, v: int, need: int)
    ensures a == Min(size, AtLargeLeft(cfg, t, n)) && v == Min(size - a, VdrLeft(t, n, share)) && need == size - a - v
  {
    need := size;
    a := Min3(need, cfg.nodeMax - Lookup(t.atLargeUsed, n), t.remainingAtLarge);
    need := need - a;
    var allowed: int := share;
    if Lookup(t.vdrUsed, n) >= share {
      allowed := 0;
    } else {
      allowed := allowed - Lookup(t.vdrUsed, n);
    }
    v := Min3(t.remainingVdr, need, allowed);
    need := need - v;
  }

  class Throttler {
    const cfg: Config
    var remainingVdr: int
    var remainingAtLarge: int
    var vdrUsed: Counts
    var atLargeUsed: Counts

    constructor (c: Config)
      ensures cfg == c && Now() == Full(c)
    {
      cfg := c;
      remainingVdr, remainingAtLarge, vdrUsed, atLargeUsed := c.vdrAlloc, c.atLargeAlloc, map[], map[];
    }

    function Now(): Pools
      reads this
    {
      Pools(remainingVdr, remainingAtLarge, vdrUsed, atLargeUsed)
    }

    /** A refused message changes nothing. */
    method Acquire(size: nat, n: NodeID, share: nat) returns (ok: bool)
      requires Conserved(cfg, Now())
      modifies this
      ensures Conserved(cfg, Now())
      ensures ok == Acquired(cfg, old(Now()), size, n, share).Some?
      ensures Now() == if ok then Acquired(cfg, old(Now()), size, n, share).value else old(Now())
      ensures forall k :: Used(Now(), k) == Used(old(Now()), k) + if ok && k == n then size else 0
    {
      hide Conserved, Used, AtLargeLeft, VdrLeft, Store;
      if Acquired(cfg, Now(), size, n, share).Some? {
        AcquireKeeps(cfg, Now(), size, n, share);
      }
      var a, v, need := Grants(cfg, Now(), size, n, share);
      if need != 0 {
        return false;
      }
      if a > 0 {
        remainingAtLarge := remainingAtLarge - a;
        atLargeUsed := Store(atLargeUsed, n, Lookup(atLargeUsed, n) + a);
      }
      if v > 0 {
        remainingVdr := remainingVdr - v;
        vdrUsed := Store(vdrUsed, n, Lookup(vdrUsed, n) + v);
      }
      ok := true;
    }

    method Release(size: nat, n: NodeID)
      requires Conserved(cfg, Now()) && size <= Used(Now(), n)
      modifies this
      ensures Conserved(cfg, Now()) && Now() == Released(old(Now()), size, n)
      ensures forall k :: Used(Now(), k) == Used(old(Now()), k) - if k == n then size else 0
    {
      hide Conserved, Used, Store;
      ReleaseKeeps(cfg, Now(), size, n);
      var v := Min(size, Lookup(vdrUsed, n));
      vdrUsed := Store(vdrUsed, n, Lookup(vdrUsed, n) - v);
      remainingVdr := remainingVdr + v;
      var a := size - v;
      remainingAtLarge := remainingAtLarge + a;
      atLargeUsed := Store(atLargeUsed, n, Lookup(atLargeUsed, n) - a);
    }
  }
}
