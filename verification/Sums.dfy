/** Byte counts per node, in the style of Go's `map[ids.ShortID]uint64`:
    a missing node reads as zero, and a count that drops to zero is deleted. */
module Sums {

  /** Node identifiers; only equality on them matters. */
  type NodeID = nat

  type Counts = map<NodeID, int>

  function Lookup(m: Counts, k: NodeID): int {
    if k in m then m[k] else 0
  }

  /** Assigns a count and deletes the entry when the count is zero. */
  function Store(m: Counts, k: NodeID, v: int): Counts {
    if v == 0 then m - {k} else m[k := v]
  }

  ghost predicate Positive(m: Counts) {
    forall k :: k in m ==> m[k] > 0
  }

  ghost function TotalOver(m: Counts, s: set<NodeID>): int {
    if s == {} then 0
    else
      var k :| k in s;
      Lookup(m, k) + TotalOver(m, s - {k})
  }

  ghost function Total(m: Counts): int {
    TotalOver(m, m.Keys)
  }

  lemma {:induction false} TotalOverRemove(m: Counts, s: set<NodeID>, k: NodeID)
    requires k in s
    ensures TotalOver(m, s) == Lookup(m, k) + TotalOver(m, s - {k})
  {
    var j :| j in s && TotalOver(m, s) == Lookup(m, j) + TotalOver(m, s - {j});
    if j != k {
      TotalOverRemove(m, s - {j}, k);
      TotalOverRemove(m, s - {k}, j);
      assert s - {j} - {k} == s - {k} - {j};
    }
  }

  lemma {:induction false} TotalOverAgree(m: Counts, m': Counts, s: set<NodeID>)
    requires forall k :: k in s ==> Lookup(m, k) == Lookup(m', k)
    ensures TotalOver(m, s) == TotalOver(m', s)
  {
    if s != {} {
      var k :| k in s;
      TotalOverRemove(m, s, k);
      TotalOverRemove(m', s, k);
      TotalOverAgree(m, m', s - {k});
    }
  }

  /** Nodes outside the map add nothing to a total. */
  lemma TotalAdd(m: Counts, k: NodeID)
    ensures TotalOver(m, m.Keys + {k}) == Total(m)
    ensures Total(m) == Lookup(m, k) + TotalOver(m, m.Keys - {k})
  {
    TotalOverRemove(m, m.Keys + {k}, k);
    assert m.Keys + {k} - {k} == m.Keys - {k};
    if k in m {
      assert m.Keys + {k} == m.Keys;
    } else {
      assert m.Keys - {k} == m.Keys;
    }
  }

  /** Changing one entry changes the total by exactly that entry's change. */
  lemma TotalStore(m: Counts, k: NodeID, v: int)
    ensures Total(Store(m, k, v)) == Total(m) - Lookup(m, k) + v
  {
    var m' := Store(m, k, v);
    TotalAdd(m, k);
    TotalAdd(m', k);
    assert m'.Keys - {k} == m.Keys - {k};
    TotalOverAgree(m, m', m.Keys - {k});
  }

  lemma {:induction false} TotalOverNonNegative(m: Counts, s: set<NodeID>)
    requires Positive(m)
    ensures TotalOver(m, s) >= 0
    ensures TotalOver(m, s) == 0 ==> forall k :: k in s ==> Lookup(m, k) == 0
  {
    if s != {} {
      var k :| k in s;
      TotalOverRemove(m, s, k);
      TotalOverNonNegative(m, s - {k});
    }
  }

  lemma LookupAtMostTotal(m: Counts, k: NodeID)
    requires Positive(m)
    ensures 0 <= Lookup(m, k) <= Total(m)
  {
    TotalAdd(m, k);
    TotalOverNonNegative(m, m.Keys - {k});
  }

  /** When every counted node also holds at least one ticket and counts at most `bound`,
      the total is at most the number of tickets times `bound`. */
  lemma {:induction false} TotalBounded(m: Counts, tickets: Counts, s: set<NodeID>, bound: int)
    requires Positive(tickets) && bound >= 0
    requires forall k :: k in s ==> Lookup(m, k) <= 0 || (k in tickets && Lookup(m, k) <= bound)
    ensures TotalOver(m, s) <= TotalOver(tickets, s) * bound
  {
    if s != {} {
      var k :| k in s;
      TotalOverRemove(m, s, k);
      TotalOverRemove(tickets, s, k);
      TotalBounded(m, tickets, s - {k}, bound);
      AddTicket(Lookup(m, k), Lookup(tickets, k), TotalOver(tickets, s - {k}), bound);
    }
  }

  lemma AddTicket(x: int, t: int, rest: int, bound: int)
    requires t >= 0 && bound >= 0 && (x <= 0 || (t >= 1 && x <= bound))
    ensures x + rest * bound <= (t + rest) * bound
  {
    assert (t + rest) * bound == t * bound + rest * bound;
    if t >= 1 {
      assert t * bound == bound + (t - 1) * bound;
    }
  }

  lemma TotalOverAtMost(m: Counts, s: set<NodeID>)
    requires Positive(m)
    ensures TotalOver(m, s) <= Total(m)
    decreases s
  {
    if s != {} && exists k :: k in s && k !in m {
      var k :| k in s && k !in m;
      TotalOverRemove(m, s, k);
      TotalOverAtMost(m, s - {k});
    } else {
      SubsetTotal(m, s, m.Keys);
    }
  }

  lemma {:induction false} SubsetTotal(m: Counts, s: set<NodeID>, u: set<NodeID>)
    requires Positive(m) && s <= u
    ensures TotalOver(m, s) <= TotalOver(m, u)
    decreases u - s
  {
    if u <= s {
      assert s == u;
    } else {
      var k :| k in u && k !in s;
      assert s + {k} - {k} == s;
      TotalOverRemove(m, s + {k}, k);
      SubsetTotal(m, s + {k}, u);
    }
  }
}
