/** The byte-wise order that Go uses to compare strings and byte slices. */
module Order {
  import opened Prelude

  predicate Less(a: Bytes, b: Bytes) {
    if b == [] then false
    else if a == [] then true
    else if a[0] != b[0] then a[0] < b[0]
    else Less(a[1..], b[1..])
  }

  /** The first byte in which the two differ is smaller in `a`. */
  ghost predicate SmallerAt(a: Bytes, b: Bytes, i: int) {
    0 <= i < |a| && i < |b| && a[..i] == b[..i] && a[i] < b[i]
  }

  /** One is less than another when it is a proper prefix, or smaller in the first byte in which they differ. */
  lemma {:induction false} LessExactly(a: Bytes, b: Bytes)
    ensures Less(a, b) <==> (|a| < |b| && a == b[..|a|]) || exists i :: SmallerAt(a, b, i)
  {
    if a != [] && b != [] {
      assert a == [a[0]] + a[1..] && b == [b[0]] + b[1..];
      assert SmallerAt(a, b, 0) <==> a[0] < b[0];
      if a[0] == b[0] {
        LessExactly(a[1..], b[1..]);
        assert |a| < |b| ==> b[..|a|] == [b[0]] + b[1..][..|a| - 1];
        if i :| SmallerAt(a, b, i) {
          SmallerShift(a, b, i - 1);
          assert SmallerAt(a[1..], b[1..], i - 1);
        }
        if i :| SmallerAt(a[1..], b[1..], i) {
          SmallerShift(a, b, i);
          assert SmallerAt(a, b, i + 1);
        }
      }
    }
  }

  lemma SmallerShift(a: Bytes, b: Bytes, i: int)
    requires a != [] && b != [] && a[0] == b[0]
    ensures SmallerAt(a, b, i + 1) <==> SmallerAt(a[1..], b[1..], i)
  {
    if 0 <= i < |a| - 1 && i < |b| - 1 {
      assert a[..i + 1] == [a[0]] + a[1..][..i] && b[..i + 1] == [b[0]] + b[1..][..i];
      assert a[1..][..i] == a[..i + 1][1..] && b[1..][..i] == b[..i + 1][1..];
    }
  }

  lemma {:induction false} LessTransitive(a: Bytes, b: Bytes, c: Bytes)
    requires Less(a, b) && Less(b, c)
    ensures Less(a, c)
  {
    if a != [] && a[0] == b[0] == c[0] {
      LessTransitive(a[1..], b[1..], c[1..]);
    }
  }

  lemma {:induction false} LessIrreflexive(a: Bytes)
    ensures !Less(a, a)
  {
    if a != [] {
      LessIrreflexive(a[1..]);
    }
  }

  lemma {:induction false} LessTotal(a: Bytes, b: Bytes)
    ensures Less(a, b) || a == b || Less(b, a)
  {
    if a != [] && b != [] && a[0] == b[0] {
      LessTotal(a[1..], b[1..]);
      assert a == [a[0]] + a[1..] && b == [b[0]] + b[1..];
    }
  }

  lemma LessAsymmetric(a: Bytes, b: Bytes)
    ensures !(Less(a, b) && Less(b, a)) && (Less(a, b) ==> a != b)
  {
    LessIrreflexive(a);
    if Less(a, b) && Less(b, a) {
      LessTransitive(a, b, a);
    }
  }

  /** Strictly increasing, hence without duplicates. */
  ghost predicate Sorted(s: seq<Bytes>) {
    forall i, j :: 0 <= i < j < |s| ==> Less(s[i], s[j])
  }

  /** A key may be prepended to a sorted list when it is below the first. */
  lemma SortedCons(k: Bytes, s: seq<Bytes>)
    requires Sorted(s) && (s != [] ==> Less(k, s[0]))
    ensures Sorted([k] + s)
  {
    forall j | 0 <= j < |s|
      ensures Less(k, s[j])
    {
      if j > 0 {
        LessTransitive(k, s[0], s[j]);
      }
    }
  }

  function InsertSorted(s: seq<Bytes>, k: Bytes): seq<Bytes> {
    if s == [] then [k]
    else if Less(k, s[0]) then [k] + s
    else if k == s[0] then s
    else [s[0]] + InsertSorted(s[1..], k)
  }

  lemma {:induction false} InsertSortedFacts(s: seq<Bytes>, k: Bytes)
    requires Sorted(s)
    ensures Sorted(InsertSorted(s, k))
    ensures forall x :: x in InsertSorted(s, k) <==> x == k || x in s
    ensures InsertSorted(s, k) != []
  {
    if s != [] {
      if Less(k, s[0]) {
        SortedCons(k, s);
      } else if k != s[0] {
        InsertSortedFacts(s[1..], k);
        LessTotal(k, s[0]);
        var r := InsertSorted(s[1..], k);
        assert r[0] == k || r[0] in s[1..];
        SortedCons(s[0], r);
      }
    }
  }

  /** In order, equal keys allowed. */
  ghost predicate Ordered(s: seq<Bytes>) {
    forall i, j :: 0 <= i < j < |s| ==> !Less(s[j], s[i])
  }

  function Insert(s: seq<Bytes>, k: Bytes): (r: seq<Bytes>)
    ensures multiset(r) == multiset(s) + multiset{k} && r != []
  {
    if s == [] || !Less(s[0], k) then [k] + s
    else
      assert s == [s[0]] + s[1..];
      [s[0]] + Insert(s[1..], k)
  }

  lemma {:induction false} InsertOrdered(s: seq<Bytes>, k: Bytes)
    requires Ordered(s)
    ensures Ordered(Insert(s, k))
  {
    if s != [] && Less(s[0], k) {
      InsertOrdered(s[1..], k);
      LessAsymmetric(s[0], k);
      var r := Insert(s[1..], k);
      forall j | 0 <= j < |r|
        ensures !Less(r[j], s[0])
      {
        assert r[j] in multiset(r);
        assert r[j] == k || r[j] in s[1..];
      }
    } else if s != [] {
      forall j | 0 <= j < |s|
        ensures !Less(s[j], k)
      {
        NotLess(s, j, k);
      }
    }
  }

  /** A key not above the first of an ordered list is not above any. */
  lemma NotLess(s: seq<Bytes>, j: nat, k: Bytes)
    requires Ordered(s) && j < |s| && !Less(s[0], k)
    ensures !Less(s[j], k)
  {
    if j > 0 && Less(s[j], k) {
      LessTotal(s[0], s[j]);
      if Less(s[0], s[j]) {
        LessTransitive(s[0], s[j], k);
      }
    }
  }

  /** The list without repetitions. */
  function Uniq(s: seq<Bytes>): seq<Bytes> {
    if |s| <= 1 then s else if s[0] == s[1] then Uniq(s[1..]) else [s[0]] + Uniq(s[1..])
  }

  lemma {:induction false} UniqFacts(s: seq<Bytes>)
    requires Ordered(s)
    ensures Sorted(Uniq(s)) && (forall x :: x in Uniq(s) <==> x in s)
    ensures s != [] ==> Uniq(s) != [] && Uniq(s)[0] == s[0]
  {
    if |s| > 1 {
      UniqFacts(s[1..]);
      assert s == [s[0]] + s[1..];
      if s[0] != s[1] {
        LessTotal(s[0], s[1]);
        SortedCons(s[0], Uniq(s[1..]));
      }
    }
  }
}
