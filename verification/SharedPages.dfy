/** Reading the keys of several traits page by page. */
module SharedPages {
  import opened Prelude
  import opened LinkedList
  import opened Order
  import opened SharedModel

  /** A trait and a key in its list. */
  datatype Pos = Pos(feature: Bytes, key: Bytes)

  function Row(t: Bytes, keys: seq<Bytes>): (r: seq<Pos>)
    ensures |r| == |keys| && forall i :: 0 <= i < |r| ==> r[i] == Pos(t, keys[i])
  {
    seq(|keys|, i requires 0 <= i < |keys| => Pos(t, keys[i]))
  }

  /** What an iterator started at `k` visits: from `k` when it is in the list, from the head otherwise. */
  function StartingAt(keys: seq<Bytes>, k: Bytes): seq<Bytes> {
    if k in keys then keys[IndexOf(keys, k)..] else keys
  }

  /** Every trait's list, one after the other. */
  function Everything(index: map<Bytes, Dict>, ts: seq<Bytes>): seq<Pos> {
    if ts == [] then [] else Row(ts[0], ListOf(index, ts[0]).keys) + Everything(index, ts[1..])
  }

  /** The part of a trait's list that is visited when there is no start key, which is the nil key. */
  function Seen(index: map<Bytes, Dict>, t: Bytes): seq<Bytes> {
    StartingAt(ListOf(index, t).keys, [])
  }

  /** What a scan without a start visits. */
  function All(index: map<Bytes, Dict>, ts: seq<Bytes>): seq<Pos> {
    if ts == [] then [] else Row(ts[0], Seen(index, ts[0])) + All(index, ts[1..])
  }

  /** What is left to visit from a starting point. Once past the start trait, iteration starts at the nil key. */
  function From(index: map<Bytes, Dict>, ts: seq<Bytes>, start: Pos): seq<Pos> {
    if ts == [] then []
    else if Less(ts[0], start.feature) then From(index, ts[1..], start)
    else
      var key := if Less(start.feature, ts[0]) then [] else start.key;
      Row(ts[0], StartingAt(ListOf(index, ts[0]).keys, key)) + From(index, ts[1..], start.(key := key))
  }

  datatype Page = Page(keys: seq<Bytes>, visited: nat)

  /** Visit positions in order, collecting keys not seen yet, until `limit` are collected. */
  function Collect(todo: seq<Pos>, seen: set<Bytes>, limit: nat): Page {
    if limit == 0 || todo == [] then Page([], 0)
    else if todo[0].key in seen then
      var p := Collect(todo[1..], seen, limit);
      Page(p.keys, 1 + p.visited)
    else
      var p := Collect(todo[1..], seen + {todo[0].key}, limit - 1);
      Page([todo[0].key] + p.keys, 1 + p.visited)
  }

  /** The nil key, which stands for "from the head", is not a key further down the list. */
  ghost predicate HeadSafe(keys: seq<Bytes>) {
    [] in keys ==> keys[0] == []
  }

  // ---------------------------------------------------------------- one page

  /** A page has no repeats, stays within the limit, and stops early only when nothing is left. */
  lemma {:induction false} CollectFacts(todo: seq<Pos>, seen: set<Bytes>, limit: nat)
    ensures
      var p := Collect(todo, seen, limit);
      && p.visited <= |todo|
      && |p.keys| <= limit
      && |p.keys| <= p.visited
      && Distinct(p.keys)
      && (forall k :: k in p.keys ==> k !in seen)
      && (|p.keys| < limit ==> p.visited == |todo|)
      && (|p.keys| == limit > 0 ==> p.visited > 0 && todo[p.visited - 1].key == p.keys[limit - 1])
  {
    if limit != 0 && todo != [] {
      var seen' := if todo[0].key in seen then seen else seen + {todo[0].key};
      CollectFacts(todo[1..], seen', if todo[0].key in seen then limit else limit - 1);
    }
  }

  /** The keys of a page are exactly the new keys among the visited positions. */
  lemma {:induction false} CollectCovers(todo: seq<Pos>, seen: set<Bytes>, limit: nat, k: Bytes)
    requires Collect(todo, seen, limit).visited <= |todo|
    ensures
      var p := Collect(todo, seen, limit);
      k in p.keys <==> k !in seen && exists i :: 0 <= i < p.visited && todo[i].key == k
  {
    if limit != 0 && todo != [] {
      var isNew := todo[0].key !in seen;
      var seen' := if isNew then seen + {todo[0].key} else seen;
      var p, q := Collect(todo, seen, limit), Collect(todo[1..], seen', if isNew then limit - 1 else limit);
      CollectCovers(todo[1..], seen', if isNew then limit - 1 else limit, k);
      if i :| 0 <= i < q.visited && todo[1..][i].key == k {
        assert todo[i + 1].key == k;
      }
      if i :| 0 <= i < p.visited && todo[i].key == k && i > 0 {
        assert todo[1..][i - 1].key == k;
      }
      assert k in p.keys <==> (isNew && k == todo[0].key) || k in q.keys;
      if k == todo[0].key {
        assert todo[0].key == k && 0 < p.visited;
      }
    }
  }

  /** Visiting two stretches one after the other. */
  lemma {:induction false} CollectConcat(a: seq<Pos>, b: seq<Pos>, seen: set<Bytes>, limit: nat)
    requires |Collect(a, seen, limit).keys| <= limit
    ensures Collect(a + b, seen, limit) == Continue(a, b, seen, limit)
  {
    if a == [] {
      assert a + b == b && seen + SetOf([]) == seen;
    } else if limit != 0 {
      assert (a + b)[1..] == a[1..] + b;
      if a[0].key in seen {
        CollectConcat(a[1..], b, seen, limit);
      } else {
        CollectConcat(a[1..], b, seen + {a[0].key}, limit - 1);
        SetOfCons(seen, a[0].key, Collect(a[1..], seen + {a[0].key}, limit - 1).keys);
      }
    }
  }

  function Continue(a: seq<Pos>, b: seq<Pos>, seen: set<Bytes>, limit: nat): Page
    requires |Collect(a, seen, limit).keys| <= limit
  {
    var p := Collect(a, seen, limit);
    var q := Collect(b, seen + SetOf(p.keys), limit - |p.keys|);
    Page(p.keys + q.keys, if |p.keys| == limit then p.visited else |a| + q.visited)
  }

  lemma SetOfCons(seen: set<Bytes>, k: Bytes, keys: seq<Bytes>)
    ensures seen + {k} + SetOf(keys) == seen + SetOf([k] + keys)
  {
  }

  function SetOf(keys: seq<Bytes>): set<Bytes> {
    set k | k in keys
  }

  // ---------------------------------------------------------------- where a page starts

  /** From the nil start, a scan without a start. */
  lemma {:induction false} FromStart(index: map<Bytes, Dict>, ts: seq<Bytes>, t: Bytes)
    requires forall i :: 0 <= i < |ts| ==> !Less(ts[i], t)
    ensures From(index, ts, Pos(t, [])) == All(index, ts)
  {
    if ts != [] {
      assert !Less(ts[0], t);
      assert forall i :: 0 <= i < |ts[1..]| ==> ts[1..][i] == ts[i + 1];
      FromStart(index, ts[1..], t);
    }
  }

  /** A scan without a start sees every position exactly when no list has the nil key below its head. */
  lemma {:induction false} SeesEverything(index: map<Bytes, Dict>, ts: seq<Bytes>)
    ensures |All(index, ts)| <= |Everything(index, ts)|
    ensures All(index, ts) == Everything(index, ts) <==> forall i :: 0 <= i < |ts| ==> HeadSafe(ListOf(index, ts[i]).keys)
  {
    if ts != [] {
      var rest, keys := ts[1..], ListOf(index, ts[0]).keys;
      assert forall i :: 0 <= i < |rest| ==> rest[i] == ts[i + 1];
      SeesEverything(index, rest);
      assert StartingAt(keys, []) == keys <==> HeadSafe(keys);
      assert (forall i :: 0 <= i < |ts| ==> HeadSafe(ListOf(index, ts[i]).keys)) <==>
             HeadSafe(keys) && (forall i :: 0 <= i < |rest| ==> HeadSafe(ListOf(index, rest[i]).keys));
      ConcatEqual(Row(ts[0], StartingAt(keys, [])), Row(ts[0], keys), All(index, rest), Everything(index, rest));
    }
  }

  lemma ConcatEqual(a: seq<Pos>, a': seq<Pos>, b: seq<Pos>, b': seq<Pos>)
    requires |a| <= |a'| && |b| <= |b'|
    ensures a + b == a' + b' <==> a == a' && b == b'
  {
    if a + b == a' + b' {
      assert |a + b| == |a' + b'|;
      assert a == (a + b)[..|a|] == a';
      assert b == (a + b)[|a|..] == b';
    }
  }

  /** From a visited position, exactly the positions from there on remain, that one included. */
  lemma {:induction false} FromPosition(index: map<Bytes, Dict>, ts: seq<Bytes>, p: nat)
    requires Lists(index) && Sorted(ts) && p < |All(index, ts)|
    ensures From(index, ts, All(index, ts)[p]) == All(index, ts)[p..]
  {
    hide From, Lists, Less, Seen;
    if p < |Seen(index, ts[0])| {
      FromFirst(index, ts, p);
    } else {
      var p' := p - |Seen(index, ts[0])|;
      assert Sorted(ts[1..]);
      FromPosition(index, ts[1..], p');
      PositionTrait(index, ts[1..], p');
      FromSkips(index, ts, p', All(index, ts[1..])[p']);
    }
  }

  lemma FromFirst(index: map<Bytes, Dict>, ts: seq<Bytes>, p: nat)
    requires Lists(index) && Sorted(ts) && ts != [] && p < |Seen(index, ts[0])|
    ensures From(index, ts, All(index, ts)[p]) == All(index, ts)[p..]
  {
    hide Lists, Sorted, Seen, StartingAt, Less;
    var t, keys := ts[0], Seen(index, ts[0]);
    FirstRow(index, t, p);
    FirstRest(index, ts, Pos(t, keys[p]));
    LessIrreflexive(t);
  }

  lemma FirstRow(index: map<Bytes, Dict>, t: Bytes, p: nat)
    requires Lists(index) && p < |Seen(index, t)|
    ensures Row(t, StartingAt(ListOf(index, t).keys, Seen(index, t)[p])) == Row(t, Seen(index, t))[p..]
  {
    hide IndexOf;
    var keys := ListOf(index, t).keys;
    var first := if [] in keys then IndexOf(keys, []) else 0;
    assert Seen(index, t) == keys[first..];
    assert WellFormed(ListOf(index, t));
    IndexUnique(keys, first + p);
  }

  lemma FirstRest(index: map<Bytes, Dict>, ts: seq<Bytes>, start: Pos)
    requires Sorted(ts) && ts != [] && start.feature == ts[0]
    ensures From(index, ts[1..], start) == All(index, ts[1..])
  {
    hide From, All, Less;
    assert forall i :: 0 <= i < |ts[1..]| ==> ts[1..][i] == ts[i + 1];
    FromLater(index, ts[1..], start);
  }

  lemma FromSkips(index: map<Bytes, Dict>, ts: seq<Bytes>, p: nat, start: Pos)
    requires Sorted(ts) && ts != [] && p < |All(index, ts[1..])| && start == All(index, ts[1..])[p]
    requires start.feature in ts[1..]
    requires From(index, ts[1..], start) == All(index, ts[1..])[p..]
    ensures
      var q := p + |Seen(index, ts[0])|;
      q < |All(index, ts)| && All(index, ts)[q] == start && From(index, ts, start) == All(index, ts)[q..]
  {
    hide Seen;
    var j :| 0 <= j < |ts[1..]| && ts[1..][j] == start.feature;
    assert Less(ts[0], ts[j + 1]);
  }

  /** Traits after the start trait are visited without a start. */
  lemma {:induction false} FromLater(index: map<Bytes, Dict>, ts: seq<Bytes>, start: Pos)
    requires forall i :: 0 <= i < |ts| ==> Less(start.feature, ts[i])
    ensures From(index, ts, start) == All(index, ts)
  {
    if ts != [] {
      LessAsymmetric(start.feature, ts[0]);
      forall i | 0 <= i < |ts[1..]|
        ensures !Less(ts[1..][i], start.feature)
      {
        assert ts[1..][i] == ts[i + 1];
        LessAsymmetric(start.feature, ts[i + 1]);
      }
      FromStart(index, ts[1..], start.feature);
    }
  }

  lemma {:induction false} PositionTrait(index: map<Bytes, Dict>, ts: seq<Bytes>, p: nat)
    requires p < |All(index, ts)|
    ensures All(index, ts)[p].feature in ts && All(index, ts)[p].key in Seen(index, All(index, ts)[p].feature)
  {
    hide Seen;
    var n := |Seen(index, ts[0])|;
    if p >= n {
      PositionTrait(index, ts[1..], p - n);
      assert All(index, ts)[p] == All(index, ts[1..])[p - n];
    }
  }

  /** Every key seen under a requested trait has a position. */
  lemma {:induction false} KeyPosition(index: map<Bytes, Dict>, ts: seq<Bytes>, t: Bytes, k: Bytes) returns (p: nat)
    requires t in ts && k in Seen(index, t)
    ensures p < |All(index, ts)| && All(index, ts)[p] == Pos(t, k)
  {
    hide Seen;
    if t == ts[0] {
      p := IndexOf(Seen(index, t), k);
    } else {
      p := KeyPosition(index, ts[1..], t, k);
      p := p + |Seen(index, ts[0])|;
    }
  }

  // ---------------------------------------------------------------- a trait requested twice

  /** Two starting points, the same keys, and a full page ends at the same position. */
  ghost predicate SamePage(a: seq<Pos>, b: seq<Pos>, seen: set<Bytes>, limit: nat) {
    var p, q := Collect(a, seen, limit), Collect(b, seen, limit);
    && p.keys == q.keys
    && (|p.keys| == limit > 0 ==> 0 < p.visited <= |a| && 0 < q.visited <= |b| && a[p.visited - 1] == b[q.visited - 1])
  }

  /** Positions whose keys have been seen add nothing. */
  lemma {:induction false} CollectSeen(row: seq<Pos>, rest: seq<Pos>, seen: set<Bytes>, limit: nat)
    requires limit > 0 && forall i :: 0 <= i < |row| ==> row[i].key in seen
    ensures
      var p := Collect(rest, seen, limit);
      Collect(row + rest, seen, limit) == Page(p.keys, |row| + p.visited)
  {
    if row == [] {
      assert row + rest == rest;
    } else {
      assert (row + rest)[1..] == row[1..] + rest;
      CollectSeen(row[1..], rest, seen, limit);
    }
  }

  /** Visiting a list twice in a row is visiting it once. */
  lemma TwiceIsOnce(row: seq<Pos>, rest: seq<Pos>, seen: set<Bytes>, limit: nat)
    ensures SamePage(row + (row + rest), row + rest, seen, limit)
  {
    hide Collect;
    var p := Collect(row, seen, limit);
    CollectFacts(row, seen, limit);
    CollectConcat(row, row + rest, seen, limit);
    CollectConcat(row, rest, seen, limit);
    if |p.keys| < limit {
      var seen', left := seen + SetOf(p.keys), limit - |p.keys|;
      AllCollected(row, seen, limit);
      CollectSeen(row, rest, seen', left);
      CollectFacts(rest, seen', left);
    } else {
      FullPage(row + rest, rest, seen, limit, p);
    }
  }

  lemma FullPage(more: seq<Pos>, rest: seq<Pos>, seen: set<Bytes>, limit: nat, p: Page)
    requires |p.keys| == limit
    ensures Collect(more, seen + SetOf(p.keys), limit - |p.keys|) == Page([], 0)
    ensures Collect(rest, seen + SetOf(p.keys), limit - |p.keys|) == Page([], 0)
  {
  }

  /** After a page that is not full every key of the list has been seen. */
  lemma AllCollected(row: seq<Pos>, seen: set<Bytes>, limit: nat)
    requires |Collect(row, seen, limit).keys| < limit
    ensures forall i :: 0 <= i < |row| ==> row[i].key in seen + SetOf(Collect(row, seen, limit).keys)
  {
    hide Collect;
    CollectFacts(row, seen, limit);
    forall i | 0 <= i < |row|
      ensures row[i].key in seen + SetOf(Collect(row, seen, limit).keys)
    {
      CollectCovers(row, seen, limit, row[i].key);
    }
  }

  /** The same page whether or not traits are repeated. */
  lemma {:induction false} UniqSame(index: map<Bytes, Dict>, ts: seq<Bytes>, start: Pos, seen: set<Bytes>, limit: nat)
    ensures SamePage(From(index, ts, start), From(index, Uniq(ts), start), seen, limit)
  {
    hide Collect, Less;
    if |ts| <= 1 {
      CollectFacts(From(index, ts, start), seen, limit);
    } else {
      var t, us := ts[0], Uniq(ts[1..]);
      var key := if Less(start.feature, t) then [] else start.key;
      var row := Row(t, StartingAt(ListOf(index, t).keys, key));
      var a, b := From(index, ts[1..], start.(key := key)), From(index, us, start.(key := key));
      if t == ts[1] {
        UniqSame(index, ts[1..], start, seen, limit);
        if !Less(t, start.feature) {
          var rest := From(index, ts[1..][1..], start.(key := key));
          assert From(index, ts, start) == row + (row + rest) && From(index, ts[1..], start) == row + rest;
          TwiceIsOnce(row, rest, seen, limit);
        }
      } else if Less(t, start.feature) {
        UniqSame(index, ts[1..], start, seen, limit);
        assert ([t] + us)[1..] == us;
      } else {
        var p := Collect(row, seen, limit);
        CollectFacts(row, seen, limit);
        UniqSame(index, ts[1..], start.(key := key), seen + SetOf(p.keys), limit - |p.keys|);
        assert ([t] + us)[1..] == us;
        SameAfter(row, a, b, seen, limit);
      }
    }
  }

  lemma SameAfter(row: seq<Pos>, a: seq<Pos>, b: seq<Pos>, seen: set<Bytes>, limit: nat)
    requires |Collect(row, seen, limit).keys| <= limit
    requires
      var p := Collect(row, seen, limit);
      SamePage(a, b, seen + SetOf(p.keys), limit - |p.keys|)
    ensures SamePage(row + a, row + b, seen, limit)
  {
    hide Collect;
    CollectFacts(row, seen, limit);
    CollectConcat(row, a, seen, limit);
    CollectConcat(row, b, seen, limit);
  }
}
