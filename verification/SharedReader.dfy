/** The loops that read the trait index, and a client that follows the pages to the end. */
module SharedReader {
  import opened Prelude
  import opened LinkedList
  import opened Order
  import opened SharedModel
  import opened SharedPages

  /** A limit below zero collects nothing. */
  function Cap(limit: int): nat {
    if limit < 0 then 0 else limit
  }

  method SortTraits(traits: seq<Bytes>) returns (ts: seq<Bytes>)
    ensures Ordered(ts) && multiset(ts) == multiset(traits)
  {
    ts := [];
    for i := 0 to |traits|
      invariant Ordered(ts) && multiset(ts) == multiset(traits[..i])
    {
      InsertOrdered(ts, traits[i]);
      ts := Insert(ts, traits[i]);
      assert traits[..i + 1] == traits[..i] + [traits[i]];
    }
    assert traits[..|traits|] == traits;
  }

  /** One trait's list, from `startKey` on. */
  method AppendTraitKeys(index: map<Bytes, Dict>, keys0: seq<Bytes>, seen0: set<Bytes>, limit0: int, t: Bytes, startKey: Bytes)
    returns (keys: seq<Bytes>, seen: set<Bytes>, limit: int, lastKey: Bytes)
    ensures
      var todo := StartingAt(ListOf(index, t).keys, startKey);
      var p := Collect(Row(t, todo), seen0, Cap(limit0));
      && keys == keys0 + p.keys
      && seen == seen0 + SetOf(p.keys)
      && limit == limit0 - |p.keys|
      && p.visited <= |todo|
      && lastKey == if p.visited == 0 then startKey else todo[p.visited - 1]
  {
    hide Ahead, Collect, StartingAt, SetOf;
    var todo := StartingAt(ListOf(index, t).keys, startKey);
    ghost var row := Row(t, todo);
    AheadStart(row, seen0, Cap(limit0));
    keys, seen, limit, lastKey := keys0, seen0, limit0, startKey;
    ghost var got: seq<Bytes> := [];
    SetOfNothing(seen0);
    var i := 0;
    while i < |todo| && limit > 0
      invariant i <= |todo| && keys == keys0 + got && seen == seen0 + SetOf(got) && limit == limit0 - |got|
      invariant limit0 >= 0 ==> limit >= 0
      invariant limit0 < 0 ==> got == []
      invariant lastKey == if i == 0 then startKey else todo[i - 1]
      invariant Ahead(row, i, seen0, Cap(limit0), got, seen, Cap(limit))
    {
      AheadNext(row, i, seen0, Cap(limit0), got, seen, Cap(limit));
      var key := todo[i];
      lastKey := key;
      if key !in seen {
        SetOfSnoc(seen0, got, key);
        seen := seen + {key};
        keys := keys + [key];
        limit := limit - 1;
        got := got + [key];
      }
      i := i + 1;
    }
    AheadDone(row, i, seen0, Cap(limit0), got, seen, Cap(limit));
  }

  /** The positions before `i` contributed `got`; the rest contribute what is collected from here. */
  ghost predicate Ahead(row: seq<Pos>, i: nat, seen0: set<Bytes>, limit0: nat, got: seq<Bytes>, seen: set<Bytes>, limit: nat)
    requires i <= |row|
  {
    var p := Collect(row[i..], seen, limit);
    Collect(row, seen0, limit0) == Page(got + p.keys, i + p.visited)
  }

  lemma AheadNext(row: seq<Pos>, i: nat, seen0: set<Bytes>, limit0: nat, got: seq<Bytes>, seen: set<Bytes>, limit: nat)
    requires i < |row| && limit > 0 && Ahead(row, i, seen0, limit0, got, seen, limit)
    ensures
      var k := row[i].key;
      if k in seen then Ahead(row, i + 1, seen0, limit0, got, seen, limit)
      else Ahead(row, i + 1, seen0, limit0, got + [k], seen + {k}, limit - 1)
  {
    assert row[i..][1..] == row[i + 1..];
    var k := row[i].key;
    if k !in seen {
      var p := Collect(row[i + 1..], seen + {k}, limit - 1);
      assert got + ([k] + p.keys) == got + [k] + p.keys;
    }
  }

  lemma AheadDone(row: seq<Pos>, i: nat, seen0: set<Bytes>, limit0: nat, got: seq<Bytes>, seen: set<Bytes>, limit: nat)
    requires i <= |row| && Ahead(row, i, seen0, limit0, got, seen, limit) && (i == |row| || limit == 0)
    ensures Collect(row, seen0, limit0) == Page(got, i)
  {
    assert got + [] == got;
  }

  lemma SetOfNothing(seen: set<Bytes>)
    ensures seen + SetOf([]) == seen
  {
  }

  lemma SetOfSnoc(seen: set<Bytes>, got: seq<Bytes>, k: Bytes)
    ensures seen + SetOf(got) + {k} == seen + SetOf(got + [k])
  {
  }

  /** Where a page that is not full reports to have stopped: at the end of the last trait's list, or where that began if
      it is empty; at the starting point when every trait comes before it. */
  function EndOf(index: map<Bytes, Dict>, ts: seq<Bytes>, start: Pos): Pos {
    if ts == [] || Less(ts[|ts| - 1], start.feature) then start
    else
      var t := ts[|ts| - 1];
      var from := if Less(start.feature, t) then [] else start.key;
      var listed := StartingAt(ListOf(index, t).keys, from);
      Pos(t, if listed == [] then from else listed[|listed| - 1])
  }

  function FromOf(ts: seq<Bytes>, start: Pos): Bytes {
    if ts != [] && Less(start.feature, ts[|ts| - 1]) then [] else start.key
  }

  /** Where the loop over traits in order stands before and after its next trait. */
  lemma EndNext(index: map<Bytes, Dict>, ts: seq<Bytes>, j: nat, start: Pos)
    requires Ordered(ts) && j < |ts|
    ensures
      var t := ts[j];
      var from := if Less(start.feature, t) then [] else FromOf(ts[..j], start);
      var listed := StartingAt(ListOf(index, t).keys, from);
      && FromOf(ts[..j + 1], start) == (if Less(t, start.feature) then FromOf(ts[..j], start) else from)
      && EndOf(index, ts[..j + 1], start) ==
         if Less(t, start.feature) then EndOf(index, ts[..j], start) else Pos(t, if listed == [] then from else listed[|listed| - 1])
  {
    hide StartingAt;
    assert ts[..j + 1][j] == ts[j];
    LessAsymmetric(ts[j], start.feature);
    if j > 0 {
      assert ts[..j][j - 1] == ts[j - 1] && !Less(ts[j], ts[j - 1]);
      LessTotal(ts[j - 1], ts[j]);
      LessAsymmetric(ts[j - 1], start.feature);
      if Less(ts[j], start.feature) && ts[j - 1] != ts[j] {
        LessTransitive(ts[j - 1], ts[j], start.feature);
      }
      if Less(start.feature, ts[j - 1]) && ts[j - 1] != ts[j] {
        LessTransitive(start.feature, ts[j - 1], ts[j]);
      }
    }
  }

  /** The keys of some traits, in the order given, from a starting point on; and where it stopped. */
  method GetKeys(index: map<Bytes, Dict>, ts: seq<Bytes>, startTrait: Bytes, startKey: Bytes, limit: int)
    returns (keys: seq<Bytes>, lastTrait: Bytes, lastKey: Bytes)
    ensures
      var todo := From(index, ts, Pos(startTrait, startKey));
      var p := Collect(todo, {}, Cap(limit));
      && keys == p.keys
      && (|keys| == limit > 0 ==> 0 < p.visited <= |todo| && Pos(lastTrait, lastKey) == todo[p.visited - 1])
    ensures Ordered(ts) && |keys| < limit ==> Pos(lastTrait, lastKey) == EndOf(index, ts, Pos(startTrait, startKey))
  {
    hide Ahead, Collect, From, StartingAt, Less, SetOf, EndOf, FromOf, Ordered;
    EndStart(index, Pos(startTrait, startKey));
    assert ts[..0] == [];
    keys, lastTrait, lastKey := [], startTrait, startKey;
    var seen, left, from: Bytes := {}, limit, startKey;
    ghost var todo: seq<Pos>, n: nat := From(index, ts, Pos(startTrait, startKey)), 0;
    AheadStart(todo, {}, Cap(limit));
    for j := 0 to |ts|
      invariant n <= |todo| && todo[n..] == From(index, ts[j..], Pos(startTrait, from))
      invariant left == limit - |keys| && (limit > 0 ==> left > 0) && (limit <= 0 ==> keys == [])
      invariant limit > 0 ==> Ahead(todo, n, {}, limit, keys, seen, left)
      invariant Ordered(ts) && limit > 0 ==> StoppedAt(index, ts[..j], Pos(startTrait, startKey), Pos(lastTrait, lastKey), from)
    {
      var t := ts[j];
      if Ordered(ts) {
        EndNext(index, ts, j, Pos(startTrait, startKey));
      }
      FromNext(index, ts, j, startTrait, from);
      if Less(t, startTrait) {
        continue;
      }
      if Less(startTrait, t) {
        from := [];
      }
      ghost var row := Row(t, StartingAt(ListOf(index, t).keys, from));
      ghost var p := Collect(row, seen, Cap(left));
      SplitRow(todo, n, row, From(index, ts[j + 1..], Pos(startTrait, from)));
      PageFacts(row, seen, Cap(left), p);
      if limit > 0 {
        AheadRow(todo, n, row, limit, keys, seen, left, p);
      }
      lastTrait := t;
      keys, seen, left, lastKey := AppendTraitKeys(index, keys, seen, left, t, from);
      if left == 0 {
        NothingLeft(todo, {});
        return;
      }
      n := n + |row|;
    }
    assert ts[..|ts|] == ts;
    if limit > 0 {
      FromNothing(index, ts, Pos(startTrait, from));
      AheadDone(todo, n, {}, limit, keys, seen, left);
    } else {
      NothingLeft(todo, {});
    }
  }

  ghost predicate StoppedAt(index: map<Bytes, Dict>, ts: seq<Bytes>, start: Pos, last: Pos, from: Bytes) {
    last == EndOf(index, ts, start) && from == FromOf(ts, start)
  }

  lemma EndStart(index: map<Bytes, Dict>, start: Pos)
    ensures StoppedAt(index, [], start, start, start.key)
  {
  }

  /** How one trait of the loop splits what is left to visit. */
  lemma FromNext(index: map<Bytes, Dict>, ts: seq<Bytes>, j: nat, startTrait: Bytes, from: Bytes)
    requires j < |ts|
    ensures
      var next := if Less(startTrait, ts[j]) then [] else from;
      From(index, ts[j..], Pos(startTrait, from)) ==
      if Less(ts[j], startTrait) then From(index, ts[j + 1..], Pos(startTrait, from))
      else Row(ts[j], StartingAt(ListOf(index, ts[j]).keys, next)) + From(index, ts[j + 1..], Pos(startTrait, next))
  {
    assert ts[j..][1..] == ts[j + 1..];
  }

  lemma FromNothing(index: map<Bytes, Dict>, ts: seq<Bytes>, start: Pos)
    ensures From(index, ts[|ts|..], start) == []
  {
  }

  lemma AheadStart(todo: seq<Pos>, seen: set<Bytes>, limit: nat)
    ensures Ahead(todo, 0, seen, limit, [], seen, limit)
  {
    assert todo[0..] == todo;
  }

  lemma SplitRow(todo: seq<Pos>, n: nat, row: seq<Pos>, rest: seq<Pos>)
    requires n <= |todo| && todo[n..] == row + rest
    ensures n + |row| <= |todo| && todo[n + |row|..] == rest && todo[n..n + |row|] == row
    ensures forall v :: 0 <= v < |row| ==> todo[n + v] == row[v]
  {
    assert forall v :: 0 <= v < |todo| - n ==> todo[n..][v] == todo[n + v];
  }

  lemma PageFacts(row: seq<Pos>, seen: set<Bytes>, limit: nat, p: Page)
    requires p == Collect(row, seen, limit)
    ensures p.visited <= |row| && |p.keys| <= limit && (|p.keys| == limit > 0 ==> p.visited > 0)
    ensures |p.keys| < limit ==> p.visited == |row|
  {
    CollectFacts(row, seen, limit);
  }

  /** What one trait's list adds to the page: either it fills the page, or the next list takes over. */
  lemma AheadRow(todo: seq<Pos>, n: nat, row: seq<Pos>, limit: nat, keys: seq<Bytes>, seen: set<Bytes>, left: nat, p: Page)
    requires n + |row| <= |todo| && todo[n..n + |row|] == row && left > 0
    requires Ahead(todo, n, {}, limit, keys, seen, left) && p == Collect(row, seen, left) && |p.keys| <= left
    ensures |p.keys| < left ==> Ahead(todo, n + |row|, {}, limit, keys + p.keys, seen + SetOf(p.keys), left - |p.keys|)
    ensures |p.keys| == left ==> Collect(todo, {}, limit) == Page(keys + p.keys, n + p.visited)
  {
    hide Collect, SetOf;
    var rest := todo[n + |row|..];
    assert todo[n..] == row + rest;
    CollectConcat(row, rest, seen, left);
    var q := Collect(rest, seen + SetOf(p.keys), left - |p.keys|);
    assert keys + (p.keys + q.keys) == keys + p.keys + q.keys;
    if |p.keys| == left {
      NothingLeft(rest, seen + SetOf(p.keys));
    }
  }

  lemma NothingLeft(rest: seq<Pos>, seen: set<Bytes>)
    ensures Collect(rest, seen, 0) == Page([], 0)
  {
  }

  // ---------------------------------------------------------------- following the pages

  ghost predicate InPages(pages: seq<seq<Bytes>>, k: Bytes) {
    exists i :: 0 <= i < |pages| && k in pages[i]
  }

  /** The key is where a scan of one of the traits gets to see it. */
  ghost predicate Visible(index: map<Bytes, Dict>, traits: seq<Bytes>, k: Bytes) {
    exists t :: t in traits && k in Seen(index, t)
  }

  /** A full page, resumed from its own end, moves on strictly when the limit is two or more. */
  lemma PageAdvances(index: map<Bytes, Dict>, ts: seq<Bytes>, at: nat, limit: nat, p: Page)
    requires Lists(index) && Sorted(ts) && at <= |All(index, ts)| && limit >= 2
    requires p == Collect(All(index, ts)[at..], {}, limit)
    ensures |p.keys| <= limit && Distinct(p.keys) && at + p.visited <= |All(index, ts)|
    ensures |p.keys| < limit ==> at + p.visited == |All(index, ts)|
    ensures |p.keys| == limit ==> p.visited >= 2 && From(index, ts, All(index, ts)[at..][p.visited - 1]) == All(index, ts)[at + p.visited - 1..]
  {
    hide Collect, From, Lists, Sorted;
    var all := All(index, ts);
    CollectFacts(all[at..], {}, limit);
    if |p.keys| == limit {
      FromPosition(index, ts, at + p.visited - 1);
    }
  }

  /** With limit one, resuming from any position returns that one key and the same position again. */
  lemma LimitOneStays(index: map<Bytes, Dict>, ts: seq<Bytes>, at: nat)
    requires Lists(index) && Sorted(ts) && at < |All(index, ts)|
    ensures
      var todo := From(index, ts, All(index, ts)[at]);
      var p := Collect(todo, {}, 1);
      p == Page([All(index, ts)[at].key], 1) && |todo| > 0 && todo[p.visited - 1] == All(index, ts)[at]
  {
    hide From, Lists, Sorted;
    FromPosition(index, ts, at);
    var todo := From(index, ts, All(index, ts)[at]);
    assert todo[0] == All(index, ts)[at];
    NothingLeft(todo[1..], {todo[0].key});
    assert {} + {todo[0].key} == {todo[0].key};
  }

  /** The pages so far hold exactly the keys at positions before `end`. */
  ghost predicate Covers(pages: seq<seq<Bytes>>, all: seq<Pos>, end: nat)
    requires end <= |all|
  {
    forall k :: InPages(pages, k) <==> VisitedBefore(all, end, k)
  }

  ghost predicate VisitedBefore(all: seq<Pos>, end: nat, k: Bytes)
    requires end <= |all|
  {
    exists i :: 0 <= i < end && all[i].key == k
  }

  lemma CoversNext(pages: seq<seq<Bytes>>, all: seq<Pos>, at: nat, end: nat, limit: nat, p: Page)
    requires at <= end <= |all| && Covers(pages, all, end)
    requires p == Collect(all[at..], {}, limit) && end <= at + p.visited <= |all|
    ensures Covers(pages + [p.keys], all, at + p.visited)
  {
    hide Collect;
    var end' := at + p.visited;
    forall k
      ensures InPages(pages + [p.keys], k) <==> VisitedBefore(all, end', k)
    {
      CollectCovers(all[at..], {}, limit, k);
      InPagesSnoc(pages, p.keys, k);
      VisitedSplit(all, at, end, p.visited, k);
      assert InPages(pages, k) <==> VisitedBefore(all, end, k);
    }
  }

  lemma InPagesSnoc(pages: seq<seq<Bytes>>, page: seq<Bytes>, k: Bytes)
    ensures InPages(pages + [page], k) <==> InPages(pages, k) || k in page
  {
    var all := pages + [page];
    if InPages(pages, k) {
      var i :| 0 <= i < |pages| && k in pages[i];
      assert all[i] == pages[i];
    }
    if k in page {
      assert all[|pages|] == page;
    }
  }

  lemma VisitedSplit(all: seq<Pos>, at: nat, end: nat, n: nat, k: Bytes)
    requires at <= end <= at + n <= |all|
    ensures VisitedBefore(all, at + n, k) <==>
            VisitedBefore(all, end, k) || exists i :: 0 <= i < n && all[at..][i].key == k
  {
    if i :| 0 <= i < n && all[at..][i].key == k {
      assert all[at + i].key == k;
    }
    if i :| 0 <= i < at + n && all[i].key == k && i >= end {
      assert all[at..][i - at].key == k;
    }
  }

  /** All positions visited means all visible keys read. */
  lemma CoversVisible(index: map<Bytes, Dict>, traits: seq<Bytes>, ts: seq<Bytes>, pages: seq<seq<Bytes>>)
    requires forall t :: t in ts <==> t in traits
    requires CoversTo(index, ts, pages, |All(index, ts)|)
    ensures forall k :: InPages(pages, k) <==> Visible(index, traits, k)
  {
    hide Seen;
    var all := All(index, ts);
    forall k
      ensures InPages(pages, k) <==> Visible(index, traits, k)
    {
      assert InPages(pages, k) <==> VisitedBefore(all, |all|, k);
      if i :| 0 <= i < |all| && all[i].key == k {
        PositionTrait(index, ts, i);
        assert all[i].feature in traits;
      }
      if t :| t in traits && k in Seen(index, t) {
        var i := KeyPosition(index, ts, t, k);
        assert all[i].key == k;
      }
    }
  }

  /** Pages within the limit and without repeats, all but the last full. */
  ghost predicate Proper(pages: seq<seq<Bytes>>, limit: nat) {
    && (forall i :: 0 <= i < |pages| ==> |pages[i]| <= limit && Distinct(pages[i]))
    && (forall i :: 0 <= i < |pages| - 1 ==> |pages[i]| == limit)
  }

  lemma ProperNext(pages: seq<seq<Bytes>>, page: seq<Bytes>, limit: nat)
    requires Proper(pages, limit) && |page| <= limit && Distinct(page)
    requires pages != [] ==> |pages[|pages| - 1]| == limit
    ensures Proper(pages + [page], limit)
  {
  }

  /** The client's next call starts at position `at` of the requested lists. */
  ghost predicate At(index: map<Bytes, Dict>, ts: seq<Bytes>, start: Pos, at: nat) {
    at <= |All(index, ts)| && From(index, ts, start) == All(index, ts)[at..]
  }

  ghost predicate CoversTo(index: map<Bytes, Dict>, ts: seq<Bytes>, pages: seq<seq<Bytes>>, end: nat) {
    end <= |All(index, ts)| && Covers(pages, All(index, ts), end)
  }

  /** One call of a client whose last page ended at the position the call starts at. Positions are those of the
      traits without repetitions. */
  method NextPage(index: map<Bytes, Dict>, ts: seq<Bytes>, startTrait: Bytes, startKey: Bytes, limit: nat,
                  ghost us: seq<Bytes>, ghost pages: seq<seq<Bytes>>, ghost at: nat, ghost end: nat)
    returns (page: seq<Bytes>, lastTrait: Bytes, lastKey: Bytes, ghost end': nat)
    requires Lists(index) && us == Uniq(ts) && Sorted(us) && limit >= 2
    requires At(index, us, Pos(startTrait, startKey), at) && at <= end <= at + 1 && CoversTo(index, us, pages, end)
    ensures |page| <= limit && Distinct(page)
    ensures CoversTo(index, us, pages + [page], end')
    ensures |page| < limit ==> end' == |All(index, us)|
    ensures |page| == limit ==> end' > end && At(index, us, Pos(lastTrait, lastKey), end' - 1)
  {
    hide From, All, Collect, Lists, Sorted, Distinct, Covers, Uniq;
    page, lastTrait, lastKey := GetKeys(index, ts, startTrait, startKey, limit);
    UniqSame(index, ts, Pos(startTrait, startKey), {}, limit);
    ghost var p := Collect(All(index, us)[at..], {}, limit);
    PageAdvances(index, us, at, limit, p);
    end' := at + p.visited;
    CoversNext(pages, All(index, us), at, end, limit, p);
  }

  /** Feeding each full page's end back as the next start reads, in finitely many pages, exactly the visible keys of
      the requested traits. */
  method ReadAll(index: map<Bytes, Dict>, traits: seq<Bytes>, limit: nat) returns (pages: seq<seq<Bytes>>)
    requires Lists(index) && limit >= 2
    ensures Proper(pages, limit)
    ensures forall k :: InPages(pages, k) <==> Visible(index, traits, k)
  {
    hide *;
    var ts := SortTraits(traits);
    ghost var us := Uniq(ts);
    Unrepeated(traits, ts);
    AtStart(index, us, limit);
    var lastTrait, lastKey: Bytes := [], [];
    ghost var at: nat, end: nat := 0, 0;
    var more := true;
    pages := [];
    while more
      invariant Proper(pages, limit) && CoversTo(index, us, pages, end)
      invariant more ==> At(index, us, Pos(lastTrait, lastKey), at) && at <= end <= at + 1
      invariant more && pages != [] ==> |pages[|pages| - 1]| == limit
      invariant !more ==> end == |All(index, us)|
      decreases more, |All(index, us)| - end
    {
      EndInRange(index, us, pages, end);
      var page;
      ghost var end';
      page, lastTrait, lastKey, end' := NextPage(index, ts, lastTrait, lastKey, limit, us, pages, at, end);
      ProperNext(pages, page, limit);
      pages := pages + [page];
      more := |page| == limit;
      end := end';
      at := if more then end - 1 else at;
    }
    CoversVisible(index, traits, us, pages);
  }

  lemma Unrepeated(traits: seq<Bytes>, ts: seq<Bytes>)
    requires Ordered(ts) && multiset(ts) == multiset(traits)
    ensures Sorted(Uniq(ts)) && forall t :: t in Uniq(ts) <==> t in traits
  {
    UniqFacts(ts);
    assert forall t :: t in ts <==> t in multiset(ts);
    assert forall t :: t in traits <==> t in multiset(traits);
  }

  lemma EndInRange(index: map<Bytes, Dict>, ts: seq<Bytes>, pages: seq<seq<Bytes>>, end: nat)
    requires CoversTo(index, ts, pages, end)
    ensures end <= |All(index, ts)|
  {
  }

  lemma AtStart(index: map<Bytes, Dict>, ts: seq<Bytes>, limit: nat)
    ensures At(index, ts, Pos([], []), 0) && CoversTo(index, ts, [], 0) && Proper([], limit)
  {
    FromStart(index, ts, []);
    assert forall k :: !InPages([], k);
  }
}
