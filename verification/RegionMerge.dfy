/** The cross-region aggregator: concatenate every region's own top N, sort by score, keep N, and
    submit the result to the global board. */
module RegionMerge {
  import opened Wrappers
  import opened F64
  import opened ScoreKeys
  import opened Sequences
  import opened Leaderboard

  datatype Row = Row(player: string, score: Bits, region: string)

  function Value(r: Row): int { Scaled(r.score) }

  // ---- The stable descending sort ---------------------------------------------------------------

  /** The first index whose score is below `v`. */
  function CutPoint(t: seq<Row>, v: int): (n: nat)
    ensures n <= |t|
    ensures forall i :: 0 <= i < n ==> Value(t[i]) >= v
    ensures n < |t| ==> Value(t[n]) < v
  {
    if t == [] || Value(t[0]) < v then 0 else 1 + CutPoint(t[1..], v)
  }

  /** A row goes behind the rows that score at least as much: ties keep their order. */
  function Put(t: seq<Row>, x: Row): seq<Row> {
    var n := CutPoint(t, Value(x));
    t[..n] + [x] + t[n..]
  }

  function SortOnto(t: seq<Row>, s: seq<Row>): seq<Row>
    decreases |s|
  {
    if s == [] then t else SortOnto(Put(t, s[0]), s[1..])
  }

  function SortDescending(s: seq<Row>): seq<Row> { SortOnto([], s) }

  ghost predicate Descending(s: seq<Row>) {
    forall i, j :: 0 <= i <= j < |s| ==> Value(s[i]) >= Value(s[j])
  }

  lemma {:induction false} SortSorts(t: seq<Row>, s: seq<Row>)
    requires Descending(t)
    ensures Descending(SortOnto(t, s))
    ensures multiset(SortOnto(t, s)) == multiset(t) + multiset(s)
    decreases |s|
  {
    if s != [] {
      PutSorts(t, s[0]);
      assert s == [s[0]] + s[1..];
      SortSorts(Put(t, s[0]), s[1..]);
    }
  }

  lemma Halves(t: seq<Row>, n: nat)
    requires Descending(t) && n <= |t|
    ensures Descending(t[..n]) && Descending(t[n..]) && multiset(t) == multiset(t[..n]) + multiset(t[n..])
    ensures forall j :: 0 <= j < |t[n..]| ==> Value(t[n]) >= Value(t[n..][j])
  {
    hide Value;
    assert t == t[..n] + t[n..];
  }

  lemma PutSorts(t: seq<Row>, x: Row)
    requires Descending(t)
    ensures Descending(Put(t, x)) && multiset(Put(t, x)) == multiset(t) + multiset{x}
  {
    hide Value, CutPoint, Descending;
    var n := CutPoint(t, Value(x));
    Halves(t, n);
    SpliceDescending(t[..n], x, t[n..]);
  }

  lemma SpliceDescending(a: seq<Row>, x: Row, b: seq<Row>)
    requires Descending(a) && Descending(b)
    requires forall i :: 0 <= i < |a| ==> Value(a[i]) >= Value(x)
    requires forall j :: 0 <= j < |b| ==> Value(x) >= Value(b[j])
    ensures Descending(a + [x] + b)
  {
    hide Value;
    var t := a + [x] + b;
    forall i, j | 0 <= i <= j < |t| ensures Value(t[i]) >= Value(t[j]) {
      if i < |a| <= j { assert Value(t[i]) >= Value(x) >= Value(t[j]); }
    }
  }

  lemma {:induction false} SortConcat(t: seq<Row>, a: seq<Row>, b: seq<Row>)
    ensures SortOnto(t, a + b) == SortOnto(SortOnto(t, a), b)
    decreases |a|
  {
    if a == [] {
      assert a + b == b;
    } else {
      assert (a + b)[1..] == a[1..] + b;
      SortConcat(Put(t, a[0]), a[1..], b);
    }
  }

  // ---- Cutting early loses nothing ----------------------------------------------------------------

  lemma {:induction false} CutPointInPrefix(t: seq<Row>, v: int, n: nat)
    requires n <= |t|
    ensures CutPoint(t[..n], v) == if CutPoint(t, v) <= n then CutPoint(t, v) else n
  {
    if n > 0 && Value(t[0]) >= v {
      assert t[..n][1..] == t[1..][..n - 1];
      CutPointInPrefix(t[1..], v, n - 1);
    }
  }

  lemma CutPut(t: seq<Row>, x: Row, n: nat)
    ensures Take(Put(t, x), n) == Take(Put(Take(t, n), x), n)
  {
    var c := CutPoint(t, Value(x));
    if |t| > n { CutPointInPrefix(t, Value(x), n); }
    hide Value, CutPoint, Take;
    CutSplice(t, x, c, n);
  }

  lemma {:induction false} CutOnto(t: seq<Row>, s: seq<Row>, n: nat)
    ensures Take(SortOnto(t, s), n) == Take(SortOnto(Take(t, n), s), n)
    decreases |s|
  {
    if s == [] {
      assert Take(Take(t, n), n) == Take(t, n);
    } else {
      CutPut(t, s[0], n);
      CutOnto(Put(t, s[0]), s[1..], n);
      CutOnto(Put(Take(t, n), s[0]), s[1..], n);
    }
  }

  ghost predicate AtLeast(t: seq<Row>, m: nat, v: int) {
    m <= |t| && forall i :: 0 <= i < m ==> Value(t[i]) >= v
  }

  lemma PutAtLeast(t: seq<Row>, m: nat, v: int, x: Row)
    requires AtLeast(t, m, v) && Value(x) >= v
    ensures AtLeast(Put(t, x), m + 1, v)
  {
    var n, t' := CutPoint(t, Value(x)), Put(t, x);
    hide Value;
    forall i | 0 <= i < m + 1 ensures Value(t'[i]) >= v {
      assert t'[i] == if i < n then t[i] else if i == n then x else t[i - 1];
    }
  }

  lemma {:induction false} OntoAtLeast(t: seq<Row>, m: nat, v: int, s: seq<Row>)
    requires AtLeast(t, m, v) && forall i :: 0 <= i < |s| ==> Value(s[i]) >= v
    ensures AtLeast(SortOnto(t, s), m + |s|, v)
    decreases |s|
  {
    if s != [] {
      PutAtLeast(t, m, v, s[0]);
      OntoAtLeast(Put(t, s[0]), m + 1, v, s[1..]);
    }
  }

  /** Rows of a region past its first `n` cannot reach the first `n` of the merge. */
  lemma {:induction false} RegionTail(t: seq<Row>, s: seq<Row>, n: nat)
    requires forall i :: 0 <= i < |s| ==> AtLeast(t, n, Value(s[i]))
    ensures Take(SortOnto(t, s), n) == Take(t, n)
    decreases |s|
  {
    if s != [] {
      var t', p := Put(t, s[0]), CutPoint(t, Value(s[0]));
      assert p >= n;
      assert Take(t', n) == Take(t, n);
      forall i | 0 <= i < |s[1..]| ensures AtLeast(t', n, Value(s[1..][i])) {
        assert AtLeast(t, n, Value(s[i + 1]));
        forall j | 0 <= j < n ensures Value(t'[j]) >= Value(s[i + 1]) { assert t'[j] == t[j]; }
      }
      RegionTail(t', s[1..], n);
    }
  }

  lemma OneRegion(t: seq<Row>, a: seq<Row>, n: nat)
    requires Descending(a)
    ensures Take(SortOnto(t, a), n) == Take(SortOnto(t, Take(a, n)), n)
  {
    if |a| > n {
      var head, tail := a[..n], a[n..];
      assert a == head + tail;
      SortConcat(t, head, tail);
      forall i | 0 <= i < |tail| ensures AtLeast(SortOnto(t, head), n, Value(tail[i])) {
        assert forall j :: 0 <= j < n ==> Value(head[j]) >= Value(a[n + i]);
        OntoAtLeast(t, 0, Value(tail[i]), head);
      }
      RegionTail(SortOnto(t, head), tail, n);
    }
  }

  function Flatten(regions: seq<seq<Row>>): seq<Row> {
    if regions == [] then [] else regions[0] + Flatten(regions[1..])
  }

  function TopEach(regions: seq<seq<Row>>, n: nat): seq<seq<Row>> {
    if regions == [] then [] else [Take(regions[0], n)] + TopEach(regions[1..], n)
  }

  lemma {:induction false} MergeOnto(t: seq<Row>, regions: seq<seq<Row>>, n: nat)
    requires forall i :: 0 <= i < |regions| ==> Descending(regions[i])
    ensures Take(SortOnto(t, Flatten(TopEach(regions, n))), n)
            == Take(SortOnto(t, Flatten(regions)), n)
    decreases |regions|
  {
    if regions != [] {
      var a, rest := regions[0], Flatten(regions[1..]);
      var a', rest' := Take(a, n), Flatten(TopEach(regions[1..], n));
      assert TopEach(regions, n)[0] == a' && TopEach(regions, n)[1..] == TopEach(regions[1..], n);
      SortConcat(t, a, rest);
      SortConcat(t, a', rest');
      MergeOnto(SortOnto(t, a'), regions[1..], n);
      OneRegion(t, a, n);
      CutOnto(SortOnto(t, a), rest, n);
      CutOnto(SortOnto(t, a'), rest, n);
    }
  }

  function Merge(tops: seq<Row>, n: nat): seq<Row> { Take(SortDescending(tops), n) }

  /** Merging every region's own top `n` gives the same rows in the same order, ties included, as
      merging the whole boards. */
  lemma MergeOfTopsIsMergeOfBoards(regions: seq<seq<Row>>, n: nat)
    requires forall i :: 0 <= i < |regions| ==> Descending(regions[i])
    ensures Merge(Flatten(TopEach(regions, n)), n) == Merge(Flatten(regions), n)
  {
    MergeOnto([], regions, n);
  }

  // ---- From boards to regions -----------------------------------------------------------------------

  function RowOf(r: Ranked, region: string): Row { Row(r.entry.player, r.entry.score, region) }

  function RowsOf(listing: seq<Ranked>, region: string): (s: seq<Row>)
    ensures |s| == |listing|
    ensures forall i :: 0 <= i < |s| ==> s[i] == RowOf(listing[i], region)
  {
    seq(|listing|, i requires 0 <= i < |listing| => RowOf(listing[i], region))
  }

  /** A highest-first board lists its scores in descending numeric order. */
  lemma BoardListsDescending(d: Board, count: nat, region: string)
    requires Consistent(d) && d.config.order.HighestFirst?
    requires forall x :: x in d.entries ==> !IsNaN(x.entry.score)
    ensures Descending(RowsOf(Listing(d.entries, 1, count), region))
  {
    var s := RowsOf(Listing(d.entries, 1, count), region);
    forall i, j | 0 <= i <= j < |s| ensures Value(s[i]) >= Value(s[j]) {
      var a, b := d.entries[i], d.entries[j];
      assert SlotOk(HighestFirst, a) && SlotOk(HighestFirst, b);
      if i < j {
        assert Less(a.key, b.key);
        EncodedOrderIsNumericOrder(b.entry.score, a.entry.score, HighestFirst);
      }
    }
  }

  /** A region's top `n` is the first `n` rows of its whole board. */
  lemma TopIsTruncated(s: seq<Slot>, n: nat, region: string)
    ensures RowsOf(Listing(s, 1, n), region) == Take(RowsOf(Listing(s, 1, |s|), region), n)
  {}

  /** The rows of a whole board, and its top `n`. */
  function AllRows(d: Board, region: string): seq<Row> { RowsOf(Listing(d.entries, 1, |d.entries|), region) }

  function TopRows(d: Board, region: string, n: nat): seq<Row> { RowsOf(Listing(d.entries, 1, n), region) }

  ghost predicate Mergeable(d: Board) {
    Consistent(d) && d.config.order.HighestFirst? && forall x :: x in d.entries ==> !IsNaN(x.entry.score)
  }

  function Everything(boards: seq<Board>, regions: seq<string>): seq<seq<Row>>
    requires |boards| == |regions|
  {
    seq(|boards|, i requires 0 <= i < |boards| => AllRows(boards[i], regions[i]))
  }

  // ---- The aggregation run ----------------------------------------------------------------------------

  function Collected(fetched: seq<Option<seq<Row>>>): seq<Row> {
    if fetched == [] then []
    else Collected(fetched[..|fetched| - 1])
         + match fetched[|fetched| - 1] case Some(rows) => rows case None => []
  }

  function SubmitAll(d: Board, rows: seq<Row>, now: nat): Board {
    if rows == [] then d
    else
      var r := rows[|rows| - 1];
      Submit(SubmitAll(d, rows[..|rows| - 1], now), Submission(r.player, r.score, Some(r.region), now))
  }

  /** One cycle: only the global board changes, and it takes the merged rows in order. A region whose
      fetch failed contributes nothing. */
  method Aggregate(engine: LeaderboardEngine, name: string, myRegion: string,
                   fetched: seq<Option<seq<Row>>>, topN: nat, now: nat)
    requires engine.Valid()
    modifies engine
    ensures engine.Valid()
    ensures var before := old(engine.boards);
            var local := if name in before then RowsOf(Listing(before[name].entries, 1, topN), myRegion) else [];
            var target := name + "_global";
            var start := if target in before then before[target]
                         else Fresh(Config(target, HighestFirst, topN));
            engine.boards == before[target := SubmitAll(start, Merge(local + Collected(fetched), topN), now)]
  {
    hide Consistent, Merge, SubmitAll, Listing;
    var local: seq<Row> := [];
    var top := engine.Top(name, topN);
    if top.Ok? { local := RowsOf(top.value, myRegion); }
    var all := Gather(local, fetched, topN);
    var target := name + "_global";
    if target !in engine.boards { engine.CreateBoard(Config(target, HighestFirst, topN)); }
    SubmitRows(engine, target, all, now);
  }

  /** With every fetch answered, the rows a cycle submits are the best `topN` of all boards together. */
  lemma CycleTakesTheBest(boards: seq<Board>, regions: seq<string>, fetched: seq<Option<seq<Row>>>, topN: nat)
    requires |boards| == |regions| == |fetched| + 1 && forall i :: 0 <= i < |boards| ==> Mergeable(boards[i])
    requires forall i :: 0 <= i < |fetched| ==> fetched[i] == Some(TopRows(boards[i + 1], regions[i + 1], topN))
    ensures Merge(TopRows(boards[0], regions[0], topN) + Collected(fetched), topN)
            == Merge(Flatten(Everything(boards, regions)), topN)
  {
    var all := Everything(boards, regions);
    forall i | 0 <= i < |all| ensures Descending(all[i]) {
      assert Mergeable(boards[i]);
      BoardListsDescending(boards[i], |boards[i].entries|, regions[i]);
    }
    MergeOfTopsIsMergeOfBoards(all, topN);
    hide Mergeable, Merge, Descending, TopRows, AllRows;
    forall i | 0 <= i < |boards| ensures TopRows(boards[i], regions[i], topN) == Take(all[i], topN) {
      TopRowsAreTaken(boards[i], regions[i], topN);
    }
    CollectedTops(all[1..], fetched, topN);
  }

  lemma TopRowsAreTaken(d: Board, region: string, n: nat)
    ensures TopRows(d, region, n) == Take(AllRows(d, region), n)
  {
    TopIsTruncated(d.entries, n, region);
  }

  lemma {:induction false} CollectedTops(all: seq<seq<Row>>, fetched: seq<Option<seq<Row>>>, n: nat)
    requires |all| == |fetched| && forall i :: 0 <= i < |all| ==> fetched[i] == Some(Take(all[i], n))
    ensures Collected(fetched) == Flatten(TopEach(all, n))
  {
    if all != [] {
      var init := |all| - 1;
      CollectedTops(all[..init], fetched[..init], n);
      TopsOfLast(all[..init], all[init], n);
      assert all[..init] + [all[init]] == all;
    }
  }

  lemma {:induction false} TopsOfLast(all: seq<seq<Row>>, last: seq<Row>, n: nat)
    ensures Flatten(TopEach(all + [last], n)) == Flatten(TopEach(all, n)) + Take(last, n)
  {
    if all == [] {
      assert all + [last] == [last] && [last][1..] == [];
      assert Take(last, n) + [] == Take(last, n);
    } else {
      assert (all + [last])[1..] == all[1..] + [last];
      TopsOfLast(all[1..], last, n);
      assert ([Take(all[0], n)] + TopEach(all[1..] + [last], n))[1..] == TopEach(all[1..] + [last], n);
      assert ([Take(all[0], n)] + TopEach(all[1..], n))[1..] == TopEach(all[1..], n);
    }
  }

  method Gather(local: seq<Row>, fetched: seq<Option<seq<Row>>>, topN: nat) returns (all: seq<Row>)
    ensures all == Merge(local + Collected(fetched), topN)
  {
    all := local;
    for i := 0 to |fetched|
      invariant all == local + Collected(fetched[..i])
    {
      assert fetched[..i + 1][..i] == fetched[..i];
      if fetched[i].Some? { all := all + fetched[i].value; }
    }
    assert fetched[..|fetched|] == fetched;
    all := SortDescending(all);
    all := Take(all, topN);
  }

  method SubmitRows(engine: LeaderboardEngine, target: string, rows: seq<Row>, now: nat)
    requires engine.Valid() && target in engine.boards
    modifies engine
    ensures engine.Valid()
    ensures engine.boards == old(engine.boards)[target := SubmitAll(old(engine.boards)[target], rows, now)]
  {
    hide Submit, engine.Valid;
    ghost var before := engine.boards;
    for i := 0 to |rows|
      invariant engine.Valid()
      invariant engine.boards == before[target := SubmitAll(before[target], rows[..i], now)]
    {
      var row := rows[i];
      assert rows[..i + 1][..i] == rows[..i];
      var _ := engine.SubmitScore(target, Submission(row.player, row.score, Some(row.region), now));
    }
    assert rows[..|rows|] == rows;
  }
}
