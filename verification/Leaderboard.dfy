/** The leaderboard engine: a sorted map from score keys to entries, and an index from players
    to their key. The sorted map is a sequence of slots in strictly increasing key order. */
module Leaderboard {
  import opened Wrappers
  import opened F64
  import opened ScoreKeys

  datatype Config = Config(name: string, order: SortOrder, maxEntries: nat)
  datatype Entry = Entry(player: string, score: Bits, metadata: Option<string>, updatedAt: nat)
  datatype Slot = Slot(key: ScoreKey, entry: Entry)
  datatype Board = Board(config: Config, entries: seq<Slot>, playerIndex: map<string, ScoreKey>)
  datatype Submission = Submission(player: string, score: Bits, metadata: Option<string>, now: nat)
  /** What a rank query answers; the percentile is a function of the rank and the total. */
  datatype RankInfo = RankInfo(rank: nat, score: Bits, total: nat) {
    function Percentile(): real
      requires rank <= total
    {
      if total <= 1 then 100.0 else ((total - rank) as real / (total - 1) as real) * 100.0
    }
  }

  datatype Error = BoardNotFound | PlayerNotFound | Evicted | InvalidRange

  // ---- The sorted map ------------------------------------------------------------------------

  ghost predicate Sorted(s: seq<Slot>) {
    forall i, j :: 0 <= i < j < |s| ==> Less(s[i].key, s[j].key)
  }

  /** How many keys of the map come before `k`. */
  function Position(s: seq<Slot>, k: ScoreKey): (n: nat)
    ensures n <= |s|
    ensures forall i :: 0 <= i < n ==> Less(s[i].key, k)
    ensures n < |s| ==> !Less(s[n].key, k)
  {
    if s == [] || !Less(s[0].key, k) then 0 else 1 + Position(s[1..], k)
  }

  lemma PositionIs(s: seq<Slot>, k: ScoreKey, i: nat)
    requires Sorted(s) && i < |s| && s[i].key == k
    ensures Position(s, k) == i
  {
    LessTotal(k, k);
  }

  function Contains(s: seq<Slot>, k: ScoreKey): bool {
    Position(s, k) < |s| && s[Position(s, k)].key == k
  }

  function Insert(s: seq<Slot>, x: Slot): seq<Slot> {
    var i := Position(s, x.key);
    if Contains(s, x.key) then s[i := x] else s[..i] + [x] + s[i..]
  }

  function Remove(s: seq<Slot>, k: ScoreKey): seq<Slot> {
    var i := Position(s, k);
    if Contains(s, k) then s[..i] + s[i + 1..] else s
  }

  /** Everything past the position of `k` comes strictly after it, unless it is `k` itself. */
  lemma AfterPosition(s: seq<Slot>, k: ScoreKey)
    requires Sorted(s)
    ensures forall j :: Position(s, k) <= j < |s| ==> s[j].key == k || Less(k, s[j].key)
    ensures forall j :: Position(s, k) < j < |s| ==> Less(k, s[j].key)
  {
    var n := Position(s, k);
    if n < |s| {
      LessTotal(s[n].key, k);
      forall j | n < j < |s| ensures Less(k, s[j].key) {
        if s[n].key != k { LessTransitive(k, s[n].key, s[j].key); }
      }
    }
  }

  lemma InsertSorted(s: seq<Slot>, x: Slot)
    requires Sorted(s)
    ensures Sorted(Insert(s, x))
  {
    AfterPosition(s, x.key);
  }

  /** A board nobody has submitted to. */
  function Fresh(config: Config): Board { Board(config, [], map[]) }

  // ---- What one submission does to a board ----------------------------------------------------

  function Dominated(order: SortOrder, score: Bits, existing: Bits): bool {
    match order
    case HighestFirst => Le(score, existing)
    case LowestFirst => Le(existing, score)
  }

  function KeyOf(d: Board, sub: Submission): ScoreKey {
    NewKey(sub.score, d.config.order, sub.now, sub.player)
  }

  function SlotOf(d: Board, sub: Submission): Slot {
    Slot(KeyOf(d, sub), Entry(sub.player, sub.score, sub.metadata, sub.now))
  }

  /** The player is on the board with a score at least as good. */
  predicate Kept(d: Board, sub: Submission) {
    sub.player in d.playerIndex
    && Dominated(d.config.order, sub.score,
                 Decode(d.playerIndex[sub.player].encoded, d.config.order))
  }

  function Withdraw(d: Board, player: string): Board {
    if player in d.playerIndex
    then d.(entries := Remove(d.entries, d.playerIndex[player]), playerIndex := d.playerIndex - {player})
    else d
  }

  /** The board before the size cap is enforced. */
  function Place(d: Board, sub: Submission): Board {
    if Kept(d, sub) then d
    else
      var w, slot := Withdraw(d, sub.player), SlotOf(d, sub);
      w.(entries := Insert(w.entries, slot), playerIndex := w.playerIndex[sub.player := slot.key])
  }

  function EvictLast(d: Board): Board
    requires d.entries != []
  {
    var worst := d.entries[|d.entries| - 1];
    d.(entries := d.entries[..|d.entries| - 1], playerIndex := d.playerIndex - {worst.key.player})
  }

  function Evict(d: Board): Board
    decreases |d.entries|
  {
    if |d.entries| > d.config.maxEntries then Evict(EvictLast(d)) else d
  }

  /** The board after a submission: the eviction loop runs only when something was placed. */
  function Submit(d: Board, sub: Submission): Board {
    if Kept(d, sub) then d else Evict(Place(d, sub))
  }

  /** The 1-based rank: one more than the number of keys before `k`. */
  function Rank(d: Board, k: ScoreKey): nat { Position(d.entries, k) + 1 }

  function InfoAt(d: Board, k: ScoreKey): RankInfo {
    RankInfo(Rank(d, k), Decode(k.encoded, d.config.order), |d.entries|)
  }

  function SubmitResult(d: Board, sub: Submission): Result<RankInfo, Error> {
    var d' := Submit(d, sub);
    if sub.player in d'.playerIndex then Ok(InfoAt(d', d'.playerIndex[sub.player])) else Err(Evicted)
  }

  // ---- The invariant of a board -----------------------------------------------------------------

  ghost predicate SlotOk(order: SortOrder, x: Slot) {
    x.key == NewKey(x.entry.score, order, x.entry.updatedAt, x.entry.player)
  }

  ghost predicate Holds(s: seq<Slot>, k: ScoreKey) {
    exists i :: 0 <= i < |s| && s[i].key == k
  }

  lemma HoldsIsContains(s: seq<Slot>, k: ScoreKey)
    requires Sorted(s)
    ensures Holds(s, k) <==> Contains(s, k)
  {
    if Holds(s, k) {
      var i :| 0 <= i < |s| && s[i].key == k;
      PositionIs(s, k, i);
    }
  }

  /** The entries and the player index are inverse to each other, and every key is the key of its
      entry. */
  ghost predicate Linked(d: Board) {
    && Sorted(d.entries)
    && (forall i :: 0 <= i < |d.entries| ==> SlotOk(d.config.order, d.entries[i]))
    && (forall i :: 0 <= i < |d.entries| ==>
          var k := d.entries[i].key; k.player in d.playerIndex && d.playerIndex[k.player] == k)
    && (forall p :: p in d.playerIndex ==>
          d.playerIndex[p].player == p && Holds(d.entries, d.playerIndex[p]))
  }

  ghost predicate Consistent(d: Board) {
    Linked(d) && |d.entries| <= d.config.maxEntries
  }

  /** What removing a held key leaves, index by index. */
  lemma RemoveAt(s: seq<Slot>, k: ScoreKey)
    requires Sorted(s) && Holds(s, k)
    ensures var i := Position(s, k);
            i < |s| && s[i].key == k && Remove(s, k) == s[..i] + s[i + 1..]
  {
    HoldsIsContains(s, k);
  }

  function Drop(d: Board, n: nat): Board
    requires n < |d.entries|
  {
    d.(entries := d.entries[..n] + d.entries[n + 1..],
       playerIndex := d.playerIndex - {d.entries[n].key.player})
  }

  /** No two slots belong to one player. */
  lemma PlayersDistinct(d: Board, i: nat, j: nat)
    requires Linked(d) && i < |d.entries| && j < |d.entries| && i != j
    ensures d.entries[i].key.player != d.entries[j].key.player
  {
    var a, b := d.entries[i].key, d.entries[j].key;
    assert Less(a, b) || Less(b, a);
    LessTotal(a, b);
  }

  lemma DropSorted(s: seq<Slot>, n: nat)
    requires Sorted(s) && n < |s|
    ensures Sorted(s[..n] + s[n + 1..])
  {
    var t := s[..n] + s[n + 1..];
    assert forall i :: 0 <= i < |t| ==> t[i] == s[if i < n then i else i + 1];
  }

  lemma DropHolds(d: Board, n: nat, p: string)
    requires n < |d.entries| && p in d.playerIndex && Holds(d.entries, d.playerIndex[p])
    requires d.playerIndex[p].player == p && p != d.entries[n].key.player
    ensures Holds(Drop(d, n).entries, d.playerIndex[p])
  {
    var i :| 0 <= i < |d.entries| && d.entries[i].key == d.playerIndex[p];
    assert Drop(d, n).entries[if i < n then i else i - 1].key == d.playerIndex[p];
  }

  lemma DropLinked(d: Board, n: nat)
    requires Linked(d) && n < |d.entries|
    ensures Linked(Drop(d, n)) && d.entries[n].key.player !in Drop(d, n).playerIndex
  {
    hide Less, SlotOk, Sorted, Holds;
    var e := Drop(d, n);
    DropSorted(d.entries, n);
    assert forall i :: 0 <= i < |e.entries| ==> e.entries[i] == d.entries[if i < n then i else i + 1];
    forall p | p in e.playerIndex ensures Holds(e.entries, e.playerIndex[p]) { DropHolds(d, n, p); }
    forall i | 0 <= i < |e.entries|
      ensures var k := e.entries[i].key; k.player in e.playerIndex && e.playerIndex[k.player] == k
    {
      PlayersDistinct(d, if i < n then i else i + 1, n);
    }
  }

  lemma WithdrawLinked(d: Board, player: string)
    requires Linked(d)
    ensures Linked(Withdraw(d, player)) && player !in Withdraw(d, player).playerIndex
    ensures Withdraw(d, player).config == d.config
  {
    if player in d.playerIndex {
      RemoveAt(d.entries, d.playerIndex[player]);
      DropLinked(d, Position(d.entries, d.playerIndex[player]));
    }
  }

  /** What inserting a new key leaves, index by index. */
  lemma InsertAt(s: seq<Slot>, x: Slot)
    requires Sorted(s) && !Holds(s, x.key)
    ensures var i, t := Position(s, x.key), Insert(s, x);
            t == s[..i] + [x] + s[i..] && Sorted(t) && Position(t, x.key) == i
            && forall j :: i <= j < |s| ==> Less(x.key, s[j].key)
  {
    HoldsIsContains(s, x.key);
    InsertSorted(s, x);
    AfterPosition(s, x.key);
    PositionIs(Insert(s, x), x.key, Position(s, x.key));
  }

  function Add(d: Board, n: nat, x: Slot): Board
    requires n <= |d.entries|
  {
    d.(entries := d.entries[..n] + [x] + d.entries[n..], playerIndex := d.playerIndex[x.key.player := x.key])
  }

  lemma AddLinked(d: Board, n: nat, x: Slot)
    requires Linked(d) && n <= |d.entries| && x.key.player !in d.playerIndex
    requires Sorted(Add(d, n, x).entries) && SlotOk(d.config.order, x)
    ensures Linked(Add(d, n, x))
  {
    hide Less;
    var e := Add(d, n, x);
    assert e.entries[n] == x;
    forall q | q in e.playerIndex && q != x.key.player ensures Holds(e.entries, e.playerIndex[q]) {
      var i :| 0 <= i < |d.entries| && d.entries[i].key == d.playerIndex[q];
      assert e.entries[if i < n then i else i + 1].key == e.playerIndex[q];
    }
    forall i | 0 <= i < |e.entries| && i != n
      ensures SlotOk(d.config.order, e.entries[i])
      ensures var k := e.entries[i].key; k.player in e.playerIndex && e.playerIndex[k.player] == k
    {
      assert e.entries[i] == d.entries[if i < n then i else i - 1];
    }
  }

  /** Placing withdraws the player's old key and adds the new one at its position. */
  lemma PlaceIsAdd(d: Board, sub: Submission)
    requires Linked(d) && !Kept(d, sub)
    ensures var w, x := Withdraw(d, sub.player), SlotOf(d, sub);
            Linked(w) && w.config == d.config && sub.player !in w.playerIndex && !Holds(w.entries, x.key)
            && Place(d, sub) == Add(w, Position(w.entries, x.key), x)
            && Sorted(Place(d, sub).entries)
  {
    WithdrawLinked(d, sub.player);
    var w, x := Withdraw(d, sub.player), SlotOf(d, sub);
    assert !Holds(w.entries, x.key);
    InsertAt(w.entries, x);
  }

  lemma PlaceLinked(d: Board, sub: Submission)
    requires Linked(d)
    ensures Linked(Place(d, sub)) && Place(d, sub).config == d.config
    ensures sub.player in Place(d, sub).playerIndex
    ensures !Kept(d, sub) ==> Place(d, sub).playerIndex[sub.player] == KeyOf(d, sub)
  {
    if !Kept(d, sub) {
      PlaceIsAdd(d, sub);
      var w, x := Withdraw(d, sub.player), SlotOf(d, sub);
      AddLinked(w, Position(w.entries, x.key), x);
    }
  }

  /** The eviction loop keeps exactly the first `maxEntries` slots and the players they name. */
  lemma {:induction false} EvictIsPrefix(d: Board)
    requires Linked(d)
    ensures Consistent(Evict(d)) && Evict(d).config == d.config
    ensures Evict(d).entries ==
            if |d.entries| <= d.config.maxEntries then d.entries else d.entries[..d.config.maxEntries]
    decreases |d.entries|
  {
    if |d.entries| > d.config.maxEntries {
      DropLinked(d, |d.entries| - 1);
      assert EvictLast(d) == Drop(d, |d.entries| - 1);
      EvictIsPrefix(EvictLast(d));
    }
  }

  lemma {:induction false} EvictKeepsKeys(d: Board, p: string)
    requires p in Evict(d).playerIndex
    ensures p in d.playerIndex && Evict(d).playerIndex[p] == d.playerIndex[p] && Evict(d).config == d.config
    decreases |d.entries|
  {
    if |d.entries| > d.config.maxEntries { EvictKeepsKeys(EvictLast(d), p); }
  }

  /** The entries alone determine the index. */
  lemma IndexFromEntries(d: Board, p: string)
    requires Linked(d)
    ensures p in d.playerIndex <==> exists i :: 0 <= i < |d.entries| && d.entries[i].key.player == p
  {
    if p in d.playerIndex {
      var i :| 0 <= i < |d.entries| && d.entries[i].key == d.playerIndex[p];
      assert d.entries[i].key.player == p;
    }
  }

  /** Every submission keeps the board consistent. */
  lemma SubmitConsistent(d: Board, sub: Submission)
    requires Consistent(d)
    ensures Consistent(Submit(d, sub))
  {
    PlaceLinked(d, sub);
    EvictIsPrefix(Place(d, sub));
  }

  lemma WithdrawConsistent(d: Board, player: string)
    requires Consistent(d)
    ensures Consistent(Withdraw(d, player))
  {
    WithdrawLinked(d, player);
  }

  // ---- Rank queries -----------------------------------------------------------------------------

  datatype Ranked = Ranked(rank: nat, entry: Entry)

  /** The slots at ranks `lo` to `hi`, both inclusive and counted from 1, as far as the board goes. */
  function Listing(s: seq<Slot>, lo: nat, hi: nat): (r: seq<Ranked>)
    requires lo >= 1
    ensures |r| == if lo > |s| || hi < lo then 0 else (if hi <= |s| then hi else |s|) - lo + 1
    ensures forall i :: 0 <= i < |r| ==> r[i] == Ranked(lo + i, s[lo + i - 1].entry)
    decreases hi + 1 - lo
  {
    if lo > hi || lo > |s| then [] else [Ranked(lo, s[lo - 1].entry)] + Listing(s, lo + 1, hi)
  }

  /** Where a listing shows a player is where `get_rank` says the player is: rank and position agree,
      and a player shows up exactly when the rank falls into the window. */
  lemma RankAgreesWithListing(d: Board, player: string, lo: nat, hi: nat)
    requires Consistent(d) && player in d.playerIndex && 1 <= lo
    ensures var rank := Rank(d, d.playerIndex[player]);
            1 <= rank <= |d.entries|
            && d.entries[rank - 1].entry.player == player
            && (forall i :: 0 <= i < |Listing(d.entries, lo, hi)| ==>
                  (Listing(d.entries, lo, hi)[i].entry.player == player <==>
                   Listing(d.entries, lo, hi)[i].rank == rank))
            && (lo <= rank <= hi <==>
                exists i :: 0 <= i < |Listing(d.entries, lo, hi)|
                            && Listing(d.entries, lo, hi)[i].entry.player == player)
  {
    var k := d.playerIndex[player];
    HoldsIsContains(d.entries, k);
    var rank := Rank(d, k);
    var r := Listing(d.entries, lo, hi);
    assert SlotOk(d.config.order, d.entries[rank - 1]);
    forall i | 0 <= i < |r| ensures r[i].entry.player == player <==> r[i].rank == rank {
      var x := d.entries[lo + i - 1];
      assert SlotOk(d.config.order, x);
      if x.entry.player == player { PositionIs(d.entries, k, lo + i - 1); }
    }
    if lo <= rank <= hi { assert r[rank - lo].rank == rank; }
  }

  function Window(s: seq<Slot>, rank: nat, count: nat): seq<Ranked> {
    Listing(s, if rank > count then rank - count else 1, if rank + count < |s| then rank + count else |s|)
  }

  function Around(d: Board, player: string, count: nat): seq<Ranked>
    requires player in d.playerIndex
  {
    Window(d.entries, Rank(d, d.playerIndex[player]), count)
  }

  lemma WindowAround(s: seq<Slot>, rank: nat, count: nat)
    requires 1 <= rank <= |s|
    ensures var w := Window(s, rank, count);
            && (forall n: nat :: Lists(w, n) <==> 1 <= n <= |s| && rank - count <= n <= rank + count)
            && (forall i :: 0 < i < |w| ==> w[i].rank == w[i - 1].rank + 1)
            && (exists i :: 0 <= i < |w| && w[i] == Ranked(rank, s[rank - 1].entry))
  {
    var w := Window(s, rank, count);
    var lo := if rank > count then rank - count else 1;
    var hi := if rank + count < |s| then rank + count else |s|;
    forall n: nat ensures Lists(w, n) <==> 1 <= n <= |s| && rank - count <= n <= rank + count {
      ListingRanks(s, lo, hi, n);
    }
    assert w[rank - lo] == Ranked(rank, s[rank - 1].entry);
  }

  /** The rank of a player on the board is the position of that player's entry. */
  lemma RankHolds(d: Board, player: string)
    requires Consistent(d) && player in d.playerIndex
    ensures var rank := Rank(d, d.playerIndex[player]);
            1 <= rank <= |d.entries| && d.entries[rank - 1].entry.player == player
            && d.entries[rank - 1].key == d.playerIndex[player]
  {
    HoldsIsContains(d.entries, d.playerIndex[player]);
    assert SlotOk(d.config.order, d.entries[Rank(d, d.playerIndex[player]) - 1]);
  }

  ghost predicate Lists(w: seq<Ranked>, n: nat) {
    exists i :: 0 <= i < |w| && w[i].rank == n
  }

  lemma ListingRanks(s: seq<Slot>, lo: nat, hi: nat, n: nat)
    requires 1 <= lo
    ensures Lists(Listing(s, lo, hi), n) <==> lo <= n <= hi && n <= |s|
  {
    var w := Listing(s, lo, hi);
    if lo <= n <= hi && n <= |s| { assert w[n - lo].rank == n; }
  }

  /** The window of `get_around` is every rank within `count` of the player's own rank, in order
      and without gaps, and it lists the player at that rank. */
  lemma AroundWindow(d: Board, player: string, count: nat)
    requires Consistent(d) && player in d.playerIndex
    ensures var w, rank := Around(d, player, count), Rank(d, d.playerIndex[player]);
            && (forall n: nat :: Lists(w, n) <==> 1 <= n <= |d.entries| && rank - count <= n <= rank + count)
            && (forall i :: 0 < i < |w| ==> w[i].rank == w[i - 1].rank + 1)
            && (exists i :: 0 <= i < |w| && w[i].rank == rank && w[i].entry.player == player)
  {
    RankHolds(d, player);
    WindowAround(d.entries, Rank(d, d.playerIndex[player]), count);
  }

  /** The score a rank query decodes out of the key is the score that was submitted. */
  lemma InfoScoreIsEntryScore(d: Board, player: string)
    requires Consistent(d) && player in d.playerIndex
    ensures var info := InfoAt(d, d.playerIndex[player]);
            1 <= info.rank <= |d.entries| && info.score == d.entries[info.rank - 1].entry.score
            && info.total == |d.entries| && 0.0 <= info.Percentile() <= 100.0
  {
    var k := d.playerIndex[player];
    HoldsIsContains(d.entries, k);
    var rank := Rank(d, k);
    var x := d.entries[rank - 1];
    assert SlotOk(d.config.order, x);
    EncodeDecode(x.entry.score, d.config.order);
    if |d.entries| > 1 {
      RatioBounds((|d.entries| - rank) as real, (|d.entries| - 1) as real);
    }
  }

  lemma RatioBounds(a: real, b: real)
    requires 0.0 <= a <= b && b > 0.0
    ensures 0.0 <= a / b <= 1.0
  {
    var q := a / b;
    assert q * b == a;
    assert (q > 1.0 ==> q * b > b) && (q < 0.0 ==> q * b < 0.0);
  }

  // ---- The engine ---------------------------------------------------------------------------------

  class LeaderboardEngine {
    var boards: map<string, Board>

    ghost predicate Valid()
      reads this
    {
      forall b :: b in boards ==> Consistent(boards[b])
    }

    constructor ()
      ensures Valid() && boards == map[]
    {
      boards := map[];
    }

    method CreateBoard(config: Config)
      requires Valid()
      modifies this
      ensures Valid() && boards == old(boards)[config.name := Fresh(config)]
    {
      boards := boards[config.name := Board(config, [], map[])];
    }

    method SubmitScore(name: string, sub: Submission) returns (r: Result<RankInfo, Error>)
      requires Valid()
      modifies this
      ensures Valid()
      ensures name !in old(boards) ==> r == Err(BoardNotFound) && boards == old(boards)
      ensures name in old(boards) ==>
                r == SubmitResult(old(boards)[name], sub)
                && boards == old(boards)[name := Submit(old(boards)[name], sub)]
    {
      if name !in boards { return Err(BoardNotFound); }
      SubmitConsistent(boards[name], sub);
      var data: Board;
      data, r := SubmitLocked(boards[name], sub);
      boards := boards[name := data];
    }

    /** The part of `submit_score` that runs under the lock of one board. */
    static method SubmitLocked(board: Board, sub: Submission) returns (data: Board, r: Result<RankInfo, Error>)
      requires Linked(board)
      ensures data == Submit(board, sub) && r == SubmitResult(board, sub)
    {
      data := board;
      if sub.player in data.playerIndex {
        var existingKey := data.playerIndex[sub.player];
        var existingScore := Decode(existingKey.encoded, data.config.order);
        if Dominated(data.config.order, sub.score, existingScore) {
          return data, Ok(RankInfo(Rank(data, existingKey), existingScore, |data.entries|));
        }
        data := data.(entries := Remove(data.entries, existingKey));
        data := data.(playerIndex := data.playerIndex - {sub.player});
      }
      var newKey := NewKey(sub.score, data.config.order, sub.now, sub.player);
      var entry := Entry(sub.player, sub.score, sub.metadata, sub.now);
      data := data.(entries := Insert(data.entries, Slot(newKey, entry)));
      data := data.(playerIndex := data.playerIndex[sub.player := newKey]);
      assert data == Place(board, sub);
      PlaceLinked(board, sub);
      ghost var placed := data;
      data := EvictDown(data);
      if sub.player !in data.playerIndex { return data, Err(Evicted); }
      EvictKeepsKeys(placed, sub.player);
      EncodeDecode(sub.score, data.config.order);
      r := Ok(RankInfo(Rank(data, newKey), sub.score, |data.entries|));
    }

    /** The size cap: the last entry of the map goes until the map fits. */
    static method EvictDown(placed: Board) returns (data: Board)
      requires Linked(placed)
      ensures data == Evict(placed)
    {
      data := placed;
      while |data.entries| > data.config.maxEntries
        invariant Evict(data) == Evict(placed)
        decreases |data.entries|
      {
        var worstKey := data.entries[|data.entries| - 1].key;
        data := data.(playerIndex := data.playerIndex - {worstKey.player});
        data := data.(entries := data.entries[..|data.entries| - 1]);
      }
    }

    method RemovePlayer(name: string, player: string) returns (removed: bool)
      requires Valid()
      modifies this
      ensures Valid()
      ensures removed == (name in old(boards) && player in old(boards)[name].playerIndex)
      ensures boards == if removed then old(boards)[name := Withdraw(old(boards)[name], player)]
                        else old(boards)
    {
      if name !in boards { return false; }
      var data := boards[name];
      if player !in data.playerIndex { return false; }
      WithdrawConsistent(data, player);
      var key := data.playerIndex[player];
      data := data.(playerIndex := data.playerIndex - {player});
      data := data.(entries := Remove(data.entries, key));
      boards := boards[name := data];
      removed := true;
    }

    /** The top entries are the first `count` ranks. */
    method Top(name: string, count: nat) returns (r: Result<seq<Ranked>, Error>)
      ensures r == if name in boards then Ok(Listing(boards[name].entries, 1, count)) else Err(BoardNotFound)
    {
      if name !in boards { return Err(BoardNotFound); }
      r := Ok(Listing(boards[name].entries, 1, count));
    }

    method GetRank(name: string, player: string) returns (r: Result<RankInfo, Error>)
      ensures name !in boards ==> r == Err(BoardNotFound)
      ensures name in boards && player !in boards[name].playerIndex ==> r == Err(PlayerNotFound)
      ensures name in boards && player in boards[name].playerIndex ==>
                r == Ok(InfoAt(boards[name], boards[name].playerIndex[player]))
    {
      if name !in boards { return Err(BoardNotFound); }
      var data := boards[name];
      if player !in data.playerIndex { return Err(PlayerNotFound); }
      var key := data.playerIndex[player];
      r := Ok(RankInfo(Rank(data, key), Decode(key.encoded, data.config.order), |data.entries|));
    }

    method GetAround(name: string, player: string, count: nat) returns (r: Result<seq<Ranked>, Error>)
      ensures name !in boards ==> r == Err(BoardNotFound)
      ensures name in boards && player !in boards[name].playerIndex ==> r == Err(PlayerNotFound)
      ensures name in boards && player in boards[name].playerIndex ==>
                r == Ok(Around(boards[name], player, count))
    {
      if name !in boards { return Err(BoardNotFound); }
      var data := boards[name];
      if player !in data.playerIndex { return Err(PlayerNotFound); }
      var rank := Rank(data, data.playerIndex[player]);
      var startRank := if rank > count then rank - count else 1;
      var endRank := if rank + count < |data.entries| then rank + count else |data.entries|;
      r := Ok(Listing(data.entries, startRank, endRank));
    }

    method GetRange(name: string, startRank: nat, endRank: nat) returns (r: Result<seq<Ranked>, Error>)
      ensures name !in boards ==> r == Err(BoardNotFound)
      ensures name in boards && (startRank == 0 || startRank > endRank) ==> r == Err(InvalidRange)
      ensures name in boards && 1 <= startRank <= endRank ==>
                r == Ok(Listing(boards[name].entries, startRank, endRank))
    {
      if name !in boards { return Err(BoardNotFound); }
      if startRank == 0 || startRank > endRank { return Err(InvalidRange); }
      r := Ok(Listing(boards[name].entries, startRank, endRank));
    }
  }
}
