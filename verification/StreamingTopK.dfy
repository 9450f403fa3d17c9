/** A board with a size cap never sees most of the stream, yet holds the first entries of the board
    without a cap. This module says exactly when one submission keeps that true, and for which
    streams it is true throughout. */
module StreamingTopK {
  import opened Wrappers
  import opened F64
  import opened ScoreKeys
  import opened Sequences
  import opened Strings
  import opened Leaderboard

  /** `c` is the capped board that shows the first entries of the uncapped board `u`. */
  ghost predicate Shows(c: Board, u: Board) {
    && Linked(u) && Consistent(c)
    && c.config == u.config
    && c.entries == Take(u.entries, c.config.maxEntries)
  }

  lemma PositionBounds(s: seq<Slot>, k: ScoreKey, n: nat)
    requires Sorted(s) && n <= |s|
    requires n > 0 ==> Less(s[n - 1].key, k)
    requires n < |s| ==> !Less(s[n].key, k)
    ensures Position(s, k) == n
  {
    var m := Position(s, k);
    if m < n { assert m < n - 1 ==> Less(s[m].key, s[n - 1].key); LessIfBelow(s, k, m, n - 1); }
  }

  lemma LessIfBelow(s: seq<Slot>, k: ScoreKey, m: nat, n: nat)
    requires Sorted(s) && m <= n < |s| && Less(s[n].key, k)
    ensures Less(s[m].key, k)
  {
    if m < n { LessTransitive(s[m].key, s[n].key, k); }
  }

  /** Cutting the map at `k` entries moves an insertion point past the cut to the cut. */
  lemma PositionInTake(s: seq<Slot>, key: ScoreKey, k: nat)
    requires Sorted(s)
    ensures Sorted(Take(s, k))
    ensures Position(Take(s, k), key) == if Position(s, key) <= k then Position(s, key) else k
  {
    var n, t := Position(s, key), Take(s, k);
    if |s| > k {
      PositionBounds(t, key, if n <= k then n else k);
    }
  }

  /** Keeping `k` entries before an insertion loses nothing that the first `k` entries after it show. */
  lemma TakeInsert(s: seq<Slot>, x: Slot, k: nat)
    requires Sorted(s) && !Holds(s, x.key)
    ensures Take(Insert(s, x), k) == Take(Insert(Take(s, k), x), k)
  {
    var t := Take(s, k);
    assert !Holds(t, x.key);
    PositionInTake(s, x.key, k);
    InsertAt(s, x);
    InsertAt(t, x);
    hide Take, Insert, Position, Sorted, Holds, Less;
    CutSplice(s, x, Position(s, x.key), k);
  }

  // ---- One submission ---------------------------------------------------------------------------

  /** Can be read off the uncapped board before the call: a player shown on the capped board must not
      be re-ranked behind the first entry that was cut off, and a player cut off must not come back
      with a score that the uncapped board refuses. */
  predicate Harmless(u: Board, sub: Submission) {
    var k, key := u.config.maxEntries, KeyOf(u, sub);
    if sub.player !in u.playerIndex then true
    else if Position(u.entries, u.playerIndex[sub.player]) < k then
      Kept(u, sub) || |u.entries| <= k || !Less(u.entries[k].key, key)
    else
      !Kept(u, sub) || k == 0 || |u.entries| < k || !Less(key, u.entries[k - 1].key)
  }

  /** Who the capped board knows, in terms of the uncapped one. */
  lemma ShownPlayers(c: Board, u: Board, p: string)
    requires Shows(c, u)
    ensures p in c.playerIndex <==>
            p in u.playerIndex && Position(u.entries, u.playerIndex[p]) < c.config.maxEntries
    ensures p in c.playerIndex ==>
            c.playerIndex[p] == u.playerIndex[p]
            && Position(c.entries, c.playerIndex[p]) == Position(u.entries, u.playerIndex[p])
            && Position(u.entries, u.playerIndex[p]) < |c.entries|
  {
    IndexFromEntries(c, p);
    if p in u.playerIndex {
      var r := Position(u.entries, u.playerIndex[p]);
      HoldsIsContains(u.entries, u.playerIndex[p]);
      if r < c.config.maxEntries { assert c.entries[r].key.player == p; }
    }
    if p in c.playerIndex {
      var i :| 0 <= i < |c.entries| && c.entries[i].key.player == p;
      assert c.entries[i] == u.entries[i];
      PositionIs(u.entries, u.playerIndex[p], i);
      PositionIs(c.entries, u.playerIndex[p], i);
    }
  }

  /** The capped board after a submission it does not refuse. */
  lemma CappedStep(c: Board, sub: Submission)
    requires Consistent(c) && !Kept(c, sub)
    ensures Submit(c, sub).entries
            == Take(Insert(Withdraw(c, sub.player).entries, SlotOf(c, sub)), c.config.maxEntries)
  {
    PlaceLinked(c, sub);
    EvictIsPrefix(Place(c, sub));
  }

  lemma CutDrop(s: seq<Slot>, r: nat, k: nat)
    requires r < |s| && r < k
    ensures var t, w := Take(s, k), s[..r] + s[r + 1..];
            t[..r] + t[r + 1..] == (if |s| <= k then w else Take(w, k - 1))
            && (|s| > k ==> w[k - 1] == s[k])
  {}

  /** Both boards forget the same slot. */
  lemma ShownWithdraw(c: Board, u: Board, p: string)
    requires Shows(c, u) && p in c.playerIndex
    ensures var k, w := c.config.maxEntries, Withdraw(u, p).entries;
            && k >= 1 && |w| == |u.entries| - 1
            && Withdraw(c, p).entries == (if |u.entries| <= k then w else Take(w, k - 1))
            && (|u.entries| > k ==> w[k - 1] == u.entries[k])
  {
    hide Less, Position, Remove, Take, Sorted, Holds, SlotOk;
    ShownPlayers(c, u, p);
    var key := u.playerIndex[p];
    assert Holds(u.entries, key) && Holds(c.entries, key);
    assert Sorted(u.entries) && Sorted(c.entries) && c.entries == Take(u.entries, c.config.maxEntries);
    hide Linked, Consistent, Shows;
    RemoveAt(u.entries, key);
    RemoveAt(c.entries, key);
    CutDrop(u.entries, Position(u.entries, key), c.config.maxEntries);
  }

  /** A refused resubmission of a shown player changes neither board. */
  lemma ShownKept(c: Board, u: Board, sub: Submission)
    requires Shows(c, u) && sub.player in c.playerIndex
    ensures Kept(c, sub) == Kept(u, sub)
    ensures Position(u.entries, u.playerIndex[sub.player]) < c.config.maxEntries
    ensures KeyOf(c, sub) == KeyOf(u, sub) && sub.player in u.playerIndex
  {
    ShownPlayers(c, u, sub.player);
  }

  lemma ShownPlayerStep(c: Board, u: Board, sub: Submission)
    requires Shows(c, u) && sub.player in c.playerIndex
    ensures Submit(c, sub).entries == Take(Place(u, sub).entries, c.config.maxEntries) <==> Harmless(u, sub)
  {
    hide Linked, Withdraw, Insert, Kept, Less;
    ShownKept(c, u, sub);
    if !Kept(u, sub) {
      CappedStep(c, sub);
      PlaceIsAdd(u, sub);
      ShownWithdraw(c, u, sub.player);
      ShownReplacement(u.entries, Withdraw(u, sub.player).entries, Withdraw(c, sub.player).entries,
                       SlotOf(u, sub), c.config.maxEntries);
    }
  }

  lemma ShownReplacement(s: seq<Slot>, w: seq<Slot>, t: seq<Slot>, x: Slot, k: nat)
    requires Sorted(w) && !Holds(w, x.key) && k >= 1 && |w| == |s| - 1
    requires t == (if |s| <= k then w else Take(w, k - 1))
    requires |s| > k ==> w[k - 1] == s[k]
    ensures Take(Insert(t, x), k) == Take(Insert(w, x), k) <==> |s| <= k || !Less(s[k].key, x.key)
  {
    if |s| > k { ReplacementStep(w, x, k); }
  }

  /** Inserting into a map cut at `k - 1` shows the first `k` entries exactly if the new entry is
      one of them. */
  lemma ReplacementStep(w: seq<Slot>, x: Slot, k: nat)
    requires Sorted(w) && !Holds(w, x.key) && 1 <= k <= |w|
    ensures Take(Insert(Take(w, k - 1), x), k) == Take(Insert(w, x), k) <==> !Less(w[k - 1].key, x.key)
  {
    var t, n := Take(w, k - 1), Position(w, x.key);
    assert !Holds(t, x.key);
    PositionInTake(w, x.key, k - 1);
    InsertAt(w, x);
    InsertAt(t, x);
    SpliceTake(w, x, n, k);
    if n <= k - 1 { NotBelow(w, x.key, k - 1); }
    hide Less, Holds, Sorted, Insert;
  }

  lemma NotBelow(w: seq<Slot>, key: ScoreKey, j: nat)
    requires Sorted(w) && Position(w, key) <= j < |w|
    ensures !Less(w[j].key, key)
  {
    if Less(w[j].key, key) { LessIfBelow(w, key, Position(w, key), j); }
  }

  lemma SpliceTake(w: seq<Slot>, x: Slot, n: nat, k: nat)
    requires n <= |w| && 1 <= k <= |w| && forall i :: 0 <= i < |w| ==> w[i] != x
    ensures var t := w[..k - 1];
            var m := if n <= k - 1 then n else k - 1;
            Take(w[..n] + [x] + w[n..], k) == t[..m] + [x] + t[m..] <==> n <= k - 1
  {
    var t := w[..k - 1];
    if n > k - 1 {
      assert Take(w[..n] + [x] + w[n..], k)[k - 1] == w[k - 1];
      assert (t[..k - 1] + [x] + t[k - 1..])[k - 1] == x;
    }
  }

  lemma CutPlayerStep(c: Board, u: Board, sub: Submission)
    requires Shows(c, u) && sub.player !in c.playerIndex
    ensures Submit(c, sub).entries == Take(Place(u, sub).entries, c.config.maxEntries) <==> Harmless(u, sub)
  {
    CutKept(c, u, sub);
    CappedStep(c, sub);
    assert Withdraw(c, sub.player) == c && SlotOf(c, sub) == SlotOf(u, sub);
    if Kept(u, sub) {
      KnownKeyAbsent(c, sub.player, KeyOf(u, sub));
      hide Linked, Submit, Insert, Kept, Less, Sorted, Holds;
      RefusedStep(c.entries, SlotOf(u, sub));
      assert Place(u, sub) == u;
    } else {
      PlaceIsAdd(u, sub);
      CutWithdraw(c, u, sub.player);
      hide Linked, Submit, Withdraw, Insert, Kept, Less, Sorted, Holds;
      TakeInsert(Withdraw(u, sub.player).entries, SlotOf(u, sub), c.config.maxEntries);
    }
  }

  lemma CutKept(c: Board, u: Board, sub: Submission)
    requires Shows(c, u) && sub.player !in c.playerIndex
    ensures KeyOf(c, sub) == KeyOf(u, sub) && !Kept(c, sub)
    ensures sub.player in u.playerIndex ==>
              c.config.maxEntries <= Position(u.entries, u.playerIndex[sub.player]) < |u.entries|
              && |c.entries| == c.config.maxEntries && c.entries == u.entries[..c.config.maxEntries]
  {
    ShownPlayers(c, u, sub.player);
    if sub.player in u.playerIndex { HoldsIsContains(u.entries, u.playerIndex[sub.player]); }
  }

  /** Inserting into a full map and cutting again changes nothing exactly if the entry goes last. */
  lemma RefusedStep(s: seq<Slot>, x: Slot)
    requires Sorted(s) && !Holds(s, x.key)
    ensures Take(Insert(s, x), |s|) == s <==> |s| == 0 || !Less(x.key, s[|s| - 1].key)
  {
    InsertAt(s, x);
    var n := Position(s, x.key);
    if n < |s| {
      assert Take(Insert(s, x), |s|)[n] == x && s[n] != x;
    } else if n > 0 {
      LessTotal(s[n - 1].key, x.key);
    }
  }

  lemma CutWithdraw(c: Board, u: Board, p: string)
    requires Shows(c, u) && p !in c.playerIndex
    ensures Take(Withdraw(u, p).entries, c.config.maxEntries) == c.entries
  {
    ShownPlayers(c, u, p);
    if p in u.playerIndex {
      HoldsIsContains(u.entries, u.playerIndex[p]);
      RemoveAt(u.entries, u.playerIndex[p]);
    }
  }

  lemma KnownKeyAbsent(c: Board, p: string, key: ScoreKey)
    requires Linked(c) && p !in c.playerIndex && key.player == p
    ensures !Holds(c.entries, key)
  {}

  /** One submission keeps the capped board the prefix of the uncapped one if and only if it is
      harmless: for every score, NaN and signed zeros included, and every clock. */
  lemma StepIsExact(c: Board, u: Board, sub: Submission)
    requires Shows(c, u)
    ensures Shows(Submit(c, sub), Place(u, sub)) <==> Harmless(u, sub)
  {
    SubmitConsistent(c, sub);
    PlaceLinked(u, sub);
    PlaceLinked(c, sub);
    EvictIsPrefix(Place(c, sub));
    if sub.player in c.playerIndex { ShownPlayerStep(c, u, sub); } else { CutPlayerStep(c, u, sub); }
  }

  // ---- Whole streams ------------------------------------------------------------------------------

  /** The board after a stream when no entry is ever cut off. */
  function Uncapped(config: Config, subs: seq<Submission>): Board {
    if subs == [] then Fresh(config)
    else Place(Uncapped(config, subs[..|subs| - 1]), subs[|subs| - 1])
  }

  /** The board the engine keeps. */
  function Capped(config: Config, subs: seq<Submission>): Board {
    if subs == [] then Fresh(config)
    else Submit(Capped(config, subs[..|subs| - 1]), subs[|subs| - 1])
  }

  predicate PlainScore(b: Bits) { !IsNaN(b) && b != NEGATIVE_ZERO }

  /** No NaN, no negative zero, and no player's clock runs backwards. */
  ghost predicate PlainStream(subs: seq<Submission>) {
    && (forall i :: 0 <= i < |subs| ==> PlainScore(subs[i].score))
    && (forall i, j :: 0 <= i < j < |subs| && subs[i].player == subs[j].player ==>
          subs[i].now <= subs[j].now)
  }

  function SubKey(config: Config, sub: Submission): ScoreKey {
    NewKey(sub.score, config.order, sub.now, sub.player)
  }

  ghost predicate BestKey(config: Config, subs: seq<Submission>, key: ScoreKey) {
    && (exists i :: 0 <= i < |subs| && subs[i].player == key.player && SubKey(config, subs[i]) == key)
    && (forall i :: 0 <= i < |subs| && subs[i].player == key.player ==>
          !Less(SubKey(config, subs[i]), key))
  }

  /** A refused score sorts no earlier than the kept one, an accepted score sorts strictly earlier. */
  lemma KeptFollowsKeyOrder(d: Board, subs: seq<Submission>, sub: Submission)
    requires PlainStream(subs + [sub]) && sub.player in d.playerIndex
    requires BestKey(d.config, subs, d.playerIndex[sub.player])
    requires d.playerIndex[sub.player].player == sub.player
    ensures Kept(d, sub) <==> !Less(KeyOf(d, sub), d.playerIndex[sub.player])
  {
    var old_, order := d.playerIndex[sub.player], d.config.order;
    var i :| 0 <= i < |subs| && subs[i].player == old_.player && SubKey(d.config, subs[i]) == old_;
    var all := subs + [sub];
    assert all[i] == subs[i] && all[|subs|] == sub;
    EncodeDecode(subs[i].score, order);
    EncodedOrderIsNumericOrder(sub.score, subs[i].score, order);
    EncodedOrderIsNumericOrder(subs[i].score, sub.score, order);
    StringLessTotal(sub.player, sub.player);
  }

  lemma OrderedIsHarmless(u: Board, sub: Submission)
    requires Linked(u)
    requires sub.player in u.playerIndex ==>
               (Kept(u, sub) <==> !Less(KeyOf(u, sub), u.playerIndex[sub.player]))
    ensures Harmless(u, sub)
  {
    if sub.player in u.playerIndex {
      var old_, key, k := u.playerIndex[sub.player], KeyOf(u, sub), u.config.maxEntries;
      HoldsIsContains(u.entries, old_);
      var r := Position(u.entries, old_);
      if r < k && !Kept(u, sub) && |u.entries| > k {
        LessTransitive(key, old_, u.entries[k].key);
        LessTotal(key, u.entries[k].key);
      }
      if r >= k > 0 && Kept(u, sub) && Less(key, u.entries[k - 1].key) {
        LessTransitive(key, u.entries[k - 1].key, old_);
      }
    }
  }

  /** Every player of the stream is ranked, by a best key. */
  ghost predicate RanksBest(u: Board, subs: seq<Submission>) {
    && (forall p :: p in u.playerIndex ==> BestKey(u.config, subs, u.playerIndex[p]))
    && (forall i :: 0 <= i < |subs| ==> subs[i].player in u.playerIndex)
  }

  lemma BestKeyStep(u: Board, subs: seq<Submission>, sub: Submission)
    requires Linked(u) && PlainStream(subs + [sub]) && RanksBest(u, subs)
    ensures RanksBest(Place(u, sub), subs + [sub])
  {
    PlaceLinked(u, sub);
    PlacedIndex(u, sub);
    hide BestKey, Kept, Place, Linked;
    forall i | 0 <= i < |subs + [sub]| ensures (subs + [sub])[i].player in Place(u, sub).playerIndex {
      assert i < |subs| ==> (subs + [sub])[i] == subs[i];
    }
    assert Kept(u, sub) || Place(u, sub).playerIndex == u.playerIndex[sub.player := KeyOf(u, sub)];
    forall p | p in Place(u, sub).playerIndex
      ensures BestKey(u.config, subs + [sub], Place(u, sub).playerIndex[p])
    {
      BestKeyOfPlayer(u, subs, sub, p);
    }
  }

  lemma PlacedIndex(u: Board, sub: Submission)
    requires Linked(u)
    ensures Place(u, sub).playerIndex
            == if Kept(u, sub) then u.playerIndex else u.playerIndex[sub.player := KeyOf(u, sub)]
    ensures forall q :: q in u.playerIndex ==> u.playerIndex[q].player == q
  {
    hide Less, Insert, Kept;
  }

  lemma BestKeyOfPlayer(u: Board, subs: seq<Submission>, sub: Submission, p: string)
    requires RanksBest(u, subs) && PlainStream(subs + [sub])
    requires forall q :: q in u.playerIndex ==> u.playerIndex[q].player == q
    requires p in u.playerIndex || (p == sub.player && !Kept(u, sub))
    ensures BestKey(u.config, subs + [sub],
                    if p == sub.player && !Kept(u, sub) then KeyOf(u, sub) else u.playerIndex[p])
  {
    hide Less, Kept, Linked;
    if sub.player in u.playerIndex { KeptFollowsKeyOrder(u, subs, sub); }
    if p != sub.player || Kept(u, sub) {
      KeepBestKey(u.config, subs, sub, u.playerIndex[p]);
    } else {
      NewBestKey(u, subs, sub);
    }
  }

  lemma KeepBestKey(config: Config, subs: seq<Submission>, sub: Submission, key: ScoreKey)
    requires BestKey(config, subs, key)
    requires sub.player == key.player ==> !Less(SubKey(config, sub), key)
    ensures BestKey(config, subs + [sub], key)
  {
    var i :| 0 <= i < |subs| && subs[i].player == key.player && SubKey(config, subs[i]) == key;
    assert (subs + [sub])[i] == subs[i];
  }

  lemma NewBestKey(u: Board, subs: seq<Submission>, sub: Submission)
    requires sub.player in u.playerIndex ==>
               u.playerIndex[sub.player].player == sub.player
               && BestKey(u.config, subs, u.playerIndex[sub.player])
               && Less(KeyOf(u, sub), u.playerIndex[sub.player])
    requires sub.player !in u.playerIndex ==> forall i :: 0 <= i < |subs| ==> subs[i].player != sub.player
    ensures BestKey(u.config, subs + [sub], KeyOf(u, sub))
  {
    var all, key := subs + [sub], KeyOf(u, sub);
    assert all[|subs|] == sub;
    LessTotal(key, key);
    forall i | 0 <= i < |subs| && subs[i].player == sub.player ensures !Less(SubKey(u.config, subs[i]), key) {
      var k := SubKey(u.config, subs[i]);
      if Less(k, key) { LessTransitive(k, key, u.playerIndex[sub.player]); }
    }
  }

  /** The uncapped board ranks every player who submitted, by the least key among the player's own
      submissions: an independent description of it, with no mention of the engine. */
  lemma {:induction false} UncappedIsBestPerPlayer(config: Config, subs: seq<Submission>)
    requires PlainStream(subs)
    ensures var u := Uncapped(config, subs);
            Linked(u) && u.config == config && RanksBest(u, subs)
  {
    if subs != [] {
      var init, last := subs[..|subs| - 1], subs[|subs| - 1];
      assert subs == init + [last];
      UncappedIsBestPerPlayer(config, init);
      PlaceLinked(Uncapped(config, init), last);
      BestKeyStep(Uncapped(config, init), init, last);
    }
  }

  /** Streaming top-k: after every plain stream the capped board holds exactly the first
      `maxEntries` entries of the uncapped board, evicted players who come back included. */
  lemma {:induction false} CappedShowsUncapped(config: Config, subs: seq<Submission>)
    requires PlainStream(subs)
    ensures Shows(Capped(config, subs), Uncapped(config, subs))
  {
    if subs != [] {
      var init, last := subs[..|subs| - 1], subs[|subs| - 1];
      assert subs == init + [last];
      CappedShowsUncapped(config, init);
      UncappedIsBestPerPlayer(config, init);
      var u, c := Uncapped(config, init), Capped(config, init);
      if last.player in u.playerIndex { KeptFollowsKeyOrder(u, init, last); }
      OrderedIsHarmless(u, last);
      StepIsExact(c, u, last);
    }
  }

  /** Whatever the stream: the capped board shows the first entries of the uncapped one all along if and only if
      every submission is harmless. */
  lemma AgreesIffHarmless(config: Config, subs: seq<Submission>)
    ensures (forall n :: 0 <= n <= |subs| ==> Shows(Capped(config, subs[..n]), Uncapped(config, subs[..n]))) <==>
            (forall n :: 0 <= n < |subs| ==> Harmless(Uncapped(config, subs[..n]), subs[n]))
  {
    hide Shows, Harmless, Submit, Place;
    if forall n :: 0 <= n <= |subs| ==> Shows(Capped(config, subs[..n]), Uncapped(config, subs[..n])) {
      forall n | 0 <= n < |subs| ensures Harmless(Uncapped(config, subs[..n]), subs[n]) {
        assert Shows(Capped(config, subs[..n]), Uncapped(config, subs[..n]));
        assert Shows(Capped(config, subs[..n + 1]), Uncapped(config, subs[..n + 1]));
        NextBoards(config, subs, n);
        StepIsExact(Capped(config, subs[..n]), Uncapped(config, subs[..n]), subs[n]);
      }
    }
    if forall n :: 0 <= n < |subs| ==> Harmless(Uncapped(config, subs[..n]), subs[n]) {
      forall n | 0 <= n <= |subs| ensures Shows(Capped(config, subs[..n]), Uncapped(config, subs[..n])) {
        HarmlessAgrees(config, subs, n);
      }
    }
  }

  lemma NextBoards(config: Config, subs: seq<Submission>, n: nat)
    requires n < |subs|
    ensures Uncapped(config, subs[..n + 1]) == Place(Uncapped(config, subs[..n]), subs[n])
    ensures Capped(config, subs[..n + 1]) == Submit(Capped(config, subs[..n]), subs[n])
  {
    assert subs[..n + 1][..n] == subs[..n] && subs[..n + 1][n] == subs[n];
  }

  lemma {:induction false} HarmlessAgrees(config: Config, subs: seq<Submission>, n: nat)
    requires n <= |subs| && forall i :: 0 <= i < |subs| ==> Harmless(Uncapped(config, subs[..i]), subs[i])
    ensures Shows(Capped(config, subs[..n]), Uncapped(config, subs[..n]))
  {
    hide Harmless, Submit, Place;
    if n > 0 {
      hide Shows, Capped, Uncapped;
      HarmlessAgrees(config, subs, n - 1);
      NextBoards(config, subs, n - 1);
      StepIsExact(Capped(config, subs[..n - 1]), Uncapped(config, subs[..n - 1]), subs[n - 1]);
    }
  }

  /** A board that is created and then takes a stream of submissions. */
  method ServeStream(engine: LeaderboardEngine, config: Config, subs: seq<Submission>)
    requires engine.Valid()
    modifies engine
    ensures engine.Valid() && engine.boards == old(engine.boards)[config.name := Capped(config, subs)]
    ensures PlainStream(subs) ==>
            engine.boards[config.name].entries == Take(Uncapped(config, subs).entries, config.maxEntries)
  {
    hide Submit, engine.Valid, Shows, PlainStream;
    ghost var before := engine.boards;
    engine.CreateBoard(config);
    for n := 0 to |subs|
      invariant engine.Valid() && engine.boards == before[config.name := Capped(config, subs[..n])]
    {
      assert subs[..n + 1][..n] == subs[..n];
      var _ := engine.SubmitScore(config.name, subs[n]);
    }
    assert subs[..|subs|] == subs;
    if PlainStream(subs) { ShownEntries(config, subs); }
  }

  lemma ShownEntries(config: Config, subs: seq<Submission>)
    requires PlainStream(subs)
    ensures Capped(config, subs).entries == Take(Uncapped(config, subs).entries, config.maxEntries)
  {
    CappedShowsUncapped(config, subs);
    UncappedIsBestPerPlayer(config, subs);
  }

  /** A submission answers with the eviction error exactly when the uncapped board ranks its player
      behind the cap, and otherwise with the rank the uncapped board gives. */
  lemma ResultAgreesWithUncapped(config: Config, subs: seq<Submission>, sub: Submission)
    requires PlainStream(subs + [sub])
    ensures var u := Uncapped(config, subs + [sub]);
            var r := SubmitResult(Capped(config, subs), sub);
            && sub.player in u.playerIndex
            && (r.Err? <==> Rank(u, u.playerIndex[sub.player]) > config.maxEntries)
            && (r.Ok? ==> r.value.rank == Rank(u, u.playerIndex[sub.player]))
  {
    var all := subs + [sub];
    assert all[..|all| - 1] == subs && all[|subs|] == sub;
    CappedShowsUncapped(config, all);
    UncappedIsBestPerPlayer(config, all);
    ShownPlayers(Capped(config, all), Uncapped(config, all), sub.player);
  }

  // ---- The two conditions are needed ----------------------------------------------------------------

  const HALF: Bits := 0x3FE0_0000_0000_0000

  /** alice scores -0.0, bob +0.0, alice +0.0 again, all at time 2, on a board of one entry: the
      uncapped board refuses alice's second score, the capped board has forgotten her and shows it. */
  lemma NegativeZeroBreaksTopK()
    ensures var config := Config("b", HighestFirst, 1);
            var subs := [Submission("alice", NEGATIVE_ZERO, None, 2), Submission("bob", POSITIVE_ZERO, None, 2),
                         Submission("alice", POSITIVE_ZERO, None, 2)];
            Capped(config, subs).entries != Take(Uncapped(config, subs).entries, 1)
  {
    ForgottenPlayer(NEGATIVE_ZERO, 2, POSITIVE_ZERO, 2, POSITIVE_ZERO, 2);
  }

  /** Equal scores, but alice's clock runs backwards between her two submissions. */
  lemma BackwardClockBreaksTopK()
    ensures var config := Config("b", HighestFirst, 1);
            var subs := [Submission("alice", HALF, None, 3), Submission("bob", HALF, None, 2),
                         Submission("alice", HALF, None, 1)];
            Capped(config, subs).entries != Take(Uncapped(config, subs).entries, 1)
  {
    ForgottenPlayer(HALF, 3, HALF, 2, HALF, 1);
  }

  predicate Forgets(a: Bits, ta: nat, b: Bits, tb: nat, a': Bits, ta': nat) {
    var o := HighestFirst;
    var k, m, k' := NewKey(a, o, ta, "alice"), NewKey(b, o, tb, "bob"), NewKey(a', o, ta', "alice");
    Less(m, k) && Less(k', m) && !Less(k, m) && !Less(m, k') && Dominated(o, a', a)
  }

  lemma ForgottenPlayer(a: Bits, ta: nat, b: Bits, tb: nat, a': Bits, ta': nat)
    requires Forgets(a, ta, b, tb, a', ta')
    ensures var config := Config("b", HighestFirst, 1);
            var subs := [Submission("alice", a, None, ta), Submission("bob", b, None, tb),
                         Submission("alice", a', None, ta')];
            Capped(config, subs).entries != Take(Uncapped(config, subs).entries, 1)
  {
    hide Place, Submit, SlotOf, Forgets;
    var f := Fresh(Config("b", HighestFirst, 1));
    var s1, s2, s3 := Submission("alice", a, None, ta), Submission("bob", b, None, tb),
                      Submission("alice", a', None, ta');
    FirstTwo(a, ta, b, tb, a', ta');
    Third(a, ta, b, tb, a', ta');
    assert [s1, s2, s3][..2] == [s1, s2] && [s1, s2][..1] == [s1] && [s1][..0] == [];
    assert Uncapped(f.config, []) == f && Capped(f.config, []) == f;
    assert Uncapped(f.config, [s1]) == Place(f, s1);
    assert Capped(f.config, [s1]) == Submit(f, s1);
    assert Uncapped(f.config, [s1, s2]) == Place(Place(f, s1), s2);
    assert Capped(f.config, [s1, s2]) == Submit(Submit(f, s1), s2);
    assert Uncapped(f.config, [s1, s2, s3]) == Place(Uncapped(f.config, [s1, s2]), s3);
    assert Capped(f.config, [s1, s2, s3]) == Submit(Capped(f.config, [s1, s2]), s3);
    var u := Uncapped(f.config, [s1, s2, s3]);
    assert u.entries == [SlotOf(f, s2), SlotOf(f, s1)];
    assert Take(u.entries, 1) == [SlotOf(f, s2)];
    assert Capped(f.config, [s1, s2, s3]).entries[0] != SlotOf(f, s2);
  }

  lemma FirstTwo(a: Bits, ta: nat, b: Bits, tb: nat, a': Bits, ta': nat)
    requires Forgets(a, ta, b, tb, a', ta')
    ensures var f := Fresh(Config("b", HighestFirst, 1));
            var s1, s2 := Submission("alice", a, None, ta), Submission("bob", b, None, tb);
            var x1, x2 := SlotOf(f, s1), SlotOf(f, s2);
            && Place(Place(f, s1), s2) == Board(f.config, [x2, x1], map["alice" := x1.key, "bob" := x2.key])
            && Submit(Submit(f, s1), s2) == Board(f.config, [x2], map["bob" := x2.key])
  {
    var f := Fresh(Config("b", HighestFirst, 1));
    var s1, s2 := Submission("alice", a, None, ta), Submission("bob", b, None, tb);
    PlaceFirst(f, s1);
    CapOfOne(Place(f, s1), SlotOf(f, s1));
    PlaceFirst(Place(f, s1), s2);
    hide Less, Scaled, Linked;
    CapOfOne(Place(Place(f, s1), s2), SlotOf(f, s2));
  }

  lemma Third(a: Bits, ta: nat, b: Bits, tb: nat, a': Bits, ta': nat)
    requires Forgets(a, ta, b, tb, a', ta')
    ensures var f := Fresh(Config("b", HighestFirst, 1));
            var s1, s2 := Submission("alice", a, None, ta), Submission("bob", b, None, tb);
            var s3, x1, x2 := Submission("alice", a', None, ta'), SlotOf(f, s1), SlotOf(f, s2);
            var u := Board(f.config, [x2, x1], map["alice" := x1.key, "bob" := x2.key]);
            var c := Board(f.config, [x2], map["bob" := x2.key]);
            Place(u, s3) == u && Submit(c, s3).entries == [SlotOf(f, s3)] && SlotOf(f, s3) != x2
  {
    var f := Fresh(Config("b", HighestFirst, 1));
    var s2, s3 := Submission("bob", b, None, tb), Submission("alice", a', None, ta');
    var c := Board(f.config, [SlotOf(f, s2)], map["bob" := SlotOf(f, s2).key]);
    EncodeDecode(a, HighestFirst);
    PlaceFirst(c, s3);
    CapOfOne(Place(c, s3), SlotOf(f, s3));
  }

  lemma CapOfOne(d: Board, x: Slot)
    requires d.config.maxEntries == 1 && |d.entries| <= 2 && d.entries != [] && d.entries[0] == x
    ensures Evict(d) == if |d.entries| == 1 then d
                        else Board(d.config, [x], d.playerIndex - {d.entries[1].key.player})
  {
    if |d.entries| == 2 { assert EvictLast(d).entries == [x]; }
  }

  /** A new player who beats everybody goes first. */
  lemma PlaceFirst(d: Board, sub: Submission)
    requires sub.player !in d.playerIndex
    requires d.entries == [] || (!Less(d.entries[0].key, KeyOf(d, sub)) && d.entries[0].key != KeyOf(d, sub))
    ensures Place(d, sub) == Board(d.config, [SlotOf(d, sub)] + d.entries,
                                   d.playerIndex[sub.player := KeyOf(d, sub)])
  {}
}
