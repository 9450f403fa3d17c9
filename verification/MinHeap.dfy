/** The binary heap under the TTL manager: a vector in heap order, earliest deadline at the top. */
module MinHeap {

  datatype TtlEntry = TtlEntry(table: string, rowKey: string, expiresAt: nat)

  function Parent(i: nat): nat
    requires i > 0
  {
    (i - 1) / 2
  }

  ghost predicate HeapOrdered(s: seq<TtlEntry>) {
    forall j :: 0 < j < |s| ==> s[Parent(j)].expiresAt <= s[j].expiresAt
  }

  lemma {:induction false} TopIsEarliest(s: seq<TtlEntry>, i: nat)
    requires HeapOrdered(s) && i < |s|
    ensures s[0].expiresAt <= s[i].expiresAt
    decreases i
  {
    if i > 0 { TopIsEarliest(s, Parent(i)); }
  }

  class Heap {
    var data: seq<TtlEntry>

    ghost predicate Valid()
      reads this
    {
      HeapOrdered(data)
    }

    constructor ()
      ensures Valid() && data == []
    {
      data := [];
    }

    method Push(e: TtlEntry)
      requires Valid()
      modifies this
      ensures Valid() && multiset(data) == multiset(old(data)) + multiset{e}
    {
      data := data + [e];
      SiftUp(|data| - 1);
    }

    /** Removes an earliest entry. */
    method Pop() returns (e: TtlEntry)
      requires Valid() && data != []
      modifies this
      ensures Valid() && e == old(data[0]) && |data| == |old(data)| - 1
      ensures multiset(data) == multiset(old(data)) - multiset{e}
    {
      e := data[0];
      var n := |data| - 1;
      var last := data[n];
      assert data == [e] + data[1..];
      if n == 0 {
        data := [];
      } else {
        assert data[1..] == data[1..n] + [last];
        data := [last] + data[1..n];
        SiftDown();
      }
    }

    /** Moves the entry at `start` towards the top until its parent is no later. */
    method SiftUp(start: nat)
      requires start < |data| && OrderedAbove(data, start)
      modifies this
      ensures Valid() && multiset(data) == multiset(old(data))
    {
      var i: nat := start;
      while i > 0 && data[i].expiresAt < data[Parent(i)].expiresAt
        invariant i < |data| && OrderedAbove(data, i)
        invariant multiset(data) == multiset(old(data))
      {
        var p := Parent(i);
        RiseStep(data, i);
        data := data[i := data[p]][p := data[i]];
        i := p;
      }
    }

    method EarlierChild(i: nat) returns (c: nat)
      requires 2 * i + 1 < |data|
      ensures 0 < c < |data| && Parent(c) == i
      ensures forall j :: 0 < j < |data| && Parent(j) == i ==> data[c].expiresAt <= data[j].expiresAt
    {
      c := 2 * i + 1;
      if c + 1 < |data| && data[c + 1].expiresAt < data[c].expiresAt { c := c + 1; }
      Children(data, i, c);
    }

    /** Moves the entry at the top down until no child is earlier. */
    method SiftDown()
      requires data != [] && OrderedBelow(data, 0)
      modifies this
      ensures Valid() && |data| == |old(data)| && multiset(data) == multiset(old(data))
    {
      var i: nat := 0;
      while 2 * i + 1 < |data|
        invariant i < |data| == |old(data)| && OrderedBelow(data, i)
        invariant multiset(data) == multiset(old(data))
        decreases |data| - i
      {
        hide OrderedBelow, HeapOrdered;
        var c := EarlierChild(i);
        if data[i].expiresAt <= data[c].expiresAt {
          SinkDone(data, i, c);
          return;
        }
        SinkStep(data, i, c);
        Swapped(data, i, c);
        data := data[i := data[c]][c := data[i]];
        i := c;
      }
    }
  }

  lemma Swapped(s: seq<TtlEntry>, i: nat, j: nat)
    requires i < |s| && j < |s|
    ensures multiset(s[i := s[j]][j := s[i]]) == multiset(s)
  {}

  lemma Children(s: seq<TtlEntry>, i: nat, c: nat)
    requires (c == 2 * i + 1 || c == 2 * i + 2) && c < |s|
    requires 2 * i + 1 < |s| ==> s[c].expiresAt <= s[2 * i + 1].expiresAt
    requires 2 * i + 2 < |s| ==> s[c].expiresAt <= s[2 * i + 2].expiresAt
    ensures Parent(c) == i
    ensures forall j :: 0 < j < |s| && Parent(j) == i ==> s[c].expiresAt <= s[j].expiresAt
  {}

  lemma SinkDone(s: seq<TtlEntry>, i: nat, c: nat)
    requires i < |s| && c < |s| && OrderedBelow(s, i) && s[i].expiresAt <= s[c].expiresAt
    requires forall j :: 0 < j < |s| && Parent(j) == i ==> s[c].expiresAt <= s[j].expiresAt
    ensures HeapOrdered(s)
  {}

  /** Heap order, except that the entry at `i` may be earlier than its parent. */
  ghost predicate OrderedAbove(s: seq<TtlEntry>, i: nat) {
    && (forall j :: 0 < j < |s| && j != i ==> s[Parent(j)].expiresAt <= s[j].expiresAt)
    && (forall j :: 0 < j < |s| && i > 0 && Parent(j) == i ==> s[Parent(i)].expiresAt <= s[j].expiresAt)
  }

  /** Heap order, except that the entry at `i` may be later than its children. */
  ghost predicate OrderedBelow(s: seq<TtlEntry>, i: nat) {
    && (forall j :: 0 < j < |s| && Parent(j) != i ==> s[Parent(j)].expiresAt <= s[j].expiresAt)
    && (forall j :: 0 < j < |s| && i > 0 && Parent(j) == i ==> s[Parent(i)].expiresAt <= s[j].expiresAt)
  }

  lemma RiseStep(s: seq<TtlEntry>, i: nat)
    requires 0 < i < |s| && OrderedAbove(s, i) && s[i].expiresAt < s[Parent(i)].expiresAt
    ensures OrderedAbove(s[i := s[Parent(i)]][Parent(i) := s[i]], Parent(i))
  {}

  lemma SinkStep(s: seq<TtlEntry>, i: nat, c: nat)
    requires 0 < c < |s| && i == Parent(c) && OrderedBelow(s, i) && s[c].expiresAt < s[i].expiresAt
    requires forall j :: 0 < j < |s| && Parent(j) == i ==> s[c].expiresAt <= s[j].expiresAt
    ensures OrderedBelow(s[i := s[c]][c := s[i]], c)
  {
    var t := s[i := s[c]][c := s[i]];
    forall j | 0 < j < |t| && Parent(j) != c ensures t[Parent(j)].expiresAt <= t[j].expiresAt {
      if j != i && Parent(j) != i { assert t[j] == s[j] && t[Parent(j)] == s[Parent(j)]; }
    }
  }
}
