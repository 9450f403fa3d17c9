/** ORDER BY and LIMIT of the initial snapshot. */
module OrderedSnapshot {
  import opened Wrappers
  import opened Strings
  import opened F64
  import opened Json
  import opened Filter
  import opened Tables
  import opened Rounding
  import opened SnapshotIndex

  type Row = (string, Value)

  function CompareStrings(a: string, b: string): Ordering {
    if StringLess(a, b) then Lesser else if StringLess(b, a) then Greater else Same
  }

  function CompareBool(a: bool, b: bool): Ordering {
    if a == b then Same else if b then Lesser else Greater
  }

  /** A missing field goes last; two values of different kinds compare by their JSON text. */
  function CompareValues(text: Printer, a: Option<Value>, b: Option<Value>): Ordering {
    match (a, b)
    case (None, None) => Same
    case (None, Some(_)) => Greater
    case (Some(_), None) => Lesser
    case (Some(Num(x)), Some(Num(y))) => CompareNumber(x, y)
    case (Some(Str(x)), Some(Str(y))) => CompareStrings(x, y)
    case (Some(Bool(x)), Some(Bool(y))) => CompareBool(x, y)
    case (Some(x), Some(y)) => CompareStrings(text(x), text(y))
  }

  function CompareRows(text: Printer, ob: OrderBy, a: Row, b: Row): Ordering {
    var ord := CompareValues(text, Field(a.1, ob.field), Field(b.1, ob.field));
    if ob.direction.Desc? then Reverse(ord) else ord
  }

  // ---- The stable sort ------------------------------------------------------------------------------

  /** A row goes behind the rows it does not come strictly before. */
  function InsertRow(text: Printer, ob: OrderBy, s: seq<Row>, x: Row): seq<Row> {
    if s == [] || CompareRows(text, ob, x, s[0]).Lesser? then [x] + s
    else [s[0]] + InsertRow(text, ob, s[1..], x)
  }

  function SortRows(text: Printer, ob: OrderBy, s: seq<Row>): seq<Row> {
    if s == [] then []
    else InsertRow(text, ob, SortRows(text, ob, s[..|s| - 1]), s[|s| - 1])
  }

  function Truncate(s: seq<Row>, limit: Option<nat>): seq<Row> {
    if limit.Some? && limit.value < |s| then s[..limit.value] else s
  }

  // ---- What the printer is assumed to do --------------------------------------------------------------

  /** The first characters of JSON texts (RFC 8259, section 3). */
  ghost predicate JsonText(text: Printer) {
    && text(Null) == "null" && text(Bool(true)) == "true" && text(Bool(false)) == "false"
    && (forall s :: |text(Str(s))| > 0 && text(Str(s))[0] == '"')
    && (forall n :: |text(Num(n))| > 0 && (text(Num(n))[0] == '-' || '0' <= text(Num(n))[0] <= '9'))
    && (forall items :: |text(Arr(items))| > 0 && text(Arr(items))[0] == '[')
    && (forall fields :: |text(Obj(fields))| > 0 && text(Obj(fields))[0] == '{')
  }

  /** The order of the kinds, as the first characters of their texts have it. */
  function Kind(a: Option<Value>): nat {
    match a
    case None => 7
    case Some(Str(_)) => 0
    case Some(Num(_)) => 1
    case Some(Arr(_)) => 2
    case Some(Bool(b)) => if b then 5 else 3
    case Some(Null) => 4
    case Some(Obj(_)) => 6
  }

  /** Kind first, then the order inside the kind: another description of `CompareValues`. */
  function CompareByKind(text: Printer, a: Option<Value>, b: Option<Value>): Ordering {
    if Kind(a) != Kind(b) then CompareInt(Kind(a), Kind(b))
    else
      match (a, b)
      case (Some(Num(x)), Some(Num(y))) => CompareNumber(x, y)
      case (Some(Str(x)), Some(Str(y))) => CompareStrings(x, y)
      case (Some(Arr(_)), Some(_)) => CompareStrings(text(a.value), text(b.value))
      case (Some(Obj(_)), Some(_)) => CompareStrings(text(a.value), text(b.value))
      case _ => Same
  }

  lemma CompareIsByKind(text: Printer, a: Option<Value>, b: Option<Value>)
    requires JsonText(text)
    ensures CompareValues(text, a, b) == CompareByKind(text, a, b)
  {
    hide CompareNumber;
    if a.Some? && b.Some? {
      StringLessTotal(text(a.value), text(b.value));
      var x, y := a.value, b.value;
      assert x.Bool? ==> x == Bool(true) || x == Bool(false);
      assert y.Bool? ==> y == Bool(true) || y == Bool(false);
      assert |text(x)| > 0 && |text(y)| > 0;
    }
  }

  // ---- A total preorder -------------------------------------------------------------------------------

  lemma CompareStringsTotal(a: string, b: string, c: string)
    ensures CompareStrings(b, a) == Reverse(CompareStrings(a, b))
    ensures CompareStrings(a, b).Same? <==> a == b
    ensures !CompareStrings(a, b).Greater? && !CompareStrings(b, c).Greater? ==> !CompareStrings(a, c).Greater?
  {
    StringLessTotal(a, b);
    StringLessTotal(b, c);
    if StringLess(a, b) && StringLess(b, c) { StringLessTransitive(a, b, c); }
    StringLessTotal(a, c);
  }

  /** Three numbers that collide. */
  predicate CollidingValues(a: Option<Value>, b: Option<Value>, c: Option<Value>) {
    match (a, b, c)
    case (Some(Num(x)), Some(Num(y)), Some(Num(z))) => Collides(x, y, z)
    case _ => false
  }

  lemma ByKindPreorder(text: Printer, a: Option<Value>, b: Option<Value>, c: Option<Value>)
    ensures CompareByKind(text, b, a) == Reverse(CompareByKind(text, a, b))
    ensures (!CompareByKind(text, a, b).Greater? && !CompareByKind(text, b, c).Greater? ==>
               !CompareByKind(text, a, c).Greater?)
            <==> !CollidingValues(a, b, c)
  {
    hide CompareNumber, CompareStrings, Collides;
    if a.Some? && b.Some? && c.Some? {
      CompareStringsTotal(text(a.value), text(b.value), text(c.value));
      if a.value.Str? && b.value.Str? && c.value.Str? {
        CompareStringsTotal(a.value.s, b.value.s, c.value.s);
      }
      if a.value.Num? && b.value.Num? && c.value.Num? {
        NumbersPreorder(a.value.n, b.value.n, c.value.n);
      }
    }
    if a.Some? && b.Some? {
      CompareStringsTotal(text(a.value), text(b.value), []);
      if a.value.Str? && b.value.Str? { CompareStringsTotal(a.value.s, b.value.s, []); }
      if a.value.Num? && b.value.Num? { NumbersPreorder(a.value.n, b.value.n, b.value.n); }
    }
  }

  /** `compare_values` over values of any kinds, missing ones included: comparing backwards reverses the answer,
      and "not after" is transitive if and only if the three values are no colliding numbers. */
  lemma CompareValuesPreorder(text: Printer, a: Option<Value>, b: Option<Value>, c: Option<Value>)
    requires JsonText(text)
    ensures CompareValues(text, b, a) == Reverse(CompareValues(text, a, b))
    ensures (!CompareValues(text, a, b).Greater? && !CompareValues(text, b, c).Greater? ==>
               !CompareValues(text, a, c).Greater?)
            <==> !CollidingValues(a, b, c)
  {
    CompareIsByKind(text, a, b);
    CompareIsByKind(text, b, a);
    CompareIsByKind(text, b, c);
    CompareIsByKind(text, a, c);
    ByKindPreorder(text, a, b, c);
    hide CompareValues, CompareByKind;
  }

  /** 2^53 + 1, the double 2^53 and 2^53 are each not after the next, yet the first is after the last. */
  lemma RoundedIntegersAreNotOrdered(text: Printer)
    ensures var a, b, c := Some(Num(Int(2 * TWO_52 + 1))), Some(Num(Float(1076 * TWO_52))), Some(Num(Int(2 * TWO_52)));
            && !CompareValues(text, a, b).Greater? && !CompareValues(text, b, c).Greater?
            && CompareValues(text, a, c).Greater?
  {
    RoundedIntegersCollide();
    hide ScaledInt, Scaled;
  }

  // ---- The delivered snapshot -----------------------------------------------------------------------------

  /** No two different integers among the rows round to one double that is also among them. */
  ghost predicate NoCollision(ob: OrderBy, s: seq<Row>) {
    forall a, b, c :: a in s && b in s && c in s ==>
      !CollidingValues(Field(a.1, ob.field), Field(b.1, ob.field), Field(c.1, ob.field))
  }

  ghost predicate InOrder(text: Printer, ob: OrderBy, s: seq<Row>) {
    forall i, j :: 0 <= i < j < |s| ==> !CompareRows(text, ob, s[i], s[j]).Greater?
  }

  lemma RowsPreorder(text: Printer, ob: OrderBy, a: Row, b: Row, c: Row)
    requires JsonText(text) && NoCollision(ob, [a, b, c])
    ensures CompareRows(text, ob, b, a) == Reverse(CompareRows(text, ob, a, b))
    ensures !CompareRows(text, ob, a, b).Greater? && !CompareRows(text, ob, b, c).Greater? ==>
              !CompareRows(text, ob, a, c).Greater?
  {
    var f := ob.field;
    assert a in [a, b, c] && b in [a, b, c] && c in [a, b, c];
    hide CompareValues, CollidingValues;
    CompareValuesPreorder(text, Field(a.1, f), Field(b.1, f), Field(c.1, f));
    CompareValuesPreorder(text, Field(c.1, f), Field(b.1, f), Field(a.1, f));
    CompareValuesPreorder(text, Field(b.1, f), Field(c.1, f), Field(a.1, f));
    CompareValuesPreorder(text, Field(a.1, f), Field(c.1, f), Field(b.1, f));
  }

  lemma {:induction false} InsertRowContents(text: Printer, ob: OrderBy, s: seq<Row>, x: Row)
    ensures multiset(InsertRow(text, ob, s, x)) == multiset(s) + multiset{x}
  {
    hide CompareRows;
    if s != [] && !CompareRows(text, ob, x, s[0]).Lesser? {
      assert s == [s[0]] + s[1..];
      InsertRowContents(text, ob, s[1..], x);
    }
  }

  lemma {:induction false} InsertRowKeeps(text: Printer, ob: OrderBy, s: seq<Row>, x: Row)
    requires JsonText(text) && NoCollision(ob, [x] + s) && InOrder(text, ob, s)
    ensures InOrder(text, ob, InsertRow(text, ob, s, x))
  {
    hide CompareRows, NoCollision, JsonText;
    var all := [x] + s;
    if s != [] {
      if CompareRows(text, ob, x, s[0]).Lesser? {
        forall j | 0 <= j < |s| ensures !CompareRows(text, ob, x, s[j]).Greater? {
          Subset(ob, all, 0, 1, j + 1);
          RowsPreorder(text, ob, x, s[0], s[j]);
        }
      } else {
        var rest := InsertRow(text, ob, s[1..], x);
        Tail(ob, s, x);
        InsertRowKeeps(text, ob, s[1..], x);
        InsertRowContents(text, ob, s[1..], x);
        Subset(ob, all, 0, 1, 1);
        RowsPreorder(text, ob, x, s[0], s[0]);
        forall j | 0 <= j < |rest| ensures !CompareRows(text, ob, s[0], rest[j]).Greater? {
          assert rest[j] in multiset(rest);
          assert rest[j] == x || rest[j] in s[1..];
        }
      }
    }
  }

  lemma Tail(ob: OrderBy, s: seq<Row>, x: Row)
    requires NoCollision(ob, [x] + s) && s != []
    ensures NoCollision(ob, [x] + s[1..])
  {
    SameRows(ob, [x] + s, [x] + s[1..]);
  }

  lemma Subset(ob: OrderBy, s: seq<Row>, i: nat, j: nat, k: nat)
    requires NoCollision(ob, s) && i < |s| && j < |s| && k < |s|
    ensures NoCollision(ob, [s[i], s[j], s[k]])
  {}

  lemma {:induction false} SortRowsContents(text: Printer, ob: OrderBy, s: seq<Row>)
    ensures multiset(SortRows(text, ob, s)) == multiset(s)
  {
    hide InsertRow;
    if s != [] {
      var init, x := s[..|s| - 1], s[|s| - 1];
      assert s == init + [x];
      SortRowsContents(text, ob, init);
      InsertRowContents(text, ob, SortRows(text, ob, init), x);
    }
  }

  lemma {:induction false} SortRowsSorts(text: Printer, ob: OrderBy, s: seq<Row>)
    requires JsonText(text) && NoCollision(ob, s)
    ensures InOrder(text, ob, SortRows(text, ob, s))
  {
    hide InsertRow, NoCollision, JsonText;
    if s != [] {
      hide InOrder;
      var init, x := s[..|s| - 1], s[|s| - 1];
      SameRows(ob, s, init);
      SortRowsSorts(text, ob, init);
      LastToFront(text, ob, s);
      InsertRowKeeps(text, ob, SortRows(text, ob, init), x);
    }
  }

  lemma LastToFront(text: Printer, ob: OrderBy, s: seq<Row>)
    requires NoCollision(ob, s) && s != []
    ensures NoCollision(ob, [s[|s| - 1]] + SortRows(text, ob, s[..|s| - 1]))
  {
    hide NoCollision, SortRows;
    var init, x := s[..|s| - 1], s[|s| - 1];
    var t := SortRows(text, ob, init);
    SortRowsContents(text, ob, init);
    forall y | y in t ensures y in s {
      assert y in multiset(init);
    }
    SameRows(ob, s, [x] + t);
  }

  lemma SameRows(ob: OrderBy, s: seq<Row>, t: seq<Row>)
    requires NoCollision(ob, s) && forall x: Row :: x in t ==> x in s
    ensures NoCollision(ob, t)
  {
    hide CollidingValues;
  }

  // ---- When comparing neighbours decides the order ---------------------------------------------------------

  ghost predicate NeighboursInOrder(text: Printer, ob: OrderBy, s: seq<Row>) {
    forall i :: 0 < i < |s| ==> !CompareRows(text, ob, s[i - 1], s[i]).Greater?
  }

  lemma {:induction false} NeighboursReach(text: Printer, ob: OrderBy, s: seq<Row>, i: nat, j: nat)
    requires JsonText(text) && NoCollision(ob, s) && NeighboursInOrder(text, ob, s) && i < j < |s|
    ensures !CompareRows(text, ob, s[i], s[j]).Greater?
    decreases j
  {
    hide CompareRows, NoCollision, JsonText;
    if i < j - 1 {
      NeighboursReach(text, ob, s, i, j - 1);
      hide NeighboursInOrder;
      NextInOrder(text, ob, s, j);
      Subset(ob, s, i, j - 1, j);
      RowsPreorder(text, ob, s[i], s[j - 1], s[j]);
    }
  }

  lemma NextInOrder(text: Printer, ob: OrderBy, s: seq<Row>, j: nat)
    requires NeighboursInOrder(text, ob, s) && 0 < j < |s|
    ensures !CompareRows(text, ob, s[j - 1], s[j]).Greater?
  {}

  lemma NeighboursGive(text: Printer, ob: OrderBy, s: seq<Row>, t: seq<Row>)
    requires JsonText(text) && NoCollision(ob, s) && (forall x: Row :: x in t ==> x in s)
    requires NeighboursInOrder(text, ob, t)
    ensures InOrder(text, ob, t)
  {
    SameRows(ob, s, t);
    hide CompareRows, NoCollision, JsonText, NeighboursInOrder;
    forall i, j | 0 <= i < j < |t| ensures !CompareRows(text, ob, t[i], t[j]).Greater? {
      NeighboursReach(text, ob, t, i, j);
    }
  }

  /** What every sort by comparison relies on, a list of the rows being in order as soon as its neighbours are,
      holds if and only if no two different integers among the rows round to one double among them. */
  lemma NeighboursDecide(text: Printer, ob: OrderBy, s: seq<Row>)
    requires JsonText(text)
    ensures NoCollision(ob, s) <==>
            forall t: seq<Row> :: (forall x :: x in t ==> x in s) && NeighboursInOrder(text, ob, t) ==>
              InOrder(text, ob, t)
  {
    hide CompareRows, CollidingValues, JsonText, NeighboursInOrder, InOrder;
    if NoCollision(ob, s) {
      hide NoCollision;
      forall t: seq<Row> | (forall x :: x in t ==> x in s) && NeighboursInOrder(text, ob, t)
        ensures InOrder(text, ob, t)
      {
        NeighboursGive(text, ob, s, t);
      }
    } else {
      var a, b, c :| a in s && b in s && c in s
        && CollidingValues(Field(a.1, ob.field), Field(b.1, ob.field), Field(c.1, ob.field));
      hide NoCollision;
      var t := if ob.direction.Desc? then [c, b, a] else [a, b, c];
      CollisionHides(text, ob, a, b, c);
      assert forall x :: x in t ==> x in s;
    }
  }

  lemma CollisionHides(text: Printer, ob: OrderBy, a: Row, b: Row, c: Row)
    requires CollidingValues(Field(a.1, ob.field), Field(b.1, ob.field), Field(c.1, ob.field))
    ensures var t := if ob.direction.Desc? then [c, b, a] else [a, b, c];
            NeighboursInOrder(text, ob, t) && !InOrder(text, ob, t)
  {
    var t := if ob.direction.Desc? then [c, b, a] else [a, b, c];
    CollidingRows(text, ob, a, b, c);
    hide CompareRows, CollidingValues;
    assert CompareRows(text, ob, t[0], t[2]).Greater?;
  }

  lemma CollidingRows(text: Printer, ob: OrderBy, a: Row, b: Row, c: Row)
    requires CollidingValues(Field(a.1, ob.field), Field(b.1, ob.field), Field(c.1, ob.field))
    ensures var first, last := if ob.direction.Desc? then c else a, if ob.direction.Desc? then a else c;
            && !CompareRows(text, ob, first, b).Greater? && !CompareRows(text, ob, b, last).Greater?
            && CompareRows(text, ob, first, last).Greater?
  {
    hide ScaledInt, Scaled;
  }

  function Ordered(text: Printer, f: SubscriptionFilter, rows: seq<Row>): seq<Row> {
    if f.orderBy.None? then rows else SortRows(text, f.orderBy.value, rows)
  }

  function Delivered(text: Printer, f: SubscriptionFilter, rows: seq<Row>): seq<Row> {
    Truncate(Ordered(text, f, rows), f.limit)
  }

  /** The delivered rows are in order, they and the omitted ones together are the matching rows, and no
      omitted row comes strictly before a delivered one. */
  lemma DeliveredIsBest(text: Printer, f: SubscriptionFilter, rows: seq<Row>)
    requires JsonText(text) && f.orderBy.Some? && NoCollision(f.orderBy.value, rows)
    ensures var sent := Delivered(text, f, rows);
            var omitted := Ordered(text, f, rows)[|sent|..];
            && InOrder(text, f.orderBy.value, sent)
            && multiset(sent) + multiset(omitted) == multiset(rows)
            && (omitted == [] || (f.limit.Some? && |sent| == f.limit.value))
            && forall o, d :: o in omitted && d in sent ==> !CompareRows(text, f.orderBy.value, o, d).Lesser?
  {
    var ob := f.orderBy.value;
    var sorted := SortRows(text, ob, rows);
    SortRowsSorts(text, ob, rows);
    SortRowsContents(text, ob, rows);
    SortedComparable(text, ob, rows);
    hide SortRows, CompareRows, JsonText, NoCollision, InOrder;
    CutInOrder(text, ob, sorted, |Delivered(text, f, rows)|);
  }

  /** Cutting an ordered list: the front is in order and nothing behind the cut comes before it. */
  lemma CutInOrder(text: Printer, ob: OrderBy, sorted: seq<Row>, n: nat)
    requires JsonText(text) && InOrder(text, ob, sorted) && NoCollision(ob, sorted) && n <= |sorted|
    ensures InOrder(text, ob, sorted[..n]) && multiset(sorted[..n]) + multiset(sorted[n..]) == multiset(sorted)
    ensures forall o, d :: o in sorted[n..] && d in sorted[..n] ==> !CompareRows(text, ob, o, d).Lesser?
  {
    FrontInOrder(text, ob, sorted, n);
    assert multiset(sorted[..n]) + multiset(sorted[n..]) == multiset(sorted) by {
      assert sorted == sorted[..n] + sorted[n..];
    }
    hide CompareRows, JsonText, NoCollision, InOrder;
    forall o, d | o in sorted[n..] && d in sorted[..n] ensures !CompareRows(text, ob, o, d).Lesser? {
      CrossNotLess(text, ob, sorted, n, o, d);
    }
  }

  lemma FrontInOrder(text: Printer, ob: OrderBy, sorted: seq<Row>, n: nat)
    requires InOrder(text, ob, sorted) && n <= |sorted|
    ensures InOrder(text, ob, sorted[..n])
  {
    hide CompareRows;
  }

  lemma CrossNotLess(text: Printer, ob: OrderBy, sorted: seq<Row>, n: nat, o: Row, d: Row)
    requires JsonText(text) && InOrder(text, ob, sorted) && NoCollision(ob, sorted) && n <= |sorted|
    requires o in sorted[n..] && d in sorted[..n]
    ensures !CompareRows(text, ob, o, d).Lesser?
  {
    hide CompareRows, JsonText, NoCollision, InOrder;
    var i :| 0 <= i < n && sorted[..n][i] == d;
    var j :| 0 <= j < |sorted| - n && sorted[n..][j] == o;
    LaterNotLess(text, ob, sorted, i, n + j);
  }

  lemma LaterNotLess(text: Printer, ob: OrderBy, sorted: seq<Row>, i: nat, j: nat)
    requires JsonText(text) && InOrder(text, ob, sorted) && NoCollision(ob, sorted) && i < j < |sorted|
    ensures !CompareRows(text, ob, sorted[j], sorted[i]).Lesser?
  {
    Subset(ob, sorted, i, j, i);
    RowsPreorder(text, ob, sorted[i], sorted[j], sorted[i]);
    hide CompareRows, JsonText;
  }

  lemma SortedComparable(text: Printer, ob: OrderBy, rows: seq<Row>)
    requires JsonText(text) && NoCollision(ob, rows)
    ensures NoCollision(ob, SortRows(text, ob, rows))
  {
    var t := SortRows(text, ob, rows);
    SortRowsSorts(text, ob, rows);
    SortRowsContents(text, ob, rows);
    forall x | x in t ensures x in rows { assert x in multiset(t); }
    SameRows(ob, rows, t);
  }

  /** Missing fields come last in ascending and first in descending order. */
  lemma MissingFieldsEnd(text: Printer, ob: OrderBy, s: seq<Row>, i: nat, j: nat)
    requires InOrder(text, ob, s) && i < j < |s|
    ensures ob.direction.Asc? && Field(s[i].1, ob.field).None? ==> Field(s[j].1, ob.field).None?
    ensures ob.direction.Desc? && Field(s[j].1, ob.field).None? ==> Field(s[i].1, ob.field).None?
  {
    assert !CompareRows(text, ob, s[i], s[j]).Greater?;
  }

  /** The initial snapshot of a subscription: the delivered part of the matching rows that are looked at. */
  method InitialSnapshot(s: TableStore, f: SubscriptionFilter) returns (sent: seq<Row>)
    requires s.Valid()
    modifies s
    ensures s.Valid() && (old(s.AllTidy()) ==> s.AllTidy()) && forall n :: s.Rows(n) == old(s.Rows(n))
    ensures exists rows :: Lists(rows, Matching(f, LookedAt(s, f))) && sent == Delivered(s.text, f, rows)
  {
    var rows := MatchingRows(s, f);
    var sorted := if f.orderBy.None? then rows else SortRows(s.text, f.orderBy.value, rows);
    sent := Truncate(sorted, f.limit);
  }
}
