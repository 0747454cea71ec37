/**
  Listing by cursor: a page is what follows the cursor, at most `limit` items of it, and the next cursor
  is that of the last item returned. A cursor is a sequence of integers in lexicographic order, which
  covers an identifier (its bytes), a time, a (level, start) pair and a (size, identity) pair.
*/
module Paging {
  import Text

  type Cursor = seq<int>

  ghost predicate Sorted<T>(items: seq<T>, cursor: T -> Cursor) {
    forall i, j | 0 <= i < j < |items| :: !Text.Less(cursor(items[j]), cursor(items[i]))
  }

  /** The first position at or after i whose item lies beyond the cursor. */
  function Start<T>(items: seq<T>, cursor: T -> Cursor, after: Cursor, i: nat): (s: nat)
    requires i <= |items|
    ensures i <= s <= |items| && (s < |items| ==> Text.Less(after, cursor(items[s])))
    ensures forall j | i <= j < s :: !Text.Less(after, cursor(items[j]))
    decreases |items| - i
  {
    if i == |items| || Text.Less(after, cursor(items[i])) then i else Start(items, cursor, after, i + 1)
  }

  function Upto(s: nat, limit: nat, n: nat): nat { if s + limit < n then s + limit else n }

  function Page<T>(items: seq<T>, cursor: T -> Cursor, after: Cursor, limit: nat): seq<T> {
    var s := Start(items, cursor, after, 0);
    items[s..Upto(s, limit, |items|)]
  }

  /** Read one page. */
  method ListAfter<T>(items: seq<T>, cursor: T -> Cursor, after: Cursor, limit: nat) returns (page: seq<T>)
    ensures page == Page(items, cursor, after, limit)
  {
    page := [];
    var s := Start(items, cursor, after, 0);
    var i := s;
    while i < |items| && |page| < limit
      invariant s <= i <= |items| && page == items[s..i] && |page| <= limit
    {
      page := page + [items[i]];
      i := i + 1;
    }
  }

  /** Everything the loop over pages sees from position i on. */
  function Seen<T>(items: seq<T>, cursor: T -> Cursor, i: nat, limit: nat): (r: seq<T>)
    requires i <= |items| && limit > 0
    decreases |items| - i
  {
    if i == |items| then []
    else
      var e := Upto(i, limit, |items|);
      items[i..e] + Seen(items, cursor, Start(items, cursor, cursor(items[e - 1]), e), limit)
  }

  function AllSeen<T>(items: seq<T>, cursor: T -> Cursor, after: Cursor, limit: nat): seq<T>
    requires limit > 0
  {
    Seen(items, cursor, Start(items, cursor, after, 0), limit)
  }

  /** In a sorted list the search for the next page may begin where the last one ended. */
  lemma NextStart<T>(items: seq<T>, cursor: T -> Cursor, e: nat)
    requires Sorted(items, cursor) && 0 < e <= |items|
    ensures Start(items, cursor, cursor(items[e - 1]), 0) == Start(items, cursor, cursor(items[e - 1]), e)
  {
    var after := cursor(items[e - 1]);
    Text.LessIrreflexive(after);
    var s := Start(items, cursor, after, 0);
    assert forall j | 0 <= j < e :: !Text.Less(after, cursor(items[j]));
    assert s >= e;
  }

  lemma {:induction false} SeenFrom<T>(items: seq<T>, cursor: T -> Cursor, i: nat, limit: nat, x: T)
    requires i <= |items| && limit > 0 && x in Seen(items, cursor, i, limit)
    ensures x in items[i..]
    decreases |items| - i
  {
    if i < |items| {
      var e := Upto(i, limit, |items|);
      if x !in items[i..e] {
        var s := Start(items, cursor, cursor(items[e - 1]), e);
        SeenFrom(items, cursor, s, limit, x);
        assert items[i..][s - i..] == items[s..];
      }
    }
  }

  /** Nothing is lost at a page boundary exactly when the cursor moves there. */
  ghost predicate BoundariesMove<T>(items: seq<T>, cursor: T -> Cursor, i: nat, limit: nat)
    requires limit > 0
    decreases |items| - i
  {
    i + limit < |items| ==>
      Text.Less(cursor(items[i + limit - 1]), cursor(items[i + limit]))
      && BoundariesMove(items, cursor, i + limit, limit)
  }

  lemma Cancel<T>(items: seq<T>, i: nat, e: nat, later: seq<T>)
    requires i <= e <= |items|
    ensures items[i..e] + later == items[i..] <==> later == items[e..]
  {
    assert items[i..] == items[i..e] + items[e..];
    assert (items[i..e] + later)[e - i..] == later;
  }

  lemma {:induction false} SeenExactly<T>(items: seq<T>, cursor: T -> Cursor, i: nat, limit: nat)
    requires i <= |items| && limit > 0
    ensures |Seen(items, cursor, i, limit)| <= |items| - i
    ensures Seen(items, cursor, i, limit) == items[i..] <==> BoundariesMove(items, cursor, i, limit)
    decreases |items| - i
  {
    if i < |items| {
      var e := Upto(i, limit, |items|);
      var s := Start(items, cursor, cursor(items[e - 1]), e);
      SeenExactly(items, cursor, s, limit);
      PageThenRest(items, cursor, i, limit, e, s, Seen(items, cursor, s, limit));
    }
  }

  lemma PageThenRest<T>(items: seq<T>, cursor: T -> Cursor, i: nat, limit: nat, e: nat, s: nat, later: seq<T>)
    requires i < |items| && limit > 0 && e == Upto(i, limit, |items|)
    requires s == Start(items, cursor, cursor(items[e - 1]), e) && |later| <= |items| - s
    requires later == items[s..] <==> BoundariesMove(items, cursor, s, limit)
    ensures |items[i..e] + later| <= |items| - i
    ensures items[i..e] + later == items[i..] <==> BoundariesMove(items, cursor, i, limit)
  {
    OnePage(items, cursor, i, limit, e, s, later);
    Cancel(items, i, e, later);
  }

  /** After a page that ends at e, everything from e on is seen exactly when the boundaries move. */
  lemma OnePage<T>(items: seq<T>, cursor: T -> Cursor, i: nat, limit: nat, e: nat, s: nat, later: seq<T>)
    requires i < |items| && limit > 0 && e == Upto(i, limit, |items|)
    requires s == Start(items, cursor, cursor(items[e - 1]), e) && |later| <= |items| - s
    requires later == items[s..] <==> BoundariesMove(items, cursor, s, limit)
    ensures later == items[e..] <==> BoundariesMove(items, cursor, i, limit)
  {
    if e == |items| {
      assert items[e..] == [];
    } else if s > e {
      assert |later| < |items[e..]|;
    }
  }

  /** Only a loop that sees everything sees as many items as there are. */
  lemma {:induction false} SeenAll<T>(items: seq<T>, cursor: T -> Cursor, i: nat, limit: nat)
    requires i <= |items| && limit > 0 && |Seen(items, cursor, i, limit)| >= |items| - i
    ensures Seen(items, cursor, i, limit) == items[i..]
    decreases |items| - i
  {
    if i < |items| {
      var e := Upto(i, limit, |items|);
      var s := Start(items, cursor, cursor(items[e - 1]), e);
      SeenExactly(items, cursor, s, limit);
      SeenAll(items, cursor, s, limit);
      assert s == e && items[i..] == items[i..e] + items[e..];
    }
  }

  /** In a list without repeats nothing is lost if each item is seen somewhere. */
  lemma EachSeen<T>(items: seq<T>, cursor: T -> Cursor, after: Cursor, limit: nat)
    requires limit > 0 && (forall i, j | 0 <= i < j < |items| :: items[i] != items[j])
    requires forall x <- items :: x in AllSeen(items, cursor, after, limit)
    ensures AllSeen(items, cursor, after, limit) == items
  {
    var s := Start(items, cursor, after, 0);
    var seen := AllSeen(items, cursor, after, limit);
    SetSize(items);
    SetAtMost(seen);
    Within(Members(items), Members(seen));
    SeenExactly(items, cursor, s, limit);
    SeenAll(items, cursor, s, limit);
    assert s == 0 && items[0..] == items;
  }

  ghost function Members<T>(s: seq<T>): set<T> { set x <- s }

  lemma {:induction false} SetSize<T>(s: seq<T>)
    requires forall i, j | 0 <= i < j < |s| :: s[i] != s[j]
    ensures |Members(s)| == |s|
  {
    if s != [] {
      SetSize(s[1..]);
      assert s == [s[0]] + s[1..] && s[0] !in s[1..];
      assert Members(s) == {s[0]} + Members(s[1..]);
    }
  }

  lemma {:induction false} SetAtMost<T>(s: seq<T>)
    ensures |Members(s)| <= |s|
  {
    if s != [] {
      SetAtMost(s[1..]);
      assert s == [s[0]] + s[1..];
      assert Members(s) == {s[0]} + Members(s[1..]);
    }
  }

  lemma Within<T>(a: set<T>, b: set<T>)
    requires a <= b
    ensures |a| <= |b|
  {
    assert b == a + (b - a);
  }

  /** The loop over pages sees the whole list exactly when the first item lies beyond the initial cursor
      and the cursor strictly increases wherever a page ends. */
  lemma AllSeenExactly<T>(items: seq<T>, cursor: T -> Cursor, after: Cursor, limit: nat)
    requires limit > 0
    ensures AllSeen(items, cursor, after, limit) == items <==>
              (items == [] || Text.Less(after, cursor(items[0]))) && BoundariesMove(items, cursor, 0, limit)
  {
    var s := Start(items, cursor, after, 0);
    SeenExactly(items, cursor, s, limit);
    if s == 0 {
      assert items[0..] == items;
    }
  }

  /** With distinct cursors in order, no boundary can lose anything. */
  lemma {:induction false} DistinctMove<T>(items: seq<T>, cursor: T -> Cursor, i: nat, limit: nat)
    requires limit > 0 && forall k | 0 < k < |items| :: Text.Less(cursor(items[k - 1]), cursor(items[k]))
    ensures BoundariesMove(items, cursor, i, limit)
    decreases |items| - i
  {
    if i + limit < |items| {
      DistinctMove(items, cursor, i + limit, limit);
    }
  }
}
