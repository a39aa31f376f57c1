/** The one order every read in this schema asks for: by a rank, then by id.
    ORDER BY id, ORDER BY ordinal, id and ORDER BY at DESC, id are its three uses. */
module Ordering {

  type Id = string

  /** Strict lexicographic order on ids. */
  predicate Below(a: Id, b: Id) {
    b != [] && (a == [] || a[0] < b[0] || (a[0] == b[0] && Below(a[1..], b[1..])))
  }

  lemma {:induction false} BelowIrreflexive(a: Id)
    ensures !Below(a, a)
  {
    if a != [] { BelowIrreflexive(a[1..]); }
  }

  lemma {:induction false} BelowTransitive(a: Id, b: Id, c: Id)
    requires Below(a, b) && Below(b, c)
    ensures Below(a, c)
  {
    if a != [] && a[0] == b[0] && b[0] == c[0] { BelowTransitive(a[1..], b[1..], c[1..]); }
  }

  lemma {:induction false} BelowTotal(a: Id, b: Id)
    ensures a == b || Below(a, b) || Below(b, a)
  {
    if a != [] && b != [] && a[0] == b[0] {
      BelowTotal(a[1..], b[1..]);
      if a[1..] == b[1..] { assert a == [a[0]] + a[1..] && b == [b[0]] + b[1..]; }
    }
  }

  /** ORDER BY rank, id. */
  predicate Precedes(rank: map<Id, int>, a: Id, b: Id)
    requires a in rank && b in rank
  {
    rank[a] < rank[b] || (rank[a] == rank[b] && Below(a, b))
  }

  lemma PrecedesIsAStrictTotalOrder(rank: map<Id, int>)
    ensures forall a | a in rank :: !Precedes(rank, a, a)
    ensures forall a, b, c | a in rank && b in rank && c in rank
              && Precedes(rank, a, b) && Precedes(rank, b, c) :: Precedes(rank, a, c)
    ensures forall a, b | a in rank && b in rank :: a == b || Precedes(rank, a, b) || Precedes(rank, b, a)
  {
    forall a | a in rank ensures !Precedes(rank, a, a) { BelowIrreflexive(a); }
    forall a, b, c | a in rank && b in rank && c in rank && Precedes(rank, a, b) && Precedes(rank, b, c)
      ensures Precedes(rank, a, c)
    {
      if rank[a] == rank[b] == rank[c] { BelowTransitive(a, b, c); }
    }
    forall a, b | a in rank && b in rank
      ensures a == b || Precedes(rank, a, b) || Precedes(rank, b, a)
    {
      BelowTotal(a, b);
    }
  }

  predicate IsFirst(m: Id, s: set<Id>, rank: map<Id, int>)
    requires s <= rank.Keys
  {
    m in s && forall y | y in s && y != m :: Precedes(rank, m, y)
  }

  lemma {:induction false} FirstExists(s: set<Id>, rank: map<Id, int>) returns (m: Id)
    requires s != {} && s <= rank.Keys
    ensures IsFirst(m, s, rank)
    decreases |s|
  {
    PrecedesIsAStrictTotalOrder(rank);
    m :| m in s;
    if s != {m} {
      var n := FirstExists(s - {m}, rank);
      if Precedes(rank, n, m) { m := n; }
    }
  }

  lemma FirstIsUnique(s: set<Id>, rank: map<Id, int>)
    requires s != {} && s <= rank.Keys
    ensures exists m :: IsFirst(m, s, rank)
    ensures forall m, n | IsFirst(m, s, rank) && IsFirst(n, s, rank) :: m == n
  {
    var m := FirstExists(s, rank);
    PrecedesIsAStrictTotalOrder(rank);
  }

  /** The rows of s in query order. */
  function Listing(s: set<Id>, rank: map<Id, int>): (list: seq<Id>)
    requires s <= rank.Keys
    ensures IsListing(list, s, rank)
    decreases |s|
  {
    if s == {} then []
    else
      FirstIsUnique(s, rank);
      var m :| IsFirst(m, s, rank);
      [m] + Listing(s - {m}, rank)
  }

  /** list holds exactly s, each once, in order. */
  ghost predicate IsListing(list: seq<Id>, s: set<Id>, rank: map<Id, int>)
    requires s <= rank.Keys
  {
    && (forall x :: x in list <==> x in s)
    && (forall i, j | 0 <= i < j < |list| :: list[i] in s && list[j] in s && Precedes(rank, list[i], list[j]))
  }

  lemma TailIsListing(list: seq<Id>, s: set<Id>, rank: map<Id, int>, m: Id)
    requires s <= rank.Keys && IsListing(list, s, rank) && list != [] && m == list[0]
    ensures IsListing(list[1..], s - {m}, rank)
  {
    PrecedesIsAStrictTotalOrder(rank);
    var tail := list[1..];
    forall x ensures x in tail <==> x in s - {m} {
      if x in tail {
        var j :| 0 <= j < |tail| && tail[j] == x;
        assert list[j + 1] == x && x in list;
      }
      if x in s - {m} {
        assert x in list;
        var j :| 0 <= j < |list| && list[j] == x;
        assert tail[j - 1] == x;
      }
    }
  }

  lemma HeadOfListing(list: seq<Id>, s: set<Id>, rank: map<Id, int>)
    requires s <= rank.Keys && IsListing(list, s, rank) && s != {}
    ensures list != [] && IsFirst(list[0], s, rank)
  {
    assert list != [] by { var x :| x in s; assert x in list; }
    assert list[0] in list;
    forall y | y in s && y != list[0] ensures Precedes(rank, list[0], y) {
      assert y in list;
      var j :| 0 <= j < |list| && list[j] == y;
    }
  }

  lemma ListingByHead(s: set<Id>, rank: map<Id, int>, m: Id)
    requires s <= rank.Keys && IsFirst(m, s, rank)
    ensures Listing(s, rank) == [m] + Listing(s - {m}, rank)
  {
    FirstIsUnique(s, rank);
  }

  /** There is only one listing of a set, so any sequence shown to be one is the query's answer. */
  lemma {:induction false} ListingIsUnique(list: seq<Id>, s: set<Id>, rank: map<Id, int>)
    requires s <= rank.Keys && IsListing(list, s, rank)
    ensures list == Listing(s, rank)
    decreases |s|
  {
    if s != {} {
      HeadOfListing(list, s, rank);
      TailIsListing(list, s, rank, list[0]);
      ListingIsUnique(list[1..], s - {list[0]}, rank);
      ListingByHead(s, rank, list[0]);
      assert list == [list[0]] + list[1..];
    }
  }

  lemma ListingHasEachOnce(s: set<Id>, rank: map<Id, int>)
    requires s <= rank.Keys
    ensures |Listing(s, rank)| == |s|
    ensures forall i, j | 0 <= i < j < |Listing(s, rank)| :: Listing(s, rank)[i] != Listing(s, rank)[j]
    decreases |s|
  {
    PrecedesIsAStrictTotalOrder(rank);
    if s != {} {
      FirstIsUnique(s, rank);
      var m :| IsFirst(m, s, rank);
      ListingHasEachOnce(s - {m}, rank);
    }
  }

  /** A listing depends on the relative order of the rows alone, not on the ranks themselves. */
  lemma ListingDependsOnOrderOnly(s: set<Id>, r1: map<Id, int>, r2: map<Id, int>)
    requires s <= r1.Keys && s <= r2.Keys
    requires forall a, b | a in s && b in s :: Precedes(r1, a, b) <==> Precedes(r2, a, b)
    ensures Listing(s, r1) == Listing(s, r2)
  {
    ListingIsUnique(Listing(s, r1), s, r2);
  }

  /** ORDER BY id gives every row the same rank. */
  function Flat(s: set<Id>): map<Id, int> {
    map x | x in s :: 0
  }

  /** A keyed table, read ORDER BY id. */
  function InIdOrder<T>(table: map<Id, T>): seq<T> {
    var ids := Listing(table.Keys, Flat(table.Keys));
    seq(|ids|, i requires 0 <= i < |ids| => table[ids[i]])
  }

  /** What a client does with a bare entity: replace the one of that id, or insert it in id order. */
  function Splice<T>(key: T -> Id, list: seq<T>, e: T): seq<T> {
    if list == [] then [e]
    else if key(list[0]) == key(e) then [e] + list[1..]
    else if Below(key(list[0]), key(e)) then [list[0]] + Splice(key, list[1..], e)
    else [e] + list
  }

  ghost predicate Ascending<T>(key: T -> Id, list: seq<T>) {
    forall i, j | 0 <= i < j < |list| :: Below(key(list[i]), key(list[j]))
  }

  lemma {:induction false} SpliceMembers<T>(key: T -> Id, list: seq<T>, e: T)
    requires Ascending(key, list)
    ensures forall x | x in Splice(key, list, e) :: x == e || (x in list && key(x) != key(e))
    ensures forall x | x in list && key(x) != key(e) :: x in Splice(key, list, e)
    ensures e in Splice(key, list, e)
  {
    if list != [] {
      var head, tail := list[0], list[1..];
      assert list == [head] + tail;
      SpliceMembers(key, tail, e);
      HeadIsBelow(key, list);
      BelowIrreflexive(key(head));
      BelowTotal(key(head), key(e));
      if Below(key(e), key(head)) {
        forall x | x in list ensures key(x) != key(e) {
          BelowIrreflexive(key(e));
          if x != head { BelowTransitive(key(e), key(head), key(x)); }
        }
      }
    }
  }

  lemma HeadIsBelow<T>(key: T -> Id, list: seq<T>)
    requires list != [] && Ascending(key, list)
    ensures Ascending(key, list[1..])
    ensures forall x | x in list[1..] :: Below(key(list[0]), key(x))
  {
  }

  lemma AscendingCons<T>(key: T -> Id, head: T, tail: seq<T>)
    requires Ascending(key, tail) && forall x | x in tail :: Below(key(head), key(x))
    ensures Ascending(key, [head] + tail)
  {
  }

  lemma {:induction false} SpliceKeepsOrder<T>(key: T -> Id, list: seq<T>, e: T)
    requires Ascending(key, list)
    ensures Ascending(key, Splice(key, list, e))
  {
    if list != [] {
      var head, tail := list[0], list[1..];
      HeadIsBelow(key, list);
      BelowTotal(key(head), key(e));
      if key(head) == key(e) {
        AscendingCons(key, e, tail);
      } else if Below(key(head), key(e)) {
        SpliceKeepsOrder(key, tail, e);
        SpliceMembers(key, tail, e);
        var rest := Splice(key, tail, e);
        assert forall x | x in rest :: x == e || x in tail;
        AscendingCons(key, head, rest);
      } else {
        forall x | x in list ensures Below(key(e), key(x)) {
          if x != head { assert x in tail; BelowTransitive(key(e), key(head), key(x)); }
        }
        AscendingCons(key, e, list);
      }
    }
  }

  /** Reading a table ORDER BY id gives each row once, under its own key, ascending. */
  lemma InIdOrderIsTheTable<T>(key: T -> Id, table: map<Id, T>)
    requires forall x | x in table :: key(table[x]) == x
    ensures Ascending(key, InIdOrder(table))
    ensures forall e :: e in InIdOrder(table) <==> key(e) in table && table[key(e)] == e
  {
    var ids := Listing(table.Keys, Flat(table.Keys));
    var list := InIdOrder(table);
    assert forall i | 0 <= i < |ids| :: ids[i] in ids && list[i] == table[ids[i]];
    forall e ensures e in list <==> key(e) in table && table[key(e)] == e {
      if key(e) in table && table[key(e)] == e {
        assert key(e) in ids;
        var i :| 0 <= i < |ids| && ids[i] == key(e);
        assert list[i] == e;
      }
    }
  }

  /** And it is the only list that does. */
  lemma OnlyInIdOrder<T>(key: T -> Id, table: map<Id, T>, list: seq<T>)
    requires forall x | x in table :: key(table[x]) == x
    requires Ascending(key, list)
    requires forall e :: e in list <==> key(e) in table && table[key(e)] == e
    ensures list == InIdOrder(table)
  {
    var ids := seq(|list|, i requires 0 <= i < |list| => key(list[i]));
    KeysAreListed(key, table, list, ids);
    ListingIsUnique(ids, table.Keys, Flat(table.Keys));
    assert forall i | 0 <= i < |list| :: list[i] in list && table[ids[i]] == list[i];
  }

  lemma KeysAreListed<T>(key: T -> Id, table: map<Id, T>, list: seq<T>, ids: seq<Id>)
    requires forall x | x in table :: key(table[x]) == x
    requires Ascending(key, list) && |ids| == |list| && forall i | 0 <= i < |list| :: ids[i] == key(list[i])
    requires forall e :: e in list <==> key(e) in table && table[key(e)] == e
    ensures IsListing(ids, table.Keys, Flat(table.Keys))
  {
    assert forall i | 0 <= i < |list| :: list[i] in list && ids[i] in table;
    forall x ensures x in ids <==> x in table.Keys {
      if x in table.Keys {
        assert table[x] in list;
        var i :| 0 <= i < |list| && list[i] == table[x];
        assert ids[i] == x;
      }
    }
  }

  /** Splicing an entity into a read of the table is reading the table with that row written. */
  lemma SpliceIsARowWrite<T>(key: T -> Id, table: map<Id, T>, e: T)
    requires forall x | x in table :: key(table[x]) == x
    ensures InIdOrder(table[key(e) := e]) == Splice(key, InIdOrder(table), e)
  {
    InIdOrderIsTheTable(key, table);
    SpliceKeepsOrder(key, InIdOrder(table), e);
    SpliceMembers(key, InIdOrder(table), e);
    OnlyInIdOrder(key, table[key(e) := e], Splice(key, InIdOrder(table), e));
  }
}
