/** The paginated list of users: ordered by display name, ties broken by id. */
module Listing {
  import opened Wrappers
  import opened TextOrder

  type Uid = string

  datatype Item = Item(id: Uid, displayName: string, city: Option<string>, region: Option<string>, country: Option<string>,
                       gender: Option<string>, category: Option<string>)

  /** The database's collation of names: any total preorder. */
  ghost predicate Collation(le: (string, string) -> bool) {
    && (forall a, b :: le(a, b) || le(b, a))
    && (forall a, b, c :: le(a, b) && le(b, c) ==> le(a, c))
  }

  /** ORDER BY display_name ASC, id ASC. */
  predicate InOrder(le: (string, string) -> bool, a: Item, b: Item) {
    le(a.displayName, b.displayName) && (!le(b.displayName, a.displayName) || AtMost(a.id, b.id))
  }

  /** rows is one answer of the ordered join: each joined profile once, in order. */
  ghost predicate IsListing(le: (string, string) -> bool, join: map<Uid, Item>, rows: seq<Item>) {
    && (forall i | 0 <= i < |rows| :: rows[i].id in join && rows[i] == join[rows[i].id])
    && (forall id <- join :: exists i :: 0 <= i < |rows| && rows[i].id == id)
    && (forall i, j | 0 <= i < j < |rows| :: rows[i].id != rows[j].id && InOrder(le, rows[i], rows[j]))
  }

  /** Names come in ascending order, and among names that collate alike ids do. */
  lemma ListingSorted(le: (string, string) -> bool, join: map<Uid, Item>, rows: seq<Item>, i: nat, j: nat)
    requires IsListing(le, join, rows) && i < j < |rows|
    ensures le(rows[i].displayName, rows[j].displayName)
    ensures le(rows[j].displayName, rows[i].displayName) ==> AtMost(rows[i].id, rows[j].id) && rows[i].id != rows[j].id
  {
  }

  lemma HeadIsListing(le: (string, string) -> bool, join: map<Uid, Item>, rows: seq<Item>)
    requires IsListing(le, join, rows) && rows != []
    ensures IsListing(le, join - {rows[0].id}, rows[1..])
    ensures |join| == |join - {rows[0].id}| + 1
  {
    hide InOrder;
    var rest := join - {rows[0].id};
    forall id | id in rest ensures exists i :: 0 <= i < |rows[1..]| && rows[1..][i].id == id {
      var i :| 0 <= i < |rows| && rows[i].id == id;
      assert rows[1..][i - 1].id == id;
    }
    assert join.Keys == rest.Keys + {rows[0].id};
  }

  lemma SameHead(le: (string, string) -> bool, join: map<Uid, Item>, a: seq<Item>, b: seq<Item>)
    requires Collation(le) && IsListing(le, join, a) && IsListing(le, join, b) && a != [] && b != []
    ensures a[0] == b[0]
  {
    hide AtMost;
    assert a[0].id in join && b[0].id in join;
    var i :| 0 <= i < |b| && b[i].id == a[0].id;
    var j :| 0 <= j < |a| && a[j].id == b[0].id;
    assert b[i] == a[0] && a[j] == b[0];
    if i > 0 && j > 0 {
      assert InOrder(le, b[0], b[i]) && InOrder(le, a[0], a[j]);
      AtMostAntisymmetric(a[0].id, b[0].id);
    }
  }

  lemma EmptyListing(le: (string, string) -> bool, join: map<Uid, Item>, a: seq<Item>)
    requires IsListing(le, join, a)
    ensures a == [] <==> join == map[]
  {
    assert a != [] ==> a[0].id in join;
    assert join == map[] <==> join.Keys == {};
  }

  /** The order leaves the database no choice: any two answers over the same data are
      equal, even when names collate alike. */
  lemma {:induction false} ListingUnique(le: (string, string) -> bool, join: map<Uid, Item>, a: seq<Item>, b: seq<Item>)
    requires Collation(le) && IsListing(le, join, a) && IsListing(le, join, b)
    ensures a == b
    ensures |a| == |join|
    decreases |a|
  {
    hide IsListing, Collation;
    EmptyListing(le, join, a);
    EmptyListing(le, join, b);
    if a != [] {
      SameHead(le, join, a, b);
      HeadIsListing(le, join, a);
      HeadIsListing(le, join, b);
      ListingUnique(le, join - {a[0].id}, a[1..], b[1..]);
      assert a == [a[0]] + a[1..] && b == [b[0]] + b[1..];
    }
  }

  function Min(a: int, b: int): int {
    if a < b then a else b
  }

  /** LIMIT size OFFSET (page - 1) * size. */
  function Page(rows: seq<Item>, page: nat, size: nat): seq<Item>
    requires page >= 1
  {
    var from := Min((page - 1) * size, |rows|);
    rows[from..Min(from + size, |rows|)]
  }

  /** Two queries: a COUNT over the join as it is then, and one page of the ordered
      answer over the join as it is a moment later. */
  method List(counted: map<Uid, Item>, rows: seq<Item>, page: nat, size: nat) returns (items: seq<Item>, total: nat)
    requires page >= 1
    ensures items == Page(rows, page, size) && total == |counted|
  {
    var offset := (page - 1) * size;
    total := |counted|;
    items := [];
    var i := Min(offset, |rows|);
    while i < |rows| && |items| < size
      invariant Min(offset, |rows|) <= i <= |rows|
      invariant |items| == i - Min(offset, |rows|) <= size
      invariant items == rows[Min(offset, |rows|)..i]
    {
      items := items + [rows[i]];
      i := i + 1;
    }
  }

  /** Pages 1..k, each read from its own answer of the query. */
  function Pages(answers: seq<seq<Item>>, size: nat): seq<Item> {
    if answers == [] then []
    else Pages(answers[..|answers| - 1], size) + Page(answers[|answers| - 1], |answers|, size)
  }

  lemma PageExtends(rows: seq<Item>, n: nat, size: nat)
    ensures 0 <= n * size <= (n + 1) * size
    ensures rows[..Min(n * size, |rows|)] + Page(rows, n + 1, size) == rows[..Min((n + 1) * size, |rows|)]
  {
    var offset := n * size;
    assert (n + 1) * size == offset + size;
    assert n * size == (n + 1 - 1) * size;
  }

  lemma {:induction false} PagesArePrefix(answers: seq<seq<Item>>, rows: seq<Item>, size: nat)
    requires forall i | 0 <= i < |answers| :: answers[i] == rows
    ensures |answers| * size >= 0 && Pages(answers, size) == rows[..Min(|answers| * size, |rows|)]
  {
    hide Page;
    if answers != [] {
      var n := |answers| - 1;
      PagesArePrefix(answers[..n], rows, size);
      PageExtends(rows, n, size);
      assert answers[n] == rows;
    }
  }

  lemma Monotone(a: nat, b: nat, c: nat)
    requires a <= b
    ensures a * c <= b * c
  {
  }

  lemma PagePastEnd(rows: seq<Item>, enough: nat, later: nat, size: nat)
    requires enough * size >= |rows| && later > enough
    ensures Page(rows, later, size) == []
  {
    Monotone(enough, later - 1, size);
  }

  /** If the data did not change between the two queries, the total tells exactly which
      pages hold something. */
  lemma TotalTellsPages(le: (string, string) -> bool, join: map<Uid, Item>, rows: seq<Item>, page: nat, size: nat)
    requires Collation(le) && IsListing(le, join, rows) && page >= 1
    ensures Page(rows, page, size) != [] <==> size > 0 && (page - 1) * size < |join|
  {
    hide IsListing, Collation;
    ListingUnique(le, join, rows, rows);
  }

  /** Main result: reading pages 1..k one query at a time over unchanged data, with k
      pages enough to hold everything, gives each joined profile exactly once, in
      order; every page after them is empty. */
  lemma PagesPartition(le: (string, string) -> bool, join: map<Uid, Item>, answers: seq<seq<Item>>, size: nat,
                       later: nat, extra: seq<Item>)
    requires Collation(le) && size >= 1
    requires |answers| * size >= |join| && later > |answers|
    requires IsListing(le, join, extra) && forall i | 0 <= i < |answers| :: IsListing(le, join, answers[i])
    ensures IsListing(le, join, Pages(answers, size))
    ensures Page(extra, later, size) == []
  {
    hide IsListing, Collation, Page, Pages;
    ListingUnique(le, join, extra, extra);
    forall i | 0 <= i < |answers| ensures answers[i] == extra {
      ListingUnique(le, join, answers[i], extra);
    }
    PagesArePrefix(answers, extra, size);
    assert Pages(answers, size) == extra;
    PagePastEnd(extra, |answers|, later, size);
  }
}
