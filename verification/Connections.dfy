/**
 Relay-style keyset paging: backend/src/graphql/connection.ts, used by `resolveConnection` of
 backend/src/graphql/resolvers.ts:102-130. A table is the list of the rows that match, in query order.
 */
module Connections {
  import opened Prelude
  import opened CursorCodec

  const DEFAULT_PAGE_SIZE := 20
  const MAX_PAGE_SIZE := 100

  datatype Error = FirstNotPositive | FirstTooLarge | InvalidCursor

  datatype Row = Row(id: string, createdAt: int)

  datatype Args = Args(first: Option<int>, after: Option<string>)
  datatype Query = Query(first: nat, take: nat, cursor: Option<string>, skip: nat)
  datatype PageInfo =
    PageInfo(hasNextPage: bool, hasPreviousPage: bool, startCursor: Option<string>, endCursor: Option<string>)
  datatype Edge = Edge(cursor: string, node: Row)
  datatype Connection = Connection(edges: seq<Edge>, pageInfo: PageInfo, totalCount: nat)

  function ConnectionQueryArgs(args: Args): Result<Query, Error> {
    var first := if args.first.Some? then args.first.value else DEFAULT_PAGE_SIZE;
    if first < 1 then Err(FirstNotPositive)
    else if first > MAX_PAGE_SIZE then Err(FirstTooLarge)
    else
      match args.after
      case None => Ok(Query(first, first + 1, None, 0))
      case Some(after) =>
        match DecodeCursor(after)
        case None => Err(InvalidCursor)
        case Some(id) => Ok(Query(first, first + 1, Some(id), 1))
  }

  function BuildConnection(rows: seq<Row>, first: nat, hasAfter: bool, totalCount: nat): Connection {
    var hasNextPage := |rows| > first;
    var nodes := if hasNextPage then rows[..first] else rows;
    var edges := seq(|nodes|, i requires 0 <= i < |nodes| => Edge(EncodeCursor(nodes[i].id), nodes[i]));
    Connection(edges,
               PageInfo(hasNextPage, hasAfter,
                        if edges == [] then None else Some(edges[0].cursor),
                        if edges == [] then None else Some(edges[|edges| - 1].cursor)),
               totalCount)
  }

  // ---------------------------------------------------------------- the database and the resolver

  function Ids(table: seq<Row>): seq<string> {
    seq(|table|, i requires 0 <= i < |table| => table[i].id)
  }

  function Take<T>(s: seq<T>, n: nat): seq<T> { if n < |s| then s[..n] else s }

  /** `findMany`: from the start, or from the row with the cursor's id if there is one. */
  function FindMany(table: seq<Row>, q: Query): seq<Row> {
    match q.cursor
    case None => Take(table, q.take)
    case Some(id) =>
      var i := IndexOf(Ids(table), id);
      if i == |table| || i + q.skip > |table| then [] else Take(table[i + q.skip..], q.take)
  }

  function Page(table: seq<Row>, args: Args): Result<Connection, Error> {
    match ConnectionQueryArgs(args)
    case Err(e) => Err(e)
    case Ok(q) => Ok(BuildConnection(FindMany(table, q), q.first, args.after.Some?, |table|))
  }

  // ---------------------------------------------------------------- one page

  function Size(first: Option<int>): int {
    if first.Some? then first.value else DEFAULT_PAGE_SIZE
  }

  predicate GoodSize(first: Option<int>) { 1 <= Size(first) <= MAX_PAGE_SIZE }

  predicate DistinctIds(table: seq<Row>) {
    && (forall i, j :: 0 <= i < j < |table| ==> table[i].id != table[j].id)
    && (forall i :: 0 <= i < |table| ==> table[i].id != "")
  }

  /** The rows of a connection. */
  function Nodes(c: Connection): seq<Row> {
    seq(|c.edges|, i requires 0 <= i < |c.edges| => c.edges[i].node)
  }

  /** A request is refused exactly when its page size is out of range or its cursor does not decode to a
      prefixed id; the page size is looked at first. */
  lemma PageRefusedIff(table: seq<Row>, args: Args)
    ensures var first := if args.first.Some? then args.first.value else 20;
            var bad := args.after.Some? && !exists id :: id != "" && DecodeText(args.after.value) == "cursor:" + id;
            && (Page(table, args) == Err(FirstNotPositive) <==> first < 1)
            && (Page(table, args) == Err(FirstTooLarge) <==> first > 100)
            && (Page(table, args) == Err(InvalidCursor) <==> 1 <= first <= 100 && bad)
            && (Page(table, args).Ok? <==> 1 <= first <= 100 && !bad)
  {
    hide DecodeText;
    if args.after.Some? { CursorRefusedIff(args.after.value); }
  }

  /** Every edge carries the cursor of its own row, the page begins and ends with the cursors of its first
      and last edges, and the rest of the page is what was asked for and counted. */
  lemma PageDescribesItself(rows: seq<Row>, first: nat, hasAfter: bool, totalCount: nat)
    ensures var c := BuildConnection(rows, first, hasAfter, totalCount);
            && (forall i :: 0 <= i < |c.edges| ==> c.edges[i] == Edge(EncodeCursor(rows[i].id), rows[i]))
            && |c.edges| == (if |rows| > first then first else |rows|)
            && (c.edges == [] ==> c.pageInfo.startCursor.None? && c.pageInfo.endCursor.None?)
            && (c.edges != [] ==>
                  && c.pageInfo.startCursor == Some(EncodeCursor(rows[0].id))
                  && c.pageInfo.endCursor == Some(EncodeCursor(rows[|c.edges| - 1].id)))
            && (c.pageInfo.hasPreviousPage <==> hasAfter) && c.totalCount == totalCount
  {
    hide EncodeText;
  }

  /** The cursor of the last of the first `k` rows; none before the first page. */
  function CursorAfter(rows: seq<Row>, k: nat): Option<string>
    requires k <= |rows|
  {
    if k == 0 then None else Some(EncodeCursor(rows[k - 1].id))
  }

  /** What the table may have become when `k` of the rows have been delivered: anything at all ahead of
      the last row delivered, and from that row on what it was. */
  predicate Undisturbed(table: seq<Row>, rows: seq<Row>, k: nat)
    requires k <= |rows|
  {
    if k == 0 then table == rows
    else DistinctIds(table) && |rows| - k + 1 <= |table| && table[|table| - (|rows| - k + 1)..] == rows[k - 1..]
  }

  lemma FetchAfter(table: seq<Row>, rows: seq<Row>, k: nat, q: Query)
    requires k <= |rows| && DistinctIds(rows) && Undisturbed(table, rows, k)
    requires q.cursor == (if k == 0 then None else Some(rows[k - 1].id)) && (k > 0 ==> q.skip == 1)
    ensures FindMany(table, q) == Take(rows[k..], q.take)
  {
    if k > 0 {
      var at := |table| - (|rows| - k + 1);
      assert table[at] == table[at..][0] == rows[k - 1..][0] == rows[k - 1];
      assert Ids(table)[at] == rows[k - 1].id && IndexOf(Ids(table), rows[k - 1].id) == at;
      assert table[at + 1..] == table[at..][1..] == rows[k - 1..][1..] == rows[k..];
    } else {
      assert rows[0..] == rows;
    }
  }

  /** Trimming the look-ahead row of a fetch of one row too many. */
  lemma TrimsLookAhead(rest: seq<Row>, first: nat, hasAfter: bool, totalCount: nat)
    requires first >= 1
    ensures var c := BuildConnection(Take(rest, first + 1), first, hasAfter, totalCount);
            && Nodes(c) == Take(rest, first)
            && (c.pageInfo.hasNextPage <==> first < |rest|)
            && (first <= |rest| ==> c.pageInfo.endCursor == Some(EncodeCursor(rest[first - 1].id)))
  {
    hide EncodeText, DecodeText;
    var fetched := Take(rest, first + 1);
    var nodes := if |fetched| > first then fetched[..first] else fetched;
    assert nodes == Take(rest, first);
  }

  /** The page after the first `k` rows holds the next rows in order, says whether more follow, and ends
      with the cursor of its own last row. */
  lemma PageIsNextRows(table: seq<Row>, rows: seq<Row>, k: nat, first: Option<int>)
    requires k <= |rows| && DistinctIds(rows) && Undisturbed(table, rows, k) && GoodSize(first)
    ensures var p := Page(table, Args(first, CursorAfter(rows, k)));
            && p.Ok?
            && Nodes(p.value) == Take(rows[k..], if first.Some? then first.value else 20)
            && (p.value.pageInfo.hasPreviousPage <==> k > 0) && p.value.totalCount == |table|
            && (p.value.pageInfo.hasNextPage <==> k + Size(first) < |rows|)
            && (k + Size(first) <= |rows| ==>
                  p.value.pageInfo.endCursor == CursorAfter(rows, k + Size(first)))
  {
    hide EncodeText, DecodeText;
    if k > 0 { CursorRoundTrip(rows[k - 1].id); }
    var args := Args(first, CursorAfter(rows, k));
    var cursor := if k == 0 then None else Some(rows[k - 1].id);
    var q := Query(Size(first), Size(first) + 1, cursor, if k == 0 then 0 else 1);
    assert ConnectionQueryArgs(args) == Ok(q);
    FetchAfter(table, rows, k, q);
    TrimsLookAhead(rows[k..], q.first, args.after.Some?, |table|);
  }

  // ---------------------------------------------------------------- whole walks

  /** One step of a client: the page size it asks for, and the table at that moment. */
  datatype Visit = Visit(first: Option<int>, table: seq<Row>)

  /** Follows endCursor while hasNextPage: the rows received, and whether the walk came to its end. */
  function Walk(after: Option<string>, visits: seq<Visit>): (seq<Row>, bool)
    decreases |visits|
  {
    if visits == [] then ([], false)
    else
      match Page(visits[0].table, Args(visits[0].first, after))
      case Err(_) => ([], false)
      case Ok(c) =>
        if !c.pageInfo.hasNextPage then (Nodes(c), true)
        else
          var (rest, ended) := Walk(c.pageInfo.endCursor, visits[1..]);
          (Nodes(c) + rest, ended)
  }

  /** Page sizes are in range, and rows come and go only ahead of what has been delivered. */
  predicate Steady(rows: seq<Row>, k: nat, visits: seq<Visit>)
    decreases |visits|
  {
    visits == [] || k > |rows| ||
    (&& GoodSize(visits[0].first)
     && Undisturbed(visits[0].table, rows, k)
     && Steady(rows, k + Size(visits[0].first), visits[1..]))
  }

  /** Every walk delivers exactly the rows that were there at its start, in order and each once, in
      pages of any sizes, even when rows are inserted at the head between pages; and it ends, after at
      most one page for each row. */
  lemma {:induction false} WalkIsExact(rows: seq<Row>, k: nat, visits: seq<Visit>)
    requires DistinctIds(rows) && k <= |rows| && Steady(rows, k, visits)
    ensures var (nodes, ended) := Walk(CursorAfter(rows, k), visits);
            && nodes <= rows[k..]
            && (ended ==> nodes == rows[k..])
            && (|visits| > |rows| - k ==> ended)
    decreases |visits|
  {
    hide EncodeText, DecodeText, Page;
    if visits != [] {
      var size := Size(visits[0].first);
      PageIsNextRows(visits[0].table, rows, k, visits[0].first);
      if k + size < |rows| {
        WalkIsExact(rows, k + size, visits[1..]);
        SplitRows(rows, k, size);
      }
    }
  }

  lemma SplitRows(rows: seq<Row>, k: nat, size: nat)
    requires k + size <= |rows|
    ensures rows[k..] == Take(rows[k..], size) + rows[k + size..]
  {
    assert rows[k..][..size] == rows[k..k + size];
  }

  /** A walk from the beginning. */
  lemma WholeWalk(rows: seq<Row>, visits: seq<Visit>)
    requires DistinctIds(rows) && Steady(rows, 0, visits) && |visits| > |rows|
    ensures Walk(None, visits) == (rows, true)
  {
    hide EncodeText, DecodeText;
    WalkIsExact(rows, 0, visits);
    assert rows[0..] == rows;
  }

  /** Rows inserted at the head leave a table undisturbed. */
  lemma InsertionAtHeadIsSteady(rows: seq<Row>, k: nat, news: seq<Row>)
    requires 0 < k <= |rows| && DistinctIds(news + rows)
    ensures Undisturbed(news + rows, rows, k)
  {
    assert (news + rows)[|news| + k - 1..] == rows[k - 1..];
  }

  // ---------------------------------------------------------------- the query order

  /** The order of the query: newest first, and among rows of one moment by id, downwards. */
  predicate Precedes(a: Row, b: Row) {
    a.createdAt > b.createdAt || (a.createdAt == b.createdAt && a.id != b.id && LexLeq(b.id, a.id))
  }

  predicate Ordered(table: seq<Row>) {
    forall i, j :: 0 <= i < j < |table| ==> Precedes(table[i], table[j])
  }

  /** Two rows are comparable unless they are the same row, and only one way round. */
  lemma PrecedesOneWay(a: Row, b: Row)
    ensures !(Precedes(a, b) && Precedes(b, a))
    ensures a != b ==> Precedes(a, b) || Precedes(b, a)
  {
    LexOrder(a.id, b.id, a.id);
  }

  lemma {:induction false} OrderedIsUnique(s: seq<Row>, t: seq<Row>)
    requires Ordered(s) && Ordered(t) && forall r :: r in s <==> r in t
    ensures s == t
  {
    assert (t != [] ==> t[0] in t) && (s != [] ==> s[0] in s);
    if s != [] {
      assert s[0] in t && t[0] in s;
      PrecedesOneWay(s[0], t[0]);
      assert s[0] == t[0];
      forall r ensures r in s[1..] <==> r in t[1..] {
        PrecedesOneWay(r, r);
        assert r in s[1..] <==> r in s && r != s[0];
        assert r in t[1..] <==> r in t && r != t[0];
      }
      OrderedIsUnique(s[1..], t[1..]);
      assert s == [s[0]] + s[1..] && t == [t[0]] + t[1..];
    }
  }

  /** The rows from position `k` on are those that the row at `k` does not come after. */
  lemma RowsFrom(table: seq<Row>, k: nat, r: Row)
    requires Ordered(table) && k < |table|
    ensures r in table[k..] <==> r in table && !Precedes(r, table[k])
  {
    if r in table {
      var i :| 0 <= i < |table| && table[i] == r;
      PrecedesOneWay(table[k], r);
      if i >= k { assert table[k..][i - k] == r; }
      if r in table[k..] {
        var j :| 0 <= j < |table[k..]| && table[k..][j] == r;
        assert table[k + j] == r;
      }
    }
  }

  /** Nothing but rows ordered before the cursor row has been added or removed. */
  ghost predicate ChangedAhead(table: seq<Row>, rows: seq<Row>, cursor: Row) {
    forall r :: !Precedes(r, cursor) ==> (r in table <==> r in rows)
  }

  /** In query order, a table is undisturbed exactly when it has changed only ahead of the cursor row. */
  lemma UndisturbedIff(table: seq<Row>, rows: seq<Row>, k: nat)
    requires 0 < k <= |rows| && Ordered(rows) && Ordered(table) && DistinctIds(table)
    ensures Undisturbed(table, rows, k) <==> ChangedAhead(table, rows, rows[k - 1])
  {
    var cursor := rows[k - 1];
    PrecedesOneWay(cursor, cursor);
    if Undisturbed(table, rows, k) {
      var at := |table| - (|rows| - k + 1);
      assert table[at] == table[at..][0] == cursor;
      forall r | !Precedes(r, cursor) ensures r in table <==> r in rows {
        RowsFrom(table, at, r);
        RowsFrom(rows, k - 1, r);
      }
    }
    if ChangedAhead(table, rows, cursor) {
      var at :| 0 <= at < |table| && table[at] == cursor;
      forall r ensures r in table[at..] <==> r in rows[k - 1..] {
        RowsFrom(table, at, r);
        RowsFrom(rows, k - 1, r);
      }
      OrderedIsUnique(table[at..], rows[k - 1..]);
    }
  }

  /** A row newer than all others is inserted at the head, where it disturbs no walk. Among rows of one
      moment the greater id comes first. */
  lemma NewRowsAreAhead(rows: seq<Row>, row: Row, k: nat, t: int)
    requires Ordered(rows) && 0 < k <= |rows| && DistinctIds([row] + rows)
    requires forall i :: 0 <= i < |rows| ==> rows[i].createdAt < row.createdAt
    ensures Ordered([row] + rows) && Undisturbed([row] + rows, rows, k)
    ensures Precedes(Row("b", t), Row("a", t)) && !Precedes(Row("a", t), Row("b", t))
  {
    InsertionAtHeadIsSteady(rows, k, [row]);
    PrecedesOneWay(Row("a", t), Row("b", t));
  }

  /** A walk over a live table: it starts at the rows given, and from page to page the table changes only
      ahead of the last row delivered. */
  ghost predicate Orderly(rows: seq<Row>, k: nat, visits: seq<Visit>)
    decreases |visits|
  {
    visits == [] || k > |rows| ||
    (var table := visits[0].table;
     && GoodSize(visits[0].first)
     && (if k == 0 then table == rows
         else Ordered(table) && DistinctIds(table) && ChangedAhead(table, rows, rows[k - 1]))
     && Orderly(rows, k + Size(visits[0].first), visits[1..]))
  }

  lemma {:induction false} OrderlyIsSteady(rows: seq<Row>, k: nat, visits: seq<Visit>)
    requires Ordered(rows) && Orderly(rows, k, visits)
    ensures Steady(rows, k, visits)
    decreases |visits|
  {
    if visits != [] && k <= |rows| {
      if k > 0 { UndisturbedIff(visits[0].table, rows, k); }
      OrderlyIsSteady(rows, k + Size(visits[0].first), visits[1..]);
    }
  }

  /** So a walk in query order delivers exactly the rows present at its start, in order and each once, while
      rows ordered before its cursor come and go. */
  lemma LiveWalk(rows: seq<Row>, visits: seq<Visit>)
    requires Ordered(rows) && DistinctIds(rows) && Orderly(rows, 0, visits) && |visits| > |rows|
    ensures Walk(None, visits) == (rows, true)
  {
    OrderlyIsSteady(rows, 0, visits);
    WholeWalk(rows, visits);
  }

  // ---------------------------------------------------------------- deletion

  /** The row of the cursor has to stay: once it is deleted, the walk ends there, whatever is left. */
  lemma DeletedCursorRowEndsWalk(table: seq<Row>, id: string, first: Option<int>)
    requires id != "" && GoodSize(first) && forall i :: 0 <= i < |table| ==> table[i].id != id
    ensures var p := Page(table, Args(first, Some(EncodeCursor(id))));
            p.Ok? && p.value.edges == [] && !p.value.pageInfo.hasNextPage
  {
    hide EncodeText, DecodeText;
    CursorRoundTrip(id);
    assert id !in Ids(table);
  }
}
