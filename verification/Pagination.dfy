/** Forward pagination over users (graphql/resolvers/entities_gen.go, orm/gen/client_gen.go), and
    the pages a client gets by following end cursors, as the GraphQL Cursor Connections
    Specification intends them to be followed. */
module Pagination {
  import opened Results
  import opened Base64
  import opened Relay

  datatype User = User(id: string)

  /** A node as toGraphQLUser renders it. */
  datatype Edge = Edge(cursor: string, node: string)

  datatype PageInfo = PageInfo(hasNextPage: bool, hasPreviousPage: bool, startCursor: Option<string>,
      endCursor: Option<string>)

  datatype Connection = Connection(edges: seq<Edge>, pageInfo: PageInfo, totalCount: nat)

  datatype PageError = BackwardPagination | DatabaseFailed

  const DEFAULT_PAGE_SIZE := 20

  type Table = seq<User>

  ghost predicate Readable(table: Table) {
    |table| <= MAX_INT && forall i :: 0 <= i < |table| ==> IsBytes(table[i].id)
  }

  /** SELECT ... ORDER BY id LIMIT limit OFFSET offset, over the rows in that order. */
  function Window(table: Table, limit: nat, offset: nat): (r: Table)
    ensures |r| == if offset >= |table| then 0 else if offset + limit <= |table| then limit else |table| - offset
    ensures forall i :: 0 <= i < |r| ==> r[i] == table[offset + i]
  {
    if offset >= |table| then []
    else if offset + limit <= |table| then table[offset..offset + limit] else
      table[offset..]
  }

  /** UserClient.List. */
  function List(table: Table, limit: int, offset: int): Table {
    Window(table, if limit <= 0 then 20 else limit, if offset < 0 then 0 else offset)
  }

  function Limit(first: Option<int>): (n: nat)
    ensures n > 0
  {
    if first.Some? && first.value > 0 then first.value else DEFAULT_PAGE_SIZE
  }

  /** The next 64-bit integer: the largest one wraps around. */
  function Next(n: int): int {
    if n == MAX_INT then -MAX_INT - 1 else n + 1
  }

  /** Where a page starts: after the cursor, or at the beginning without a readable one. */
  function Offset(after: Option<string>): int {
    if after.Some? && after.value != "" && DecodeCursor(after.value).Some? then Next(DecodeCursor(after.value).value)
      else 0
  }

  function NodeID(user: User): string
    requires IsBytes(user.id)
  {
    ToGlobalID("User", user.id)
  }

  /** Whether a query or a hook fails is up to the database and the application. */
  method Exec() returns (ok: bool) {
    ok := *;
  }

  /** The edges of the records [offset, offset + n). */
  function EdgesAt(table: Table, offset: nat, n: nat): (r: seq<Edge>)
    requires Readable(table) && offset + n <= |table|
    ensures |r| == n
    ensures forall i :: 0 <= i < n ==> r[i] == Edge(EncodeCursor(offset + i), NodeID(table[offset + i]))
  {
    seq(n, i requires 0 <= i < n => Edge(EncodeCursor(offset + i), NodeID(table[offset + i])))
  }

  /** The page info of a page whose edges start at the offset. */
  function InfoAt(table: Table, offset: int, edges: seq<Edge>): PageInfo {
    var n := |edges|;
    PageInfo(
      offset + n < |table|,
      offset > 0,
      if n > 0 then Some(edges[0].cursor) else None,
      if n > 0 then Some(edges[n - 1].cursor) else None)
  }

  /** The page of at most `limit` records at an offset in the table. */
  function PageAt(table: Table, limit: nat, offset: nat): Connection
    requires Readable(table) && offset <= |table|
  {
    var edges := EdgesAt(table, offset, if offset + limit <= |table| then limit else |table| - offset);
    Connection(edges, InfoAt(table, offset, edges), |table|)
  }

  method Users(table: Table, first: Option<int>, after: Option<string>, last: Option<int>, before: Option<string>)
    returns (r: Result<Connection, PageError>)
    requires Readable(table)
    ensures last.Some? || before.Some? <==> r == Err(BackwardPagination)
    ensures r.Ok? ==> Shows(table, if first.Some? && first.value > 0 then first.value else 20,
      if after.None? || DecodeCursor(after.value).None? then 0
      else if DecodeCursor(after.value).value == 0x7fff_ffff_ffff_ffff then -0x8000_0000_0000_0000
      else DecodeCursor(after.value).value + 1, r.value)
    ensures var offset := Offset(after);
      r.Ok? && 0 <= offset <= |table| ==> r.value == PageAt(table, Limit(first), offset)
    ensures var offset := Offset(after);
      r.Ok? && offset > |table| ==> r.value == Connection([], PageInfo(false, true, None, None), |table|)
  {
    if last.Some? || before.Some? {
      return Err(BackwardPagination);
    }
    var limit := DEFAULT_PAGE_SIZE;
    if first.Some? && first.value > 0 {
      limit := first.value;
    }
    var offset := 0;
    if after.Some? && after.value != "" {
      var decoded := DecodeCursor(after.value);
      if decoded.Some? {
        offset := Next(decoded.value);
      }
    }
    var read := Exec();
    if !read {
      return Err(DatabaseFailed);
    }
    assert offset == Offset(after) && limit == Limit(first);
    StartsAfter(after);
    var records := List(table, limit, offset);
    ListReadable(table, limit, offset);
    r := Render(records, offset, |table|);
    if r.Ok? {
      RenderedPage(table, limit, offset, r.value);
      RenderedShows(table, limit, offset, r.value);
    }
  }

  lemma StartsAfter(after: Option<string>)
    ensures Offset(after) == if after.None? || DecodeCursor(after.value).None? then 0
      else if DecodeCursor(after.value).value == 0x7fff_ffff_ffff_ffff then -0x8000_0000_0000_0000
      else DecodeCursor(after.value).value + 1
    ensures -0x8000_0000_0000_0000 <= Offset(after) <= 0x7fff_ffff_ffff_ffff
  {
    assert DecodeCursor("").None?;
  }

  /** The edge names the record by its global id, and its position by its cursor. */
  ghost predicate EdgeOf(edge: Edge, user: User, position: int) {
    && FromGlobalID(edge.node) == Ok(("User", user.id)) && DecodeUserID(edge.node) == Ok(user.id)
    && DecodeCursor(edge.cursor) == Some(position)
  }

  /** The page of at most `limit` records that starts at an offset, which a client may have made up:
      reading begins with the first record if it is negative. */
  ghost predicate Shows(table: Table, limit: nat, offset: int, page: Connection) {
    var read := if offset < 0 then 0 else offset;
    && |page.edges| == (if read >= |table| then 0 else if read + limit <= |table| then limit else |table| - read)
    && (forall i :: 0 <= i < |page.edges| ==> EdgeOf(page.edges[i], table[read + i], offset + i))
    && page.totalCount == |table|
    && (page.pageInfo.hasNextPage <==> offset + |page.edges| < |table|)
    && (page.pageInfo.hasPreviousPage <==> offset > 0)
    && page.pageInfo.startCursor == (if page.edges == [] then None else Some(page.edges[0].cursor))
    && page.pageInfo.endCursor == (if page.edges == [] then None else Some(page.edges[|page.edges| - 1].cursor))
  }

  lemma EdgeIsOf(user: User, position: int)
    requires IsBytes(user.id) && -MAX_INT - 1 <= position <= MAX_INT
    ensures EdgeOf(Edge(EncodeCursor(position), NodeID(user)), user, position)
  {
    assert IsBytes("User") && ':' !in "User";
    hide EncodeCursor, DecodeCursor, ToGlobalID, FromGlobalID, DecodeUserID, IsBytes;
    CursorRoundTrip(position);
    GlobalIDRoundTrip("User", user.id);
    UserIDRoundTrip(user.id);
  }

  lemma RenderedShows(table: Table, limit: nat, offset: int, page: Connection)
    requires Readable(table) && limit > 0 && -MAX_INT - 1 <= offset <= MAX_INT
    requires Rendered(List(table, limit, offset), offset, |table|, page)
    ensures Shows(table, limit, offset, page)
  {
    hide *;
    var read := if offset < 0 then 0 else offset;
    var records := List(table, limit, offset);
    ListReads(table, limit, offset);
    TakeRendered(records, offset, |table|, page);
    forall i | 0 <= i < |page.edges| ensures EdgeOf(page.edges[i], table[read + i], offset + i) {
      RecordReadable(table, read + i);
      EdgeIsOf(records[i], offset + i);
    }
    GiveShows(table, limit, offset, page);
  }

  /** At most `limit` records from the offset on, 20 without a limit. */
  lemma ListReads(table: Table, limit: int, offset: int)
    ensures var read, records := if offset < 0 then 0 else offset, List(table, limit, offset);
      var n := if limit <= 0 then 20 else limit;
      && |records| == (if read >= |table| then 0 else if read + n <= |table| then n else |table| - read)
      && forall i :: 0 <= i < |records| ==> records[i] == table[read + i]
  {
  }

  lemma RecordReadable(table: Table, i: nat)
    requires Readable(table) && i < |table|
    ensures |table| <= MAX_INT && IsBytes(table[i].id)
  {
    hide IsBytes;
  }

  lemma TakeRendered(records: Table, offset: int, total: nat, page: Connection)
    requires Rendered(records, offset, total, page)
    ensures |page.edges| == |records| && page.totalCount == total && page.pageInfo == PageInfo(
      offset + |records| < total,
      offset > 0,
      if |records| > 0 then Some(page.edges[0].cursor) else None,
      if |records| > 0 then Some(page.edges[|records| - 1].cursor) else None)
    ensures forall i :: 0 <= i < |records| ==>
      IsBytes(records[i].id) && page.edges[i] == Edge(EncodeCursor(offset + i), NodeID(records[i]))
  {
    hide EncodeCursor, IsBytes, NodeID;
  }

  lemma GiveShows(table: Table, limit: nat, offset: int, page: Connection)
    requires var read := if offset < 0 then 0 else offset;
      && |page.edges| == (if read >= |table| then 0 else if read + limit <= |table| then limit else |table| - read)
      && (forall i :: 0 <= i < |page.edges| ==> EdgeOf(page.edges[i], table[read + i], offset + i))
      && page.totalCount == |table| && page.pageInfo == PageInfo(
        offset + |page.edges| < |table|,
        offset > 0,
        if |page.edges| > 0 then Some(page.edges[0].cursor) else None,
        if |page.edges| > 0 then Some(page.edges[|page.edges| - 1].cursor) else None)
    ensures Shows(table, limit, offset, page)
  {
    hide EdgeOf;
  }

  /** The connection of the records read at an offset. */
  ghost predicate Rendered(records: Table, offset: int, total: nat, page: Connection) {
    && page.totalCount == total && |page.edges| == |records|
    && (forall i :: 0 <= i < |records| ==>
      IsBytes(records[i].id) && page.edges[i] == Edge(EncodeCursor(offset + i), NodeID(records[i])))
    && var n := |page.edges|;
      page.pageInfo == PageInfo(
        offset + n < total,
        offset > 0,
        if n > 0 then Some(page.edges[0].cursor) else None,
        if n > 0 then Some(page.edges[n - 1].cursor) else None)
  }

  /** The loop over the records. */
  method Render(records: Table, offset: int, total: nat) returns (r: Result<Connection, PageError>)
    requires forall i :: 0 <= i < |records| ==> IsBytes(records[i].id)
    ensures r.Ok? ==> Rendered(records, offset, total, r.value)
    ensures r.Err? ==> r.error == DatabaseFailed
  {
    hide EncodeCursor, ToGlobalID, IsBytes;
    var edges: seq<Edge> := [];
    for idx := 0 to |records|
      invariant |edges| == idx
      invariant forall i :: 0 <= i < idx ==>
        IsBytes(records[i].id) && edges[i] == Edge(EncodeCursor(offset + i), NodeID(records[i]))
    {
      var cursor := EncodeCursor(offset + idx);
      var hook := Exec();
      if !hook {
        return Err(DatabaseFailed);
      }
      edges := edges + [Edge(cursor, NodeID(records[idx]))];
    }
    var startCursor, endCursor: Option<string> := None, None;
    if |edges| > 0 {
      startCursor, endCursor := Some(edges[0].cursor), Some(edges[|edges| - 1].cursor);
    }
    return Ok(Connection(edges, PageInfo(offset + |edges| < total, offset > 0, startCursor, endCursor), total));
  }

  lemma ListAt(table: Table, limit: nat, offset: nat)
    requires limit > 0 && offset <= |table|
    ensures |List(table, limit, offset)| == if offset + limit <= |table| then limit else |table| - offset
    ensures List(table, limit, offset) == table[offset..offset + |List(table, limit, offset)|]
  {
  }

  lemma RenderedPage(table: Table, limit: nat, offset: int, page: Connection)
    requires Readable(table) && limit > 0 && Rendered(List(table, limit, offset), offset, |table|, page)
    ensures 0 <= offset <= |table| ==> page == PageAt(table, limit, offset)
    ensures offset > |table| ==> page == Connection([], PageInfo(false, true, None, None), |table|)
  {
    hide EncodeCursor, ToGlobalID, IsBytes, NodeID, EdgesAt, List, InfoAt, DecodeCursor;
    TakeRendered(List(table, limit, offset), offset, |table|, page);
    ListReads(table, limit, offset);
    if 0 <= offset <= |table| {
      ListAt(table, limit, offset);
      InfoOf(table, offset, page);
      RenderedEdges(table, List(table, limit, offset), offset, page);
    }
  }

  lemma RenderedEdges(table: Table, records: Table, offset: nat, page: Connection)
    requires Readable(table) && offset + |records| <= |table| && records == table[offset..offset + |records|]
    requires Rendered(records, offset, |table|, page)
    ensures page.edges == EdgesAt(table, offset, |records|)
  {
    hide EncodeCursor, ToGlobalID, IsBytes, NodeID;
  }

  lemma InfoOf(table: Table, offset: int, page: Connection)
    requires |page.edges| <= |table|
    ensures InfoAt(table, offset, page.edges) == PageInfo(
      offset + |page.edges| < |table|,
      offset > 0,
      if |page.edges| > 0 then Some(page.edges[0].cursor) else None,
      if |page.edges| > 0 then Some(page.edges[|page.edges| - 1].cursor) else None)
  {
  }

  lemma ListReadable(table: Table, limit: int, offset: int)
    requires Readable(table)
    ensures forall i :: 0 <= i < |List(table, limit, offset)| ==> IsBytes(List(table, limit, offset)[i].id)
  {
    hide IsBytes;
  }

  // Following end cursors

  /** A client starts at the offset, asks for each page in turn with the next of its page sizes,
      and goes on after the end cursor while there is a next page. */
  function Walk(table: Table, firsts: seq<Option<int>>, after: Option<string>): seq<Connection>
    requires Readable(table) && 0 <= Offset(after) <= |table|
  {
    if firsts == [] then []
    else
      var page := PageAt(table, Limit(firsts[0]), Offset(after));
      NextPage(table, Limit(firsts[0]), Offset(after));
      [page] + if page.pageInfo.hasNextPage then Walk(table, firsts[1..], page.pageInfo.endCursor) else []
  }

  /** The cursor of each edge decodes to its absolute position, so the page after the end cursor
      starts where this page ends. */
  lemma NextPage(table: Table, limit: nat, offset: nat)
    requires Readable(table) && offset <= |table| && limit > 0
    ensures var page := PageAt(table, limit, offset);
      && (forall i :: 0 <= i < |page.edges| ==> DecodeCursor(page.edges[i].cursor) == Some(offset + i))
      && (page.pageInfo.hasNextPage <==> offset + limit < |table|)
      && (page.edges != [] ==> Offset(page.pageInfo.endCursor) == offset + |page.edges|)
  {
    var page := PageAt(table, limit, offset);
    hide EncodeCursor, DecodeCursor, ToGlobalID, IsBytes;
    forall i | 0 <= i < |page.edges| ensures DecodeCursor(page.edges[i].cursor) == Some(offset + i) {
      CursorRoundTrip(offset + i);
    }
    if page.edges != [] { CursorRoundTrip(offset + |page.edges| - 1); }
  }

  function AllEdges(pages: seq<Connection>): seq<Edge> {
    if pages == [] then [] else pages[0].edges + AllEdges(pages[1..])
  }

  /** The walk ended because there is no next page. */
  predicate Complete(pages: seq<Connection>) {
    pages != [] && !pages[|pages| - 1].pageInfo.hasNextPage
  }

  function Total(firsts: seq<Option<int>>): nat {
    if firsts == [] then 0 else Limit(firsts[0]) + Total(firsts[1..])
  }

  lemma EdgesJoin(table: Table, offset: nat, m: nat, n: nat)
    requires Readable(table) && offset + m + n <= |table|
    ensures EdgesAt(table, offset, m) + EdgesAt(table, offset + m, n) == EdgesAt(table, offset, m + n)
  {
    hide EncodeCursor, ToGlobalID, IsBytes;
  }

  /** The cursor with which a walk goes on after its first page. */
  lemma WalkStep(table: Table, firsts: seq<Option<int>>, after: Option<string>) returns (next: Option<string>)
    requires Readable(table) && firsts != [] && 0 <= Offset(after) <= |table|
    ensures var limit, offset := Limit(firsts[0]), Offset(after);
      if offset + limit < |table| then
        && Offset(next) == offset + limit
        && Walk(table, firsts, after) == [PageAt(table, limit, offset)] + Walk(table, firsts[1..], next)
      else
        Walk(table, firsts, after) == [PageAt(table, limit, offset)]
  {
    next := PageAt(table, Limit(firsts[0]), Offset(after)).pageInfo.endCursor;
    NextPage(table, Limit(firsts[0]), Offset(after));
    hide EncodeCursor, DecodeCursor, ToGlobalID, IsBytes, Offset, Limit;
  }

  lemma PageFacts(table: Table, limit: nat, offset: nat)
    requires Readable(table) && offset <= |table| && limit > 0
    ensures PageAt(table, limit, offset).pageInfo.hasNextPage <==> offset + limit < |table|
    ensures PageAt(table, limit, offset).edges
      == EdgesAt(table, offset, if offset + limit <= |table| then limit else |table| - offset)
  {
    hide EncodeCursor, ToGlobalID, IsBytes;
  }

  lemma WalkStarts(table: Table, firsts: seq<Option<int>>, after: Option<string>)
    requires Readable(table) && firsts != [] && 0 <= Offset(after) <= |table|
    ensures Walk(table, firsts, after) != []
  {
    hide PageAt, Offset, Limit, Readable;
  }

  lemma AddPage(page: Connection, pages: seq<Connection>)
    ensures AllEdges([page] + pages) == page.edges + AllEdges(pages)
    ensures pages != [] ==> (Complete([page] + pages) <==> Complete(pages))
    ensures pages == [] ==> (Complete([page] + pages) <==> !page.pageInfo.hasNextPage)
  {
    assert ([page] + pages)[1..] == pages;
  }

  /** The pages hold consecutive records from an offset, each once and in order, and end with the
      last record exactly when the page sizes reach that far. */
  ghost predicate Yields(table: Table, offset: nat, total: nat, pages: seq<Connection>)
    requires Readable(table) && offset <= |table|
  {
    && (Complete(pages) <==> offset + total >= |table|)
    && AllEdges(pages) == EdgesAt(table, offset, if offset + total >= |table| then |table| - offset else total)
  }

  lemma YieldMore(table: Table, offset: nat, limit: nat, total: nat, page: Connection, pages: seq<Connection>)
    requires Readable(table) && offset + limit < |table| && page.edges == EdgesAt(table, offset, limit)
    requires pages != [] && Yields(table, offset + limit, total, pages)
    ensures Yields(table, offset, limit + total, [page] + pages)
  {
    AddPage(page, pages);
    hide EdgesAt, Readable, Complete, AllEdges;
    EdgesJoin(table, offset, limit, if offset + limit + total >= |table| then |table| - offset - limit else total);
  }

  lemma YieldOne(table: Table, limit: nat, offset: nat)
    requires Readable(table) && offset <= |table| && limit > 0
    ensures Yields(table, offset, limit, [PageAt(table, limit, offset)])
  {
    PageFacts(table, limit, offset);
    var page := PageAt(table, limit, offset);
    hide EdgesAt, Readable, PageAt;
    assert AllEdges([page]) == page.edges by { assert [page][1..] == [] && page.edges + [] == page.edges; }
  }

  lemma {:induction false} WalkYields(table: Table, firsts: seq<Option<int>>, after: Option<string>)
    requires Readable(table) && firsts != [] && 0 <= Offset(after) <= |table|
    ensures Yields(table, Offset(after), Total(firsts), Walk(table, firsts, after))
  {
    hide *;
    TotalStep(firsts);
    var limit, offset, rest := Limit(firsts[0]), Offset(after), firsts[1..];
    var next := WalkStep(table, firsts, after);
    if offset + limit >= |table| {
      YieldOne(table, limit, offset);
      BeyondEnd(table, offset, limit, Total(rest), Walk(table, firsts, after));
    } else if rest == [] {
      NoMore(table, next);
      YieldOne(table, limit, offset);
      assert [PageAt(table, limit, offset)] + [] == [PageAt(table, limit, offset)];
    } else {
      PageFacts(table, limit, offset);
      WalkStarts(table, rest, next);
      WalkYields(table, rest, next);
      YieldMore(table, offset, limit, Total(rest), PageAt(table, limit, offset), Walk(table, rest, next));
    }
  }

  lemma TotalStep(firsts: seq<Option<int>>)
    requires firsts != []
    ensures Total(firsts) == Limit(firsts[0]) + Total(firsts[1..])
  {
  }

  lemma BeyondEnd(table: Table, offset: nat, limit: nat, more: nat, pages: seq<Connection>)
    requires Readable(table) && offset <= |table| && offset + limit >= |table| && Yields(table, offset, limit, pages)
    ensures Yields(table, offset, limit + more, pages)
  {
    hide EdgesAt, Readable, Complete, AllEdges;
  }

  lemma NoMore(table: Table, after: Option<string>)
    requires Readable(table) && 0 <= Offset(after) <= |table|
    ensures Walk(table, [], after) == [] && Total([]) == 0
  {
    hide Readable, Offset;
  }

  /** Starting without a cursor, whatever the page sizes: the walk terminates, and yields every
      record exactly once in order. */
  lemma EveryRecordOnce(table: Table, firsts: seq<Option<int>>)
    requires Readable(table) && firsts != []
    ensures |firsts| >= |table| ==> Complete(Walk(table, firsts, None))
    ensures var edges := AllEdges(Walk(table, firsts, None));
      Complete(Walk(table, firsts, None)) ==>
        |edges| == |table| && forall i :: 0 <= i < |table| ==> EdgeOf(edges[i], table[i], i)
  {
    hide Readable, Walk, EdgesAt, Complete, AllEdges, Total, EdgeOf;
    WalkYields(table, firsts, None);
    TotalBound(firsts);
    AllShown(table);
  }

  lemma AllShown(table: Table)
    requires Readable(table)
    ensures var edges := EdgesAt(table, 0, |table|);
      |edges| == |table| && forall i :: 0 <= i < |table| ==> EdgeOf(edges[i], table[i], i)
  {
    hide EncodeCursor, ToGlobalID, IsBytes, EdgeOf, NodeID;
    var edges := EdgesAt(table, 0, |table|);
    forall i | 0 <= i < |table| ensures EdgeOf(edges[i], table[i], i) {
      EdgeIsOf(table[i], i);
    }
  }

  lemma {:induction false} TotalBound(firsts: seq<Option<int>>)
    ensures Total(firsts) >= |firsts|
  {
    if firsts != [] { TotalBound(firsts[1..]); }
  }

  /** The pages of size k that n records take. */
  function Pages(n: nat, k: nat): nat
    requires k > 0
  {
    if n <= k then 1 else 1 + Pages(n - k, k)
  }

  lemma {:induction false} PagesIsCeil(n: nat, k: nat)
    requires n > 0 && k > 0
    ensures Pages(n, k) == (n + k - 1) / k
  {
    if n <= k {
      DivUnique(n + k - 1, k, 1, n - 1);
    } else {
      PagesIsCeil(n - k, k);
      var q, r := (n - 1) / k, (n - 1) % k;
      assert n - k + k - 1 == n - 1 && (q + 1) * k == q * k + k;
      DivUnique(n + k - 1, k, q + 1, r);
    }
  }

  lemma MulMonotone(a: nat, b: nat, k: nat)
    requires a <= b && a > 0
    ensures (a - 1) * k + k <= b * k
  {
    assert b * k == a * k + (b - a) * k && a * k == (a - 1) * k + k;
  }

  lemma DivUnique(x: nat, k: nat, q: nat, r: nat)
    requires r < k && x == q * k + r
    ensures x / k == q
  {
    var q', r' := x / k, x % k;
    assert x == q' * k + r' && r' < k;
    if q' > q {
      MulMonotone(q + 1, q', k);
    } else if q' < q {
      MulMonotone(q' + 1, q, k);
    }
  }

  ghost predicate AllAsk(firsts: seq<Option<int>>, k: int) {
    forall i :: 0 <= i < |firsts| ==> firsts[i] == Some(k)
  }

  lemma NextAsk(firsts: seq<Option<int>>, k: int, n: nat)
    requires k > 0 && AllAsk(firsts, k) && |firsts| >= Pages(n, k)
    ensures firsts != [] && Limit(firsts[0]) == k && AllAsk(firsts[1..], k)
    ensures Pages(n, k) == if n <= k then 1 else 1 + Pages(n - k, k)
  {
  }

  /** With a constant page size, a walk takes as many pages as the records need. */
  lemma {:induction false} PageCount(table: Table, firsts: seq<Option<int>>, k: int, after: Option<string>)
    requires Readable(table) && k > 0 && 0 <= Offset(after) <= |table| && AllAsk(firsts, k)
    requires |firsts| >= Pages(|table| - Offset(after), k)
    ensures |Walk(table, firsts, after)| == Pages(|table| - Offset(after), k)
  {
    hide *;
    NextAsk(firsts, k, |table| - Offset(after));
    var next := WalkStep(table, firsts, after);
    if Offset(after) + k < |table| {
      PageCount(table, firsts[1..], k, next);
    }
  }

  /** A nonempty table of n records takes ceil(n / k) pages of size k. */
  lemma PagesOfTable(table: Table, firsts: seq<Option<int>>, k: int)
    requires Readable(table) && table != [] && k > 0 && AllAsk(firsts, k) && |firsts| >= |table|
    ensures |Walk(table, firsts, None)| == (|table| + k - 1) / k && Complete(Walk(table, firsts, None))
  {
    hide *;
    NoCursor();
    PagesIsCeil(|table|, k);
    PagesBound(|table|, k);
    EveryRecordOnce(table, firsts);
    PageCount(table, firsts, k, None);
  }

  lemma NoCursor()
    ensures Offset(None) == 0
  {
  }

  lemma {:induction false} PagesBound(n: nat, k: nat)
    requires n > 0 && k > 0
    ensures Pages(n, k) <= n
  {
    if n > k { PagesBound(n - k, k); }
  }
}
