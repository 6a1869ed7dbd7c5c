/** The metadata paging loop of `show_carpark_availability` over `fetch_carpark_info`. The
    datastore is an oracle from (offset, limit) to the reply of one HTTP request. */
module Pagination {
  import opened Wrappers
  import opened Carparks

  /** The page size the bot asks for. */
  const PageLimit: nat := 100

  /** What one request to the datastore gives: a status code with the records of the body, or
      an exception (connection error, malformed JSON, missing 'result' or 'records'). */
  datatype PageReply = Reply(status: int, records: seq<MetaRecord>) | Raised

  type Datastore = (nat, nat) -> PageReply

  /** fetch_carpark_info: the records of a 200 reply, [] for any other status, None when the
      request raised. */
  function FetchCarparkInfo(reply: PageReply): (r: Option<seq<MetaRecord>>)
    ensures r.None? <==> reply.Raised?
    ensures reply.Reply? && reply.status != 200 ==> r == Some([])
    ensures reply.Reply? && reply.status == 200 ==> r == Some(reply.records)
  {
    match reply
    case Raised => None
    case Reply(status, records) => if status != 200 then Some([]) else Some(records)
  }

  /** The reply to the i-th request of the loop, which asks for offset i * limit. */
  function Page(store: Datastore, i: nat): PageReply {
    store(i * PageLimit, PageLimit)
  }

  /** The records a page adds to the metadata ([] when the request raised). */
  function Batch(reply: PageReply): seq<MetaRecord> {
    match FetchCarparkInfo(reply)
    case Some(batch) => batch
    case None => []
  }

  /** The loop stops after this page: it raised, came back empty, or was shorter than the
      limit. */
  predicate EndsPaging(reply: PageReply) {
    FetchCarparkInfo(reply).None? || |Batch(reply)| < PageLimit
  }

  /** The batches of the first n pages, concatenated in request order. */
  function Collected(store: Datastore, n: nat): seq<MetaRecord> {
    if n == 0 then [] else Collected(store, n - 1) + Batch(Page(store, n - 1))
  }

  /** Page n is the first page that ends the loop. */
  predicate IsLastPage(store: Datastore, n: nat) {
    EndsPaging(Page(store, n)) && forall i :: 0 <= i < n ==> !EndsPaging(Page(store, i))
  }

  /** The first page at or after i, and at or before bound, that ends the loop. */
  function FirstEndFrom(store: Datastore, i: nat, bound: nat): (n: nat)
    requires i <= bound && EndsPaging(Page(store, bound))
    ensures i <= n <= bound && EndsPaging(Page(store, n))
    ensures forall j :: i <= j < n ==> !EndsPaging(Page(store, j))
    decreases bound - i
  {
    if EndsPaging(Page(store, i)) then i else FirstEndFrom(store, i + 1, bound)
  }

  /** The page that ends the loop, on a datastore where some page does. */
  ghost function LastPage(store: Datastore): (n: nat)
    requires exists k: nat :: EndsPaging(Page(store, k))
    ensures IsLastPage(store, n)
  {
    var k: nat :| EndsPaging(Page(store, k));
    FirstEndFrom(store, 0, k)
  }

  /** What the paging loop produces: None when the request for the last page raised, and
      otherwise every batch up to and including the last page, in request order. */
  ghost function PagedMetadata(store: Datastore): Option<seq<MetaRecord>>
    requires exists k: nat :: EndsPaging(Page(store, k))
  {
    var last := LastPage(store);
    if Page(store, last).Raised? then None else Some(Collected(store, last + 1))
  }

  /** The loop of lines 103-112: request offsets 0, limit, 2 * limit, ... and extend the
      metadata with each batch, until a batch is empty or short. Some for the metadata, None
      when a request raised (the caller then reports the failure). Python's loop runs forever
      on a datastore that never sends a short page; the model requires that one exists. */
  method FetchAllMetadata(store: Datastore) returns (metadata: Option<seq<MetaRecord>>)
    requires exists k: nat :: EndsPaging(Page(store, k))
    ensures metadata == PagedMetadata(store)
  {
    ghost var bound: nat :| EndsPaging(Page(store, bound));
    var offset := 0;
    var limit := PageLimit;
    var carparkMetadata := [];
    ghost var page: nat := 0;
    while true
      invariant page <= bound
      invariant offset == page * PageLimit && limit == PageLimit
      invariant forall i :: 0 <= i < page ==> !EndsPaging(Page(store, i))
      invariant carparkMetadata == Collected(store, page)
      decreases bound - page
    {
      var reply := store(offset, limit);
      assert reply == Page(store, page);
      var fetched := FetchCarparkInfo(reply);
      if fetched.None? {
        LastPageUnique(store, page, LastPage(store));
        metadata := None;
        return;
      }
      var batch := fetched.value;
      if batch == [] {
        LastPageUnique(store, page, LastPage(store));
        assert carparkMetadata + batch == carparkMetadata;
        metadata := Some(carparkMetadata);
        return;
      }
      carparkMetadata := carparkMetadata + batch;
      if |batch| < limit {
        LastPageUnique(store, page, LastPage(store));
        metadata := Some(carparkMetadata);
        return;
      }
      offset := offset + limit;
      page := page + 1;
    }
  }

  /** The loop keeps the pages it already has when a request comes back with a status other
      than 200: that page counts as empty, so the metadata is exactly the earlier pages. */
  lemma {:induction false} NonOkPageKeepsEarlierPages(store: Datastore, n: nat)
    requires Page(store, n).Reply? && Page(store, n).status != 200
    ensures EndsPaging(Page(store, n))
    ensures Collected(store, n + 1) == Collected(store, n)
  {
    assert Batch(Page(store, n)) == [];
    assert Collected(store, n) + [] == Collected(store, n);
  }

  /** At most one page is the first to end the loop. */
  lemma LastPageUnique(store: Datastore, m: nat, n: nat)
    requires IsLastPage(store, m) && IsLastPage(store, n)
    ensures m == n
  {
  }

  /** When every page before n is full, page i holds the records at offsets i * limit up to
      (i + 1) * limit of the collected metadata. */
  lemma {:induction false} PagesAtTheirOffsets(store: Datastore, n: nat)
    requires forall i :: 0 <= i < n ==> |Batch(Page(store, i))| == PageLimit
    ensures |Collected(store, n)| == n * PageLimit
    ensures forall i :: 0 <= i < n ==>
              Collected(store, n)[i * PageLimit..(i + 1) * PageLimit] == Batch(Page(store, i))
  {
    if n > 0 {
      PagesAtTheirOffsets(store, n - 1);
      var prev := Collected(store, n - 1);
      var all := Collected(store, n);
      assert all == prev + Batch(Page(store, n - 1));
      forall i | 0 <= i < n
        ensures all[i * PageLimit..(i + 1) * PageLimit] == Batch(Page(store, i))
      {
        if i < n - 1 {
          assert (i + 1) * PageLimit <= (n - 1) * PageLimit;
          assert all[i * PageLimit..(i + 1) * PageLimit] == prev[i * PageLimit..(i + 1) * PageLimit];
        } else {
          assert i * PageLimit == |prev|;
        }
      }
    }
  }

  function Min(a: nat, b: nat): nat {
    if a <= b then a else b
  }

  /** A datastore that answers every request with status 200 and the rows of one table from
      offset to offset + limit. */
  function TableStore(rows: seq<MetaRecord>): Datastore {
    (offset: nat, limit: nat) => TableReply(rows, offset, limit)
  }

  function TableReply(rows: seq<MetaRecord>, offset: nat, limit: nat): PageReply {
    Reply(200, rows[Min(offset, |rows|)..Min(offset + limit, |rows|)])
  }

  lemma {:induction false} TablePrefix(rows: seq<MetaRecord>, n: nat)
    requires n * PageLimit <= |rows|
    ensures Collected(TableStore(rows), n) == rows[..n * PageLimit]
  {
    if n > 0 {
      TablePrefix(rows, n - 1);
      var o := (n - 1) * PageLimit;
      assert o + PageLimit == n * PageLimit;
      assert Page(TableStore(rows), n - 1) == TableReply(rows, o, PageLimit);
      assert Batch(Page(TableStore(rows), n - 1)) == rows[o..o + PageLimit];
      assert rows[..n * PageLimit] == rows[..(n - 1) * PageLimit] + rows[(n - 1) * PageLimit..n * PageLimit];
    }
  }

  lemma TablePage(rows: seq<MetaRecord>, i: nat)
    requires i * PageLimit <= |rows|
    ensures Batch(Page(TableStore(rows), i)) ==
            rows[i * PageLimit..if |rows| < i * PageLimit + PageLimit then |rows| else i * PageLimit + PageLimit]
  {
    assert Page(TableStore(rows), i) == TableReply(rows, i * PageLimit, PageLimit);
  }

  lemma FullTablePage(rows: seq<MetaRecord>, i: nat)
    requires i < |rows| / PageLimit
    ensures !EndsPaging(Page(TableStore(rows), i))
  {
    var m := |rows| / PageLimit;
    assert i + 1 <= m;
    assert (i + 1) * PageLimit <= m * PageLimit <= |rows|;
    TablePage(rows, i);
  }

  /** Paging through a well-behaved datastore gets the whole table back, in order: the loop
      stops at page |rows| / limit, the first one shorter than the limit. */
  lemma PagingReassemblesTable(rows: seq<MetaRecord>)
    ensures IsLastPage(TableStore(rows), |rows| / PageLimit)
    ensures Collected(TableStore(rows), |rows| / PageLimit + 1) == rows
    ensures PagedMetadata(TableStore(rows)) == Some(rows)
  {
    var m := |rows| / PageLimit;
    TableLastPage(rows, m);
    forall i | 0 <= i < m ensures !EndsPaging(Page(TableStore(rows), i)) {
      FullTablePage(rows, i);
    }
    TableCollected(rows, m);
    LastPageUnique(TableStore(rows), m, LastPage(TableStore(rows)));
  }

  lemma TableLastPage(rows: seq<MetaRecord>, m: nat)
    requires m == |rows| / PageLimit
    ensures EndsPaging(Page(TableStore(rows), m))
  {
    assert m * PageLimit <= |rows| < m * PageLimit + PageLimit;
    TablePage(rows, m);
  }

  lemma TableCollected(rows: seq<MetaRecord>, m: nat)
    requires m == |rows| / PageLimit
    ensures Collected(TableStore(rows), m + 1) == rows
  {
    var tail := m * PageLimit;
    assert tail <= |rows| < tail + PageLimit;
    TablePrefix(rows, m);
    TablePage(rows, m);
    assert Collected(TableStore(rows), m + 1) == rows[..tail] + rows[tail..];
    assert rows == rows[..tail] + rows[tail..];
  }
}
