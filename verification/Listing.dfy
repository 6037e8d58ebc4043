/** Paging a history whose unreadable rows are skipped, and walking it page by
    page with a cursor while rows come and go. */
module Listing {
  import opened Wrappers

  datatype RowState = Readable | Unreadable | Gone

  /** A row of an ordered source. An id list may still name a row that is gone. */
  datatype Row = Row(id: nat, state: RowState)

  // ------------------------------------------------------------ specification

  /** The readable rows of `source[i..]`, in order. */
  function ReadableFrom(source: seq<Row>, i: nat): seq<nat>
    decreases |source| - i
  {
    if i >= |source| then []
    else (if source[i].state.Readable? then [source[i].id] else []) + ReadableFrom(source, i + 1)
  }

  function Take(s: seq<nat>, limit: nat): seq<nat> { if |s| <= limit then s else s[..limit] }

  /** What a page must be: the first `limit` readable rows from there on. */
  function FirstReadable(source: seq<Row>, start: nat, limit: nat): seq<nat> { Take(ReadableFrom(source, start), limit) }

  function Position(source: seq<Row>, id: nat, i: nat): Option<nat>
    decreases |source| - i
  {
    if i >= |source| then None else if source[i].id == id then Some(i) else Position(source, id, i + 1)
  }

  /** Just after the cursor, or at the client's offset when it is not there. */
  function SourceStart(source: seq<Row>, afterId: Option<nat>, offset: nat): nat {
    if afterId.None? then offset
    else match Position(source, afterId.value, 0) case Some(index) => index + 1 case None => offset
  }

  /** A SQL page ends the source when it comes back short; an id list when the
      ids run out, whatever became of their rows. */
  datatype Source = Sql | IdList

  datatype Batch = Batch(rows: seq<Row>, exhausted: bool)

  function Min(a: nat, b: nat): nat { if a < b then a else b }

  function StillThere(rows: seq<Row>): seq<Row> {
    if |rows| == 0 then [] else (if rows[0].state.Gone? then [] else [rows[0]]) + StillThere(rows[1..])
  }

  function FetchBatch(source: seq<Row>, kind: Source, start: nat, count: nat): Batch {
    var chunk := source[Min(start, |source|)..Min(start + count, |source|)];
    if kind.Sql? then Batch(chunk, |chunk| < count) else Batch(StillThere(chunk), start + count >= |source|)
  }

  // ---------------------------------------------------------- the paging loop

  lemma {:induction false} ReadableSplits(source: seq<Row>, i: nat, j: nat, k: nat)
    requires i <= j <= |source| && k <= j - i
    ensures ReadableFrom(source, i + k) == ReadableFrom(source[i..j], k) + ReadableFrom(source, j)
    decreases j - i - k
  {
    hide ReadableFrom;
    var chunk := source[i..j];
    ReadableStep(chunk, k);
    if k < j - i {
      ReadableStep(source, i + k);
      ReadableSplits(source, i, j, k + 1);
      assert chunk[k] == source[i + k];
    }
  }

  lemma {:induction false} ReadableStep(source: seq<Row>, i: nat)
    ensures i >= |source| ==> ReadableFrom(source, i) == []
    ensures i < |source| && source[i].state.Readable? ==>
      ReadableFrom(source, i) == [source[i].id] + ReadableFrom(source, i + 1)
    ensures i < |source| && !source[i].state.Readable? ==> ReadableFrom(source, i) == ReadableFrom(source, i + 1)
  {
  }

  lemma {:induction false} ReadableOfTail(rows: seq<Row>, i: nat)
    requires |rows| > 0
    ensures ReadableFrom(rows[1..], i) == ReadableFrom(rows, i + 1)
    decreases |rows| - i
  {
    if i + 1 < |rows| {
      ReadableOfTail(rows, i + 1);
    }
  }

  lemma {:induction false} GoneRowsAreNotReadable(rows: seq<Row>)
    ensures ReadableFrom(StillThere(rows), 0) == ReadableFrom(rows, 0)
  {
    if |rows| > 0 {
      GoneRowsAreNotReadable(rows[1..]);
      ReadableOfTail(rows, 0);
      var rest := StillThere(rows[1..]);
      if rows[0].state.Gone? {
        assert StillThere(rows) == rest;
      } else {
        assert StillThere(rows) == [rows[0]] + rest && ([rows[0]] + rest)[1..] == rest;
        ReadableOfTail([rows[0]] + rest, 0);
      }
    }
  }

  lemma {:induction false} BatchIsItsChunk(source: seq<Row>, kind: Source, start: nat, count: nat)
    requires count > 0
    ensures var batch := FetchBatch(source, kind, start, count);
            && ReadableFrom(source, start) == ReadableFrom(batch.rows, 0) + ReadableFrom(source, start + count)
            && (batch.exhausted ==> start + count >= |source|) && (start >= |source| ==> batch.exhausted)
  {
    var (lo, hi) := (Min(start, |source|), Min(start + count, |source|));
    var chunk := source[lo..hi];
    ReadableSplits(source, lo, hi, 0);
    GoneRowsAreNotReadable(chunk);
    assert ReadableFrom(source, |source|) == [];
  }

  /** Collects the page batch by batch, never looking before its start. */
  method CollectReadableClips(source: seq<Row>, kind: Source, start: nat, limit: nat) returns (page: seq<nat>)
    ensures page == FirstReadable(source, start, limit)
  {
    hide ReadableFrom, FetchBatch;
    page := [];
    if limit == 0 {
      NothingToTake(ReadableFrom(source, start));
      return;
    }
    var scanned := start;
    var exhausted := false;
    while !exhausted
      invariant start <= scanned && |page| < limit
      invariant !exhausted ==> ReadableFrom(source, start) == page + ReadableFrom(source, scanned)
      invariant exhausted ==> ReadableFrom(source, start) == page
      decreases !exhausted, if scanned <= |source| then |source| - scanned + 1 else 0
    {
      var batch := FetchBatch(source, kind, scanned, limit);
      BatchIsItsChunk(source, kind, scanned, limit);
      var full;
      page, full := TakeReadable(page, batch.rows, limit);
      if full {
        assert page <= ReadableFrom(source, start);
        return;
      }
      scanned, exhausted := scanned + limit, batch.exhausted;
      if exhausted {
        PastTheEnd(source, scanned);
      }
    }
  }

  lemma {:induction false} NothingToTake(s: seq<nat>)
    ensures Take(s, 0) == []
  {
  }

  lemma {:induction false} PastTheEnd(source: seq<Row>, i: nat)
    requires i >= |source|
    ensures ReadableFrom(source, i) == []
  {
  }

  /** One batch's rows; stops at the row that fills the page. */
  method TakeReadable(before: seq<nat>, rows: seq<Row>, limit: nat) returns (page: seq<nat>, full: bool)
    requires |before| < limit
    ensures full ==> |page| == limit && page <= before + ReadableFrom(rows, 0)
    ensures !full ==> |page| < limit && page == before + ReadableFrom(rows, 0)
  {
    page := before;
    for i := 0 to |rows|
      invariant |page| < limit && page + ReadableFrom(rows, i) == before + ReadableFrom(rows, 0)
    {
      ghost var rest := ReadableFrom(rows, i + 1);
      if rows[i].state.Readable? {
        assert page + ReadableFrom(rows, i) == page + [rows[i].id] + rest;
        page := page + [rows[i].id];
        if |page| == limit {
          return page, true;
        }
      }
    }
    full := false;
  }

  // --------------------------------------------------------- the cursor walk

  predicate Distinct(source: seq<Row>) { forall i, j | 0 <= i < j < |source| :: source[i].id != source[j].id }

  predicate ReadableIn(source: seq<Row>, id: nat) {
    exists i :: 0 <= i < |source| && source[i] == Row(id, Readable)
  }

  predicate Has(source: seq<Row>, id: nat) { exists i :: 0 <= i < |source| && source[i].id == id }

  predicate Precedes(source: seq<Row>, a: nat, b: nat) {
    exists i, j :: 0 <= i < j < |source| && source[i].id == a && source[j].id == b
  }

  /** What the client holds after page `k` of a walk, the source having been
      `lists[0]`, `lists[1]`, ... when each page was asked for. */
  datatype Client = Client(loaded: nat, cursor: Option<nat>)

  function PageOf(source: seq<Row>, client: Client, limit: nat): seq<nat> {
    FirstReadable(source, if client.loaded == 0 then 0 else SourceStart(source, client.cursor, client.loaded), limit)
  }

  function Receive(client: Client, page: seq<nat>): Client {
    Client(client.loaded + |page|, if |page| > 0 then Some(page[|page| - 1]) else client.cursor)
  }

  function After(lists: seq<seq<Row>>, limit: nat, k: nat): Client
    requires k <= |lists|
  {
    if k == 0 then Client(0, None)
    else
      var before := After(lists, limit, k - 1);
      Receive(before, PageOf(lists[k - 1], before, limit))
  }

  function Page(lists: seq<seq<Row>>, limit: nat, k: nat): seq<nat>
    requires k < |lists|
  {
    PageOf(lists[k], After(lists, limit, k), limit)
  }

  /** The walk's fair conditions: ids are unique, and the row the client will
      ask to continue after is still there when it asks. */
  ghost predicate Walk(lists: seq<seq<Row>>, limit: nat) {
    && limit > 0
    && (forall k | 0 <= k < |lists| :: Distinct(lists[k]))
    && (forall k | 0 < k < |lists| && After(lists, limit, k).cursor.Some? ::
          Has(lists[k], After(lists, limit, k).cursor.value))
  }

  /** From page `k` to the next, a row keeps its side of the cursor. */
  ghost predicate KeepsItsSide(lists: seq<seq<Row>>, limit: nat, x: nat, k: nat)
    requires k + 1 < |lists|
  {
    var cursor := After(lists, limit, k + 1).cursor;
    cursor.Some? && x != cursor.value ==>
      (Precedes(lists[k], x, cursor.value) <==> Precedes(lists[k + 1], x, cursor.value))
  }

  lemma {:induction false} PositionFinds(source: seq<Row>, id: nat, i: nat)
    requires i <= |source| && forall k | 0 <= k < i :: source[k].id != id
    ensures match Position(source, id, i)
            case Some(at) => i <= at < |source| && source[at].id == id
            case None => !Has(source, id)
    decreases |source| - i
  {
    if i < |source| && source[i].id != id {
      PositionFinds(source, id, i + 1);
    }
  }

  lemma {:induction false} ReadableAt(source: seq<Row>, i: nat, n: nat) returns (at: nat)
    requires n < |ReadableFrom(source, i)|
    ensures i <= at < |source| && source[at] == Row(ReadableFrom(source, i)[n], Readable)
    ensures |ReadableFrom(source, at)| == |ReadableFrom(source, i)| - n
    decreases |source| - i
  {
    ReadableStep(source, i);
    hide ReadableFrom;
    if source[i].state.Readable? && n == 0 {
      at := i;
    } else {
      at := ReadableAt(source, i + 1, if source[i].state.Readable? then n - 1 else n);
    }
  }

  lemma {:induction false} ReadableHas(source: seq<Row>, i: nat, at: nat) returns (n: nat)
    requires i <= at < |source| && source[at].state.Readable?
    ensures n < |ReadableFrom(source, i)| && ReadableFrom(source, i)[n] == source[at].id
    ensures |ReadableFrom(source, at)| == |ReadableFrom(source, i)| - n
    decreases at - i
  {
    ReadableStep(source, i);
    hide ReadableFrom;
    if i == at {
      n := 0;
    } else {
      n := ReadableHas(source, i + 1, at);
      if source[i].state.Readable? {
        n := n + 1;
      }
    }
  }

  lemma {:induction false} LaterIsShorter(source: seq<Row>, a: nat, b: nat)
    requires a <= b
    ensures |ReadableFrom(source, b)| <= |ReadableFrom(source, a)|
    decreases b - a
  {
    hide ReadableFrom;
    ReadableStep(source, a);
    ReadableStep(source, a + 1);
    if a < b {
      LaterIsShorter(source, a + 1, b);
    }
  }

  /** A page's last row comes no earlier than any row on it, and a readable row
      from the start on is either on the page or after its last row. */
  lemma {:induction false} PageCovers(source: seq<Row>, start: nat, limit: nat, at: nat) returns (end: nat)
    requires limit > 0 && start <= at < |source| && source[at].state.Readable?
    ensures var page := FirstReadable(source, start, limit);
            && |page| > 0 && start <= end < |source| && source[end].id == page[|page| - 1]
            && (source[at].id in page || end < at) && (|page| < limit ==> source[at].id in page)
  {
    var all := ReadableFrom(source, start);
    var n := ReadableHas(source, start, at);
    var page := FirstReadable(source, start, limit);
    end := ReadableAt(source, start, |page| - 1);
    hide ReadableFrom;
    if n < |page| {
      assert page[n] == source[at].id;
    } else if at <= end {
      LaterIsShorter(source, at, end);
    }
  }

  lemma {:induction false} OnPage(source: seq<Row>, start: nat, limit: nat, id: nat) returns (at: nat, end: nat)
    requires id in FirstReadable(source, start, limit)
    ensures var page := FirstReadable(source, start, limit);
            && start <= at <= end < |source| && source[at] == Row(id, Readable)
            && |page| > 0 && source[end].id == page[|page| - 1]
  {
    var page := FirstReadable(source, start, limit);
    PageIsPrefix(source, start, limit);
    hide *;
    var n :| 0 <= n < |page| && page[n] == id;
    at := ReadableAt(source, start, n);
    end := ReadableAt(source, start, |page| - 1);
    if end < at {
      NoneBehind(source, end, at);
    }
  }

  lemma {:induction false} PageIsPrefix(source: seq<Row>, start: nat, limit: nat)
    ensures FirstReadable(source, start, limit) <= ReadableFrom(source, start)
  {
    hide ReadableFrom;
  }

  /** A readable row and those after it are more than those after a later one. */
  lemma {:induction false} NoneBehind(source: seq<Row>, end: nat, at: nat)
    requires end < at < |source| && source[end].state.Readable?
    ensures |ReadableFrom(source, at)| < |ReadableFrom(source, end)|
  {
    ReadableStep(source, end);
    LaterIsShorter(source, end + 1, at);
    hide ReadableFrom;
  }

  // ------------------------------------------------------------ main results

  /** A row that is still to come when page `k` is asked for. */
  ghost predicate StillToCome(source: seq<Row>, client: Client, x: nat) {
    client.cursor.Some? ==> x != client.cursor.value && !Precedes(source, x, client.cursor.value)
  }

  ghost predicate AlreadyPast(source: seq<Row>, client: Client, x: nat) {
    client.cursor.Some? && (x == client.cursor.value || Precedes(source, x, client.cursor.value))
  }

  lemma {:induction false} CursorMeansLoaded(lists: seq<seq<Row>>, limit: nat, k: nat)
    requires k <= |lists|
    ensures After(lists, limit, k).loaded == 0 <==> After(lists, limit, k).cursor.None?
  {
    hide PageOf;
    if k > 0 {
      CursorMeansLoaded(lists, limit, k - 1);
    }
  }

  lemma {:induction false} EarlierPrecedes(source: seq<Row>, i: nat, j: nat)
    requires i < |source| && j < |source|
    ensures i < j ==> Precedes(source, source[i].id, source[j].id)
  {
  }

  lemma {:induction false} DeliveredOrStillToCome(source: seq<Row>, client: Client, limit: nat, x: nat)
    requires limit > 0 && Distinct(source) && ReadableIn(source, x) && StillToCome(source, client, x)
    requires client.loaded == 0 <==> client.cursor.None?
    requires client.cursor.Some? ==> Has(source, client.cursor.value)
    ensures var page := PageOf(source, client, limit);
            (x in page || StillToCome(source, Receive(client, page), x)) && (|page| < limit ==> x in page)
  {
    var at :| 0 <= at < |source| && source[at] == Row(x, Readable);
    var start := if client.loaded == 0 then 0 else SourceStart(source, client.cursor, client.loaded);
    if client.cursor.Some? {
      PositionFinds(source, client.cursor.value, 0);
      EarlierPrecedes(source, at, start - 1);
    }
    var end := PageCovers(source, start, limit, at);
    hide FirstReadable;
  }

  lemma {:induction false} PastStaysPast(source: seq<Row>, client: Client, limit: nat, x: nat)
    requires limit > 0 && Distinct(source) && AlreadyPast(source, client, x) && client.loaded > 0
    requires Has(source, client.cursor.value)
    ensures var page := PageOf(source, client, limit);
            x !in page && AlreadyPast(source, Receive(client, page), x)
  {
    PositionFinds(source, client.cursor.value, 0);
    var start := SourceStart(source, client.cursor, client.loaded);
    var page := PageOf(source, client, limit);
    var i :| 0 <= i < start && source[i].id == x;
    if x in page {
      var at, end := OnPage(source, start, limit, x);
      assert false;
    } else if |page| > 0 {
      var at, end := OnPage(source, start, limit, page[|page| - 1]);
      hide FirstReadable;
      assert source[i].id == x && source[end].id == page[|page| - 1] && i < end;
    }
  }

  predicate DeliveredBy(lists: seq<seq<Row>>, limit: nat, x: nat, k: nat)
    requires k <= |lists|
  {
    exists i :: 0 <= i < k && x in Page(lists, limit, i)
  }

  lemma {:induction false} NotLostYet(lists: seq<seq<Row>>, limit: nat, x: nat, k: nat)
    requires Walk(lists, limit) && k < |lists|
    requires forall i | 0 <= i <= k :: ReadableIn(lists[i], x)
    requires forall i | 0 <= i < k :: KeepsItsSide(lists, limit, x, i)
    ensures DeliveredBy(lists, limit, x, k + 1) || StillToCome(lists[k], After(lists, limit, k + 1), x)
    ensures |Page(lists, limit, k)| < limit ==> DeliveredBy(lists, limit, x, k + 1)
    decreases k
  {
    hide PageOf, StillToCome, ReadableIn;
    if k > 0 {
      NotLostYet(lists, limit, x, k - 1);
    }
    if k == 0 || !DeliveredBy(lists, limit, x, k) {
      SidesAgree(lists, limit, x, k);
      CursorMeansLoaded(lists, limit, k);
      DeliveredOrStillToCome(lists[k], After(lists, limit, k), limit, x);
      assert x in Page(lists, limit, k) ==> DeliveredBy(lists, limit, x, k + 1);
    } else {
      var i :| 0 <= i < k && x in Page(lists, limit, i);
    }
  }

  /** What lay ahead of the client's cursor in one list still does in the next. */
  lemma {:induction false} SidesAgree(lists: seq<seq<Row>>, limit: nat, x: nat, k: nat)
    requires k < |lists|
    requires k > 0 ==> KeepsItsSide(lists, limit, x, k - 1) && StillToCome(lists[k - 1], After(lists, limit, k), x)
    ensures StillToCome(lists[k], After(lists, limit, k), x)
  {
    hide PageOf;
  }

  /** A readable row that is there throughout, and that insertions and removals
      leave on its side of the cursor, is on some page once a page comes back
      short. */
  lemma {:induction false} NothingIsSkipped(lists: seq<seq<Row>>, limit: nat, x: nat)
    requires Walk(lists, limit) && |lists| > 0 && |Page(lists, limit, |lists| - 1)| < limit
    requires forall i | 0 <= i < |lists| :: ReadableIn(lists[i], x)
    requires forall i | 0 <= i < |lists| - 1 :: KeepsItsSide(lists, limit, x, i)
    ensures DeliveredBy(lists, limit, x, |lists|)
  {
    hide Walk, KeepsItsSide, ReadableIn, Page;
    NotLostYet(lists, limit, x, |lists| - 1);
  }

  /** A row already delivered, while it keeps its side of the cursor, is on no
      later page. */
  lemma {:induction false} NothingIsRepeated(lists: seq<seq<Row>>, limit: nat, x: nat, i: nat, j: nat)
    requires Walk(lists, limit) && i < j < |lists| && x in Page(lists, limit, i)
    requires forall k | i <= k < j :: KeepsItsSide(lists, limit, x, k)
    ensures x !in Page(lists, limit, j)
    ensures AlreadyPast(lists[j], After(lists, limit, j + 1), x)
    decreases j
  {
    hide *;
    if i < j - 1 {
      NothingIsRepeated(lists, limit, x, i, j - 1);
    } else {
      DeliveredIsPast(lists, limit, x, i);
    }
    PastOnNextPage(lists, limit, x, j);
  }

  lemma {:induction false} PastOnNextPage(lists: seq<seq<Row>>, limit: nat, x: nat, k: nat)
    requires Walk(lists, limit) && 0 < k < |lists| && KeepsItsSide(lists, limit, x, k - 1)
    requires AlreadyPast(lists[k - 1], After(lists, limit, k), x)
    ensures x !in Page(lists, limit, k) && AlreadyPast(lists[k], After(lists, limit, k + 1), x)
  {
    hide PageOf, AlreadyPast;
    PastSidesAgree(lists, limit, x, k);
    CursorMeansLoaded(lists, limit, k);
    PastStaysPast(lists[k], After(lists, limit, k), limit, x);
  }

  lemma {:induction false} PastSidesAgree(lists: seq<seq<Row>>, limit: nat, x: nat, k: nat)
    requires 0 < k < |lists| && KeepsItsSide(lists, limit, x, k - 1)
    requires AlreadyPast(lists[k - 1], After(lists, limit, k), x)
    ensures AlreadyPast(lists[k], After(lists, limit, k), x) && After(lists, limit, k).cursor.Some?
  {
    hide PageOf;
  }

  lemma {:induction false} DeliveredIsPast(lists: seq<seq<Row>>, limit: nat, x: nat, i: nat)
    requires i < |lists| && x in Page(lists, limit, i)
    ensures AlreadyPast(lists[i], After(lists, limit, i + 1), x)
  {
    var client := After(lists, limit, i);
    var start := if client.loaded == 0 then 0 else SourceStart(lists[i], client.cursor, client.loaded);
    var at, end := OnPage(lists[i], start, limit, x);
    hide FirstReadable;
    EarlierPrecedes(lists[i], at, end);
  }
}
