/**
  Cursor pagination: following `next_page_token` from page to page is proved to read
  exactly the sorted, filtered collection.
*/
module Feed {
  import opened Sorting
  import opened Strings
  import opened Wrappers

  /** What the cursor field's type gives the repository: its order, and tokens out and in. */
  datatype CursorType<!K> = CursorType(less: (K, K) -> bool, show: K -> string, parse: string -> Option<K>)

  /** A stored document, seen through its cursor field. */
  datatype Row<K> = Row(cursor: K, body: int)

  datatype Filter<!R> =
    | Everything
    | Where(holds: R -> bool)
    | And(both: Filter<R>, too: Filter<R>)

  datatype FeedError = CursorFieldNotFound | BadToken

  datatype Page<R> = Page(rows: seq<R>, next: string)

  /** The fixed part of a feed: the collection in storage order, the injected filter, size and direction. */
  datatype Query<!K> = Query(
    cursor: CursorType<K>,
    collection: seq<Row<K>>,
    base: Filter<Row<K>>,
    pageSize: int,
    descending: bool,
    fieldKnown: bool)

  // ---------- The code ----------

  predicate Matches<R>(f: Filter<R>, r: R) {
    match f
    case Everything => true
    case Where(holds) => holds(r)
    case And(a, b) => Matches(a, r) && Matches(b, r)
  }

  function MergeFeedFilter<R>(base: Filter<R>, cursor: Filter<R>): Filter<R> {
    if base.Everything? then cursor
    else if cursor.Everything? then base
    else And(base, cursor)
  }

  /** The order of the feed. */
  predicate Before<K>(q: Query<K>, a: K, b: K) {
    if q.descending then q.cursor.less(b, a) else q.cursor.less(a, b)
  }

  function FeedCursorFilter<K>(q: Query<K>, value: K): Filter<Row<K>> {
    if q.descending then Where((r: Row<K>) => q.cursor.less(r.cursor, value))
    else Where((r: Row<K>) => q.cursor.less(value, r.cursor))
  }

  function Select<R>(f: Filter<R>, rows: seq<R>): seq<R> {
    if rows == [] then []
    else if Matches(f, rows[0]) then [rows[0]] + Select(f, rows[1..])
    else Select(f, rows[1..])
  }

  /** The order of the rows. */
  function RowOrder<K>(q: Query<K>): (Row<K>, Row<K>) -> bool {
    (r: Row<K>, r': Row<K>) => Before(q, r.cursor, r'.cursor)
  }

  function Find<K>(q: Query<K>, filter: Filter<Row<K>>, limit: nat): seq<Row<K>> {
    var found := Sort(RowOrder(q), Select(filter, q.collection));
    if |found| <= limit then found else found[..limit]
  }

  function PageSize<K>(q: Query<K>): nat {
    if q.pageSize <= 0 then 20 else q.pageSize
  }

  function FeedFilter<K>(q: Query<K>, token: string): Result<Filter<Row<K>>, FeedError> {
    if token == "" then Ok(q.base)
    else if !q.fieldKnown then Err(CursorFieldNotFound)
    else
      match q.cursor.parse(token)
      case None => Err(BadToken)
      case Some(value) => Ok(MergeFeedFilter(q.base, FeedCursorFilter(q, value)))
  }

  function FeedQuery<K>(q: Query<K>, token: string): Result<Page<Row<K>>, FeedError> {
    var filter := FeedFilter(q, token);
    if filter.Err? then Err(filter.error)
    else Ok(CutPage(q, Find(q, filter.value, PageSize(q) + 1)))
  }

  /** A token is refused if the entity has no cursor field, or if it cannot be read as a cursor; no token never is. */
  lemma RefusedTokens<K>(q: Query<K>, token: string)
    ensures FeedQuery(q, token).Err? <==> token != "" && (!q.fieldKnown || q.cursor.parse(token).None?)
    ensures FeedQuery(q, token).Err? ==>
              FeedQuery(q, token).error == if q.fieldKnown then BadToken else CursorFieldNotFound
  {
  }

  /** The page made of what was found: a row more than the page size means that there is a next page. */
  function CutPage<K>(q: Query<K>, docs: seq<Row<K>>): Page<Row<K>> {
    var size := PageSize(q);
    if |docs| > size then Page(docs[..size], q.cursor.show(docs[size - 1].cursor)) else Page(docs, "")
  }

  /** Page `k` of a caller that follows the tokens and stops at the empty one. */
  function PageNo<K>(q: Query<K>, k: nat): Result<Page<Row<K>>, FeedError> {
    if k == 0 then FeedQuery(q, "")
    else
      var before := PageNo(q, k - 1);
      if before.Err? || before.value.next == "" then Ok(Page([], ""))
      else FeedQuery(q, before.value.next)
  }

  /** All rows of the first `n` pages. */
  function RowsOfPages<K>(q: Query<K>, n: nat): seq<Row<K>> {
    if n == 0 then []
    else
      var page := PageNo(q, n - 1);
      RowsOfPages(q, n - 1) + (if page.Ok? then page.value.rows else [])
  }

  // ---------- Assumptions ----------

  /** Tokens of the matching rows read back; no two of these rows share a cursor. */
  ghost predicate Lawful<K(!new)>(q: Query<K>) {
    && StrictTotalOrder(q.cursor.less)
    && q.fieldKnown
    && (forall r :: r in Select(q.base, q.collection) ==>
          q.cursor.parse(q.cursor.show(r.cursor)) == Some(r.cursor))
    && DistinctCursors(Select(q.base, q.collection))
  }

  ghost predicate DistinctCursors<K>(rows: seq<Row<K>>) {
    forall i, j :: 0 <= i < j < |rows| ==> rows[i].cursor != rows[j].cursor
  }

  /** What the whole feed should be. */
  function WholeFeed<K>(q: Query<K>): seq<Row<K>> {
    Sort(RowOrder(q), Select(q.base, q.collection))
  }

  // ---------- Sorting and selecting ----------

  lemma RowsAreOrdered<K(!new)>(q: Query<K>)
    requires StrictTotalOrder(q.cursor.less)
    ensures StrictWeakOrder(RowOrder(q))
  {
    var before := RowOrder(q);
    forall r, s | before(r, s)
      ensures !before(s, r)
    {
      assert Before(q, r.cursor, s.cursor);
    }
    forall r, s, t | !before(s, r) && !before(t, s)
      ensures !before(t, r)
    {
      assert r.cursor == s.cursor || q.cursor.less(r.cursor, s.cursor) || q.cursor.less(s.cursor, r.cursor);
      assert s.cursor == t.cursor || q.cursor.less(s.cursor, t.cursor) || q.cursor.less(t.cursor, s.cursor);
    }
  }

  /** Selecting from a sorted sequence after an insertion. */
  lemma {:induction false} SelectInsert<K(!new)>(q: Query<K>, f: Filter<Row<K>>, r: Row<K>, s: seq<Row<K>>)
    requires StrictTotalOrder(q.cursor.less) && InOrder(RowOrder(q), s)
    ensures Select(f, Insert(RowOrder(q), r, s)) ==
            if Matches(f, r) then Insert(RowOrder(q), r, Select(f, s)) else Select(f, s)
  {
    if s == [] {
    } else if Before(q, r.cursor, s[0].cursor) {
      assert ([r] + s)[1..] == s;
      SelectAfter(q, f, r, s);
    } else {
      InOrderTail(RowOrder(q), s);
      SelectInsert(q, f, r, s[1..]);
      assert ([s[0]] + Insert(RowOrder(q), r, s[1..]))[1..] == Insert(RowOrder(q), r, s[1..]);
    }
  }

  /** A row that goes before the first of a sorted sequence also goes before what is selected from it. */
  lemma {:induction false} SelectAfter<K(!new)>(q: Query<K>, f: Filter<Row<K>>, r: Row<K>, s: seq<Row<K>>)
    requires StrictTotalOrder(q.cursor.less) && InOrder(RowOrder(q), s)
    requires forall i :: 0 <= i < |s| ==> Before(q, r.cursor, s[i].cursor) || !Before(q, s[i].cursor, s[0].cursor)
    requires s != [] ==> Before(q, r.cursor, s[0].cursor)
    ensures Insert(RowOrder(q), r, Select(f, s)) == [r] + Select(f, s)
  {
    if s != [] && !Matches(f, s[0]) && s[1..] != [] {
      assert !Before(q, s[1].cursor, s[0].cursor);
      assert s[0].cursor == s[1].cursor || Before(q, s[0].cursor, s[1].cursor);
      forall i | 0 <= i < |s[1..]|
        ensures !Before(q, s[1..][i].cursor, s[1..][0].cursor)
      {
        if i > 0 {
          assert !Before(q, s[i + 1].cursor, s[1].cursor);
        }
      }
      InOrderTail(RowOrder(q), s);
      SelectAfter(q, f, r, s[1..]);
    }
  }

  lemma {:induction false} SelectSort<K(!new)>(q: Query<K>, f: Filter<Row<K>>, rows: seq<Row<K>>)
    requires StrictTotalOrder(q.cursor.less)
    ensures Select(f, Sort(RowOrder(q), rows)) == Sort(RowOrder(q), Select(f, rows))
  {
    if rows != [] {
      SelectSort(q, f, rows[1..]);
      RowsAreOrdered(q);
      SortSorts(RowOrder(q), rows[1..]);
      SelectInsert(q, f, rows[0], Sort(RowOrder(q), rows[1..]));
    }
  }

  /** Filtering twice is filtering by the merged filter. */
  lemma {:induction false} SelectMerged<R>(base: Filter<R>, cursor: Filter<R>, rows: seq<R>)
    ensures Select(MergeFeedFilter(base, cursor), rows) == Select(cursor, Select(base, rows))
  {
    if rows != [] {
      SelectMerged(base, cursor, rows[1..]);
      if Matches(base, rows[0]) {
        assert ([rows[0]] + Select(base, rows[1..]))[1..] == Select(base, rows[1..]);
      }
    }
  }

  lemma SelectedIsLater<K(!new)>(q: Query<K>, s: seq<Row<K>>, k: nat, at: nat)
    requires StrictTotalOrder(q.cursor.less) && Ascending(RowOrder(q), s)
    requires k < |s| && at < |s|
    ensures Matches(FeedCursorFilter(q, s[k].cursor), s[at]) <==> k < at
  {
    RowsAreOrdered(q);
    assert Matches(FeedCursorFilter(q, s[k].cursor), s[at]) <==> RowOrder(q)(s[k], s[at]);
  }

  /** In a strictly sorted sequence, the rows after a cursor are the rest of the sequence. */
  lemma {:induction false} SelectRest<K(!new)>(q: Query<K>, s: seq<Row<K>>, k: nat, at: nat)
    requires StrictTotalOrder(q.cursor.less) && Ascending(RowOrder(q), s)
    requires k < |s| && at <= |s|
    ensures Select(FeedCursorFilter(q, s[k].cursor), s[at..]) == if at <= k then s[k + 1..] else s[at..]
    decreases |s| - at
  {
    hide StrictTotalOrder, Ascending, FeedCursorFilter, Matches;
    if at < |s| {
      SelectRest(q, s, k, at + 1);
      assert s[at..][0] == s[at] && s[at..][1..] == s[at + 1..];
      SelectedIsLater(q, s, k, at);
      assert at > k ==> s[at..] == [s[at]] + s[at + 1..];
    }
  }

  lemma WholeFeedIsStrictlySorted<K(!new)>(q: Query<K>)
    requires Lawful(q)
    ensures Ascending(RowOrder(q), WholeFeed(q))
    ensures multiset(WholeFeed(q)) == multiset(Select(q.base, q.collection))
  {
    var rows, before := Select(q.base, q.collection), RowOrder(q);
    RowsAreOrdered(q);
    SortSorts(before, rows);
    forall r, r' | r in rows && r' in rows && r != r'
      ensures before(r, r') || before(r', r)
    {
      assert r.cursor != r'.cursor;
    }
    SortedDistinct(before, rows);
  }

  // ---------- The feed ----------

  /** The row before a page is a matching one, so its token reads back. */
  lemma TokenReadsBack<K(!new)>(q: Query<K>, at: nat)
    requires Lawful(q) && at < |WholeFeed(q)|
    ensures var r := WholeFeed(q)[at]; q.cursor.parse(q.cursor.show(r.cursor)) == Some(r.cursor)
  {
    WholeFeedIsStrictlySorted(q);
    assert WholeFeed(q)[at] in multiset(Select(q.base, q.collection));
  }

  /** The token of row `from - 1`, or the empty token for the first page. */
  function TokenAt<K>(q: Query<K>, from: nat): string
    requires from <= |WholeFeed(q)|
  {
    if from == 0 then "" else q.cursor.show(WholeFeed(q)[from - 1].cursor)
  }

  lemma SelectedAfter<K(!new)>(q: Query<K>, k: nat)
    requires Lawful(q) && k < |WholeFeed(q)|
    ensures var filter := MergeFeedFilter(q.base, FeedCursorFilter(q, WholeFeed(q)[k].cursor));
            Sort(RowOrder(q), Select(filter, q.collection)) == WholeFeed(q)[k + 1..]
  {
    var s := WholeFeed(q);
    var after := FeedCursorFilter(q, s[k].cursor);
    WholeFeedIsStrictlySorted(q);
    SelectMerged(q.base, after, q.collection);
    SelectSort(q, after, Select(q.base, q.collection));
    SelectRest(q, s, k, 0);
    assert s[0..] == s;
  }

  /** The rows the store finds for a token are those of the whole feed after it. */
  lemma FoundAfter<K(!new)>(q: Query<K>, from: nat)
    requires Lawful(q) && from <= |WholeFeed(q)| && (from == 0 || TokenAt(q, from) != "")
    ensures var filter := FeedFilter(q, TokenAt(q, from));
            filter.Ok? && Sort(RowOrder(q), Select(filter.value, q.collection)) == WholeFeed(q)[from..]
  {
    if from > 0 {
      TokenReadsBack(q, from - 1);
      SelectedAfter(q, from - 1);
    } else {
      assert WholeFeed(q)[0..] == WholeFeed(q);
    }
  }

  /** The page that starts with row `from` of the whole feed. */
  function Slice<K>(q: Query<K>, from: nat): Page<Row<K>>
    requires from <= |WholeFeed(q)|
  {
    var s, to := WholeFeed(q), from + PageSize(q);
    if to < |s| then Page(s[from..to], TokenAt(q, to)) else Page(s[from..], "")
  }

  lemma CutRest<K>(q: Query<K>, from: nat)
    requires from <= |WholeFeed(q)|
    ensures var rest, limit := WholeFeed(q)[from..], PageSize(q) + 1;
            CutPage(q, if |rest| <= limit then rest else rest[..limit]) == Slice(q, from)
  {
    var s, size := WholeFeed(q), PageSize(q);
    if from + size < |s| {
      var rest := s[from..];
      var docs := if |rest| <= size + 1 then rest else rest[..size + 1];
      assert docs[..size] == s[from..from + size];
      assert docs[size - 1] == s[from + size - 1];
    }
  }

  /** Every token that is not empty asks for the slice of the whole feed after its row. */
  ghost predicate Readable<K(!new)>(q: Query<K>) {
    forall from: nat {:trigger FeedQuery(q, TokenAt(q, from))} ::
      from <= |WholeFeed(q)| && (from == 0 || TokenAt(q, from) != "") ==>
        FeedQuery(q, TokenAt(q, from)) == Ok(Slice(q, from))
  }

  lemma LawfulIsReadable<K(!new)>(q: Query<K>)
    requires Lawful(q)
    ensures Readable(q)
  {
    forall from: nat | from <= |WholeFeed(q)| && (from == 0 || TokenAt(q, from) != "")
      ensures FeedQuery(q, TokenAt(q, from)) == Ok(Slice(q, from))
    {
      FoundAfter(q, from);
      CutRest(q, from);
    }
  }

  /** Where page `k` starts: at row k * size. */
  function Start(k: nat, size: nat): nat {
    if k == 0 then 0 else Start(k - 1, size) + size
  }

  lemma {:induction false} StartIsProduct(k: nat, size: nat)
    ensures Start(k, size) == k * size
  {
    if k > 0 {
      StartIsProduct(k - 1, size);
      assert k * size == (k - 1) * size + size;
    }
  }

  /** How many pages `n` rows fill: one if there is none, and else ceil(n / size). */
  function PageCount(n: nat, size: nat): nat
    requires 0 < size
  {
    if n <= size then 1 else 1 + PageCount(n - size, size)
  }

  lemma {:induction false} PageCountIsCeiling(n: nat, size: nat)
    requires 0 < size && 0 < n
    ensures var count := PageCount(n, size); (count - 1) * size < n <= count * size
  {
    var count := PageCount(n, size);
    assert count * size == (count - 1) * size + size;
    if n > size {
      PageCountIsCeiling(n - size, size);
      assert (count - 1) * size == (count - 2) * size + size;
    }
  }

  /** Before the last page there are rows left after the page; after the last one there are none. */
  lemma {:induction false} CountCovers(n: nat, size: nat, k: nat)
    requires 0 < size && k < PageCount(n, size)
    ensures Start(k, size) <= n && (k == 0 || Start(k, size) < n)
    ensures k == PageCount(n, size) - 1 <==> n <= Start(k, size) + size
    decreases k
  {
    if k > 0 {
      CountCovers(n - size, size, k - 1);
      StartShift(k, size);
    }
  }

  lemma {:induction false} StartShift(k: nat, size: nat)
    requires k > 0
    ensures Start(k, size) == Start(k - 1, size) + size
  {
  }

  /** If there are rows left for page `k`, the token that asks for it is not empty. */
  predicate NamesNext<K>(q: Query<K>, k: nat) {
    var from := Start(k, PageSize(q));
    0 < k && from < |WholeFeed(q)| ==> TokenAt(q, from) != ""
  }

  /** No page but the last ends with a row that has an empty token. */
  ghost predicate TokensGoOn<K>(q: Query<K>) {
    forall k: nat :: NamesNext(q, k)
  }

  /** Page `k` is the slice of the whole feed that starts at row k * size. */
  ghost predicate SlicedAt<K(!new)>(q: Query<K>, k: nat) {
    var from := Start(k, PageSize(q));
    from <= |WholeFeed(q)| && PageNo(q, k) == Ok(Slice(q, from))
  }

  lemma FirstPage<K(!new)>(q: Query<K>)
    requires Readable(q)
    ensures SlicedAt(q, 0)
  {
    assert FeedQuery(q, TokenAt(q, 0)) == Ok(Slice(q, 0));
  }

  lemma NextPage<K(!new)>(q: Query<K>, k: nat, to: nat)
    requires Readable(q) && 0 < k && to == Start(k, PageSize(q)) && to < |WholeFeed(q)|
    requires SlicedAt(q, k - 1) && NamesNext(q, k)
    ensures SlicedAt(q, k)
  {
    hide WholeFeed;
    StartShift(k, PageSize(q));
    assert PageNo(q, k - 1).value.next == TokenAt(q, to);
    assert FeedQuery(q, TokenAt(q, to)) == Ok(Slice(q, to));
  }

  lemma {:induction false} PageIsSlice<K(!new)>(q: Query<K>, k: nat)
    requires Readable(q)
    requires k == 0 || Start(k, PageSize(q)) < |WholeFeed(q)|
    requires forall j: nat :: j <= k ==> NamesNext(q, j)
    ensures SlicedAt(q, k)
    decreases k
  {
    if k == 0 {
      FirstPage(q);
    } else {
      StartShift(k, PageSize(q));
      PageIsSlice(q, k - 1);
      NextPage(q, k, Start(k, PageSize(q)));
    }
  }

  /** While there are rows left, page after page is a slice. */
  lemma FirstSlices<K(!new)>(q: Query<K>, k: nat)
    requires Readable(q) && k <= PageCount(|WholeFeed(q)|, PageSize(q))
    requires forall j: nat :: j < k ==> NamesNext(q, j)
    ensures forall j: nat :: j < k ==> SlicedAt(q, j)
  {
    forall j: nat | j < k
      ensures SlicedAt(q, j)
    {
      CountCovers(|WholeFeed(q)|, PageSize(q), j);
      PageIsSlice(q, j);
    }
  }

  /** The pages before page `k` hold the rows before it. */
  lemma {:induction false} RowsUpTo<K(!new)>(q: Query<K>, k: nat, from: nat)
    requires from == Start(k, PageSize(q))
    requires forall j: nat :: j < k ==> SlicedAt(q, j)
    requires k == 0 || from < |WholeFeed(q)|
    ensures RowsOfPages(q, k) == WholeFeed(q)[..from]
    decreases k
  {
    if k > 0 {
      var before := Start(k - 1, PageSize(q));
      StartShift(k, PageSize(q));
      RowsUpTo(q, k - 1, before);
      RowsAndPage(q, k - 1, before);
    }
  }

  lemma {:induction false} RowsSnoc<K>(q: Query<K>, k: nat, page: Page<Row<K>>)
    requires PageNo(q, k) == Ok(page)
    ensures RowsOfPages(q, k + 1) == RowsOfPages(q, k) + page.rows
  {
  }

  lemma SliceContinues<R>(s: seq<R>, from: nat, to: nat)
    requires from <= to && from <= |s|
    ensures s[..from] + (if to < |s| then s[from..to] else s[from..]) == if to < |s| then s[..to] else s
  {
  }

  /** The rows of page `k` continue those of the pages before it. */
  lemma RowsAndPage<K(!new)>(q: Query<K>, k: nat, from: nat)
    requires from == Start(k, PageSize(q)) && SlicedAt(q, k)
    requires RowsOfPages(q, k) == WholeFeed(q)[..from]
    ensures var s, to := WholeFeed(q), from + PageSize(q);
            RowsOfPages(q, k + 1) == if to < |s| then s[..to] else s
  {
    hide PageNo, RowsOfPages, WholeFeed, Start;
    RowsSnoc(q, k, Slice(q, from));
    SliceContinues(WholeFeed(q), from, from + PageSize(q));
  }

  /** Every page but the last names a next one. */
  lemma PageNamesNext<K(!new)>(q: Query<K>, k: nat, from: nat)
    requires from == Start(k, PageSize(q)) && SlicedAt(q, k)
    requires NamesNext(q, k + 1)
    ensures PageNo(q, k).Ok?
    ensures PageNo(q, k).value.next == "" <==> |WholeFeed(q)| <= from + PageSize(q)
  {
    hide WholeFeed;
    StartShift(k + 1, PageSize(q));
  }

  /** The pages up to the last hold all rows. */
  lemma AllRows<K(!new)>(q: Query<K>, last: nat, from: nat)
    requires from == Start(last, PageSize(q))
    requires last == 0 || from < |WholeFeed(q)|
    requires |WholeFeed(q)| <= from + PageSize(q)
    requires forall j: nat :: j <= last ==> SlicedAt(q, j)
    ensures RowsOfPages(q, last + 1) == WholeFeed(q)
  {
    RowsUpTo(q, last, from);
    RowsAndPage(q, last, from);
  }

  lemma LastStart(n: nat, size: nat, count: nat) returns (last: nat, from: nat)
    requires 0 < size && count == PageCount(n, size)
    ensures count == last + 1 && from == Start(last, size)
    ensures (last == 0 || from < n) && n <= from + size
  {
    last := count - 1;
    from := Start(last, size);
    CountCovers(n, size, last);
  }

  lemma AllPages<K(!new)>(q: Query<K>, count: nat)
    requires Readable(q) && TokensGoOn(q) && count == PageCount(|WholeFeed(q)|, PageSize(q))
    ensures RowsOfPages(q, count) == WholeFeed(q)
  {
    var last, from := LastStart(|WholeFeed(q)|, PageSize(q), count);
    FirstSlices(q, count);
    AllRows(q, last, from);
  }

  /** All pages but the last of a feed name the next one. */
  lemma PagesGoOn<K(!new)>(q: Query<K>, count: nat, k: nat)
    requires Readable(q) && TokensGoOn(q) && count == PageCount(|WholeFeed(q)|, PageSize(q)) && k < count
    ensures PageNo(q, k).Ok? && (PageNo(q, k).value.next == "" <==> k == count - 1)
  {
    CountCovers(|WholeFeed(q)|, PageSize(q), k);
    FirstSlices(q, k + 1);
    PageNamesNext(q, k, Start(k, PageSize(q)));
  }

  // ---------- Where a feed stops early ----------

  /** A page that starts before the end is one of the counted ones. */
  lemma {:induction false} StartBelow(n: nat, size: nat, k: nat)
    requires 0 < size && Start(k, size) < n
    ensures k < PageCount(n, size)
    decreases k
  {
    if k > 0 {
      StartShift(k, size);
      StartBelow(n - size, size, k - 1);
    }
  }

  lemma {:induction false} FirstStop<K>(q: Query<K>, k: nat) returns (m: nat)
    requires !NamesNext(q, k)
    ensures m <= k && !NamesNext(q, m) && forall j: nat :: j < m ==> NamesNext(q, j)
  {
    if j: nat :| j < k && !NamesNext(q, j) {
      m := FirstStop(q, j);
    } else {
      m := k;
    }
  }

  /** After an empty token there are only empty pages. */
  lemma {:induction false} NothingMore<K(!new)>(q: Query<K>, k: nat, n: nat)
    requires 0 < k <= n
    requires PageNo(q, k - 1).Ok? && PageNo(q, k - 1).value.next == ""
    ensures PageNo(q, n) == Ok(Page([], "")) && RowsOfPages(q, n) == RowsOfPages(q, k)
    decreases n
  {
    if k < n {
      NothingMore(q, k, n - 1);
    }
  }

  /** The first empty token among the page ends is where the feed stops. */
  lemma StopsAt<K(!new)>(q: Query<K>, k: nat, from: nat, n: nat)
    requires Readable(q) && from == Start(k, PageSize(q)) && k <= n
    requires !NamesNext(q, k) && forall j: nat :: j < k ==> NamesNext(q, j)
    ensures RowsOfPages(q, n) == WholeFeed(q)[..from] && from < |WholeFeed(q)|
  {
    hide WholeFeed, PageNo;
    var before := Start(k - 1, PageSize(q));
    StartBelow(|WholeFeed(q)|, PageSize(q), k);
    FirstSlices(q, k);
    RowsUpTo(q, k, from);
    StartShift(k, PageSize(q));
    assert SlicedAt(q, k - 1);
    NothingMore(q, k, n);
  }

  lemma StopsEarly<K(!new)>(q: Query<K>, count: nat)
    requires Readable(q) && !TokensGoOn(q) && count == PageCount(|WholeFeed(q)|, PageSize(q))
    ensures RowsOfPages(q, count) != WholeFeed(q)
  {
    var k: nat :| !NamesNext(q, k);
    k := FirstStop(q, k);
    StartBelow(|WholeFeed(q)|, PageSize(q), k);
    StopsAt(q, k, Start(k, PageSize(q)), count);
  }

  /**
    Following the tokens until they run out reads the whole feed, every row once and in
    order, exactly when no page but the last ends with a row whose token is empty. It
    then takes ceil(n / size) pages (one if there is no row): the earlier pages all name
    a next one, and the last does not.
  */
  lemma FeedIsComplete<K(!new)>(q: Query<K>, count: nat)
    requires Lawful(q)
    requires count == PageCount(|WholeFeed(q)|, PageSize(q))
    ensures RowsOfPages(q, count) == WholeFeed(q) <==> TokensGoOn(q)
    ensures TokensGoOn(q) ==> forall k :: 0 <= k < count ==>
              PageNo(q, k).Ok? && (PageNo(q, k).value.next == "" <==> k == count - 1)
    ensures Ascending(RowOrder(q), WholeFeed(q))
    ensures multiset(WholeFeed(q)) == multiset(Select(q.base, q.collection))
  {
    LawfulIsReadable(q);
    WholeFeedIsStrictlySorted(q);
    if TokensGoOn(q) {
      AllPages(q, count);
      forall k | 0 <= k < count
        ensures PageNo(q, k).Ok? && (PageNo(q, k).value.next == "" <==> k == count - 1)
      {
        PagesGoOn(q, count, k);
      }
    } else {
      StopsEarly(q, count);
    }
  }

  /** Page `k` of a feed that goes on holds exactly the rows from k * size up to (k + 1) * size. */
  lemma PageHolds<K(!new)>(q: Query<K>, k: nat)
    requires Lawful(q) && TokensGoOn(q) && k < PageCount(|WholeFeed(q)|, PageSize(q))
    ensures var s, from, to := WholeFeed(q), k * PageSize(q), k * PageSize(q) + PageSize(q);
            && from <= |s| && PageNo(q, k).Ok?
            && PageNo(q, k).value.rows == s[from..if to < |s| then to else |s|]
  {
    LawfulIsReadable(q);
    CountCovers(|WholeFeed(q)|, PageSize(q), k);
    FirstSlices(q, k + 1);
    assert SlicedAt(q, k);
    StartIsProduct(k, PageSize(q));
  }

  // ---------- Integer cursors ----------

  /** The text of an integer. */
  function ShowInt(n: int): string {
    if n < 0 then "-" + Digits(-n) else Digits(n)
  }

  function ParseInt(s: string): Option<int> {
    if s == "" || s == "-" then None
    else if s[0] == '-' then
      var n := ParseDigits(s[1..]);
      if n.None? then None else
        var negative := 0 - n.value;
        Some(negative)
    else
      var n := ParseDigits(s);
      if n.Some? then Some(n.value) else None
  }

  /** The tokens of integer cursors, negative ones too, are not empty and read back. */
  lemma IntTokensReadBack(n: int)
    ensures ShowInt(n) != "" && ParseInt(ShowInt(n)) == Some(n)
  {
    DigitsReadBack(if n < 0 then -n else n);
    assert n < 0 ==> ShowInt(n)[1..] == Digits(-n);
  }

  function IntQuery(rows: seq<Row<int>>, base: Filter<Row<int>>, pageSize: int, descending: bool): Query<int> {
    Query(CursorType((a, b) => a < b, ShowInt, ParseInt), rows, base, pageSize, descending, true)
  }

  /** So a feed over any rows with distinct integer cursors is complete. */
  lemma IntFeedIsComplete(rows: seq<Row<int>>, base: Filter<Row<int>>, pageSize: int, descending: bool, count: nat)
    requires DistinctCursors(Select(base, rows))
    requires var q := IntQuery(rows, base, pageSize, descending); count == PageCount(|WholeFeed(q)|, PageSize(q))
    ensures var q := IntQuery(rows, base, pageSize, descending);
            RowsOfPages(q, count) == WholeFeed(q) && Ascending(RowOrder(q), WholeFeed(q))
  {
    var q := IntQuery(rows, base, pageSize, descending);
    forall r | r in Select(q.base, q.collection)
      ensures q.cursor.parse(q.cursor.show(r.cursor)) == Some(r.cursor)
    {
      IntTokensReadBack(r.cursor);
    }
    forall k: nat
      ensures NamesNext(q, k)
    {
      var from := Start(k, PageSize(q));
      if 0 < k && from < |WholeFeed(q)| {
        IntTokensReadBack(WholeFeed(q)[from - 1].cursor);
      }
    }
    FeedIsComplete(q, count);
  }

  // ---------- Text cursors ----------

  /** Strings in the order of their characters. */
  predicate StringLess(a: string, b: string) {
    Lexicographic((x: char, y: char) => x < y, a, b)
  }

  lemma StringsAreOrdered()
    ensures StrictTotalOrder(StringLess)
  {
    DictionaryIsTotal((x: char, y: char) => x < y, StringLess);
  }

  /** A text cursor is its own token. */
  function TextQuery(rows: seq<Row<string>>, base: Filter<Row<string>>, pageSize: int, descending: bool)
    : Query<string>
  {
    Query(CursorType(StringLess, (s: string) => s, (s: string) => Some(s)), rows, base, pageSize, descending, true)
  }

  /** Pages of one row, ascending, where a row with the empty text comes before others. */
  predicate EmptyTextFirst(q: Query<string>) {
    !q.descending && q.pageSize == 1 && |WholeFeed(q)| > 1 && WholeFeed(q)[0].cursor == ""
  }

  /**
    A text cursor may be the empty string, whose token is the empty one. A feed over rows
    with distinct text cursors is complete unless it is ascending, in pages of one row,
    and starts with such a row that is not the only one.
  */
  lemma TextFeedIsCompleteIff(rows: seq<Row<string>>, base: Filter<Row<string>>, pageSize: int, descending: bool,
                              count: nat)
    requires DistinctCursors(Select(base, rows))
    requires var q := TextQuery(rows, base, pageSize, descending); count == PageCount(|WholeFeed(q)|, PageSize(q))
    ensures var q := TextQuery(rows, base, pageSize, descending);
            RowsOfPages(q, count) == WholeFeed(q) <==> !EmptyTextFirst(q)
  {
    var q := TextQuery(rows, base, pageSize, descending);
    StringsAreOrdered();
    FeedIsComplete(q, count);
    if EmptyTextFirst(q) {
      assert Start(1, 1) == 1 && !NamesNext(q, 1);
    } else {
      forall k: nat
        ensures NamesNext(q, k)
      {
        TextNamesNext(q, k);
      }
    }
  }

  /** The empty text is the least one, so only the first row of an ascending feed can end a page with it. */
  lemma TextNamesNext(q: Query<string>, k: nat)
    requires q.cursor.less == StringLess && q.cursor.show == ((s: string) => s)
    requires Ascending(RowOrder(q), WholeFeed(q)) && !EmptyTextFirst(q)
    ensures NamesNext(q, k)
  {
    var s, from := WholeFeed(q), Start(k, PageSize(q));
    if 0 < k && from < |s| {
      StartShift(k, PageSize(q));
      assert Before(q, s[from - 1].cursor, s[from].cursor);
      if from > 1 {
        assert Before(q, s[0].cursor, s[from - 1].cursor);
      }
    }
  }

  /** Such a feed: the second of two rows is never read. */
  lemma EmptyCursorEndsFeed() returns (q: Query<string>)
    ensures |WholeFeed(q)| == 2
    ensures RowsOfPages(q, 2) == WholeFeed(q)[..1]
  {
    var first, second := Row("", 1), Row("a", 2);
    q := TextQuery([first, second], Everything, 1, false);
    assert Select(Everything, [second]) == [second];
    assert Select(Everything, [first, second]) == [first, second];
    assert Sort(RowOrder(q), [second]) == [second];
    assert Sort(RowOrder(q), [first, second]) == [first, second];
    assert Find(q, Everything, 2) == [first, second];
    assert PageNo(q, 0) == Ok(Page([first], ""));
    assert PageNo(q, 1) == Ok(Page([], ""));
    assert RowsOfPages(q, 0) == [] && RowsOfPages(q, 1) == [first];
  }
}
