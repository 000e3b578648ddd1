/** The paging loops that rebuild a whole server list from pages of at most 100 rows. */
module Paging {
  import opened Text

  const PAGE_SIZE: nat := 100
  const MAX_PAGES: nat := 100

  datatype Pagination = Pagination(totalPages: Option<int>)

  datatype Page<T> = Page(rows: seq<T>, pagination: Option<Pagination>)

  /** What a read returns and caches. */
  datatype Listing<T> = Listing(rows: seq<T>, pagination: Option<Pagination>, fetched: nat)

  /** A server as one fetch sees it: page numbers to answers, None where the request raises. */
  type Server<T> = nat -> Option<Page<T>>

  /** `_is_last_page`. */
  predicate IsLastPage(pagination: Option<Pagination>, page: nat, batch: nat) {
    if batch == 0 then true
    else match pagination
      case None => true
      case Some(Pagination(Some(total))) => page >= total
      case Some(Pagination(None)) => batch < PAGE_SIZE
  }

  predicate Ends<T>(server: Server<T>, page: nat) {
    match server(page)
    case None => true
    case Some(p) => IsLastPage(p.pagination, page, |p.rows|)
  }

  /** The page the loop stops at: the first that ends it, or the hundredth. */
  predicate StopsAt<T>(server: Server<T>, page: nat) {
    && 1 <= page <= MAX_PAGES
    && (forall q :: 1 <= q < page ==> !Ends(server, q))
    && (page < MAX_PAGES ==> Ends(server, page))
  }

  /** Rows of the first `count` pages, in order. */
  function Gathered<T>(server: Server<T>, count: nat): seq<T> {
    if count == 0 then []
    else Gathered(server, count - 1) + (match server(count) case None => [] case Some(p) => p.rows)
  }

  lemma StopUnique<T>(server: Server<T>, a: nat, b: nat)
    requires StopsAt(server, a) && StopsAt(server, b)
    ensures a == b
  {
    assert a < b ==> !Ends(server, a);
    assert b < a ==> !Ends(server, b);
  }

  /** The loop of `_fetch_measures`, `_fetch_dimensions` and `_fetch_facts`. */
  method FetchAll<T>(server: Server<T>) returns (listing: Option<Listing<T>>, requests: nat)
    ensures StopsAt(server, requests)
    ensures listing.None? <==> server(requests).None?
    ensures listing.Some? ==>
              && listing.value.rows == Gathered(server, requests)
              && listing.value.pagination == server(requests).value.pagination
              && listing.value.fetched == |listing.value.rows|
  {
    var rows: seq<T>, pagination: Option<Pagination> := [], None;
    requests := 0;
    for page := 1 to MAX_PAGES + 1
      invariant requests == page - 1
      invariant rows == Gathered(server, requests)
      invariant forall q :: 1 <= q <= requests ==> !Ends(server, q)
      invariant requests > 0 ==> server(requests).Some? && pagination == server(requests).value.pagination
    {
      requests := page;
      var answer := server(page);
      if answer.None? { return None, requests; }
      rows := rows + answer.value.rows;
      pagination := answer.value.pagination;
      if IsLastPage(pagination, page, |answer.value.rows|) { break; }
    }
    listing := Some(Listing(rows, pagination, |rows|));
  }

  // ---------------------------------------------------------------------
  // A server that slices one fixed list
  // ---------------------------------------------------------------------

  function Min(a: nat, b: nat): nat { if a < b then a else b }

  function PagesOf(n: nat): nat { (n + 99) / 100 }

  function Slice<T>(all: seq<T>, page: nat): seq<T>
    requires page >= 1
  {
    all[Min(|all|, (page - 1) * PAGE_SIZE)..Min(|all|, page * PAGE_SIZE)]
  }

  /** What the server says about the pages is arbitrary; the rows are those of one list. */
  ghost predicate Serves<T>(server: Server<T>, all: seq<T>) {
    forall page: nat :: page >= 1 ==> server(page).Some? && server(page).value.rows == Slice(all, page)
  }

  lemma {:induction false} GatheredPrefix<T>(server: Server<T>, all: seq<T>, count: nat)
    requires Serves(server, all)
    ensures Gathered(server, count) == all[..Min(|all|, count * PAGE_SIZE)]
  {
    if count > 0 { GatheredPrefix(server, all, count - 1); }
  }

  /** The answer to a page that is not the list's last does not claim to be. */
  predicate Continues<T>(server: Server<T>, page: nat) {
    && server(page).Some? && server(page).value.pagination.Some?
    && match server(page).value.pagination.value.totalPages
       case None => true
       case Some(total) => page < total
  }

  /** Pages before the list's last are full, the last is not empty, later ones are. */
  lemma BatchSizes<T>(all: seq<T>, page: nat)
    requires page >= 1
    ensures page < PagesOf(|all|) ==> |Slice(all, page)| == PAGE_SIZE
    ensures page == PagesOf(|all|) ==> |Slice(all, page)| == |all| - (page - 1) * PAGE_SIZE > 0
    ensures page > PagesOf(|all|) ==> |Slice(all, page)| == 0
  {}

  lemma FullPage<T>(server: Server<T>, all: seq<T>, page: nat)
    requires Serves(server, all) && 1 <= page < PagesOf(|all|)
    ensures Ends(server, page) <==> !Continues(server, page)
  {
    BatchSizes(all, page);
    assert server(page).value.rows == Slice(all, page);
  }

  lemma PastTheEnd<T>(server: Server<T>, all: seq<T>, page: nat)
    requires Serves(server, all) && page > PagesOf(|all|)
    ensures Ends(server, page)
  {
    BatchSizes(all, page);
    assert server(page).value.rows == Slice(all, page);
  }

  lemma SamePrefix<T>(all: seq<T>, a: nat, b: nat)
    requires a <= |all| && b <= |all|
    ensures all[..a] == all[..b] <==> a == b
  {
    assert |all[..a]| == a && |all[..b]| == b;
  }

  lemma Reached(n: nat, requests: nat)
    requires requests <= 100
    ensures Min(n, requests * PAGE_SIZE) == Min(n, 10000) <==> requests >= Min(PagesOf(n), 100)
  {}

  /**
    * Every fetch returns a prefix of the list, in order and without repeats, and
    * it is the whole list, or its first 10000 rows, exactly when no answer before
    * the last needed page claims to be the end.
    */
  lemma FetchedPrefix<T>(server: Server<T>, all: seq<T>, requests: nat)
    requires Serves(server, all) && StopsAt(server, requests)
    ensures Gathered(server, requests) == all[..Min(|all|, requests * PAGE_SIZE)]
    ensures Gathered(server, requests) == all[..Min(|all|, 10000)] <==>
              forall p :: 1 <= p < Min(PagesOf(|all|), 100) ==> Continues(server, p)
  {
    GatheredPrefix(server, all, requests);
    var needed := Min(PagesOf(|all|), 100);
    forall p: nat | 1 <= p < needed ensures Ends(server, p) <==> !Continues(server, p) {
      FullPage(server, all, p);
    }
    if requests < needed {
      assert !Continues(server, requests);
    }
    Reached(|all|, requests);
    SamePrefix(all, Min(|all|, requests * PAGE_SIZE), Min(|all|, 10000));
  }

  /** The answer to the list's last page says so: by its count, or by being short where it gives none. */
  predicate ClosesList<T>(server: Server<T>, all: seq<T>)
    requires server(PagesOf(|all|)).Some?
  {
    match server(PagesOf(|all|)).value.pagination
    case None => true
    case Some(Pagination(Some(total))) => total <= PagesOf(|all|)
    case Some(Pagination(None)) => |all| % 100 != 0
  }

  lemma LastPage<T>(server: Server<T>, all: seq<T>)
    requires Serves(server, all) && all != []
    ensures PagesOf(|all|) >= 1 && server(PagesOf(|all|)).Some?
    ensures Ends(server, PagesOf(|all|)) <==> ClosesList(server, all)
  {
    BatchSizes(all, PagesOf(|all|));
    assert server(PagesOf(|all|)).value.rows == Slice(all, PagesOf(|all|));
  }

  /** A server that slices the list is asked at most one page past its end, and never more than 100. Where no answer
      claims the end too early, it is asked past the end exactly when the last page does not say that it is. */
  lemma RequestsBounded<T>(server: Server<T>, all: seq<T>, requests: nat)
    requires Serves(server, all) && StopsAt(server, requests)
    ensures requests <= Min(PagesOf(|all|) + 1, 100)
    ensures all == [] ==> requests == 1
    ensures all != [] && (forall p :: 1 <= p < PagesOf(|all|) ==> Continues(server, p)) ==>
              server(PagesOf(|all|)).Some?
              && requests == Min(PagesOf(|all|) + if ClosesList(server, all) then 0 else 1, 100)
  {
    var last := PagesOf(|all|);
    PastTheEnd(server, all, last + 1);
    assert requests <= last + 1;
    if all != [] {
      LastPage(server, all);
      if forall p :: 1 <= p < last ==> Continues(server, p) {
        forall p: nat | 1 <= p < last ensures !Ends(server, p) { FullPage(server, all, p); }
        StopUnique(server, Min(last + if ClosesList(server, all) then 0 else 1, 100), requests);
      }
    }
  }

  /** Nothing is lost from a list of up to 10000 rows, and something always is from a longer one. */
  lemma WholeListExactlyWhen<T>(server: Server<T>, all: seq<T>, requests: nat)
    requires Serves(server, all) && StopsAt(server, requests)
    ensures Gathered(server, requests) == all <==>
              && |all| <= 10000
              && forall p :: 1 <= p < PagesOf(|all|) ==> Continues(server, p)
  {
    FetchedPrefix(server, all, requests);
    if |all| <= 10000 {
      assert all[..|all|] == all;
    } else {
      assert |Gathered(server, requests)| <= 10000;
    }
  }

  ghost predicate CountsPages<T>(server: Server<T>, all: seq<T>) {
    forall page: nat :: page >= 1 ==>
      server(page).Some? && server(page).value.pagination == Some(Pagination(Some(PagesOf(|all|))))
  }

  ghost predicate CountsNothing<T>(server: Server<T>) {
    forall page: nat :: page >= 1 ==>
      server(page).Some? && server(page).value.pagination == Some(Pagination(None))
  }

  lemma CountedEnd<T>(server: Server<T>, all: seq<T>, page: nat)
    requires Serves(server, all) && CountsPages(server, all) && page >= 1
    ensures Ends(server, page) <==> page >= PagesOf(|all|)
    ensures Continues(server, page) <==> page < PagesOf(|all|)
  {
    BatchSizes(all, page);
    assert server(page).value.rows == Slice(all, page);
    assert server(page).value.pagination == Some(Pagination(Some(PagesOf(|all|))));
  }

  /** With an exact page count no request is wasted. */
  lemma CountedPages<T>(server: Server<T>, all: seq<T>, requests: nat)
    requires Serves(server, all) && CountsPages(server, all) && StopsAt(server, requests)
    ensures Gathered(server, requests) == all[..Min(|all|, 10000)]
    ensures requests == Min(if all == [] then 1 else PagesOf(|all|), 100)
  {
    forall p: nat | p >= 1
      ensures (Ends(server, p) <==> p >= PagesOf(|all|)) && (Continues(server, p) <==> p < PagesOf(|all|))
    {
      CountedEnd(server, all, p);
    }
    FetchedPrefix(server, all, requests);
    assert PagesOf(|all|) == 0 <==> all == [];
    StopUnique(server, Min(if all == [] then 1 else PagesOf(|all|), 100), requests);
  }

  lemma ShortEnd<T>(server: Server<T>, all: seq<T>, page: nat)
    requires Serves(server, all) && CountsNothing(server) && page >= 1
    ensures Ends(server, page) <==> page >= |all| / 100 + 1
    ensures Continues(server, page)
  {
    assert server(page).value.rows == Slice(all, page);
    assert server(page).value.pagination == Some(Pagination(None));
    assert |Slice(all, page)| < PAGE_SIZE <==> page * PAGE_SIZE > |all|;
  }

  /** Without one the short page ends the loop: the same rows, one request more for full last pages. */
  lemma ShortPageRule<T>(server: Server<T>, all: seq<T>, requests: nat)
    requires Serves(server, all) && CountsNothing(server) && StopsAt(server, requests)
    ensures Gathered(server, requests) == all[..Min(|all|, 10000)]
    ensures requests == Min(|all| / 100 + 1, 100)
  {
    forall p: nat | p >= 1
      ensures (Ends(server, p) <==> p >= |all| / 100 + 1) && Continues(server, p)
    {
      ShortEnd(server, all, p);
    }
    FetchedPrefix(server, all, requests);
    StopUnique(server, Min(|all| / 100 + 1, 100), requests);
  }

  /** An answer without paging information ends the listing at once, whatever is left. */
  lemma NoPagingInformation<T>(server: Server<T>, all: seq<T>, requests: nat)
    requires Serves(server, all) && StopsAt(server, requests)
    requires server(1).value.pagination == None
    ensures requests == 1
    ensures Gathered(server, requests) == all <==> |all| <= 100
  {
    assert requests > 1 ==> !Ends(server, 1);
    GatheredPrefix(server, all, 1);
    if |all| <= 100 { assert all[..|all|] == all; }
  }

  // ---------------------------------------------------------------------
  // A list that changes during the fetch
  // ---------------------------------------------------------------------

  function Deleted<T>(all: seq<T>, d: nat): seq<T>
    requires d < |all|
  {
    all[..d] + all[d + 1..]
  }

  /** Row d is deleted after page c was read. */
  ghost predicate LosesRow<T>(server: Server<T>, all: seq<T>, d: nat, c: nat)
    requires d < |all|
  {
    forall page: nat :: page >= 1 ==>
      server(page).Some? && server(page).value.rows == Slice(if page <= c then all else Deleted(all, d), page)
  }

  ghost predicate Distinct<T>(s: seq<T>) {
    forall i, j :: 0 <= i < j < |s| ==> s[i] != s[j]
  }

  lemma {:induction false} GatheredBefore<T>(server: Server<T>, all: seq<T>, d: nat, c: nat, count: nat)
    requires d < |all| && LosesRow(server, all, d, c) && count <= c
    ensures Gathered(server, count) == all[..Min(|all|, count * PAGE_SIZE)]
  {
    if count > 0 {
      GatheredBefore(server, all, d, c, count - 1);
      assert server(count).value.rows == Slice(all, count);
      AdjacentSlices(all, 0, count);
    }
  }

  lemma AdjacentSlices<T>(all: seq<T>, from: nat, count: nat)
    requires from < count
    ensures all[Min(|all|, from * PAGE_SIZE)..Min(|all|, (count - 1) * PAGE_SIZE)] + Slice(all, count) ==
            all[Min(|all|, from * PAGE_SIZE)..Min(|all|, count * PAGE_SIZE)]
  {}

  lemma {:induction false} GatheredAcross<T>(server: Server<T>, all: seq<T>, d: nat, c: nat, count: nat)
    requires d < |all| && LosesRow(server, all, d, c) && count >= c
    ensures var left := Deleted(all, d);
      Gathered(server, count) ==
      all[..Min(|all|, c * PAGE_SIZE)] + left[Min(|left|, c * PAGE_SIZE)..Min(|left|, count * PAGE_SIZE)]
  {
    var left := Deleted(all, d);
    if count == c {
      GatheredBefore(server, all, d, c, c);
    } else {
      GatheredAcross(server, all, d, c, count - 1);
      assert server(count).value.rows == Slice(left, count);
      AdjacentSlices(left, c, count);
    }
  }

  /** Once all pages of the list were asked for, a row still on the server is missing from the listing if and only if
      the deleted row was on a page read before, and a further page had to be read. */
  lemma SkippedRowExactlyWhen<T>(server: Server<T>, all: seq<T>, d: nat, c: nat, count: nat)
    requires d < |all| && Distinct(all) && LosesRow(server, all, d, c) && count * 100 >= |all|
    ensures (exists row :: row in Deleted(all, d) && row !in Gathered(server, count)) <==>
            d < c * 100 < |all|
  {
    var left, cut := Deleted(all, d), c * PAGE_SIZE;
    if count <= c {
      GatheredBefore(server, all, d, c, count);
      assert all[..|all|] == all;
      assert forall row <- left :: row in all;
    } else {
      GatheredAcross(server, all, d, c, count);
      if cut >= |all| {
        assert all[..|all|] == all;
        assert forall row <- left :: row in all;
      } else if d < cut {
        FirstOfNextPage(all, d, cut);
      } else {
        NothingSkipped(all, d, cut);
      }
    }
  }

  lemma FirstOfNextPage<T>(all: seq<T>, d: nat, cut: nat)
    requires d < cut < |all| && Distinct(all)
    ensures all[cut] in Deleted(all, d) && all[cut] !in all[..cut] + Deleted(all, d)[cut..]
  {
    var left := Deleted(all, d);
    assert left[cut - 1] == all[cut];
    assert forall i :: cut <= i < |left| ==> left[i] == all[i + 1];
  }

  lemma NothingSkipped<T>(all: seq<T>, d: nat, cut: nat)
    requires cut <= d < |all|
    ensures forall row <- Deleted(all, d) :: row in all[..cut] + Deleted(all, d)[cut..]
  {
    assert Deleted(all, d)[..cut] == all[..cut];
    assert Deleted(all, d) == Deleted(all, d)[..cut] + Deleted(all, d)[cut..];
  }
}
