// Look-ahead paging (server/internal/pagination and the dashboard's paging helpers).
module Pagination {
  import opened Wrappers

  const DEFAULT_LIMIT := 25

  datatype Params = Params(limit: int, offset: int)

  function Normalize(params: Params, defaultLimit: int, maxLimit: int): (r: Params)
    ensures r.limit >= 1 && r.offset >= 0
    ensures maxLimit > 0 ==> r.limit <= maxLimit
    ensures 1 <= params.limit && (maxLimit > 0 ==> params.limit <= maxLimit) ==> r.limit == params.limit
    ensures params.offset >= 0 ==> r.offset == params.offset
    ensures params.offset < 0 ==> r.offset == 0
    ensures params.limit >= 1 && maxLimit > 0 && params.limit > maxLimit ==> r.limit == maxLimit
    ensures params.limit <= 0 ==>
      var asked := if defaultLimit >= 1 then defaultLimit else 25;
      r.limit == if 0 < maxLimit < asked then maxLimit else asked
  {
    var fallback := if defaultLimit <= 0 then DEFAULT_LIMIT else defaultLimit;
    var fallback := if maxLimit > 0 && fallback > maxLimit then maxLimit else fallback;
    var limit := if params.limit <= 0 then fallback else params.limit;
    var limit := if maxLimit > 0 && limit > maxLimit then maxLimit else limit;
    Params(limit, if params.offset < 0 then 0 else params.offset)
  }

  function Offset(page: int, limit: int): int {
    if page <= 1 || limit <= 0 then 0 else (page - 1) * limit
  }

  function Page(offset: int, limit: int): int {
    if limit <= 0 then 1 else (if offset < 0 then 0 else offset) / limit + 1
  }

  lemma PageOfOffset(page: int, limit: int)
    requires page >= 1 && limit >= 1
    ensures Page(Offset(page, limit), limit) == page
  {
    if page > 1 { Quotient(page - 1, limit); }
  }

  lemma Quotient(k: nat, d: nat)
    requires d >= 1
    ensures k * d >= 0 && k * d / d == k
  {
    var n := k * d;
    var q, r := n / d, n % d;
    assert n == q * d + r && 0 <= r < d;
    assert (k - q) * d == r;
    AwayFromZero(k - q, d);
  }

  lemma AwayFromZero(m: int, d: nat)
    ensures m >= 1 ==> m * d >= d
    ensures m <= -1 ==> m * d + d <= 0
  {
  }

  function Clip(i: int, n: nat): nat {
    if i < 0 then 0 else if i > n then n else i
  }

  // LIMIT limit OFFSET offset.
  function Slice<T>(rows: seq<T>, limit: nat, offset: nat): seq<T> {
    rows[Clip(offset, |rows|)..Clip(offset + limit, |rows|)]
  }

  lemma SliceIs<T>(rows: seq<T>, limit: nat, offset: nat)
    ensures Slice(rows, limit, offset) ==
            if offset >= |rows| then []
            else if offset + limit >= |rows| then rows[offset..] else rows[offset..offset + limit]
  {
  }

  // Parameters that name no page: the first one, and no cut.
  lemma OddParameters<T>(page: int, limit: int, offset: int, items: seq<T>)
    ensures page <= 1 || limit <= 0 ==> Offset(page, limit) == 0
    ensures offset <= 0 || limit <= 0 ==> Page(offset, limit) == 1
    ensures limit <= 0 || |items| <= limit ==> PaginateItems(items, limit) == (items, false)
  {
  }

  // A store's list query: the parameters are normalised against the store's own cap first.
  function StorePage<T>(rows: seq<T>, params: Params, cap: int): seq<T> {
    var p := Normalize(params, DEFAULT_LIMIT, cap);
    Slice(rows, p.limit, p.offset)
  }

  // The dashboard asks for one row more than it shows.
  function ListParams(page: int, limit: int): Params {
    Params(limit + 1, Offset(page, limit))
  }

  function PaginateItems<T>(items: seq<T>, limit: int): (seq<T>, bool) {
    if limit <= 0 then (items, false)
    else if |items| > limit then (items[..limit], true)
    else (items, false)
  }

  // One dashboard page over a store whose cap is `cap`.
  function View<T>(rows: seq<T>, limit: int, cap: int, page: int): (seq<T>, bool) {
    PaginateItems(StorePage(rows, ListParams(page, limit), cap), limit)
  }

  lemma PageMeans<T>(rows: seq<T>, limit: int, cap: int, lo: nat)
    requires 1 <= limit <= cap
    ensures var v := PaginateItems(StorePage(rows, Params(limit + 1, lo), cap), limit);
            v.0 == rows[Clip(lo, |rows|)..Clip(lo + limit, |rows|)] && (v.1 <==> limit < cap && |rows| > lo + limit)
  {
    var p := Normalize(Params(limit + 1, lo), DEFAULT_LIMIT, cap);
    assert p == Params(if limit < cap then limit + 1 else cap, lo);
  }

  lemma ViewMeans<T>(rows: seq<T>, limit: int, cap: int, page: int)
    requires 1 <= limit <= cap && page >= 1
    ensures var lo := (page - 1) * limit;
            lo >= 0 &&
            View(rows, limit, cap, page).0 == rows[Clip(lo, |rows|)..Clip(lo + limit, |rows|)] &&
            (View(rows, limit, cap, page).1 <==> limit < cap && |rows| > lo + limit)
  {
    var lo := (page - 1) * limit;
    assert ListParams(page, limit) == Params(limit + 1, lo);
    PageMeans(rows, limit, cap, lo);
  }

  // What a reader sees who follows "Next" from `page` until it is no longer offered.
  function Walk<T>(rows: seq<T>, limit: int, cap: int, page: int): seq<T>
    requires 1 <= limit <= cap && page >= 1
    decreases |rows| - (page - 1) * limit
  {
    var (items, hasNext) := View(rows, limit, cap, page);
    if hasNext then
      ViewMeans(rows, limit, cap, page);
      assert page * limit == (page - 1) * limit + limit;
      items + Walk(rows, limit, cap, page + 1)
    else items
  }

  lemma {:induction false} WalkBelowCap<T>(rows: seq<T>, limit: int, cap: int, page: int)
    requires 1 <= limit < cap && page >= 1
    ensures (page - 1) * limit >= 0
    ensures Walk(rows, limit, cap, page) == rows[Clip((page - 1) * limit, |rows|)..]
    decreases |rows| - (page - 1) * limit
  {
    ViewMeans(rows, limit, cap, page);
    assert page * limit == (page - 1) * limit + limit;
    if View(rows, limit, cap, page).1 {
      WalkBelowCap(rows, limit, cap, page + 1);
    }
  }

  // --- The request parameters (dashboard.go 2405-2447) --------------------------------------

  // A query parameter as a number; None when it is missing or is not one.
  function QueryNumber(raw: Option<int>, fallback: int): int {
    if raw.None? || raw.value <= 0 then fallback else raw.value
  }

  // The list stores use the same caps: 500 for logs and device info, 100 for all others.
  function PaginationLimitCap(limitKey: string): int {
    if limitKey == "logsLimit" || limitKey == "deviceInfoLimit" then 500 else 100
  }

  function ListPaginationParamsForKeys(rawPage: Option<int>, rawLimit: Option<int>, limitKey: string, fallback: int)
    : (int, Params)
  {
    var page := QueryNumber(rawPage, 1);
    var limit := Normalize(Params(QueryNumber(rawLimit, fallback), 0), fallback, PaginationLimitCap(limitKey)).limit;
    (page, ListParams(page, limit))
  }

  // Following Next lists every row exactly once, in order, unless the page size is the store
  // cap itself and there are more rows than one page holds.
  lemma WalkEnumerates<T>(rows: seq<T>, limit: int, cap: int)
    requires 1 <= limit <= cap
    ensures Walk(rows, limit, cap, 1) == rows <==> (limit < cap || |rows| <= cap)
  {
    if limit < cap {
      WalkBelowCap(rows, limit, cap, 1);
    } else {
      ViewMeans(rows, limit, cap, 1);
    }
  }

  // Browsing a list from its first page shows every row exactly once, in order, unless the
  // reader asks for pages of the cap or more and the list is longer than that.
  lemma BrowseEnumerates<T>(rows: seq<T>, rawLimit: Option<int>, limitKey: string)
    ensures var cap := PaginationLimitCap(limitKey);
            var limit := ListPaginationParamsForKeys(None, rawLimit, limitKey, DEFAULT_LIMIT).1.limit - 1;
            && 1 <= limit <= cap
            && (Walk(rows, limit, cap, 1) == rows <==> !(rawLimit.Some? && rawLimit.value >= cap && |rows| > cap))
  {
    WalkEnumerates(rows, ListPaginationParamsForKeys(None, rawLimit, limitKey, DEFAULT_LIMIT).1.limit - 1,
                   PaginationLimitCap(limitKey));
  }

  // The parameters of a link to any page of that list ask for that page.
  lemma LinkMeans(page: int, limit: int, limitKey: string)
    requires page >= 1 && 1 <= limit <= PaginationLimitCap(limitKey)
    ensures ListPaginationParamsForKeys(Some(page), Some(limit), limitKey, DEFAULT_LIMIT) ==
      (page, ListParams(page, limit))
  {
  }

  // A list opens on page 1 with 25 rows, unless the request says otherwise; its caps are those of
  // the stores.
  lemma ListOpens(limitKey: string)
    ensures ListPaginationParamsForKeys(None, None, limitKey, DEFAULT_LIMIT) == (1, Params(26, 0))
    ensures PaginationLimitCap(limitKey) == if limitKey in {"logsLimit", "deviceInfoLimit"} then 500 else 100
  {
  }

  // Consecutive pages of `limit` rows of which each shows only the first `shown`, end to end.
  function AllPages<T>(rows: seq<T>, shown: nat, limit: nat, offset: nat): seq<T>
    requires limit >= 1
    decreases |rows| - offset
  {
    if offset >= |rows| then [] else Slice(rows, shown, offset) + AllPages(rows, shown, limit, offset + limit)
  }

  // Asking a store for page after page up to `size` rows; each call may change its state.
  function Browse<S, T>(page: (S, nat) -> (S, seq<T>), size: nat, s: S, limit: nat, offset: nat): seq<T>
    requires limit >= 1
    decreases size - offset
  {
    if offset >= size then []
    else page(s, offset).1 + Browse(page, size, page(s, offset).0, limit, offset + limit)
  }

  // In every state it calls the same, the store serves this slice.
  ghost predicate ServesAt<S, T>(page: (S, nat) -> (S, seq<T>), same: S -> bool, rows: seq<T>, shown: nat, s: S,
                                 offset: nat) {
    same(s) && offset < |rows| ==> same(page(s, offset).0) && page(s, offset).1 == Slice(rows, shown, offset)
  }

  ghost predicate Serves<S(!new), T>(page: (S, nat) -> (S, seq<T>), same: S -> bool, rows: seq<T>, shown: nat) {
    forall s, offset: nat :: ServesAt(page, same, rows, shown, s, offset)
  }

  lemma {:induction false} BrowseGives<S(!new), T>(page: (S, nat) -> (S, seq<T>), same: S -> bool, rows: seq<T>,
                                                   shown: nat, s: S, limit: nat, offset: nat)
    requires limit >= 1 && same(s) && Serves(page, same, rows, shown)
    ensures Browse(page, |rows|, s, limit, offset) == AllPages(rows, shown, limit, offset)
    decreases |rows| - offset
  {
    if offset < |rows| {
      assert ServesAt(page, same, rows, shown, s, offset);
      BrowseGives(page, same, rows, shown, page(s, offset).0, limit, offset + limit);
    }
  }

  lemma {:induction false} FullPages<T>(rows: seq<T>, limit: nat, offset: nat)
    requires limit >= 1
    ensures AllPages(rows, limit, limit, offset) == rows[Clip(offset, |rows|)..]
    decreases |rows| - offset
  {
    if offset < |rows| {
      FullPages(rows, limit, offset + limit);
    }
  }

  lemma {:induction false} PagesFit<T>(rows: seq<T>, shown: nat, limit: nat, offset: nat)
    requires limit >= 1 && shown <= limit
    ensures |AllPages(rows, shown, limit, offset)| <= |rows| - Clip(offset, |rows|)
    decreases |rows| - offset
  {
    if offset < |rows| {
      PagesFit(rows, shown, limit, offset + limit);
    }
  }

  // The pages give all rows exactly when they show all their rows or the first shows everything.
  lemma AllPagesIff<T>(rows: seq<T>, shown: nat, limit: nat)
    requires 1 <= shown <= limit
    ensures AllPages(rows, shown, limit, 0) == rows <==> shown == limit || |rows| <= shown
  {
    if shown == limit {
      FullPages(rows, limit, 0);
    } else if rows != [] {
      PagesFit(rows, shown, limit, limit);
      if |rows| <= shown { assert Slice(rows, shown, 0) == rows; }
    }
  }
}
