/** Downloading the orders of every region page by page (orders.c) while the page count the server
    reports (esi.c) may change under way. `server(i, page)` answers for page `page` of region `i`. */
module OrderUniverse {
  import opened Orders

  /** The X-Pages header. */
  datatype Header = Missing | NotANumber | Number(n: int)

  /** An answer to one page request; `orders` are those parsed before the first bad one. */
  datatype Answer = NoAnswer | Page(orders: seq<Order>, parses: bool, pages: Header)

  type Server = (nat, nat) -> Answer

  const MAX_PAGES: nat := 10000

  /** What esi_perform_request stores as the page count; 0 stands for none. */
  function PageCount(h: Header): (n: nat)
    ensures n <= MAX_PAGES
    ensures n > 0 ==> h == Number(n)
    ensures h.Number? && 0 <= h.n <= MAX_PAGES ==> n == h.n
  {
    if h.Number? && 0 <= h.n <= MAX_PAGES then h.n else 0
  }

  /** The page count that comes with a page, and the orders it leaves in the vector. */
  function Pages(server: Server, i: nat, page: nat): nat {
    if server(i, page).Page? then PageCount(server(i, page).pages) else 0
  }

  function PageOrders(server: Server, i: nat, page: nat): seq<Order> {
    if server(i, page).Page? then server(i, page).orders else []
  }

  predicate Good(server: Server, i: nat, page: nat) {
    server(i, page).Page? && server(i, page).parses && Pages(server, i, page) > 0
  }

  /** A page that parses, with a usable page count. */
  predicate Counts(a: Answer, n: int) { a.Page? && a.parses && a.pages == Number(n) && 1 <= n <= 10000 }

  lemma {:induction false} GoodExactly(server: Server, i: nat, page: nat)
    ensures Good(server, i, page) <==> Counts(server(i, page), Pages(server, i, page))
    ensures forall n :: Counts(server(i, page), n) ==> Good(server, i, page) && n == Pages(server, i, page)
    ensures GoesOn(server, i, page) <==> exists n :: n > page && Counts(server(i, page), n)
  {
    assert Good(server, i, page) ==> Counts(server(i, page), Pages(server, i, page));
  }

  /** The page is there and promises more pages. */
  predicate GoesOn(server: Server, i: nat, page: nat) {
    Good(server, i, page) && Pages(server, i, page) > page
  }

  /** Page `k` is the first whose own count does not go beyond it. */
  ghost predicate IsLast(server: Server, i: nat, k: nat) {
    && k >= 1 && Good(server, i, k) && !GoesOn(server, i, k)
    && forall page: nat :: 1 <= page < k ==> GoesOn(server, i, page)
  }

  /** Page `k` is the first that cannot be had. */
  ghost predicate FailsAt(server: Server, i: nat, k: nat) {
    && k >= 1 && !Good(server, i, k)
    && forall page: nat :: 1 <= page < k ==> GoesOn(server, i, page)
  }

  /** The orders on pages 1 to `k`. */
  function RegionOrders(server: Server, i: nat, k: nat): seq<Order> {
    if k == 0 then []
    else RegionOrders(server, i, k - 1) + PageOrders(server, i, k)
  }

  function UniverseOrders(server: Server, pages: seq<nat>): seq<Order> {
    if pages == [] then []
    else
      var i := |pages| - 1;
      UniverseOrders(server, pages[..i]) + RegionOrders(server, i, pages[i])
  }

  /** How many orders come before page `k` of a region, and before region `i`. */
  function RegionBefore(server: Server, i: nat, k: nat): nat {
    if k <= 1 then 0 else RegionBefore(server, i, k - 1) + |PageOrders(server, i, k - 1)|
  }

  function UniverseBefore(server: Server, pages: seq<nat>, i: nat): nat
    requires i <= |pages|
  {
    if i == 0 then 0 else UniverseBefore(server, pages, i - 1) + RegionBefore(server, i - 1, pages[i - 1] + 1)
  }

  lemma {:induction false} RegionPlaces(server: Server, i: nat, k: nat, page: nat, j: nat)
    requires 1 <= page <= k && server(i, page).Page? && j < |server(i, page).orders|
    ensures |RegionOrders(server, i, k)| == RegionBefore(server, i, k + 1)
    ensures RegionBefore(server, i, page) + j < |RegionOrders(server, i, k)|
    ensures RegionOrders(server, i, k)[RegionBefore(server, i, page) + j] == server(i, page).orders[j]
    decreases k
  {
    RegionLength(server, i, k);
    RegionLength(server, i, k - 1);
    if page < k {
      RegionPlaces(server, i, k - 1, page, j);
    }
  }

  lemma {:induction false} RegionLength(server: Server, i: nat, k: nat)
    ensures |RegionOrders(server, i, k)| == RegionBefore(server, i, k + 1)
  {
    if k > 0 {
      RegionLength(server, i, k - 1);
    }
  }

  lemma {:induction false} UniverseLength(server: Server, pages: seq<nat>, n: nat)
    requires n <= |pages|
    ensures |UniverseOrders(server, pages[..n])| == UniverseBefore(server, pages, n)
  {
    hide RegionOrders, RegionBefore;
    if n > 0 {
      UniverseLength(server, pages, n - 1);
      RegionLength(server, n - 1, pages[n - 1]);
      assert pages[..n][..n - 1] == pages[..n - 1];
    }
  }

  /** Every order of every page has its place, region by region and page by page, and with UniverseLength
      there are no others. */
  lemma {:induction false} EachHasItsPlace(server: Server, pages: seq<nat>, n: nat, i: nat, page: nat, j: nat)
    requires i < n <= |pages| && 1 <= page <= pages[i] && server(i, page).Page? && j < |server(i, page).orders|
    ensures var at := UniverseBefore(server, pages, i) + RegionBefore(server, i, page) + j;
            at < |UniverseOrders(server, pages[..n])|
            && UniverseOrders(server, pages[..n])[at] == server(i, page).orders[j]
    decreases n
  {
    hide RegionOrders, RegionBefore;
    assert pages[..n][..n - 1] == pages[..n - 1];
    UniverseLength(server, pages, n - 1);
    RegionPlaces(server, i, pages[i], page, j);
    if i < n - 1 {
      EachHasItsPlace(server, pages, n - 1, i, page, j);
    }
  }

  class OrderVec {
    var orders: seq<Order>
  }

  /** order_download_page, with a place for the page count. Orders are pushed before the checks. */
  method DownloadPage(vec: OrderVec, server: Server, i: nat, page: nat) returns (ok: bool, pageCount: nat)
    modifies vec
    ensures ok <==> Good(server, i, page)
    ensures ok ==> pageCount == Pages(server, i, page)
    ensures pageCount <= MAX_PAGES
    ensures vec.orders == old(vec.orders) + PageOrders(server, i, page)
    ensures server(i, page).NoAnswer? ==> !ok && vec.orders == old(vec.orders)
    ensures server(i, page).Page? ==> vec.orders == old(vec.orders) + server(i, page).orders
    ensures ok ==> Counts(server(i, page), pageCount)
    ensures !ok ==> !exists n :: Counts(server(i, page), n)
  {
    ok, pageCount := false, 0;
    match server(i, page)
    case NoAnswer =>
    case Page(orders, parses, pages) =>
      vec.orders := vec.orders + orders;
      if !parses {
        return;
      }
      if PageCount(pages) == 0 {
        return;
      }
      ok, pageCount := true, PageCount(pages);
  }

  /** Each of the pages 1 to `k` promises more. */
  ghost predicate Continues(server: Server, i: nat, k: nat) {
    forall page: nat :: 1 <= page <= k ==> GoesOn(server, i, page)
  }

  /** An answer to page `page`, all earlier ones promising more, ends the region or not. */
  lemma {:induction false} PageDecides(server: Server, i: nat, page: nat)
    requires page >= 1 && Continues(server, i, page - 1)
    ensures FailsAt(server, i, page) <==> !Good(server, i, page)
    ensures IsLast(server, i, page) <==> Good(server, i, page) && Pages(server, i, page) <= page
    ensures Continues(server, i, page) <==> Good(server, i, page) && page < Pages(server, i, page)
  {
    hide Pages, Good;
    assert Continues(server, i, page) <==> GoesOn(server, i, page);
  }

  lemma {:induction false} OnePageMore(server: Server, i: nat, page: nat)
    ensures RegionOrders(server, i, 0) == []
    ensures page > 0 ==> RegionOrders(server, i, page) == RegionOrders(server, i, page - 1) + PageOrders(server, i, page)
  {
  }

  /** The pages of one region; `fetched` is the last page asked for. */
  method DownloadRegion(vec: OrderVec, server: Server, i: nat) returns (ok: bool, fetched: nat)
    modifies vec
    ensures 1 <= fetched <= MAX_PAGES
    ensures if ok then IsLast(server, i, fetched) else FailsAt(server, i, fetched)
    ensures ok ==> vec.orders == old(vec.orders) + RegionOrders(server, i, fetched)
  {
    hide Pages, PageOrders, Good, GoesOn, Continues, IsLast, FailsAt, RegionOrders;
    var regionPageCount;
    NothingBefore(server, i);
    PageDecides(server, i, 1);
    ok, regionPageCount := DownloadPage(vec, server, i, 1);
    if !ok {
      return false, 1;
    }
    OnePageMore(server, i, 1);
    var page := 2;
    while page <= regionPageCount
      invariant 2 <= page <= MAX_PAGES + 1 && regionPageCount <= MAX_PAGES
      invariant Continues(server, i, page - 2) && Good(server, i, page - 1)
      invariant regionPageCount == Pages(server, i, page - 1)
      invariant vec.orders == old(vec.orders) + RegionOrders(server, i, page - 1)
      decreases MAX_PAGES - page
    {
      PageDecides(server, i, page - 1);
      PageDecides(server, i, page);
      var pageCount;
      ok, pageCount := DownloadPage(vec, server, i, page);
      if !ok {
        return false, page;
      }
      OnePageMore(server, i, page);
      if pageCount != regionPageCount {
        regionPageCount := pageCount;
      }
      page := page + 1;
    }
    PageDecides(server, i, page - 1);
    ok, fetched := true, page - 1;
  }

  lemma {:induction false} NothingBefore(server: Server, i: nat)
    ensures Continues(server, i, 0)
  {
  }

  /** order_download_universe; `fetched[i]` is how many pages of region `i` were asked for. */
  method DownloadUniverse(vec: OrderVec, server: Server, regions: nat) returns (ok: bool, fetched: seq<nat>)
    modifies vec
    ensures |fetched| <= regions && forall i :: 0 <= i < |fetched| ==> 1 <= fetched[i] <= MAX_PAGES
    ensures ok ==> |fetched| == regions && vec.orders == old(vec.orders) + UniverseOrders(server, fetched)
    ensures ok ==> forall i :: 0 <= i < regions ==> IsLast(server, i, fetched[i])
    ensures !ok ==> vec.orders == [] && |fetched| > 0 && FailsAt(server, |fetched| - 1, fetched[|fetched| - 1])
    ensures !ok ==> forall i :: 0 <= i < |fetched| - 1 ==> IsLast(server, i, fetched[i])
  {
    hide IsLast, FailsAt, RegionOrders;
    fetched := [];
    for i := 0 to regions
      invariant |fetched| == i && forall r :: 0 <= r < i ==> 1 <= fetched[r] <= MAX_PAGES && IsLast(server, r, fetched[r])
      invariant vec.orders == old(vec.orders) + UniverseOrders(server, fetched)
    {
      var pages;
      ok, pages := DownloadRegion(vec, server, i);
      ghost var before := fetched;
      fetched := fetched + [pages];
      assert fetched[..i] == before;
      if !ok {
        vec.orders := [];
        return;
      }
    }
    ok := true;
  }

  /** Every region comes to an end within 10000 pages. */
  lemma {:induction false} RegionEnds(server: Server, i: nat)
    ensures exists k: nat :: k <= MAX_PAGES && (IsLast(server, i, k) || FailsAt(server, i, k))
  {
    var k := 1;
    while GoesOn(server, i, k)
      invariant 1 <= k <= MAX_PAGES
      invariant forall page: nat :: 1 <= page < k ==> GoesOn(server, i, page)
      decreases MAX_PAGES - k
    {
      k := k + 1;
    }
    assert IsLast(server, i, k) || FailsAt(server, i, k);
  }

  /** ... and in one way only. */
  lemma {:induction false} EndsOnce(server: Server, i: nat, a: nat, b: nat)
    requires IsLast(server, i, a) || FailsAt(server, i, a)
    requires IsLast(server, i, b) || FailsAt(server, i, b)
    ensures a == b && IsLast(server, i, a) != FailsAt(server, i, a)
  {
    assert !GoesOn(server, i, a) && !GoesOn(server, i, b);
  }

  /** So whether a download succeeds, and with which pages, is settled by the server alone: no
      successful and failing endings exist together, and two successful ones are the same. */
  lemma {:induction false} SuccessIsDetermined(server: Server, a: seq<nat>, b: seq<nat>)
    requires |b| <= |a| && forall i :: 0 <= i < |a| ==> IsLast(server, i, a[i])
    requires forall i :: 0 <= i < |b| ==> IsLast(server, i, b[i]) || FailsAt(server, i, b[i])
    ensures b == a[..|b|] && forall i :: 0 <= i < |b| ==> !FailsAt(server, i, b[i])
  {
    hide IsLast, FailsAt;
    forall i | 0 <= i < |b|
      ensures a[i] == b[i] && !FailsAt(server, i, b[i])
    {
      EndsOnce(server, i, a[i], b[i]);
    }
  }

  /** The bound is reached: a server that always promises one page more is asked for all 10000. */
  lemma {:induction false} BoundIsTight(server: Server, i: nat)
    requires forall page: nat :: 1 <= page <= MAX_PAGES ==>
               server(i, page) == Page([], true, Number(if page < MAX_PAGES then page + 1 else page))
    ensures IsLast(server, i, MAX_PAGES)
  {
    forall page: nat | 1 <= page < MAX_PAGES
      ensures GoesOn(server, i, page)
    {
    }
  }
}
