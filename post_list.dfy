// The back-office post list: paging arithmetic over the total the API
// reports, the URL-parameter updates, the row selection, the status badge and
// the query sent to GET /api/posts.
module PostList {
  import opened Wrappers
  import opened Strings
  import opened SearchParams

  const PerPage: nat := 10

  // ---------------------------------------------------------------------
  // Paging
  // ---------------------------------------------------------------------

  /** max(1, ceil(total / 10)). */
  function TotalPages(total: nat): (r: nat)
    ensures r >= 1
    ensures total == 0 ==> r == 1
    ensures total > 0 ==> (r - 1) * PerPage < total <= r * PerPage
  {
    if total == 0 then 1 else (total + PerPage - 1) / PerPage
  }

  /** The 0-based page shown: the URL's page (at least 1) minus one, clamped to
      the last page once the total is known to be positive. `pageParam` is what
      parseInt made of the URL's page parameter ('1' when absent). */
  function CurrentPage(total: nat, pageParam: int): (r: nat)
    ensures total == 0 ==> r == (if pageParam < 1 then 0 else pageParam - 1)
    ensures total > 0 ==> r < TotalPages(total) && r * PerPage < total
    ensures total > 0 && pageParam <= TotalPages(total) ==> r == (if pageParam < 1 then 0 else pageParam - 1)
    ensures total > 0 && pageParam > TotalPages(total) ==> r == TotalPages(total) - 1
  {
    var fromUrl := (if pageParam < 1 then 1 else pageParam) - 1;
    if total == 0 then fromUrl
    else if fromUrl < TotalPages(total) - 1 then fromUrl else TotalPages(total) - 1
  }

  /** The first and last 1-based positions in the "from-to" label. */
  function RangeFrom(page: nat): nat
  {
    page * PerPage + 1
  }

  function RangeTo(page: nat, total: nat): nat
  {
    if (page + 1) * PerPage < total then (page + 1) * PerPage else total
  }

  /** With posts to show, the label's range is a non-empty part of 1..total,
      at most one page long, and holds exactly the positions of the shown page. */
  lemma RangeWithinTotal(total: nat, pageParam: int, g: int)
    requires total > 0
    ensures var p := CurrentPage(total, pageParam);
      1 <= RangeFrom(p) <= RangeTo(p, total) <= total &&
      RangeTo(p, total) - RangeFrom(p) < PerPage &&
      (RangeFrom(p) <= g <= RangeTo(p, total) <==> 1 <= g <= total && (g - 1) / PerPage == p)
  {
    if g >= 1 {
      DivisionWindow(g - 1, CurrentPage(total, pageParam));
    }
  }

  lemma DivisionWindow(x: nat, p: nat)
    ensures x / PerPage == p <==> p * PerPage <= x < (p + 1) * PerPage
  {
  }

  /** The summary line under the table. */
  function RangeLabel(total: nat, page: nat): (r: string)
    ensures total == 0 ==> r == "총 0개 중 0개 표시"
    ensures total > 0 ==> StartsWith(r, "총 " + NatToString(total) + "개 중 ")
    ensures total > 0 ==> var head := "총 " + NatToString(total) + "개 중 ";
      r[|head|..] == NatToString(RangeFrom(page)) + "-" + NatToString(RangeTo(page, total)) + "개"
  {
    if total == 0 then "총 0개 중 0개 표시"
    else ("총 " + NatToString(total) + "개 중 " + NatToString(RangeFrom(page)) + "-" +
          NatToString(RangeTo(page, total)) + "개")
  }

  /** The number shown in the first column of row `index` of page `page`. */
  function RowNumber(total: nat, page: nat, index: nat): int
  {
    total - page * PerPage - index
  }

  /** The rows of a listing are numbered from total down to 1: every row of a
      page holding it gets a number in 1..total, and no two rows of any pages
      share one. */
  lemma RowNumbersCountDown(total: nat, p: nat, i: nat, q: nat, j: nat)
    requires i < PerPage && p * PerPage + i < total
    requires j < PerPage && q * PerPage + j < total
    ensures 1 <= RowNumber(total, p, i) <= total
    ensures RowNumber(total, p, i) == RowNumber(total, q, j) ==> p == q && i == j
  {
    DivisionWindow(p * PerPage + i, p);
    DivisionWindow(q * PerPage + j, q);
  }

  /** The page the "previous" and "next" buttons go to (0-based). Each is
      disabled at the first or last page. */
  function PrevTarget(page: nat): (r: nat)
    ensures page > 0 ==> r == page - 1
    ensures page == 0 ==> r == 0
  {
    if page == 0 then 0 else page - 1
  }

  function NextTarget(page: nat, totalPages: nat): (r: nat)
    requires totalPages >= 1
    ensures r <= totalPages - 1
    ensures page < totalPages - 1 ==> r == page + 1
    ensures page >= totalPages - 1 ==> r == totalPages - 1
  {
    if totalPages - 1 < page + 1 then totalPages - 1 else page + 1
  }

  predicate PrevDisabled(page: nat) { page <= 0 }

  predicate NextDisabled(page: nat, totalPages: nat) { page >= totalPages - 1 }

  /** An enabled arrow always leads to a page of the listing. */
  lemma ArrowsStayInRange(total: nat, pageParam: int)
    requires total > 0
    ensures var p := CurrentPage(total, pageParam);
      (!PrevDisabled(p) ==> PrevTarget(p) < TotalPages(total) && PrevTarget(p) == p - 1) &&
      (!NextDisabled(p, TotalPages(total)) ==>
         (NextTarget(p, TotalPages(total)) < TotalPages(total) && NextTarget(p, TotalPages(total)) == p + 1))
  {
  }

  // ---------------------------------------------------------------------
  // updateParams
  // ---------------------------------------------------------------------

  /** One entry of the update object: undefined is None. */
  datatype Update = Update(key: string, value: Option<string>)

  predicate DistinctKeys(updates: seq<Update>)
  {
    forall i, j :: 0 <= i < j < |updates| ==> updates[i].key != updates[j].key
  }

  predicate Mentions(updates: seq<Update>, k: string)
  {
    exists i :: 0 <= i < |updates| && updates[i].key == k
  }

  /** One entry: a non-empty value is set, anything else deletes the key. */
  function ApplyOne(ps: seq<Param>, u: Update): seq<Param>
  {
    if u.value.Some? && u.value.value != [] then Set(ps, u.key, u.value.value)
    else Delete(ps, u.key)
  }

  /** The entries in order. */
  function ApplyAll(ps: seq<Param>, updates: seq<Update>): seq<Param>
  {
    if updates == [] then ps
    else ApplyOne(ApplyAll(ps, updates[..|updates| - 1]), updates[|updates| - 1])
  }

  /** The parameters updateParams produces from `prev`. */
  function Updated(prev: seq<Param>, updates: seq<Update>): seq<Param>
  {
    var next := ApplyAll(prev, updates);
    if Mentions(updates, "page") then next else Set(next, "page", "1")
  }

  /** updateParams: the URL parameters are copied and each entry of the update
      is applied in turn; unless the update names the page, the page goes back
      to 1. */
  method UpdateParams(prev: seq<Param>, updates: seq<Update>) returns (next: seq<Param>)
    ensures next == Updated(prev, updates)
  {
    next := prev;
    var i := 0;
    var page := false;
    while i < |updates|
      invariant 0 <= i <= |updates|
      invariant next == ApplyAll(prev, updates[..i])
      invariant page <==> Mentions(updates[..i], "page")
    {
      var u := updates[i];
      if u.value.Some? && u.value.value != [] {
        next := Set(next, u.key, u.value.value);
      } else {
        next := Delete(next, u.key);
      }
      if u.key == "page" {
        page := true;
      }
      assert updates[..i + 1][..i] == updates[..i];
      assert updates[..i + 1][i] == u;
      i := i + 1;
    }
    assert updates[..i] == updates;
    if !page {
      next := Set(next, "page", "1");
    }
  }

  /** What get(k) reads after the entries: the last entry naming k decides
      (set for a non-empty value, deleted otherwise), and an unnamed key keeps
      its value. */
  lemma {:induction false} GetApplied(ps: seq<Param>, updates: seq<Update>, k: string)
    requires DistinctKeys(updates)
    ensures forall i :: 0 <= i < |updates| && updates[i].key == k ==>
      Get(ApplyAll(ps, updates), k) ==
        (if updates[i].value.Some? && updates[i].value.value != [] then updates[i].value else None)
    ensures !Mentions(updates, k) ==> Get(ApplyAll(ps, updates), k) == Get(ps, k)
  {
    if updates != [] {
      var init := updates[..|updates| - 1];
      var u := updates[|updates| - 1];
      assert DistinctKeys(init);
      GetApplied(ps, init, k);
      var before := ApplyAll(ps, init);
      if u.value.Some? && u.value.value != [] {
        GetSet(before, u.key, u.value.value, k);
      } else {
        GetDeleted(before, u.key, k);
      }
      if !Mentions(updates, k) {
        assert !Mentions(init, k) by {
          forall i | 0 <= i < |init| ensures init[i].key != k {
            assert init[i] == updates[i];
          }
        }
      }
      forall i | 0 <= i < |updates| && updates[i].key == k
        ensures Get(ApplyAll(ps, updates), k) ==
          (if updates[i].value.Some? && updates[i].value.value != [] then updates[i].value else None)
      {
        if i < |updates| - 1 {
          assert init[i] == updates[i];
          assert u.key != k;
        }
      }
      if Mentions(updates, k) && u.key != k {
        var i :| 0 <= i < |updates| && updates[i].key == k;
        assert init[i] == updates[i];
        assert Mentions(init, k);
      }
    }
  }

  /** The promise of updateParams, key by key: a key with a non-empty value
      reads that value, a key sent as '' or undefined is gone, the page is '1'
      unless the update names it, and every other key is untouched. */
  lemma UpdatedGet(prev: seq<Param>, updates: seq<Update>, k: string)
    requires DistinctKeys(updates)
    ensures forall i :: 0 <= i < |updates| && updates[i].key == k ==>
      Get(Updated(prev, updates), k) ==
        (if updates[i].value.Some? && updates[i].value.value != [] then updates[i].value else None)
    ensures !Mentions(updates, "page") ==> Get(Updated(prev, updates), "page") == Some("1")
    ensures !Mentions(updates, k) && k != "page" ==> Get(Updated(prev, updates), k) == Get(prev, k)
  {
    GetApplied(prev, updates, k);
    var next := ApplyAll(prev, updates);
    if !Mentions(updates, "page") {
      GetSet(next, "page", "1", k);
      GetSet(next, "page", "1", "page");
    }
  }

  // ---------------------------------------------------------------------
  // Row selection
  // ---------------------------------------------------------------------

  /** toggleOne. */
  function ToggleOne(selected: set<int>, id: int): (r: set<int>)
    ensures id in r <==> id !in selected
    ensures forall x :: x != id ==> (x in r <==> x in selected)
  {
    if id in selected then selected - {id} else selected + {id}
  }

  lemma ToggleOneTwice(selected: set<int>, id: int)
    ensures ToggleOne(ToggleOne(selected, id), id) == selected
  {
  }

  /** allPageSelected: the page has rows and every one is selected. */
  predicate AllPageSelected(pageIds: seq<int>, selected: set<int>)
  {
    |pageIds| > 0 && forall i :: 0 <= i < |pageIds| ==> pageIds[i] in selected
  }

  /** toggleAll: with every row of the page selected, the page's ids are
      removed, otherwise they are all added; ids of other pages stay as they
      are. */
  method ToggleAll(selected: set<int>, pageIds: seq<int>) returns (r: set<int>)
    ensures forall x :: x !in pageIds ==> (x in r <==> x in selected)
    ensures AllPageSelected(pageIds, selected) ==> forall x :: x in pageIds ==> x !in r
    ensures !AllPageSelected(pageIds, selected) ==> forall x :: x in pageIds ==> x in r
  {
    var all := AllPageSelected(pageIds, selected);
    r := selected;
    var i := 0;
    while i < |pageIds|
      invariant 0 <= i <= |pageIds|
      invariant forall x :: x !in pageIds ==> (x in r <==> x in selected)
      invariant forall j :: 0 <= j < i ==> (pageIds[j] in r <==> !all)
    {
      if all {
        r := r - {pageIds[i]};
      } else {
        r := r + {pageIds[i]};
      }
      i := i + 1;
    }
  }

  /** Selecting all and then pressing again clears exactly that page. */
  lemma ToggleAllRoundTrip(selected: set<int>, pageIds: seq<int>, once: set<int>, twice: set<int>)
    requires |pageIds| > 0
    requires forall x :: x !in pageIds ==> (x in once <==> x in selected)
    requires forall i :: 0 <= i < |pageIds| ==> pageIds[i] in once
    requires forall x :: x !in pageIds ==> (x in twice <==> x in once)
    requires forall i :: 0 <= i < |pageIds| ==> pageIds[i] !in twice
    ensures AllPageSelected(pageIds, once)
    ensures forall x :: x in twice <==> x in selected && x !in pageIds
  {
  }

  // ---------------------------------------------------------------------
  // statusBadge
  // ---------------------------------------------------------------------

  /** The badge label; `publishedAt` is the post's published_at instant and
      `now` the current instant. */
  function StatusBadge(status: string, publishedAt: Option<int>, now: int): (r: string)
    ensures r == "공개예정" <==> status == "PUBLISHED" && publishedAt.Some? && publishedAt.value > now
    ensures r == "공개" <==> status == "PUBLISHED" && !(publishedAt.Some? && publishedAt.value > now)
    ensures r == "일부공개" <==> status == "UNLISTED"
    ensures r == "비공개" <==> status == "PRIVATE"
    ensures r == "임시저장" <==> status !in {"PUBLISHED", "UNLISTED", "PRIVATE"}
  {
    if status == "PUBLISHED" && publishedAt.Some? && publishedAt.value > now then "공개예정"
    else if status == "PUBLISHED" then "공개"
    else if status == "UNLISTED" then "일부공개"
    else if status == "PRIVATE" then "비공개"
    else "임시저장"
  }

  // ---------------------------------------------------------------------
  // fetchPosts query
  // ---------------------------------------------------------------------

  /** The query string of GET /api/posts for the 0-based page and the URL's
      filters (each '' when absent). */
  function PostsQuery(page: nat, category: string, status: string, prefix: string, q: string,
                      orderBy: string): (r: seq<Param>)
  {
    var order := if orderBy == [] then "latest_published" else orderBy;
    SetIf(SetIf(SetIf(SetIf(SetIf(
      Set(Set([], "page", NatToString(page + 1)), "per_page", "10"),
      category != [], "category_id", category),
      status != [], "status", status),
      prefix != [], "prefix_id", prefix),
      Trim(q) != [], "q", Trim(q)),
      order != "latest_published", "order_by", order)
  }

  function NonEmpty(s: string): Option<string>
  {
    if s == [] then None else Some(s)
  }

  /** The query always carries the 1-based page and per_page=10, a filter only
      when it is set, q trimmed and only when not blank, and order_by only when
      it is not the default latest_published. */
  lemma PostsQueryReads(page: nat, category: string, status: string, prefix: string, q: string,
                        orderBy: string)
    ensures var r := PostsQuery(page, category, status, prefix, q, orderBy);
      Get(r, "page") == Some(NatToString(page + 1)) &&
      Get(r, "per_page") == Some("10") &&
      Get(r, "category_id") == NonEmpty(category) &&
      Get(r, "status") == NonEmpty(status) &&
      Get(r, "prefix_id") == NonEmpty(prefix) &&
      Get(r, "q") == NonEmpty(Trim(q)) &&
      Get(r, "order_by") == (if orderBy == [] || orderBy == "latest_published" then None else Some(orderBy))
  {
    QueryKey(page, category, status, prefix, q, orderBy, "page");
    QueryKey(page, category, status, prefix, q, orderBy, "per_page");
    QueryKey(page, category, status, prefix, q, orderBy, "category_id");
    QueryKey(page, category, status, prefix, q, orderBy, "status");
    QueryKey(page, category, status, prefix, q, orderBy, "prefix_id");
    QueryKey(page, category, status, prefix, q, orderBy, "q");
    QueryKey(page, category, status, prefix, q, orderBy, "order_by");
  }

  /** The value each query key should read. */
  function Expected(page: nat, category: string, status: string, prefix: string, q: string,
                    orderBy: string, k: string): Option<string>
  {
    if k == "page" then Some(NatToString(page + 1))
    else if k == "per_page" then Some("10")
    else if k == "category_id" then NonEmpty(category)
    else if k == "status" then NonEmpty(status)
    else if k == "prefix_id" then NonEmpty(prefix)
    else if k == "q" then NonEmpty(Trim(q))
    else if k == "order_by" then (if orderBy == [] || orderBy == "latest_published" then None else Some(orderBy))
    else None
  }

  predicate QueryKeyRead(page: nat, category: string, status: string, prefix: string, q: string,
                         orderBy: string, k: string)
  {
    Get(PostsQuery(page, category, status, prefix, q, orderBy), k) ==
      Expected(page, category, status, prefix, q, orderBy, k)
  }

  lemma QueryKey(page: nat, category: string, status: string, prefix: string, q: string,
                 orderBy: string, k: string)
    ensures QueryKeyRead(page, category, status, prefix, q, orderBy, k)
  {
    var order := if orderBy == [] then "latest_published" else orderBy;
    var p00 := Set([], "page", NatToString(page + 1));
    var p0 := Set(p00, "per_page", "10");
    var p1 := SetIf(p0, category != [], "category_id", category);
    var p2 := SetIf(p1, status != [], "status", status);
    var p3 := SetIf(p2, prefix != [], "prefix_id", prefix);
    var p4 := SetIf(p3, Trim(q) != [], "q", Trim(q));
    GetSet([], "page", NatToString(page + 1), k);
    GetSet(p00, "per_page", "10", k);
    GetSetIf(p0, category != [], "category_id", category, k);
    GetSetIf(p1, status != [], "status", status, k);
    GetSetIf(p2, prefix != [], "prefix_id", prefix, k);
    GetSetIf(p3, Trim(q) != [], "q", Trim(q), k);
    GetSetIf(p4, order != "latest_published", "order_by", order, k);
  }
}
