// The public post list: five posts a page, and the pager that shows the
// pages of the current group (three on a narrow window, five otherwise)
// with jumps to the neighbouring groups.
module Home {
  import opened Wrappers
  import opened Strings
  import opened SearchParams

  const PerPage := 5
  const MobileWidth := 768

  /** The page-group size for the window width. */
  function GroupSize(windowWidth: int): (r: nat)
    ensures r == 3 <==> windowWidth < MobileWidth
    ensures r == 3 || r == 5
  {
    if windowWidth < MobileWidth then 3 else 5
  }

  /** The page from the URL: the parsed `page` parameter (None when it is
      missing or empty, read as '1'), and never below 1. */
  function PageOf(parsed: Option<int>): (r: int)
    ensures r >= 1
    ensures parsed.Some? && parsed.value >= 1 ==> r == parsed.value
    ensures parsed.None? || parsed.value < 1 ==> r == 1
  {
    var p := parsed.GetOr(1);
    if p < 1 then 1 else p
  }

  /** Math.ceil(a / b) for a positive b. */
  function CeilDiv(a: int, b: nat): (r: int)
    requires b > 0
    ensures (r - 1) * b < a <= r * b
  {
    if a % b == 0 then a / b else a / b + 1
  }

  /** The ceiling is the only such number. */
  lemma CeilUnique(a: int, b: nat, c: int)
    requires b > 0 && (c - 1) * b < a <= c * b
    ensures CeilDiv(a, b) == c
  {
    var r := CeilDiv(a, b);
    MulMonotone(r, c - 1, b);
    MulMonotone(c, r - 1, b);
  }

  lemma {:induction false} MulMonotone(x: int, y: int, b: nat)
    ensures x <= y ==> x * b <= y * b
  {
    if b > 0 {
      MulMonotone(x, y, b - 1);
      assert x * b == x * (b - 1) + x;
      assert y * b == y * (b - 1) + y;
    }
  }

  /** `Math.max(1, Math.ceil(total / 5))`: enough pages for every post, and
      one page for none. */
  function TotalPages(total: int): (r: nat)
    ensures r >= 1
    ensures total <= 0 ==> r == 1
    ensures total > 0 ==> (r - 1) * PerPage < total <= r * PerPage
  {
    var c := CeilDiv(total, PerPage);
    if c < 1 then 1 else c
  }

  /** handlePageChange's clamp into [1, totalPages]. */
  function ClampPage(newPage: int, totalPages: nat): (r: int)
    requires totalPages >= 1
    ensures 1 <= r <= totalPages
    ensures 1 <= newPage <= totalPages ==> r == newPage
    ensures newPage < 1 ==> r == 1
    ensures newPage > totalPages ==> r == totalPages
  {
    var m := if newPage < totalPages then newPage else totalPages;
    if m < 1 then 1 else m
  }

  /** handlePageChange on a copy of the URL's parameters: only `page`
      changes, to the clamped page. */
  function PageChanged(ps: seq<Param>, newPage: int, totalPages: nat): (r: seq<Param>)
    requires totalPages >= 1
    ensures Get(r, "page") == Some(NatToString(ClampPage(newPage, totalPages) as nat))
    ensures forall k :: k != "page" ==> Get(r, k) == Get(ps, k)
  {
    var v := NatToString(ClampPage(newPage, totalPages) as nat);
    GetSet(ps, "page", v, "page");
    forall k | k != "page" ensures Get(Set(ps, "page", v), k) == Get(ps, k) {
      GetSet(ps, "page", v, k);
    }
    Set(ps, "page", v)
  }

  // ---------------------------------------------------------------------
  // The page group
  // ---------------------------------------------------------------------

  /** `(Math.ceil(page / G) - 1) * G + 1`: the first page of the group that
      holds `page`. */
  function StartPage(page: int, g: nat): (r: int)
    requires page >= 1 && g >= 1
    ensures r >= 1 && r <= page < r + g
    ensures r == ((page - 1) / g) * g + 1
  {
    var c := CeilDiv(page, g);
    MulMonotone(c, 0, g);
    assert c * g == (c - 1) * g + g;
    var q := (page - 1) / g;
    assert q * g <= page - 1 < q * g + g;
    assert (q + 1) * g == q * g + g;
    CeilUnique(page, g, q + 1);
    (c - 1) * g + 1
  }

  /** `Math.min(startPage + G - 1, totalPages)`: the last page of the group,
      or the last page when the group runs past it. */
  function EndPage(page: int, g: nat, totalPages: nat): (r: int)
    requires page >= 1 && g >= 1
    ensures r <= totalPages && r <= StartPage(page, g) + g - 1
    ensures r == totalPages || r == StartPage(page, g) + g - 1
  {
    var e := StartPage(page, g) + g - 1;
    if e < totalPages then e else totalPages
  }

  /** The pager's page buttons: from startPage up to endPage. */
  method PageNumbers(startPage: int, endPage: int) returns (nums: seq<int>)
    ensures |nums| == if endPage >= startPage then endPage - startPage + 1 else 0
    ensures forall k :: 0 <= k < |nums| ==> nums[k] == startPage + k
  {
    nums := [];
    var i := startPage;
    while i <= endPage
      invariant startPage <= i
      invariant i == startPage || i <= endPage + 1
      invariant |nums| == i - startPage
      invariant forall k :: 0 <= k < |nums| ==> nums[k] == startPage + k
      decreases endPage - i
    {
      nums := nums + [i];
      i := i + 1;
    }
  }

  /** A page that exists is among its group's buttons, and every button is a
      page that exists. */
  lemma CurrentPageShown(page: int, g: nat, totalPages: nat)
    requires g >= 1 && 1 <= page <= totalPages
    ensures 1 <= StartPage(page, g) <= page <= EndPage(page, g, totalPages) <= totalPages
  {
  }

  /** The buttons are exactly the existing pages of page's group: every page
      from startPage to endPage has the same first page. */
  lemma GroupIsShared(page: int, g: nat, totalPages: nat, k: int)
    requires g >= 1 && page >= 1
    requires StartPage(page, g) <= k <= EndPage(page, g, totalPages)
    ensures StartPage(k, g) == StartPage(page, g)
  {
    var c := CeilDiv(page, g);
    assert (c - 1) * g < k <= c * g;
    CeilUnique(k, g, c);
  }

  /** Past the last page whose group lies beyond the last page, no button is
      shown. */
  lemma NoButtonsPastTheEnd(page: int, g: nat, totalPages: nat)
    requires g >= 1 && page >= 1 && StartPage(page, g) > totalPages
    ensures EndPage(page, g, totalPages) < StartPage(page, g)
  {
  }

  // ---------------------------------------------------------------------
  // The arrows
  // ---------------------------------------------------------------------

  predicate PrevGroupDisabled(page: int, g: nat)
    requires page >= 1 && g >= 1
  {
    StartPage(page, g) <= 1
  }

  predicate NextGroupDisabled(page: int, g: nat, totalPages: nat)
    requires page >= 1 && g >= 1
  {
    EndPage(page, g, totalPages) >= totalPages
  }

  predicate PrevDisabled(page: int) { page <= 1 }

  predicate NextDisabled(page: int, totalPages: nat) { page >= totalPages }

  /** On an existing page an enabled previous-group arrow goes to the last
      page of the previous group. */
  lemma PrevGroupLands(page: int, g: nat, totalPages: nat)
    requires g >= 1 && 1 <= page <= totalPages && !PrevGroupDisabled(page, g)
    ensures var s := StartPage(page, g);
      ClampPage(s - 1, totalPages) == s - 1 && StartPage(s - 1, g) == s - g
  {
    var c := CeilDiv(page, g);
    var s := (c - 1) * g + 1;
    assert (c - 2) * g == (c - 1) * g - g;
    CeilUnique(s - 1, g, c - 1);
    assert StartPage(s - 1, g) == (c - 2) * g + 1;
  }

  /** On an existing page an enabled next-group arrow goes to the first page
      of the next group. */
  lemma NextGroupLands(page: int, g: nat, totalPages: nat)
    requires g >= 1 && 1 <= page <= totalPages && !NextGroupDisabled(page, g, totalPages)
    ensures var e := EndPage(page, g, totalPages);
      ClampPage(e + 1, totalPages) == e + 1 && StartPage(e + 1, g) == StartPage(page, g) + g
  {
    var c := CeilDiv(page, g);
    var s := (c - 1) * g + 1;
    var e := EndPage(page, g, totalPages);
    assert e == s + g - 1;
    assert c * g == (c - 1) * g + g;
    assert (c + 1) * g == c * g + g;
    CeilUnique(e + 1, g, c + 1);
  }

  /** The enabled single-step arrows move exactly one page. */
  lemma StepsLand(page: int, totalPages: nat)
    requires 1 <= page <= totalPages
    ensures !PrevDisabled(page) ==> ClampPage(page - 1, totalPages) == page - 1
    ensures !NextDisabled(page, totalPages) ==> ClampPage(page + 1, totalPages) == page + 1
  {
  }
}
