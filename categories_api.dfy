// The category router of the API: the flat and two-level tree listing, and
// create / get / update / reorder over the categories table. The table is a
// sequence of rows in insertion (AUTO_INCREMENT id) order.
module CategoriesApi {
  import opened Wrappers
  import opened Strings
  import opened Sorting

  datatype Row = Row(id: int, parentId: Option<int>, name: string, sortOrder: int)
  datatype TreeItem = TreeItem(row: Row, children: seq<Row>)

  /** ORDER BY sort_order, id; also the key (sort_order, id) of the tree sort. */
  predicate KeyLess(a: Row, b: Row)
  {
    a.sortOrder < b.sortOrder || (a.sortOrder == b.sortOrder && a.id < b.id)
  }

  lemma KeyLessStrict()
    ensures StrictOrder(KeyLess)
  {
  }

  /** Rows whose parent_id is p, in the given order. */
  function WithParent(items: seq<Row>, p: Option<int>): (r: seq<Row>)
    ensures |r| <= |items|
  {
    if items == [] then []
    else
      var last := items[|items| - 1];
      WithParent(items[..|items| - 1], p) + (if last.parentId == p then [last] else [])
  }

  lemma {:induction false} WithParentMembers(items: seq<Row>, p: Option<int>)
    ensures forall x :: x in WithParent(items, p) <==> x in items && x.parentId == p
  {
    if items != [] {
      var init := items[..|items| - 1];
      WithParentMembers(init, p);
      assert items == init + [items[|items| - 1]];
    }
  }

  /** Python's sorted(..., key=lambda x: (x["sort_order"], x["id"])). */
  function SortRows(s: seq<Row>): seq<Row>
  {
    SortBy(s, KeyLess)
  }

  /** The roots of the tree listing: parent_id NULL rows, sorted by (sort_order, id). */
  function RootRows(items: seq<Row>): seq<Row>
  {
    SortRows(WithParent(items, None))
  }

  /** The children listed under a root with the given id. */
  function ChildRows(items: seq<Row>, id: int): seq<Row>
  {
    SortRows(WithParent(items, Some(id)))
  }

  lemma {:induction false} RootRowsAreSortedRoots(items: seq<Row>)
    ensures SortedBy(RootRows(items), KeyLess)
    ensures multiset(RootRows(items)) == multiset(WithParent(items, None))
    ensures forall x :: x in RootRows(items) <==> x in items && x.parentId.None?
  {
    KeyLessStrict();
    WithParentMembers(items, None);
    SortBySorted(WithParent(items, None), KeyLess);
    assert forall x :: x in RootRows(items) <==> x in multiset(WithParent(items, None));
  }

  lemma {:induction false} ChildRowsAreSortedChildren(items: seq<Row>, id: int)
    ensures SortedBy(ChildRows(items, id), KeyLess)
    ensures multiset(ChildRows(items, id)) == multiset(WithParent(items, Some(id)))
    ensures forall x :: x in ChildRows(items, id) <==> x in items && x.parentId == Some(id)
  {
    KeyLessStrict();
    WithParentMembers(items, Some(id));
    SortBySorted(WithParent(items, Some(id)), KeyLess);
    assert forall x :: x in ChildRows(items, id) <==> x in multiset(WithParent(items, Some(id)));
  }

  lemma {:induction false} WithParentSnoc(s: seq<Row>, x: Row, p: Option<int>)
    ensures WithParent(s + [x], p) == WithParent(s, p) + (if x.parentId == p then [x] else [])
  {
    assert (s + [x])[..|s|] == s;
  }

  /** The by_parent dictionary of the tree listing, read with a default of []. */
  function Group(byParent: map<Option<int>, seq<Row>>, p: Option<int>): seq<Row>
  {
    if p in byParent then byParent[p] else []
  }

  /** The grouping loop: each parent id collects its rows in listing order. */
  method GroupByParent(items: seq<Row>) returns (byParent: map<Option<int>, seq<Row>>)
    ensures forall p :: Group(byParent, p) == WithParent(items, p)
  {
    byParent := map[];
    var i := 0;
    while i < |items|
      invariant 0 <= i <= |items|
      invariant forall p :: Group(byParent, p) == WithParent(items[..i], p)
    {
      var pid := items[i].parentId;
      var before := byParent;
      byParent := byParent[pid := Group(byParent, pid) + [items[i]]];
      forall p ensures Group(byParent, p) == WithParent(items[..i + 1], p) {
        WithParentSnoc(items[..i], items[i], p);
        assert items[..i] + [items[i]] == items[..i + 1];
        if p == pid {
          assert Group(byParent, p) == Group(before, p) + [items[i]];
        } else {
          assert Group(byParent, p) == Group(before, p);
        }
      }
      i := i + 1;
    }
    assert items[..i] == items;
  }

  /** The tree items of the given roots: each root with its sorted children. */
  function WithChildren(items: seq<Row>, rootRows: seq<Row>): (r: seq<TreeItem>)
    ensures |r| == |rootRows|
  {
    if rootRows == [] then []
    else
      var last := rootRows[|rootRows| - 1];
      WithChildren(items, rootRows[..|rootRows| - 1]) + [TreeItem(last, ChildRows(items, last.id))]
  }

  lemma {:induction false} WithChildrenSnoc(items: seq<Row>, s: seq<Row>, x: Row)
    ensures WithChildren(items, s + [x]) == WithChildren(items, s) + [TreeItem(x, ChildRows(items, x.id))]
  {
    assert (s + [x])[..|s|] == s;
  }

  lemma {:induction false} WithChildrenAt(items: seq<Row>, rootRows: seq<Row>, k: nat)
    requires k < |rootRows|
    ensures WithChildren(items, rootRows)[k] == TreeItem(rootRows[k], ChildRows(items, rootRows[k].id))
  {
    if k < |rootRows| - 1 {
      WithChildrenAt(items, rootRows[..|rootRows| - 1], k);
    }
  }

  lemma AttachStep(items: seq<Row>, rootRows: seq<Row>, k: nat, roots: seq<TreeItem>)
    requires k < |rootRows| && roots == WithChildren(items, rootRows[..k])
    ensures roots + [TreeItem(rootRows[k], ChildRows(items, rootRows[k].id))] == WithChildren(items, rootRows[..k + 1])
  {
    assert rootRows[..k + 1] == rootRows[..k] + [rootRows[k]];
    WithChildrenSnoc(items, rootRows[..k], rootRows[k]);
  }

  /** The loop that assigns each root its sorted children. */
  method AttachChildren(items: seq<Row>, byParent: map<Option<int>, seq<Row>>, rootRows: seq<Row>)
    returns (roots: seq<TreeItem>)
    requires forall p :: Group(byParent, p) == WithParent(items, p)
    ensures roots == WithChildren(items, rootRows)
  {
    roots := [];
    var k := 0;
    while k < |rootRows|
      invariant 0 <= k <= |rootRows|
      invariant roots == WithChildren(items, rootRows[..k])
    {
      var x := rootRows[k];
      var kids := SortRows(Group(byParent, Some(x.id)));
      assert kids == ChildRows(items, x.id);
      AttachStep(items, rootRows, k, roots);
      roots := roots + [TreeItem(x, kids)];
      k := k + 1;
    }
    assert rootRows[..k] == rootRows;
  }

  /** list_categories(tree=true): group by parent_id, then sort the roots and each
      root's children by (sort_order, id). */
  method ListTree(items: seq<Row>) returns (roots: seq<TreeItem>)
    ensures roots == WithChildren(items, RootRows(items))
  {
    var byParent := GroupByParent(items);
    var rootRows := SortRows(Group(byParent, None));
    assert rootRows == RootRows(items);
    roots := AttachChildren(items, byParent, rootRows);
  }

  /** Every listed root is a parent_id NULL row with exactly its children, sorted. */
  lemma {:induction false} ListTreeShape(items: seq<Row>, k: nat)
    requires k < |RootRows(items)|
    ensures WithChildren(items, RootRows(items))[k].row.parentId.None?
    ensures WithChildren(items, RootRows(items))[k].row in items
    ensures var t := WithChildren(items, RootRows(items))[k];
      SortedBy(t.children, KeyLess) &&
      multiset(t.children) == multiset(WithParent(items, Some(t.row.id)))
  {
    WithChildrenAt(items, RootRows(items), k);
    RootRowsAreSortedRoots(items);
    assert RootRows(items)[k] in RootRows(items);
    ChildRowsAreSortedChildren(items, RootRows(items)[k].id);
  }

  /** Only two levels are listed: a row whose parent is not a root appears nowhere. */
  lemma {:induction false} TreeHasTwoLevels(items: seq<Row>, x: Row)
    requires x.parentId.Some?
    requires forall r :: r in RootRows(items) ==> r.id != x.parentId.value
    ensures x !in RootRows(items)
    ensures forall r :: r in RootRows(items) ==> x !in ChildRows(items, r.id)
  {
    RootRowsAreSortedRoots(items);
    forall r | r in RootRows(items) ensures x !in ChildRows(items, r.id) {
      ChildRowsAreSortedChildren(items, r.id);
    }
  }

  /** Position of the row with the given id. */
  function IndexOfId(rows: seq<Row>, id: int): (r: Option<nat>)
    ensures r.Some? ==> r.value < |rows| && rows[r.value].id == id
    ensures r.None? ==> forall k :: 0 <= k < |rows| ==> rows[k].id != id
  {
    if rows == [] then None
    else if rows[0].id == id then Some(0)
    else match IndexOfId(rows[1..], id)
      case None => None
      case Some(k) => Some(k + 1)
  }

  predicate HasId(rows: seq<Row>, id: int)
  {
    exists k :: 0 <= k < |rows| && rows[k].id == id
  }

  lemma HasIdFound(rows: seq<Row>, id: int)
    ensures HasId(rows, id) <==> IndexOfId(rows, id).Some?
  {
  }

  /** COALESCE(MAX(sort_order), -1) + 1 over the rows with the given parent. */
  function NextSortOrder(rows: seq<Row>, p: Option<int>): (r: int)
    ensures forall k :: 0 <= k < |rows| && rows[k].parentId == p ==> rows[k].sortOrder < r
    ensures (forall k :: 0 <= k < |rows| ==> rows[k].parentId != p) ==> r == 0
    ensures (exists k :: 0 <= k < |rows| && rows[k].parentId == p) ==>
      exists k :: 0 <= k < |rows| && rows[k].parentId == p && rows[k].sortOrder == r - 1
  {
    if rows == [] then 0
    else
      var t := NextSortOrder(rows[1..], p);
      assert forall k :: 1 <= k < |rows| ==> rows[k] == rows[1..][k - 1];
      if rows[0].parentId != p then t
      else if t == 0 && (forall k :: 0 <= k < |rows[1..]| ==> rows[1..][k].parentId != p) then rows[0].sortOrder + 1
      else if rows[0].sortOrder + 1 > t then rows[0].sortOrder + 1
      else t
  }

  const NameRequired := "카테고리명을 입력하세요."
  const ParentNotFound := "상위 카테고리를 찾을 수 없습니다."
  const SelfParent := "자기 자신을 상위로 지정할 수 없습니다."
  const CategoryNotFound := "카테고리를 찾을 수 없습니다."

  datatype ReorderItem = ReorderItem(id: int, sortOrder: int)

  /** The position of the last item naming id, if any item does. */
  function LastIndexFor(order: seq<ReorderItem>, id: int): (r: Option<nat>)
    ensures r.None? <==> forall k :: 0 <= k < |order| ==> order[k].id != id
    ensures r.Some? ==> r.value < |order| && order[r.value].id == id &&
                        forall j :: r.value < j < |order| ==> order[j].id != id
  {
    if order == [] then None
    else if order[|order| - 1].id == id then Some(|order| - 1)
    else
      var t := LastIndexFor(order[..|order| - 1], id);
      assert forall k :: 0 <= k < |order| - 1 ==> order[k] == order[..|order| - 1][k];
      t
  }

  /** The sort_order the last item naming id assigns, if any item does. */
  function LastOrderFor(order: seq<ReorderItem>, id: int): (r: Option<int>)
    ensures r.None? <==> forall k :: 0 <= k < |order| ==> order[k].id != id
    ensures r.Some? ==> exists k :: 0 <= k < |order| && order[k] == ReorderItem(id, r.value) &&
                                   (forall j :: k < j < |order| ==> order[j].id != id)
  {
    match LastIndexFor(order, id)
    case None => None
    case Some(k) =>
      assert order[k] == ReorderItem(id, order[k].sortOrder);
      Some(order[k].sortOrder)
  }

  /** One UPDATE categories SET sort_order WHERE id. */
  function SetSortOrder(rows: seq<Row>, item: ReorderItem): (r: seq<Row>)
    ensures |r| == |rows|
  {
    seq(|rows|, k requires 0 <= k < |rows| =>
      if rows[k].id == item.id then rows[k].(sortOrder := item.sortOrder) else rows[k])
  }

  lemma {:induction false} ReorderedStep(rows: seq<Row>, order: seq<ReorderItem>, item: ReorderItem)
    ensures Reordered(rows, order + [item]) == SetSortOrder(Reordered(rows, order), item)
  {
    assert (order + [item])[..|order|] == order;
  }

  /** The table after the reorder updates: every row takes the sort_order of the
      last item naming it; rows no item names keep theirs. */
  function Reordered(rows: seq<Row>, order: seq<ReorderItem>): (r: seq<Row>)
    ensures |r| == |rows|
  {
    seq(|rows|, k requires 0 <= k < |rows| =>
      rows[k].(sortOrder := LastOrderFor(order, rows[k].id).GetOr(rows[k].sortOrder)))
  }

  /** Apart from sort_order, reorder changes nothing, and the supplied value
      (not the item's position) is what is written. */
  lemma {:induction false} ReorderedRows(rows: seq<Row>, order: seq<ReorderItem>, k: nat)
    requires k < |rows|
    ensures Reordered(rows, order)[k].id == rows[k].id
    ensures Reordered(rows, order)[k].name == rows[k].name
    ensures Reordered(rows, order)[k].parentId == rows[k].parentId
    ensures (forall j :: 0 <= j < |order| ==> order[j].id != rows[k].id) ==>
      Reordered(rows, order)[k] == rows[k]
    ensures forall j :: (0 <= j < |order| && order[j].id == rows[k].id &&
                         (forall i :: j < i < |order| ==> order[i].id != rows[k].id)) ==>
      Reordered(rows, order)[k].sortOrder == order[j].sortOrder
  {
    var id := rows[k].id;
    forall j | 0 <= j < |order| && order[j].id == id && (forall i :: j < i < |order| ==> order[i].id != id)
      ensures Reordered(rows, order)[k].sortOrder == order[j].sortOrder
    {
      var t := LastOrderFor(order, id);
      var w :| 0 <= w < |order| && order[w] == ReorderItem(id, t.value) &&
        forall i :: w < i < |order| ==> order[i].id != id;
      assert w == j;
    }
  }

  /** Ids strictly increase in the table and stay below the next AUTO_INCREMENT value. */
  predicate IdsBelow(rows: seq<Row>, nextId: int)
  {
    (forall i, j :: 0 <= i < j < |rows| ==> rows[i].id < rows[j].id) &&
    (forall i :: 0 <= i < |rows| ==> rows[i].id < nextId)
  }

  class CategoryTable {
    var rows: seq<Row>
    var nextId: int

    predicate Valid()
      reads this
    {
      IdsBelow(rows, nextId)
    }

    constructor ()
      ensures Valid() && rows == [] && nextId == 1
    {
      rows := [];
      nextId := 1;
    }

    /** list_categories without tree: every row, ordered by sort_order, id. */
    function ListFlat(): (r: seq<Row>)
      reads this
      ensures multiset(r) == multiset(rows)
      ensures SortedBy(r, KeyLess)
    {
      KeyLessStrict();
      SortBySorted(rows, KeyLess);
      SortBy(rows, KeyLess)
    }

    /** get_category. */
    function Get(id: int): (r: Response<Row>)
      reads this
      ensures r.Ok? <==> HasId(rows, id)
      ensures r.Ok? ==> r.value in rows && r.value.id == id
      ensures r.Error? ==> r == Error(404, CategoryNotFound)
    {
      match IndexOfId(rows, id)
      case None => Error(404, CategoryNotFound)
      case Some(k) => Ok(rows[k])
    }

    /** create_category: the trimmed name must be non-blank and the parent must
        exist; without sort_order the row goes after its siblings. */
    method Create(name: string, parentId: Option<int>, sortOrder: Option<int>) returns (r: Response<Row>)
      requires Valid()
      modifies this
      ensures Valid()
      ensures IsBlank(name) ==> r == Error(400, NameRequired) && unchanged(this)
      ensures !IsBlank(name) && parentId.Some? && !HasId(old(rows), parentId.value) ==>
        r == Error(400, ParentNotFound) && unchanged(this)
      ensures !IsBlank(name) && (parentId.None? || HasId(old(rows), parentId.value)) ==>
        var row := Row(old(nextId), parentId, Trim(name), sortOrder.GetOr(NextSortOrder(old(rows), parentId)));
        r == Ok(row) && rows == old(rows) + [row] && nextId == old(nextId) + 1
    {
      var n := Trim(name);
      if n == [] {
        return Error(400, NameRequired);
      }
      if parentId.Some? {
        HasIdFound(rows, parentId.value);
        if IndexOfId(rows, parentId.value).None? {
          return Error(400, ParentNotFound);
        }
      }
      var order := if sortOrder.Some? then sortOrder.value else NextSortOrder(rows, parentId);
      var row := Row(nextId, parentId, n, order);
      Append(row);
      r := Ok(row);
    }

    /** The INSERT under the next AUTO_INCREMENT value. */
    method Append(row: Row)
      requires Valid() && row.id == nextId
      modifies this
      ensures Valid() && rows == old(rows) + [row] && nextId == old(nextId) + 1
    {
      rows := rows + [row];
      nextId := nextId + 1;
    }

    /** update_category. parentSent says whether parent_id was present in the
        body (it may be present and null). */
    method Update(id: int, name: Option<string>, parentSent: bool, parentId: Option<int>, sortOrder: Option<int>)
      returns (r: Response<Row>)
      requires Valid()
      modifies this`rows
      ensures Valid()
      ensures r.Error? ==> rows == old(rows)
      ensures !HasId(old(rows), id) ==> r == Error(404, CategoryNotFound)
      ensures HasId(old(rows), id) ==>
        var k := IndexOfId(old(rows), id).value;
        var old_ := old(rows)[k];
        if name.Some? && IsBlank(name.value) then r == Error(400, NameRequired)
        else if parentSent && parentId == Some(id) then r == Error(400, SelfParent)
        else if parentSent && parentId.Some? && !HasId(old(rows), parentId.value) then r == Error(400, ParentNotFound)
        else
          var row := Row(id,
                         if parentSent then parentId else old_.parentId,
                         if name.Some? then Trim(name.value) else old_.name,
                         sortOrder.GetOr(old_.sortOrder));
          r == Ok(row) && rows == old(rows)[k := row]
    {
      var found := IndexOfId(rows, id);
      if found.None? {
        return Error(404, CategoryNotFound);
      }
      var k := found.value;
      var row := rows[k];
      var changed := false;
      if name.Some? {
        var n := Trim(name.value);
        if n == [] {
          return Error(400, NameRequired);
        }
        row := row.(name := n);
        changed := true;
      }
      if parentSent {
        if parentId == Some(id) {
          return Error(400, SelfParent);
        }
        if parentId.Some? && IndexOfId(rows, parentId.value).None? {
          return Error(400, ParentNotFound);
        }
        row := row.(parentId := parentId);
        changed := true;
      }
      if sortOrder.Some? {
        row := row.(sortOrder := sortOrder.value);
        changed := true;
      }
      if !changed {
        return Ok(rows[k]);
      }
      Rewrite(k, row);
      r := Ok(row);
    }

    /** The UPDATE of one row, its id kept. */
    method Rewrite(k: nat, row: Row)
      requires Valid() && k < |rows| && row.id == rows[k].id
      modifies this`rows
      ensures Valid() && rows == old(rows)[k := row]
    {
      rows := rows[k := row];
    }

    /** reorder_categories: one UPDATE per item, in the order given. */
    method Reorder(order: seq<ReorderItem>)
      requires Valid()
      modifies this`rows
      ensures Valid()
      ensures rows == Reordered(old(rows), order)
    {
      var i := 0;
      while i < |order|
        invariant 0 <= i <= |order|
        invariant rows == Reordered(old(rows), order[..i])
        invariant Valid()
      {
        assert order[..i + 1] == order[..i] + [order[i]];
        ReorderedStep(old(rows), order[..i], order[i]);
        rows := SetSortOrder(rows, order[i]);
        i := i + 1;
      }
      assert order[..i] == order;
    }
  }
}
