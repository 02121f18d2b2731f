// State of the back-office category page: the tree being edited, the parent
// changes recorded by cross-parent drops, the unsaved-order flag and the id
// being dragged; drops update that state and saving turns it into requests.
module CategoryPage {
  import opened Wrappers
  import opened CategoryTree

  /** One recorded parent change, keyed by category id. */
  datatype Entry = Entry(id: int, parent: ParentRef)

  /** Object.entries lists integer keys in ascending numeric order. */
  predicate KeysAscending(e: seq<Entry>)
  {
    forall i, j :: 0 <= i < j < |e| ==> e[i].id < e[j].id
  }

  function Lookup(e: seq<Entry>, k: int): Option<ParentRef>
  {
    if e == [] then None else if e[0].id == k then Some(e[0].parent) else Lookup(e[1..], k)
  }

  /** {...m, [k]: v} on an object with integer keys. */
  function SetEntry(e: seq<Entry>, k: int, v: ParentRef): (r: seq<Entry>)
    requires KeysAscending(e)
    ensures KeysAscending(r)
    ensures forall x :: x in r ==> x in e || x == Entry(k, v)
    ensures Lookup(r, k) == Some(v)
    ensures forall j :: j != k ==> Lookup(r, j) == Lookup(e, j)
  {
    if e == [] then [Entry(k, v)]
    else if k < e[0].id then
      LookupBelow(e, k);
      [Entry(k, v)] + e
    else if k == e[0].id then [Entry(k, v)] + e[1..]
    else
      var t := SetEntry(e[1..], k, v);
      SetEntryBehind(e, k, v, t);
      [e[0]] + t
  }

  /** The step of SetEntry past a smaller key: the first entry stays in front. */
  lemma SetEntryBehind(e: seq<Entry>, k: int, v: ParentRef, t: seq<Entry>)
    requires KeysAscending(e) && e != [] && e[0].id < k
    requires KeysAscending(t) && Lookup(t, k) == Some(v)
    requires forall x :: x in t ==> x in e[1..] || x == Entry(k, v)
    requires forall j :: j != k ==> Lookup(t, j) == Lookup(e[1..], j)
    ensures var r := [e[0]] + t;
      KeysAscending(r) && Lookup(r, k) == Some(v) &&
      (forall x :: x in r ==> x in e || x == Entry(k, v)) &&
      (forall j :: j != k ==> Lookup(r, j) == Lookup(e, j))
  {
    var r := [e[0]] + t;
    assert r[0] == e[0] && r[1..] == t;
    forall x | x in t ensures e[0].id < x.id {
      if x in e[1..] {
        var i :| 0 <= i < |e[1..]| && e[1..][i] == x;
        assert e[i + 1] == x;
      }
    }
  }

  lemma {:induction false} LookupBelow(e: seq<Entry>, k: int)
    requires KeysAscending(e) && (e == [] || k < e[0].id)
    ensures Lookup(e, k) == None
  {
    if e != [] {
      LookupBelow(e[1..], k);
    }
  }

  datatype Request = PutParent(id: int, parent: ParentRef) | PatchOrder(order: seq<OrderItem>)

  /** The PUT requests of a save: one per recorded parent change, in key order. */
  function ParentRequests(e: seq<Entry>): (r: seq<Request>)
    ensures |r| == |e|
    ensures forall i :: 0 <= i < |e| ==> r[i] == PutParent(e[i].id, e[i].parent)
  {
    if e == [] then [] else [PutParent(e[0].id, e[0].parent)] + ParentRequests(e[1..])
  }

  class CategoryListPage {
    var tree: Forest
    var movedParents: seq<Entry>
    var orderDirty: bool
    var dragId: Option<int>
    var error: Option<string>

    predicate Valid()
      reads this
    {
      KeysAscending(movedParents)
    }

    constructor (fetched: Forest)
      ensures Valid()
      ensures tree == fetched && movedParents == [] && !orderDirty && dragId.None? && error.None?
    {
      tree := fetched;
      movedParents := [];
      orderDirty := false;
      dragId := None;
      error := None;
    }

    /** handleDragStart: remember the dragged id. */
    method DragStart(nodeId: int)
      modifies this`dragId
      ensures dragId == Some(nodeId)
    {
      dragId := Some(nodeId);
    }

    /** handleDrop on the upper (insertAfter false) or lower half of a target row. */
    method HandleDrop(targetNodeId: int, insertAfter: bool, targetParentId: Option<int>, targetIndex: nat)
      requires Valid()
      modifies this`tree, this`movedParents, this`orderDirty, this`dragId
      ensures Valid()
      ensures multiset(Ids(tree)) == multiset(Ids(old(tree)))
      ensures old(dragId).None? || old(dragId) == Some(0) || old(dragId) == Some(targetNodeId) ==>
        tree == old(tree) && movedParents == old(movedParents) && orderDirty == old(orderDirty) && dragId == old(dragId)
      ensures old(dragId).Some? && old(dragId) != Some(0) && old(dragId) != Some(targetNodeId) ==>
        dragId.None? &&
        var d := old(dragId).value;
        var dl := Find(old(tree), d);
        var tl := Find(old(tree), targetNodeId);
        if dl.None? || tl.None? then
          tree == old(tree) && movedParents == old(movedParents) && orderDirty == old(orderDirty)
        else if dl.value.parent == tl.value.parent then
          tree == ReorderTreeById(old(tree), d, targetNodeId, insertAfter) &&
          movedParents == old(movedParents) && orderDirty
        else
          var m := MoveNodeToParent(old(tree), d, targetParentId, if insertAfter then targetIndex + 1 else targetIndex);
          tree == m.tree && movedParents == SetEntry(old(movedParents), d, m.newParentId) && orderDirty
    {
      if dragId.None? || dragId == Some(0) || dragId == Some(targetNodeId) {
        return;
      }
      var d := dragId.value;
      var dragLoc := FindNodeInTree(tree, d);
      var targetLoc := FindNodeInTree(tree, targetNodeId);
      if dragLoc.None? || targetLoc.None? {
        dragId := None;
        return;
      }
      var dropIndex := if insertAfter then targetIndex + 1 else targetIndex;
      if dragLoc.value.parent == targetLoc.value.parent {
        ApplyReorder(d, targetNodeId, insertAfter);
      } else {
        ApplyMove(d, targetParentId, dropIndex);
      }
      dragId := None;
    }

    /** A drop within one sibling list: the tree is reordered, nothing is recorded. */
    method ApplyReorder(d: int, targetNodeId: int, insertAfter: bool)
      modifies this`tree, this`orderDirty
      ensures tree == ReorderTreeById(old(tree), d, targetNodeId, insertAfter) && orderDirty
      ensures multiset(Ids(tree)) == multiset(Ids(old(tree)))
    {
      ReorderKeepsNodes(tree, d, targetNodeId, insertAfter);
      tree := ReorderTreeById(tree, d, targetNodeId, insertAfter);
      orderDirty := true;
    }

    /** A drop under another parent: the node moves and its new parent is recorded. */
    method ApplyMove(d: int, targetParentId: Option<int>, dropIndex: nat)
      requires Valid()
      modifies this`tree, this`movedParents, this`orderDirty
      ensures Valid() && orderDirty
      ensures var m := MoveNodeToParent(old(tree), d, targetParentId, dropIndex);
        tree == m.tree && movedParents == SetEntry(old(movedParents), d, m.newParentId)
      ensures multiset(Ids(tree)) == multiset(Ids(old(tree)))
    {
      MoveKeepsNodes(tree, d, targetParentId, dropIndex);
      var m := MoveNodeToParent(tree, d, targetParentId, dropIndex);
      tree := m.tree;
      movedParents := SetEntry(movedParents, d, m.newParentId);
      orderDirty := true;
    }

    /** reorder: PUT every recorded parent change, then PATCH the flat order.
        failAt is the index of the first request the server rejects, if any;
        requests after it are not sent and the unsaved state stays. On success
        the recorded changes are cleared and the tree is fetched again, which
        clears the error shown. */
    method Reorder(failAt: Option<nat>, failMessage: string, fetched: Forest) returns (sent: seq<Request>)
      requires Valid()
      modifies this`tree, this`movedParents, this`orderDirty, this`error
      ensures Valid()
      ensures |sent| >= 1 ==> sent[..|sent| - 1] <= ParentRequests(old(movedParents))
      ensures var all := |old(movedParents)| + 1;
        if failAt.Some? && failAt.value < all then
          |sent| == failAt.value + 1 && tree == old(tree) && movedParents == old(movedParents) &&
          orderDirty == old(orderDirty) && error == Some(if failMessage == "" then "순서 저장 실패" else failMessage)
        else
          |sent| == all && sent[..all - 1] == ParentRequests(old(movedParents)) &&
          sent[all - 1].PatchOrder? && |sent[all - 1].order| == |Ids(old(tree))| &&
          (forall k :: 0 <= k < |Ids(old(tree))| ==>
             sent[all - 1].order[k] == OrderItem(Ids(old(tree))[k], k)) &&
          tree == fetched && movedParents == [] && !orderDirty && error == None
    {
      var failed;
      sent, failed := SendParents(movedParents, failAt);
      if failed {
        error := Some(if failMessage == "" then "순서 저장 실패" else failMessage);
        PrefixOfPrefix(ParentRequests(movedParents), failAt.value);
        return;
      }
      var order := BuildFlatOrder(tree);
      sent := sent + [PatchOrder(order)];
      assert sent[..|sent| - 1] == ParentRequests(movedParents);
      if failAt == Some(|movedParents|) {
        error := Some(if failMessage == "" then "순서 저장 실패" else failMessage);
        return;
      }
      assert forall k :: 0 <= k < |order| ==> order[k] == OrderItem(Ids(tree)[k], k);
      movedParents := [];
      orderDirty := false;
      error := None;
      tree := fetched;
    }
  }

  /** The PUT loop of a save: the requests go out in key order until the one
      at failAt, which is the last sent. */
  method SendParents(e: seq<Entry>, failAt: Option<nat>) returns (sent: seq<Request>, failed: bool)
    ensures failed <==> failAt.Some? && failAt.value < |e|
    ensures failed ==> sent == ParentRequests(e)[..failAt.value + 1]
    ensures !failed ==> sent == ParentRequests(e)
  {
    var puts := ParentRequests(e);
    sent := [];
    var i := 0;
    while i < |e|
      invariant 0 <= i <= |e|
      invariant sent == puts[..i]
      invariant failAt.None? || failAt.value >= i
    {
      assert puts[..i + 1] == puts[..i] + [puts[i]];
      sent := sent + [puts[i]];
      if failAt == Some(i) {
        return sent, true;
      }
      i := i + 1;
    }
    assert puts[..i] == puts;
    failed := false;
  }

  /** Dropping the last of the first k + 1 items leaves a prefix. */
  lemma PrefixOfPrefix<T>(s: seq<T>, k: nat)
    requires k < |s|
    ensures s[..k + 1][..k] <= s
  {
    assert s[..k + 1][..k] == s[..k];
  }
}
