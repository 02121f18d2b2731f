// The category tree of the back-office category page: pre-order numbering,
// node search, reordering among siblings and moving a node to another parent.
// The page works on a JSON deep copy of the tree, so every operation is a
// function from the old tree value to a new one; a location is the path of
// child indices leading to the sibling list plus the index inside that list,
// where the page holds a reference to the sibling array.
module CategoryTree {
  import opened Wrappers

  datatype Category = Category(id: int, parentId: Option<int>, name: string, children: seq<Category>)

  type Forest = seq<Category>

  /** A sibling list (by the path of child indices from the root list) and an index in it. */
  datatype Loc = Loc(parent: seq<nat>, index: nat)

  /** Ids of all nodes in pre-order: a node, then its subtree, then its later siblings. */
  function Ids(f: Forest): seq<int>
  {
    if f == [] then [] else [f[0].id] + Ids(f[0].children) + Ids(f[1..])
  }

  lemma {:induction false} IdsAppend(a: Forest, b: Forest)
    ensures Ids(a + b) == Ids(a) + Ids(b)
  {
    if a == [] {
      assert a + b == b;
    } else {
      assert (a + b)[0] == a[0];
      assert (a + b)[1..] == a[1..] + b;
      IdsAppend(a[1..], b);
      assert Ids(a + b) == [a[0].id] + Ids(a[0].children) + Ids(a[1..] + b);
    }
  }

  /** The ids of one node's subtree: the node itself, then its descendants. */
  lemma {:induction false} IdsSingle(n: Category)
    ensures Ids([n]) == [n.id] + Ids(n.children)
  {
    assert [n][1..] == [];
  }

  /** Ids of the parts around index i. */
  lemma {:induction false} IdsSplit(s: Forest, i: nat)
    requires i < |s|
    ensures Ids(s) == Ids(s[..i]) + Ids([s[i]]) + Ids(s[i + 1..])
  {
    assert s == s[..i] + [s[i]] + s[i + 1..];
    IdsAppend(s[..i] + [s[i]], s[i + 1..]);
    IdsAppend(s[..i], [s[i]]);
  }

  lemma {:induction false} IdsRemoveAt(s: Forest, i: nat)
    requires i < |s|
    ensures multiset(Ids(s)) == multiset(Ids(RemoveAt(s, i))) + multiset(Ids([s[i]]))
  {
    IdsSplit(s, i);
    IdsAppend(s[..i], s[i + 1..]);
  }

  lemma {:induction false} IdsInsertAt(s: Forest, i: nat, x: Category)
    requires i <= |s|
    ensures multiset(Ids(InsertAt(s, i, x))) == multiset(Ids(s)) + multiset(Ids([x]))
  {
    var a, b := s[..i], s[i..];
    assert InsertAt(s, i, x) == a + [x] + b;
    assert Ids(a + [x] + b) == Ids(a) + Ids([x]) + Ids(b) by {
      IdsAppend(a + [x], b);
      IdsAppend(a, [x]);
    }
    assert Ids(s) == Ids(a) + Ids(b) by {
      assert s == a + b;
      IdsAppend(a, b);
    }
    MultisetMiddle(Ids(a), Ids([x]), Ids(b));
  }

  lemma MultisetMiddle<T>(a: seq<T>, m: seq<T>, b: seq<T>)
    ensures multiset(a + m + b) == multiset(a + b) + multiset(m)
  {
  }

  /** Replacing one node changes the ids by exactly that node's subtree. */
  lemma {:induction false} IdsReplaceAt(s: Forest, i: nat, n: Category)
    requires i < |s|
    ensures multiset(Ids(s[i := n])) + multiset(Ids([s[i]])) == multiset(Ids(s)) + multiset(Ids([n]))
  {
    var t := s[i := n];
    IdsSplit(s, i);
    IdsSplit(t, i);
    assert t[..i] == s[..i] && t[i] == n && t[i + 1..] == s[i + 1..];
    MultisetMiddle(Ids(s[..i]), Ids([n]), Ids(s[i + 1..]));
    MultisetMiddle(Ids(s[..i]), Ids([s[i]]), Ids(s[i + 1..]));
  }

  // ---- sibling lists addressed by paths ----

  predicate ValidList(f: Forest, q: seq<nat>)
  {
    q == [] || (q[0] < |f| && ValidList(f[q[0]].children, q[1..]))
  }

  function ListAt(f: Forest, q: seq<nat>): Forest
    requires ValidList(f, q)
  {
    if q == [] then f else ListAt(f[q[0]].children, q[1..])
  }

  /** The tree with the sibling list at q replaced by l. */
  function SetListAt(f: Forest, q: seq<nat>, l: Forest): (r: Forest)
    requires ValidList(f, q)
    ensures ValidList(r, q) && ListAt(r, q) == l
    ensures q != [] ==> |r| == |f|
  {
    if q == [] then l
    else f[q[0] := f[q[0]].(children := SetListAt(f[q[0]].children, q[1..], l))]
  }

  predicate ValidLoc(f: Forest, loc: Loc)
  {
    ValidList(f, loc.parent) && loc.index < |ListAt(f, loc.parent)|
  }

  function NodeAt(f: Forest, loc: Loc): Category
    requires ValidLoc(f, loc)
  {
    ListAt(f, loc.parent)[loc.index]
  }

  /** Replacing a sibling list changes the multiset of ids by exactly what the list held. */
  lemma {:induction false} IdsSetListAt(f: Forest, q: seq<nat>, l: Forest)
    requires ValidList(f, q)
    ensures multiset(Ids(SetListAt(f, q, l))) + multiset(Ids(ListAt(f, q))) == multiset(Ids(f)) + multiset(Ids(l))
  {
    if q != [] {
      var i := q[0];
      var n := f[i];
      var n' := n.(children := SetListAt(n.children, q[1..], l));
      assert SetListAt(f, q, l) == f[i := n'];
      assert ListAt(f, q) == ListAt(n.children, q[1..]);
      IdsSetListAt(n.children, q[1..], l);
      IdsReplaceAt(f, i, n');
      IdsSingle(n);
      IdsSingle(n');
      ReplaceAlgebra(multiset(Ids(f[i := n'])), multiset(Ids(f)), multiset(Ids(ListAt(f, q))), multiset(Ids(l)),
                     multiset(Ids(n'.children)), multiset(Ids(n.children)), multiset{n.id});
    }
  }

  /** The multiset bookkeeping of IdsSetListAt, apart from any tree: replacing a
      node whose subtree z + y becomes z + x, where x + old == y + new. */
  lemma {:induction false} ReplaceAlgebra<T>(a: multiset<T>, c: multiset<T>, lOld: multiset<T>, lNew: multiset<T>,
                                             x: multiset<T>, y: multiset<T>, z: multiset<T>)
    requires a + (z + y) == c + (z + x)
    requires x + lOld == y + lNew
    ensures a + lOld == c + lNew
  {
    forall e ensures (a + lOld)[e] == (c + lNew)[e] {
      assert (a + (z + y))[e] == (c + (z + x))[e];
      assert (x + lOld)[e] == (y + lNew)[e];
    }
  }

  lemma {:induction false} MultisetCancel<T>(x: multiset<T>, y: multiset<T>, z: multiset<T>)
    requires x + z == y + z
    ensures x == y
  {
    forall e ensures x[e] == y[e] {
      assert (x + z)[e] == (y + z)[e];
    }
  }

  // ---- findNodeInTree ----

  /** The first pre-order match of id, scanning list from index i on. */
  function FindFrom(list: Forest, id: int, i: nat): Option<Loc>
    requires i <= |list|
    decreases list, |list| - i
  {
    if i == |list| then None
    else if list[i].id == id then Some(Loc([], i))
    else match FindFrom(list[i].children, id, 0)
      case Some(l) => Some(Loc([i] + l.parent, l.index))
      case None => FindFrom(list, id, i + 1)
  }

  function Find(list: Forest, id: int): Option<Loc>
  {
    FindFrom(list, id, 0)
  }

  /** findNodeInTree: an indexed loop that descends into each node's children. */
  method FindNodeInTree(list: Forest, id: int) returns (r: Option<Loc>)
    ensures r == Find(list, id)
    decreases list
  {
    var i := 0;
    while i < |list|
      invariant 0 <= i <= |list|
      invariant Find(list, id) == FindFrom(list, id, i)
    {
      if list[i].id == id {
        return Some(Loc([], i));
      }
      var found := FindNodeInTree(list[i].children, id);
      if found.Some? {
        return Some(Loc([i] + found.value.parent, found.value.index));
      }
      i := i + 1;
    }
    return None;
  }

  lemma {:induction false} FindFromSound(list: Forest, id: int, i: nat)
    requires i <= |list|
    ensures FindFrom(list, id, i).Some? ==>
      var l := FindFrom(list, id, i).value; ValidLoc(list, l) && NodeAt(list, l).id == id
    decreases list, |list| - i
  {
    if i < |list| && list[i].id != id {
      FindFromSound(list[i].children, id, 0);
      FindFromSound(list, id, i + 1);
    }
  }

  /** A found location holds a node with the requested id. */
  lemma {:induction false} FindSound(list: Forest, id: int)
    ensures Find(list, id).Some? ==>
      var l := Find(list, id).value; ValidLoc(list, l) && NodeAt(list, l).id == id
  {
    FindFromSound(list, id, 0);
  }

  lemma {:induction false} FindFromComplete(list: Forest, id: int, i: nat)
    requires i <= |list|
    ensures FindFrom(list, id, i).None? <==> id !in Ids(list[i..])
    decreases list, |list| - i
  {
    if i < |list| {
      assert list[i..] == [list[i]] + list[i + 1..];
      IdsAppend([list[i]], list[i + 1..]);
      IdsSingle(list[i]);
      FindFromComplete(list[i].children, id, 0);
      assert list[i].children[0..] == list[i].children;
      FindFromComplete(list, id, i + 1);
    }
  }

  /** findNodeInTree returns null exactly when no node of the tree has the id. */
  lemma {:induction false} FindComplete(list: Forest, id: int)
    ensures Find(list, id).None? <==> id !in Ids(list)
  {
    FindFromComplete(list, id, 0);
    assert list[0..] == list;
  }

  /** Different ids are never found at the same location. */
  lemma {:induction false} FindDistinct(list: Forest, a: int, b: int)
    requires a != b && Find(list, a).Some? && Find(list, b).Some?
    ensures Find(list, a).value != Find(list, b).value
  {
    FindSound(list, a);
    FindSound(list, b);
  }

  // ---- buildFlatOrder ----

  datatype OrderItem = OrderItem(id: int, sortOrder: nat)

  /** ids numbered consecutively from start. */
  function Numbered(ids: seq<int>, start: nat): (r: seq<OrderItem>)
  {
    seq(|ids|, k requires 0 <= k < |ids| => OrderItem(ids[k], start + k))
  }

  lemma {:induction false} NumberedAppend(a: seq<int>, b: seq<int>, start: nat)
    ensures Numbered(a + b, start) == Numbered(a, start) + Numbered(b, start + |a|)
  {
    assert forall k :: 0 <= k < |a| + |b| ==> (a + b)[k] == if k < |a| then a[k] else b[k - |a|];
  }

  /** One step of the walk: the next node's number, then its subtree's numbers. */
  lemma {:induction false} WalkStep(nodes: Forest, i: nat, start: nat)
    requires i < |nodes|
    ensures Numbered(Ids(nodes[..i + 1]), start)
         == Numbered(Ids(nodes[..i]), start) + [OrderItem(nodes[i].id, start + |Ids(nodes[..i])|)]
            + Numbered(Ids(nodes[i].children), start + |Ids(nodes[..i])| + 1)
  {
    var before := Ids(nodes[..i]);
    assert nodes[..i + 1] == nodes[..i] + [nodes[i]];
    IdsAppend(nodes[..i], [nodes[i]]);
    IdsSingle(nodes[i]);
    assert Ids(nodes[..i + 1]) == (before + [nodes[i].id]) + Ids(nodes[i].children);
    NumberedAppend(before + [nodes[i].id], Ids(nodes[i].children), start);
    NumberedAppend(before, [nodes[i].id], start);
  }

  /** The walk's loop invariant survives one node and its subtree. */
  lemma WalkJoin(out0: seq<OrderItem>, nodes: Forest, i: nat, before: seq<OrderItem>, out: seq<OrderItem>)
    requires i < |nodes|
    requires before == out0 + Numbered(Ids(nodes[..i]), |out0|)
    requires out == before + [OrderItem(nodes[i].id, |before|)] + Numbered(Ids(nodes[i].children), |before| + 1)
    ensures out == out0 + Numbered(Ids(nodes[..i + 1]), |out0|)
  {
    WalkStep(nodes, i, |out0|);
    assert |before| == |out0| + |Ids(nodes[..i])|;
  }

  method Walk(nodes: Forest, out0: seq<OrderItem>) returns (out: seq<OrderItem>)
    ensures out == out0 + Numbered(Ids(nodes), |out0|)
    decreases nodes
  {
    out := out0;
    var i := 0;
    while i < |nodes|
      invariant 0 <= i <= |nodes|
      invariant out == out0 + Numbered(Ids(nodes[..i]), |out0|)
    {
      ghost var before := out;
      out := out + [OrderItem(nodes[i].id, |out|)];
      out := Walk(nodes[i].children, out);
      WalkJoin(out0, nodes, i, before, out);
      i := i + 1;
    }
    assert nodes[..i] == nodes;
  }

  /** buildFlatOrder: every node in pre-order, numbered 0, 1, 2, ... */
  method BuildFlatOrder(tree: Forest) returns (out: seq<OrderItem>)
    ensures |out| == |Ids(tree)|
    ensures forall k :: 0 <= k < |out| ==> out[k].id == Ids(tree)[k] && out[k].sortOrder == k
  {
    out := Walk(tree, []);
  }

  // ---- moveInArray ----

  function RemoveAt<T>(s: seq<T>, i: nat): (r: seq<T>)
    requires i < |s|
    ensures |r| == |s| - 1
  {
    s[..i] + s[i + 1..]
  }

  function InsertAt<T>(s: seq<T>, i: nat, x: T): (r: seq<T>)
    requires i <= |s|
    ensures |r| == |s| + 1
  {
    s[..i] + [x] + s[i..]
  }

  /** Array.prototype.splice clamps an insertion index to the array length. */
  function Clamp(i: nat, len: nat): nat
  {
    if i < len then i else len
  }

  /** moveInArray / arrayMove: take the item at `from` out and splice it back
      in at `to` (clamped to the shortened array). */
  function MoveInArray<T>(s: seq<T>, from: nat, to: nat): (r: seq<T>)
    requires from < |s|
    ensures |r| == |s| && multiset(r) == multiset(s)
  {
    var rest := RemoveAt(s, from);
    var d := Clamp(to, |rest|);
    MultisetRemoveInsert(s, from, d);
    InsertAt(rest, d, s[from])
  }

  lemma {:induction false} MultisetRemoveInsert<T>(s: seq<T>, from: nat, d: nat)
    requires from < |s| && d < |s|
    ensures multiset(InsertAt(RemoveAt(s, from), d, s[from])) == multiset(s)
  {
    var rest := RemoveAt(s, from);
    assert rest == s[..from] + s[from + 1..];
    assert s == s[..from] + [s[from]] + s[from + 1..];
    assert multiset(s) == multiset(s[..from]) + multiset{s[from]} + multiset(s[from + 1..]);
    assert multiset(rest) == multiset(s[..from]) + multiset(s[from + 1..]);
    var r := InsertAt(rest, d, s[from]);
    assert r == rest[..d] + [s[from]] + rest[d..];
    assert multiset(r) == multiset(rest[..d]) + multiset{s[from]} + multiset(rest[d..]);
    assert rest == rest[..d] + rest[d..];
    assert multiset(rest) == multiset(rest[..d]) + multiset(rest[d..]);
    assert multiset(r) == multiset(rest) + multiset{s[from]};
  }

  /** Where each item ends up: the moved item at the clamped target index,
      the items between shifted by one, the rest in place. */
  lemma {:induction false} MoveInArrayAt<T>(s: seq<T>, from: nat, to: nat, k: nat)
    requires from < |s| && k < |s|
    ensures var d := Clamp(to, |s| - 1);
      MoveInArray(s, from, to)[k] == (if k == d then s[from]
                                      else if from <= k < d then s[k + 1]
                                      else if d < k <= from then s[k - 1]
                                      else s[k])
  {
    var rest := RemoveAt(s, from);
    var d := Clamp(to, |rest|);
    var m := MoveInArray(s, from, to);
    assert m == rest[..d] + [s[from]] + rest[d..];
    if k < d {
      assert m[k] == rest[k];
    } else if k > d {
      assert m[k] == rest[k - 1];
    }
  }

  /** Moving an item back to where it came from restores the array. */
  lemma {:induction false} MoveInArrayInverse<T>(s: seq<T>, from: nat, to: nat)
    requires from < |s| && to < |s|
    ensures MoveInArray(MoveInArray(s, from, to), to, from) == s
  {
    var r := MoveInArray(MoveInArray(s, from, to), to, from);
    forall k | 0 <= k < |s| ensures r[k] == s[k] {
      MoveBackAt(s, from, to, k);
    }
  }

  /** Moving back returns each item to its own index. */
  lemma MoveBackAt<T>(s: seq<T>, from: nat, to: nat, k: nat)
    requires from < |s| && to < |s| && k < |s|
    ensures MoveInArray(MoveInArray(s, from, to), to, from)[k] == s[k]
  {
    var m := MoveInArray(s, from, to);
    var r := MoveInArray(m, to, from);
    assert |m| == |s| && Clamp(from, |m| - 1) == from && Clamp(to, |s| - 1) == to;
    if k == from {
      assert r[k] == m[to] by { MoveInArrayAt(m, to, from, k); }
      assert m[to] == s[from] by { MoveInArrayAt(s, from, to, to); }
    } else if to <= k < from {
      assert r[k] == m[k + 1] by { MoveInArrayAt(m, to, from, k); }
      assert m[k + 1] == s[k] by { MoveInArrayAt(s, from, to, k + 1); }
    } else if from < k <= to {
      assert r[k] == m[k - 1] by { MoveInArrayAt(m, to, from, k); }
      assert m[k - 1] == s[k] by { MoveInArrayAt(s, from, to, k - 1); }
    } else {
      assert r[k] == m[k] by { MoveInArrayAt(m, to, from, k); }
      assert m[k] == s[k] by { MoveInArrayAt(s, from, to, k); }
    }
  }

  // ---- reorderTreeById ----

  /** The index `to` handed to moveInArray when dropping on the slot before (or after) the target. */
  function SlotTarget(fromI: nat, targetI: nat, insertAfter: bool): nat
  {
    var toI := if insertAfter then targetI + 1 else targetI;
    if toI > fromI then toI - 1 else toI
  }

  predicate NoOpSlot(fromI: nat, targetI: nat, insertAfter: bool)
  {
    var toI := if insertAfter then targetI + 1 else targetI;
    fromI == toI || fromI + 1 == toI
  }

  /** reorderTreeById: move the dragged node next to the target when both share a sibling list. */
  function ReorderTreeById(tree: Forest, dragId: int, targetId: int, insertAfter: bool): Forest
  {
    var drag := Find(tree, dragId);
    var target := Find(tree, targetId);
    if drag.None? || target.None? || drag.value.parent != target.value.parent then tree
    else
      FindSound(tree, dragId);
      var q := drag.value.parent;
      var fromI := drag.value.index;
      var targetI := target.value.index;
      if NoOpSlot(fromI, targetI, insertAfter) then tree
      else SetListAt(tree, q, MoveInArray(ListAt(tree, q), fromI, SlotTarget(fromI, targetI, insertAfter)))
  }

  /** Reordering never adds or loses a node. */
  lemma {:induction false} ReorderKeepsNodes(tree: Forest, dragId: int, targetId: int, insertAfter: bool)
    ensures multiset(Ids(ReorderTreeById(tree, dragId, targetId, insertAfter))) == multiset(Ids(tree))
  {
    var drag := Find(tree, dragId);
    var target := Find(tree, targetId);
    if drag.Some? && target.Some? && drag.value.parent == target.value.parent {
      FindSound(tree, dragId);
      var q := drag.value.parent;
      var fromI := drag.value.index;
      var targetI := target.value.index;
      if !NoOpSlot(fromI, targetI, insertAfter) {
        var s := ListAt(tree, q);
        var moved := MoveInArray(s, fromI, SlotTarget(fromI, targetI, insertAfter));
        var r := SetListAt(tree, q, moved);
        assert ReorderTreeById(tree, dragId, targetId, insertAfter) == r;
        MoveIds(s, fromI, SlotTarget(fromI, targetI, insertAfter));
        IdsSetListAt(tree, q, moved);
        MultisetCancel(multiset(Ids(r)), multiset(Ids(tree)), multiset(Ids(s)));
      }
    }
  }

  /** Ids of a sibling list after a move are a permutation of the ids before. */
  lemma {:induction false} MoveIds(s: Forest, from: nat, to: nat)
    requires from < |s|
    ensures multiset(Ids(MoveInArray(s, from, to))) == multiset(Ids(s))
  {
    var rest := RemoveAt(s, from);
    IdsRemoveAt(s, from);
    IdsInsertAt(rest, Clamp(to, |rest|), s[from]);
  }

  /** Some node with dragId stands directly before (insertAfter: after) a node with targetId. */
  predicate NextTo(l: Forest, dragId: int, targetId: int, insertAfter: bool)
  {
    if insertAfter then exists j :: 0 < j < |l| && l[j - 1].id == targetId && l[j].id == dragId
    else exists j :: 0 <= j < |l| - 1 && l[j].id == dragId && l[j + 1].id == targetId
  }

  /** After a non-trivial reorder the dragged node sits directly before the
      target (or directly after it when dropped on the lower half). */
  lemma {:induction false} ReorderPlacesNextToTarget(tree: Forest, dragId: int, targetId: int, insertAfter: bool)
    requires dragId != targetId
    requires Find(tree, dragId).Some? && Find(tree, targetId).Some?
    requires Find(tree, dragId).value.parent == Find(tree, targetId).value.parent
    ensures var q := Find(tree, dragId).value.parent;
      var r := ReorderTreeById(tree, dragId, targetId, insertAfter);
      ValidList(r, q) && NextTo(ListAt(r, q), dragId, targetId, insertAfter)
  {
    FindSound(tree, dragId);
    FindSound(tree, targetId);
    FindDistinct(tree, dragId, targetId);
    var q := Find(tree, dragId).value.parent;
    var s := ListAt(tree, q);
    var f := Find(tree, dragId).value.index;
    var t := Find(tree, targetId).value.index;
    var r := ReorderTreeById(tree, dragId, targetId, insertAfter);
    if NoOpSlot(f, t, insertAfter) {
      assert r == tree;
      UnmovedNextTo(s, f, t, dragId, targetId, insertAfter);
    } else {
      var m := MoveInArray(s, f, SlotTarget(f, t, insertAfter));
      assert r == SetListAt(tree, q, m);
      assert ListAt(r, q) == m;
      MovedNextTo(s, f, t, dragId, targetId, insertAfter);
    }
  }

  /** When the slot is the dragged node's own, it already stands next to the target. */
  lemma UnmovedNextTo(s: Forest, f: nat, t: nat, dragId: int, targetId: int, insertAfter: bool)
    requires f < |s| && t < |s| && s[f].id == dragId && s[t].id == targetId
    requires NoOpSlot(f, t, insertAfter) && f != t
    ensures NextTo(s, dragId, targetId, insertAfter)
  {
    if insertAfter {
      assert f == t + 1 && s[f - 1].id == targetId;
    } else {
      assert f + 1 == t && s[f + 1].id == targetId;
    }
  }

  /** Moving the dragged node into its slot puts it next to the target. */
  lemma MovedNextTo(s: Forest, f: nat, t: nat, dragId: int, targetId: int, insertAfter: bool)
    requires f < |s| && t < |s| && s[f].id == dragId && s[t].id == targetId
    requires !NoOpSlot(f, t, insertAfter) && f != t
    ensures NextTo(MoveInArray(s, f, SlotTarget(f, t, insertAfter)), dragId, targetId, insertAfter)
  {
    var to := SlotTarget(f, t, insertAfter);
    var m := MoveInArray(s, f, to);
    var d := Clamp(to, |s| - 1);
    MoveInArrayAt(s, f, to, d);
    if insertAfter {
      assert d > 0;
      MoveInArrayAt(s, f, to, d - 1);
      assert m[d - 1] == s[t];
      assert m[d - 1].id == targetId && m[d].id == dragId;
    } else {
      assert d + 1 < |m|;
      MoveInArrayAt(s, f, to, d + 1);
      assert m[d + 1] == s[t];
      assert m[d].id == dragId && m[d + 1].id == targetId;
    }
  }

  // ---- moveNodeToParent ----

  /** The parent_id a move records: null (root), a parent id, or undefined when the move failed. */
  datatype ParentRef = Root | Parent(id: int) | Undefined

  function RefOf(targetParentId: Option<int>): ParentRef
  {
    if targetParentId.None? then Root else Parent(targetParentId.value)
  }

  datatype MoveResult = MoveResult(tree: Forest, newParentId: ParentRef)

  /** The node whose children list is addressed by a non-empty list path. */
  function OwnerAt(f: Forest, q: seq<nat>): Category
    requires q != [] && ValidList(f, q)
  {
    if |q| == 1 then f[q[0]] else OwnerAt(f[q[0]].children, q[1..])
  }

  /** The path of a located node's own children list. */
  function ChildPath(l: Loc): seq<nat>
  {
    l.parent + [l.index]
  }

  lemma {:induction false} ChildPathList(f: Forest, l: Loc)
    requires ValidLoc(f, l)
    ensures ValidList(f, ChildPath(l))
    ensures ListAt(f, ChildPath(l)) == NodeAt(f, l).children
    ensures OwnerAt(f, ChildPath(l)) == NodeAt(f, l)
    decreases l.parent
  {
    if l.parent != [] {
      var l' := Loc(l.parent[1..], l.index);
      assert ChildPath(l)[1..] == ChildPath(l');
      ChildPathList(f[l.parent[0]].children, l');
    }
  }

  /** Does the list path tq lie inside the subtree of the node at (dp, di)? */
  predicate Within(dp: seq<nat>, di: nat, tq: seq<nat>)
  {
    |tq| > 0 && (if dp == [] then tq[0] == di else tq[0] == dp[0] && Within(dp[1..], di, tq[1..]))
  }

  /** The list path tq once the node at (dp, di) has been spliced out: a later
      sibling on the way down moves up by one. */
  function Shift(dp: seq<nat>, di: nat, tq: seq<nat>): (r: seq<nat>)
    ensures |r| == |tq|
  {
    if tq == [] then []
    else if dp == [] then (if tq[0] > di then [tq[0] - 1] + tq[1..] else tq)
    else if tq[0] == dp[0] then [tq[0]] + Shift(dp[1..], di, tq[1..])
    else tq
  }

  /** The tree with the node at l spliced out of its sibling list. */
  function RemoveNode(f: Forest, l: Loc): Forest
    requires ValidLoc(f, l)
  {
    SetListAt(f, l.parent, RemoveAt(ListAt(f, l.parent), l.index))
  }

  /** After splicing out the node at (dp, di), a list outside its subtree is
      still there, at the shifted path, owned by a node with the same id. */
  lemma {:induction false} RemoveShift(f: Forest, dp: seq<nat>, di: nat, tq: seq<nat>)
    requires ValidLoc(f, Loc(dp, di)) && ValidList(f, tq) && !Within(dp, di, tq)
    ensures ValidList(RemoveNode(f, Loc(dp, di)), Shift(dp, di, tq))
    ensures tq != [] ==> OwnerAt(RemoveNode(f, Loc(dp, di)), Shift(dp, di, tq)).id == OwnerAt(f, tq).id
    decreases dp
  {
    if tq != [] {
      if dp == [] {
        RemoveShiftTop(f, di, tq);
      } else {
        var p := dp[0];
        var f1 := RemoveNode(f, Loc(dp, di));
        var sub := RemoveNode(f[p].children, Loc(dp[1..], di));
        assert f1 == f[p := f[p].(children := sub)];
        if tq[0] == p {
          RemoveShift(f[p].children, dp[1..], di, tq[1..]);
          RemoveShiftBelow(f, dp, di, tq, sub);
        }
      }
    }
  }

  /** Splicing out a node of the root list moves the later roots up by one. */
  lemma RemoveShiftTop(f: Forest, di: nat, tq: seq<nat>)
    requires di < |f| && ValidList(f, tq) && tq != [] && tq[0] != di
    ensures ValidList(RemoveNode(f, Loc([], di)), Shift([], di, tq))
    ensures OwnerAt(RemoveNode(f, Loc([], di)), Shift([], di, tq)).id == OwnerAt(f, tq).id
  {
    var f1 := RemoveNode(f, Loc([], di));
    var j := tq[0];
    assert f1 == f[..di] + f[di + 1..];
    if j < di {
      assert f1[j] == f[j];
    } else {
      assert f1[j - 1] == f[j];
      assert Shift([], di, tq)[1..] == tq[1..];
    }
  }

  /** The step of RemoveShift under the first node of the removal's path. */
  lemma RemoveShiftBelow(f: Forest, dp: seq<nat>, di: nat, tq: seq<nat>, sub: Forest)
    requires dp != [] && tq != [] && tq[0] == dp[0] && dp[0] < |f|
    requires ValidLoc(f, Loc(dp, di)) && ValidList(f, tq)
    requires sub == RemoveNode(f[dp[0]].children, Loc(dp[1..], di))
    requires RemoveNode(f, Loc(dp, di)) == f[dp[0] := f[dp[0]].(children := sub)]
    requires ValidList(sub, Shift(dp[1..], di, tq[1..]))
    requires tq[1..] != [] ==> OwnerAt(sub, Shift(dp[1..], di, tq[1..])).id == OwnerAt(f[dp[0]].children, tq[1..]).id
    ensures ValidList(RemoveNode(f, Loc(dp, di)), Shift(dp, di, tq))
    ensures OwnerAt(RemoveNode(f, Loc(dp, di)), Shift(dp, di, tq)).id == OwnerAt(f, tq).id
  {
    var s := Shift(dp, di, tq);
    assert s == [dp[0]] + Shift(dp[1..], di, tq[1..]);
    assert s[0] == dp[0] && s[1..] == Shift(dp[1..], di, tq[1..]);
  }

  /** The children list a move inserts into: the root list for null, the found
      parent's children otherwise, nothing when the parent is not in the tree. */
  function TargetListPath(tree: Forest, targetParentId: Option<int>): (r: Option<seq<nat>>)
    ensures r.Some? ==> ValidList(tree, r.value)
    ensures r.Some? && targetParentId.None? ==> r.value == []
    ensures r.Some? && targetParentId.Some? ==> r.value != [] && OwnerAt(tree, r.value).id == targetParentId.value
    ensures r.None? <==> targetParentId.Some? && targetParentId.value !in Ids(tree)
  {
    match targetParentId
    case None => Some([])
    case Some(pid) =>
      FindComplete(tree, pid);
      match Find(tree, pid)
      case None => None
      case Some(tl) =>
        FindSound(tree, pid);
        ChildPathList(tree, tl);
        Some(ChildPath(tl))
  }

  /** Splice the node at dl out, set its parent_id and insert it into the
      (shifted) target list at min(index, length after removal). */
  function Place(tree: Forest, dl: Loc, tq: seq<nat>, targetParentId: Option<int>, index: nat): Forest
    requires ValidLoc(tree, dl) && ValidList(tree, tq) && !Within(dl.parent, dl.index, tq)
  {
    var t1 := RemoveNode(tree, dl);
    var x := NodeAt(tree, dl).(parentId := targetParentId);
    RemoveShift(tree, dl.parent, dl.index, tq);
    var p := Shift(dl.parent, dl.index, tq);
    var l := ListAt(t1, p);
    SetListAt(t1, p, InsertAt(l, Clamp(index, |l|), x))
  }

  /** moveNodeToParent, with a drop inside the dragged node's own subtree refused
      like a drop on a missing parent. */
  function MoveNodeToParent(tree: Forest, dragId: int, targetParentId: Option<int>, targetSiblingIndex: nat): MoveResult
  {
    match Find(tree, dragId)
    case None => MoveResult(tree, Undefined)
    case Some(dl) =>
      FindSound(tree, dragId);
      match TargetListPath(tree, targetParentId)
      case None => MoveResult(tree, Undefined)
      case Some(tq) =>
        if Within(dl.parent, dl.index, tq) then MoveResult(tree, Undefined)
        else MoveResult(Place(tree, dl, tq, targetParentId, targetSiblingIndex), RefOf(targetParentId))
  }

  /** moveNodeToParent as the page has it: the target list is looked up before
      the splice, so a target inside the dragged subtree receives the node into
      its own detached subtree and the tree keeps only what is left. */
  function MoveNodeToParentAsWritten(tree: Forest, dragId: int, targetParentId: Option<int>, targetSiblingIndex: nat): MoveResult
  {
    match Find(tree, dragId)
    case None => MoveResult(tree, Undefined)
    case Some(dl) =>
      FindSound(tree, dragId);
      match TargetListPath(tree, targetParentId)
      case None => MoveResult(tree, Undefined)
      case Some(tq) =>
        if Within(dl.parent, dl.index, tq) then MoveResult(RemoveNode(tree, dl), RefOf(targetParentId))
        else MoveResult(Place(tree, dl, tq, targetParentId, targetSiblingIndex), RefOf(targetParentId))
  }

  lemma {:induction false} IdsRemoveNode(f: Forest, l: Loc)
    requires ValidLoc(f, l)
    ensures multiset(Ids(RemoveNode(f, l))) + multiset(Ids([NodeAt(f, l)])) == multiset(Ids(f))
  {
    var s := ListAt(f, l.parent);
    var rest := RemoveAt(s, l.index);
    IdsSetListAt(f, l.parent, rest);
    IdsRemoveAt(s, l.index);
    RemoveAlgebra(multiset(Ids(RemoveNode(f, l))), multiset(Ids(f)), multiset(Ids(s)), multiset(Ids(rest)),
                  multiset(Ids([s[l.index]])));
  }

  lemma {:induction false} RemoveAlgebra<T>(a: multiset<T>, c: multiset<T>, s: multiset<T>, r: multiset<T>, n: multiset<T>)
    requires a + s == c + r && s == r + n
    ensures a + n == c
  {
    forall e ensures (a + n)[e] == c[e] {
      assert (a + s)[e] == (c + r)[e];
    }
  }

  lemma {:induction false} IdsPlace(tree: Forest, dl: Loc, tq: seq<nat>, targetParentId: Option<int>, index: nat)
    requires ValidLoc(tree, dl) && ValidList(tree, tq) && !Within(dl.parent, dl.index, tq)
    ensures multiset(Ids(Place(tree, dl, tq, targetParentId, index))) == multiset(Ids(tree))
  {
    var t1 := RemoveNode(tree, dl);
    var n := NodeAt(tree, dl);
    var x := n.(parentId := targetParentId);
    RemoveShift(tree, dl.parent, dl.index, tq);
    var p := Shift(dl.parent, dl.index, tq);
    var l := ListAt(t1, p);
    var l' := InsertAt(l, Clamp(index, |l|), x);
    var r := SetListAt(t1, p, l');
    assert Place(tree, dl, tq, targetParentId, index) == r;
    IdsRemoveNode(tree, dl);
    IdsSetListAt(t1, p, l');
    IdsInsertAt(l, Clamp(index, |l|), x);
    IdsSingle(n);
    IdsSingle(x);
    PlaceAlgebra(multiset(Ids(r)), multiset(Ids(l)), multiset(Ids(t1)), multiset(Ids(l')),
                 multiset(Ids([x])), multiset(Ids([n])), multiset(Ids(tree)));
  }

  lemma {:induction false} PlaceAlgebra<T>(r: multiset<T>, l: multiset<T>, t1: multiset<T>, l': multiset<T>,
                                           x: multiset<T>, n: multiset<T>, t: multiset<T>)
    requires r + l == t1 + l' && l' == l + x && t1 + n == t && x == n
    ensures r == t
  {
    forall e ensures r[e] == t[e] {
      assert (r + l)[e] == (t1 + l')[e];
    }
  }

  /** Moving to another parent never adds or loses a node. */
  lemma {:induction false} MoveKeepsNodes(tree: Forest, dragId: int, targetParentId: Option<int>, index: nat)
    ensures multiset(Ids(MoveNodeToParent(tree, dragId, targetParentId, index).tree)) == multiset(Ids(tree))
  {
    var m := MoveNodeToParent(tree, dragId, targetParentId, index);
    var d := Find(tree, dragId);
    var t := TargetListPath(tree, targetParentId);
    if d.Some? && t.Some? {
      FindSound(tree, dragId);
      if !Within(d.value.parent, d.value.index, t.value) {
        assert m.tree == Place(tree, d.value, t.value, targetParentId, index);
        IdsPlace(tree, d.value, t.value, targetParentId, index);
      } else {
        assert m.tree == tree;
      }
    } else {
      assert m.tree == tree;
    }
  }

  /** A successful move leaves the dragged node, re-parented, in the children
      list of the target parent (the root list for null) at min(index, length). */
  lemma {:induction false} MovePlacesUnderParent(tree: Forest, dragId: int, targetParentId: Option<int>, index: nat)
    ensures var m := MoveNodeToParent(tree, dragId, targetParentId, index);
      m.newParentId != Undefined ==>
        m.newParentId == RefOf(targetParentId) &&
        exists p :: ValidList(m.tree, p) &&
          (targetParentId.None? ==> p == []) &&
          (targetParentId.Some? ==> p != [] && OwnerAt(m.tree, p).id == targetParentId.value) &&
          exists k :: 0 <= k < |ListAt(m.tree, p)| && ListAt(m.tree, p)[k].id == dragId &&
            ListAt(m.tree, p)[k].parentId == targetParentId &&
            k == (if index <= |ListAt(m.tree, p)| - 1 then index else |ListAt(m.tree, p)| - 1)
  {
    var m := MoveNodeToParent(tree, dragId, targetParentId, index);
    if m.newParentId != Undefined {
      var dl := Find(tree, dragId).value;
      FindSound(tree, dragId);
      var tq := TargetListPath(tree, targetParentId).value;
      var t1 := RemoveNode(tree, dl);
      var x := NodeAt(tree, dl).(parentId := targetParentId);
      RemoveShift(tree, dl.parent, dl.index, tq);
      var p := Shift(dl.parent, dl.index, tq);
      var l := ListAt(t1, p);
      var k := Clamp(index, |l|);
      var l' := InsertAt(l, k, x);
      assert m.tree == SetListAt(t1, p, l');
      assert ListAt(m.tree, p) == l';
      assert l'[k] == x;
      if targetParentId.Some? {
        OwnerAfterSet(t1, p, l');
      }
    }
  }

  /** Replacing a list does not change which node owns it. */
  lemma {:induction false} OwnerAfterSet(f: Forest, q: seq<nat>, l: Forest)
    requires q != [] && ValidList(f, q)
    ensures OwnerAt(SetListAt(f, q, l), q).id == OwnerAt(f, q).id
    decreases q
  {
    if |q| > 1 {
      OwnerAfterSet(f[q[0]].children, q[1..], l);
    }
  }

  /** A failed move returns the tree unchanged and records undefined. */
  lemma {:induction false} MoveRefused(tree: Forest, dragId: int, targetParentId: Option<int>, index: nat)
    requires dragId !in Ids(tree) || (targetParentId.Some? && targetParentId.value !in Ids(tree))
    ensures MoveNodeToParent(tree, dragId, targetParentId, index) == MoveResult(tree, Undefined)
  {
    FindComplete(tree, dragId);
  }

  /** Dropping the only root category onto its own child row: the page's
      moveNodeToParent leaves an empty tree. */
  lemma {:induction false} MoveIntoOwnChildLosesNodes()
    ensures var tree := [Category(1, None, "A", [Category(2, Some(1), "B", [])])];
      MoveNodeToParentAsWritten(tree, 1, Some(1), 0).tree == [] &&
      MoveNodeToParent(tree, 1, Some(1), 0) == MoveResult(tree, Undefined) &&
      |Ids(tree)| == 2
  {
    var tree := [Category(1, None, "A", [Category(2, Some(1), "B", [])])];
    assert Find(tree, 1) == Some(Loc([], 0));
    assert Within([], 0, [0]);
  }

  /** As written, every drop inside the dragged node's subtree loses that whole subtree. */
  lemma {:induction false} AsWrittenDropsSubtree(tree: Forest, dragId: int, targetParentId: Option<int>, index: nat)
    requires Find(tree, dragId).Some? && TargetListPath(tree, targetParentId).Some?
    requires Within(Find(tree, dragId).value.parent, Find(tree, dragId).value.index, TargetListPath(tree, targetParentId).value)
    ensures |Ids(MoveNodeToParentAsWritten(tree, dragId, targetParentId, index).tree)| < |Ids(tree)|
  {
    var dl := Find(tree, dragId).value;
    FindSound(tree, dragId);
    IdsRemoveNode(tree, dl);
    IdsSingle(NodeAt(tree, dl));
    assert |multiset(Ids(RemoveNode(tree, dl)))| < |multiset(Ids(tree))|;
  }
}
