// The post prefix ("말머리") endpoints: the name check, and create, read,
// rename, delete and list on the prefix table.
module PostPrefixes {
  import opened Wrappers
  import opened Strings
  import opened Sorting

  const NameMax := 20
  const NameMissing := "말머리 이름을 입력하세요."
  const NameTooLong := "말머리는 최대 20자까지 입력할 수 있습니다."
  const NotFound := "말머리를 찾을 수 없습니다."

  datatype Prefix = Prefix(id: nat, name: string, sortOrder: int)

  /** The `{id, name}` body PUT answers with. */
  datatype Renamed = Renamed(id: nat, name: string)

  /** _validate_name: the trimmed name, or 400 when it is blank or longer
      than 20. */
  function ValidName(name: string): (r: Response<string>)
    ensures r.Ok? <==> Trim(name) != [] && |Trim(name)| <= NameMax
    ensures r.Ok? ==> r.value == Trim(name)
    ensures Trim(name) == [] ==> r == Error(400, NameMissing)
    ensures |Trim(name)| > NameMax ==> r == Error(400, NameTooLong)
  {
    var s := Trim(name);
    if s == [] then Error(400, NameMissing)
    else if |s| > NameMax then Error(400, NameTooLong)
    else Ok(s)
  }

  /** An accepted name is accepted again as it is. */
  lemma ValidNameIdempotent(name: string)
    requires ValidName(name).Ok?
    ensures ValidName(ValidName(name).value) == ValidName(name)
  {
    TrimIdempotent(name);
  }

  /** The bound is inclusive: exactly 20 characters after trimming pass. */
  lemma TwentyAccepted(name: string)
    requires |Trim(name)| == NameMax
    ensures ValidName(name) == Ok(Trim(name))
  {
  }

  /** The position of the prefix with this id. */
  function IndexOfPrefix(ps: seq<Prefix>, id: int): (r: Option<nat>)
    ensures r.Some? ==> r.value < |ps| && ps[r.value].id == id
    ensures r.None? ==> forall i :: 0 <= i < |ps| ==> ps[i].id != id
  {
    if ps == [] then None
    else if ps[0].id == id then Some(0)
    else match IndexOfPrefix(ps[1..], id)
      case Some(k) => Some(k + 1)
      case None => None
  }

  /** The ids increase along the table and stay below the next id. */
  predicate IdsIncreasing(ps: seq<Prefix>, nextId: nat)
  {
    (forall i :: 0 <= i < |ps| ==> ps[i].id < nextId) &&
    (forall i, j :: 0 <= i < j < |ps| ==> ps[i].id < ps[j].id)
  }

  // ---------------------------------------------------------------------
  // The list
  // ---------------------------------------------------------------------

  datatype Listed = Listed(id: nat, name: string, sortOrder: int, postCount: nat)

  /** The number of posts whose prefix_id is this id. */
  function PostCount(postPrefixes: seq<Option<int>>, id: int): (r: nat)
    ensures r <= |postPrefixes|
    ensures r == multiset(postPrefixes)[Some(id)]
    ensures r == 0 <==> Some(id) !in postPrefixes
  {
    if postPrefixes == [] then 0
    else
      assert postPrefixes == [postPrefixes[0]] + postPrefixes[1..];
      (if postPrefixes[0] == Some(id) then 1 else 0) + PostCount(postPrefixes[1..], id)
  }

  /** ORDER BY sort_order, id. */
  predicate ListedBefore(a: Listed, b: Listed)
  {
    a.sortOrder < b.sortOrder || (a.sortOrder == b.sortOrder && a.id < b.id)
  }

  lemma ListedBeforeIsStrict()
    ensures StrictOrder(ListedBefore)
  {
  }

  function WithCounts(ps: seq<Prefix>, postPrefixes: seq<Option<int>>): (r: seq<Listed>)
    ensures |r| == |ps|
    ensures forall i :: 0 <= i < |ps| ==>
      r[i] == Listed(ps[i].id, ps[i].name, ps[i].sortOrder, PostCount(postPrefixes, ps[i].id))
  {
    seq(|ps|, i requires 0 <= i < |ps| => Listed(ps[i].id, ps[i].name, ps[i].sortOrder, PostCount(postPrefixes, ps[i].id)))
  }

  /** GET /api/post-prefixes: every prefix with its post count, by sort
      order then id. */
  function ListPrefixes(ps: seq<Prefix>, postPrefixes: seq<Option<int>>): (r: seq<Listed>)
    ensures multiset(r) == multiset(WithCounts(ps, postPrefixes))
    ensures SortedBy(r, ListedBefore)
  {
    ListedBeforeIsStrict();
    SortBySorted(WithCounts(ps, postPrefixes), ListedBefore);
    SortBy(WithCounts(ps, postPrefixes), ListedBefore)
  }

  /** Every prefix is listed once with its count, including those no post
      uses. */
  lemma EveryPrefixListed(ps: seq<Prefix>, postPrefixes: seq<Option<int>>, i: nat)
    requires i < |ps|
    ensures Listed(ps[i].id, ps[i].name, ps[i].sortOrder, PostCount(postPrefixes, ps[i].id)) in ListPrefixes(ps, postPrefixes)
  {
    var w := WithCounts(ps, postPrefixes);
    assert w[i] in multiset(w);
    assert w[i] in multiset(ListPrefixes(ps, postPrefixes));
  }

  // ---------------------------------------------------------------------
  // The table
  // ---------------------------------------------------------------------

  class PrefixStore {
    var prefixes: seq<Prefix>
    var nextId: nat

    predicate Valid()
      reads this
    {
      IdsIncreasing(prefixes, nextId)
    }

    constructor ()
      ensures Valid() && prefixes == [] && nextId == 1
    {
      prefixes := [];
      nextId := 1;
    }

    /** GET /api/post-prefixes/{id}. */
    function Get(id: int): (r: Response<Prefix>)
      reads this
      ensures IndexOfPrefix(prefixes, id).None? <==> r == Error(404, NotFound)
      ensures r.Ok? ==> r.value in prefixes && r.value.id == id
    {
      match IndexOfPrefix(prefixes, id)
      case Some(k) => Ok(prefixes[k])
      case None => Error(404, NotFound)
    }

    /** POST /api/post-prefixes: a valid name is stored with sort order 0
        under the next id. */
    method Create(name: string) returns (r: Response<Prefix>)
      requires Valid()
      modifies this
      ensures Valid()
      ensures ValidName(name).Error? ==>
        r == Error(ValidName(name).status, ValidName(name).detail) && prefixes == old(prefixes)
      ensures ValidName(name).Ok? ==>
        r == Ok(Prefix(old(nextId), Trim(name), 0)) && prefixes == old(prefixes) + [r.value] &&
        nextId == old(nextId) + 1
    {
      var v := ValidName(name);
      if v.Error? {
        return Error(v.status, v.detail);
      }
      var row := Prefix(nextId, v.value, 0);
      prefixes := prefixes + [row];
      nextId := nextId + 1;
      r := Ok(row);
    }

    /** PUT /api/post-prefixes/{id}: 404 for an unknown id; without a name
        the stored id and name come back untouched; else the name is checked
        and replaced, and the new id and name come back. */
    method Update(id: int, name: Option<string>) returns (r: Response<Renamed>)
      requires Valid()
      modifies this`prefixes
      ensures Valid()
      ensures IndexOfPrefix(old(prefixes), id).None? ==> r == Error(404, NotFound) && prefixes == old(prefixes)
      ensures IndexOfPrefix(old(prefixes), id).Some? && name.None? ==>
        var k := IndexOfPrefix(old(prefixes), id).value;
        r == Ok(Renamed(old(prefixes)[k].id, old(prefixes)[k].name)) && prefixes == old(prefixes)
      ensures IndexOfPrefix(old(prefixes), id).Some? && name.Some? && ValidName(name.value).Error? ==>
        r == Error(400, ValidName(name.value).detail) && prefixes == old(prefixes)
      ensures IndexOfPrefix(old(prefixes), id).Some? && name.Some? && ValidName(name.value).Ok? ==>
        var k := IndexOfPrefix(old(prefixes), id).value;
        r == Ok(Renamed(id as nat, Trim(name.value))) &&
        prefixes == old(prefixes)[k := old(prefixes)[k].(name := Trim(name.value))]
    {
      var found := IndexOfPrefix(prefixes, id);
      if found.None? {
        return Error(404, NotFound);
      }
      var k := found.value;
      if name.None? {
        return Ok(Renamed(prefixes[k].id, prefixes[k].name));
      }
      var v := ValidName(name.value);
      if v.Error? {
        return Error(v.status, v.detail);
      }
      prefixes := prefixes[k := prefixes[k].(name := v.value)];
      r := Ok(Renamed(id as nat, v.value));
    }

    /** DELETE /api/post-prefixes/{id}: 404 for an unknown id, else the row
        is removed. */
    method Delete(id: int) returns (r: Response<()>)
      requires Valid()
      modifies this`prefixes
      ensures Valid()
      ensures IndexOfPrefix(old(prefixes), id).None? ==> r == Error(404, NotFound) && prefixes == old(prefixes)
      ensures IndexOfPrefix(old(prefixes), id).Some? ==>
        var k := IndexOfPrefix(old(prefixes), id).value;
        r == Ok(()) && prefixes == old(prefixes)[..k] + old(prefixes)[k + 1..]
      ensures forall p :: p in prefixes ==> p in old(prefixes) && p.id != id
    {
      var found := IndexOfPrefix(prefixes, id);
      if found.None? {
        return Error(404, NotFound);
      }
      var k := found.value;
      ghost var before := prefixes;
      prefixes := prefixes[..k] + prefixes[k + 1..];
      assert forall i :: 0 <= i < |prefixes| ==> prefixes[i] == (if i < k then before[i] else before[i + 1]);
      r := Ok(());
    }
  }
}
