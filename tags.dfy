// The tag endpoints: get-or-create by trimmed name, and the tag list, all
// tags or only those used by published posts with their counts, by name.
module Tags {
  import opened Wrappers
  import opened Strings
  import opened Sorting

  const NameMissing := "태그명을 입력하세요."

  datatype TagRow = TagRow(id: nat, name: string)

  /** The first row whose name equals this one under the collation, if any
      (`WHERE name = :name` ignores case). */
  function FindByName(tags: seq<TagRow>, name: string): (r: Option<nat>)
    ensures r.Some? ==> r.value < |tags| && SameText(tags[r.value].name, name)
    ensures r.Some? ==> forall i :: 0 <= i < r.value ==> !SameText(tags[i].name, name)
    ensures r.None? ==> forall i :: 0 <= i < |tags| ==> !SameText(tags[i].name, name)
  {
    if tags == [] then None
    else if SameText(tags[0].name, name) then Some(0)
    else match FindByName(tags[1..], name)
      case Some(k) => Some(k + 1)
      case None => None
  }

  /** Names equal under the collation find the same row. */
  lemma {:induction false} FindByNameFolds(tags: seq<TagRow>, a: string, b: string)
    requires SameText(a, b)
    ensures FindByName(tags, a) == FindByName(tags, b)
  {
    if tags != [] {
      FindByNameFolds(tags[1..], a, b);
    }
  }

  /** Ids below the next id, and no name stored twice: the UNIQUE index on
      the name compares under the collation, so two names differing only in
      case are the same name. */
  predicate WellFormed(tags: seq<TagRow>, nextId: nat)
  {
    (forall i :: 0 <= i < |tags| ==> tags[i].id < nextId) &&
    (forall i, j :: 0 <= i < j < |tags| ==> tags[i].id != tags[j].id && !SameText(tags[i].name, tags[j].name))
  }

  // ---------------------------------------------------------------------
  // The list
  // ---------------------------------------------------------------------

  predicate NameBefore(a: TagRow, b: TagRow)
  {
    LexLess(a.name, b.name)
  }

  lemma NameBeforeIsStrict()
    ensures StrictOrder(NameBefore)
  {
    forall a: TagRow ensures !NameBefore(a, a) {
      LexLessIrreflexive(a.name);
    }
    forall a: TagRow, b: TagRow, c: TagRow | NameBefore(a, b) && NameBefore(b, c) ensures NameBefore(a, c) {
      LexLessTransitive(a.name, b.name, c.name);
    }
  }

  /** GET /api/tags: every tag, by name. */
  function ListAll(tags: seq<TagRow>): (r: seq<TagRow>)
    ensures multiset(r) == multiset(tags)
    ensures SortedBy(r, NameBefore)
  {
    NameBeforeIsStrict();
    SortBySorted(tags, NameBefore);
    SortBy(tags, NameBefore)
  }

  /** A post_tags row and whether its post is published. */
  datatype Use = Use(tagId: int, published: bool)

  /** COUNT(pt.post_id) over published posts: the number of post_tags rows
      of this tag whose post is published. */
  function PublishedUses(uses: seq<Use>, id: int): (r: nat)
    ensures r <= |uses|
    ensures r == multiset(uses)[Use(id, true)]
    ensures r == 0 <==> Use(id, true) !in uses
  {
    if uses == [] then 0
    else
      assert uses == [uses[0]] + uses[1..];
      (if uses[0] == Use(id, true) then 1 else 0) + PublishedUses(uses[1..], id)
  }

  datatype Counted = Counted(id: nat, name: string, postCount: nat)

  predicate CountedBefore(a: Counted, b: Counted)
  {
    LexLess(a.name, b.name)
  }

  lemma CountedBeforeIsStrict()
    ensures StrictOrder(CountedBefore)
  {
    forall a: Counted ensures !CountedBefore(a, a) {
      LexLessIrreflexive(a.name);
    }
    forall a: Counted, b: Counted, c: Counted | CountedBefore(a, b) && CountedBefore(b, c) ensures CountedBefore(a, c) {
      LexLessTransitive(a.name, b.name, c.name);
    }
  }

  /** The tags some published post uses, with their counts, in table order. */
  function UsedWithCounts(tags: seq<TagRow>, uses: seq<Use>): (r: seq<Counted>)
    ensures forall c :: c in r <==>
      exists i :: 0 <= i < |tags| && c == Counted(tags[i].id, tags[i].name, PublishedUses(uses, tags[i].id)) && c.postCount > 0
  {
    if tags == [] then []
    else
      var t := tags[|tags| - 1];
      var init := UsedWithCounts(tags[..|tags| - 1], uses);
      var c := Counted(t.id, t.name, PublishedUses(uses, t.id));
      var r := if c.postCount > 0 then init + [c] else init;
      assert forall i :: 0 <= i < |tags| - 1 ==> tags[..|tags| - 1][i] == tags[i];
      r
  }

  /** GET /api/tags?used_in_posts=true: a tag is listed exactly when some
      published post uses it, with that count, by name. */
  function ListUsed(tags: seq<TagRow>, uses: seq<Use>): (r: seq<Counted>)
    ensures multiset(r) == multiset(UsedWithCounts(tags, uses))
    ensures SortedBy(r, CountedBefore)
    ensures forall c :: c in r ==> c.postCount > 0
  {
    CountedBeforeIsStrict();
    SortBySorted(UsedWithCounts(tags, uses), CountedBefore);
    var r := SortBy(UsedWithCounts(tags, uses), CountedBefore);
    forall c | c in r ensures c.postCount > 0 {
      assert c in multiset(UsedWithCounts(tags, uses));
    }
    r
  }

  /** A tag used by a published post appears in the list, with its count;
      an unused one does not. */
  lemma UsedTagListed(tags: seq<TagRow>, uses: seq<Use>, i: nat)
    requires i < |tags|
    ensures var c := Counted(tags[i].id, tags[i].name, PublishedUses(uses, tags[i].id));
      c in ListUsed(tags, uses) <==> Use(tags[i].id, true) in uses
  {
    var c := Counted(tags[i].id, tags[i].name, PublishedUses(uses, tags[i].id));
    var u := UsedWithCounts(tags, uses);
    if Use(tags[i].id, true) in uses {
      assert c in u;
      assert c in multiset(u);
    }
    if c in ListUsed(tags, uses) {
      assert c in multiset(u);
    }
  }

  // ---------------------------------------------------------------------
  // The table
  // ---------------------------------------------------------------------

  class TagStore {
    var tags: seq<TagRow>
    var nextId: nat

    predicate Valid()
      reads this
    {
      WellFormed(tags, nextId)
    }

    constructor ()
      ensures Valid() && tags == [] && nextId == 1
    {
      tags := [];
      nextId := 1;
    }

    /** The row a name resolves to, ignoring case. */
    function Lookup(name: string): (r: Option<TagRow>)
      reads this
      ensures r.Some? ==> r.value in tags && SameText(r.value.name, name)
      ensures r.None? ==> forall t :: t in tags ==> !SameText(t.name, name)
    {
      match FindByName(tags, name)
      case Some(k) => Some(tags[k])
      case None => None
    }

    /** POST /api/tags: 400 for a blank name; a name already stored, in any
        case, returns the stored row and inserts nothing; a new one is
        inserted under the next id. Afterwards the trimmed name resolves to
        the returned row. */
    method Create(name: string) returns (r: Response<TagRow>)
      requires Valid()
      modifies this
      ensures Valid()
      ensures Trim(name) == [] ==> r == Error(400, NameMissing) && tags == old(tags) && nextId == old(nextId)
      ensures Trim(name) != [] && old(Lookup(Trim(name))).Some? ==>
        r == Ok(old(Lookup(Trim(name))).value) && tags == old(tags) && nextId == old(nextId)
      ensures Trim(name) != [] && old(Lookup(Trim(name))).None? ==>
        r == Ok(TagRow(old(nextId), Trim(name))) && tags == old(tags) + [r.value] && nextId == old(nextId) + 1
      ensures r.Ok? ==> Lookup(Trim(name)) == Some(r.value)
    {
      var n := Trim(name);
      if n == [] {
        return Error(400, NameMissing);
      }
      var found := Lookup(n);
      if found.Some? {
        LookupUnique(n);
        return Ok(found.value);
      }
      var row := TagRow(nextId, n);
      Append(row);
      r := Ok(row);
    }

    /** The INSERT of a name not yet stored, under the next id. */
    method Append(row: TagRow)
      requires Valid() && row.id == nextId && Lookup(row.name).None?
      modifies this
      ensures Valid() && tags == old(tags) + [row] && nextId == old(nextId) + 1
      ensures Lookup(row.name) == Some(row)
    {
      tags := tags + [row];
      nextId := nextId + 1;
      assert FindByName(tags, row.name) == Some(|tags| - 1) by {
        FindLast(tags, row.name);
      }
    }

    lemma LookupUnique(n: string)
      requires Valid() && Lookup(n).Some?
      ensures Lookup(n) == Some(tags[FindByName(tags, n).value])
    {
    }

    /** The same name created twice gives the same row, and the second call
        stores nothing. */
    method CreateTwice(name: string) returns (first: Response<TagRow>, second: Response<TagRow>)
      requires Valid()
      modifies this
      ensures Valid()
      ensures first.Ok? <==> Trim(name) != []
      ensures first == second
    {
      first := Create(name);
      ghost var between := tags;
      second := Create(name);
      assert first.Ok? ==> tags == between;
    }
  }

  /** A name differing from a stored one only in case resolves to the
      stored row: creating 'react' after 'React' returns the 'React' row
      and stores nothing. */
  method CreateCaseVariant(store: TagStore, name: string, variant: string) returns (first: Response<TagRow>, second: Response<TagRow>)
    requires store.Valid() && SameText(Trim(name), Trim(variant))
    modifies store
    ensures store.Valid()
    ensures first == second
    ensures first.Ok? ==> |store.tags| <= |old(store.tags)| + 1
  {
    first := store.Create(name);
    FindByNameFolds(store.tags, Trim(name), Trim(variant));
    second := store.Create(variant);
  }

  /** A name found only in the last row is found there. */
  lemma {:induction false} FindLast(tags: seq<TagRow>, n: string)
    requires tags != [] && SameText(tags[|tags| - 1].name, n)
    requires forall i :: 0 <= i < |tags| - 1 ==> !SameText(tags[i].name, n)
    ensures FindByName(tags, n) == Some(|tags| - 1)
  {
    if |tags| > 1 {
      FindLast(tags[1..], n);
    }
  }
}
