// The careers router: the career table with its link, highlight and tag
// tables and the asset paths it relocates; create, update and reorder.
module CareersApi {
  import opened Wrappers
  import opened Strings
  import opened AdminRecords

  const Folder := "careers"
  const LinkCap := 5
  const HighlightCap := 5
  const TagCap := 5

  const NotFound := "경력을 찾을 수 없습니다."
  const CompanyMissing := "회사명을 입력하세요."
  const RoleMissing := "역할을 입력하세요."
  const StartMissing := "시작일을 입력하세요."

  /** A row of the careers table. */
  datatype Career = Career(id: nat, logoAssetId: Option<int>, companyName: string, role: string,
                           startDate: string, endDate: Option<string>, description: Option<string>,
                           sortOrder: int)

  datatype HighlightRow = HighlightRow(careerId: nat, content: string, sortOrder: nat)
  datatype CareerTag = CareerTag(careerId: nat, tagId: int)

  /** The body of POST / PUT /api/careers, its tag list already through the
      validator (NormalizedTags). */
  datatype CareerBody = CareerBody(logoAssetId: Option<int>, companyName: string, role: string,
                                   startDate: Option<string>, endDate: Option<string>,
                                   description: Option<string>, sortOrder: int,
                                   links: seq<LinkItem>, highlights: seq<string>, tags: seq<int>)

  /** The checks of create and update, in order: company name, role, start
      date (after _parse_date). */
  function CheckCareer(body: CareerBody): (r: Option<string>)
    ensures r.None? || r.value in {CompanyMissing, RoleMissing, StartMissing}
  {
    if Trim(body.companyName) == [] then Some(CompanyMissing)
    else if Trim(body.role) == [] then Some(RoleMissing)
    else if ParseDate(body.startDate).None? then Some(StartMissing)
    else None
  }

  /** Which check fails, as an if-and-only-if per message. */
  lemma CheckCareerOrder(body: CareerBody)
    ensures CheckCareer(body) == Some(CompanyMissing) <==> Trim(body.companyName) == []
    ensures CheckCareer(body) == Some(RoleMissing) <==> Trim(body.companyName) != [] && Trim(body.role) == []
    ensures CheckCareer(body) == Some(StartMissing) <==>
      Trim(body.companyName) != [] && Trim(body.role) != [] && (body.startDate.None? || Trim(body.startDate.value) == [])
    ensures CheckCareer(body).None? <==>
      Trim(body.companyName) != [] && Trim(body.role) != [] && body.startDate.Some? && Trim(body.startDate.value) != []
  {
  }

  /** Blank text stored as NULL (`(s or "").strip() or None`). */
  function TrimmedOrNull(s: Option<string>): (r: Option<string>)
    ensures r.None? <==> s.None? || Trim(s.value) == []
    ensures r.Some? ==> r.value == Trim(s.value)
  {
    if s.None? || Trim(s.value) == [] then None else Some(Trim(s.value))
  }

  /** The row written for a body that passed the checks. */
  function CareerRow(id: nat, body: CareerBody): (r: Career)
    requires CheckCareer(body).None?
    ensures r.id == id && r.logoAssetId == body.logoAssetId && r.sortOrder == body.sortOrder
  {
    Career(id, body.logoAssetId, Trim(body.companyName), Trim(body.role), ParseDate(body.startDate).value,
           ParseDate(body.endDate), TrimmedOrNull(body.description), body.sortOrder)
  }

  /** A stored row's company name and role are non-blank and trimmed. */
  lemma CareerRowNames(id: nat, body: CareerBody)
    requires CheckCareer(body).None?
    ensures var r := CareerRow(id, body);
      r.companyName != [] && Trim(r.companyName) == r.companyName &&
      r.role != [] && Trim(r.role) == r.role
  {
    TrimIdempotent(body.companyName);
    TrimIdempotent(body.role);
  }

  /** A stored row's start date has at most ten characters, taken from the
      start of the trimmed date sent. */
  lemma CareerRowStart(id: nat, body: CareerBody)
    requires CheckCareer(body).None?
    ensures var r := CareerRow(id, body);
      0 < |r.startDate| <= 10 && StartsWith(r.startDate, Take(Trim(body.startDate.value), 10))
    ensures var r := CareerRow(id, body); var raw := Take(Trim(body.startDate.value), 10);
      r.startDate == (if |raw| == 7 && raw[4] == '-' then raw + "-01" else raw)
  {
  }

  /** A stored row's description is NULL or non-blank and trimmed. */
  lemma CareerRowDescription(id: nat, body: CareerBody)
    requires CheckCareer(body).None?
    ensures var d := CareerRow(id, body).description;
      d.Some? ==> d.value != [] && Trim(d.value) == d.value
  {
    if body.description.Some? {
      TrimIdempotent(body.description.value);
    }
  }

  /** The highlights kept: the first five, blanks dropped. */
  function KeptHighlights(hs: seq<string>): (r: seq<string>)
    ensures |r| <= HighlightCap
  {
    NonBlank(Take(hs, HighlightCap))
  }

  /** The highlight rows of the kept highlights: trimmed, numbered 0..k-1. */
  function HighlightRows(careerId: nat, kept: seq<string>): (r: seq<HighlightRow>)
    ensures |r| == |kept|
    ensures forall i :: 0 <= i < |r| ==> r[i] == HighlightRow(careerId, Trim(kept[i]), i)
  {
    seq(|kept|, i requires 0 <= i < |kept| => HighlightRow(careerId, Trim(kept[i]), i))
  }

  /** The stored highlights of a career are non-blank, trimmed, numbered by
      position, and at most five. */
  lemma HighlightRowsContent(careerId: nat, hs: seq<string>)
    ensures var r := HighlightRows(careerId, KeptHighlights(hs));
      |r| <= HighlightCap &&
      forall i :: 0 <= i < |r| ==>
        r[i].careerId == careerId && r[i].sortOrder == i && r[i].content != [] && Trim(r[i].content) == r[i].content
  {
    var kept := KeptHighlights(hs);
    forall i | 0 <= i < |kept| ensures Trim(kept[i]) != [] && Trim(Trim(kept[i])) == Trim(kept[i]) {
      TrimIdempotent(kept[i]);
    }
  }

  /** The tag rows: the first five ids, zero ids skipped. */
  function TagRows(careerId: nat, tags: seq<int>): (r: seq<CareerTag>)
    ensures forall t :: t in r <==> t.careerId == careerId && t.tagId != 0 && t.tagId in Take(tags, TagCap)
  {
    TagRowsOf(careerId, Take(tags, TagCap))
  }

  function TagRowsOf(careerId: nat, tags: seq<int>): (r: seq<CareerTag>)
    ensures |r| <= |tags|
    ensures forall t :: t in r <==> t.careerId == careerId && t.tagId != 0 && t.tagId in tags
  {
    if tags == [] then []
    else
      var k := |tags| - 1;
      var init := TagRowsOf(careerId, tags[..k]);
      assert tags == tags[..k] + [tags[k]];
      if tags[k] != 0 then init + [CareerTag(careerId, tags[k])] else init
  }

  // ---------------------------------------------------------------------
  // Row selections
  // ---------------------------------------------------------------------

  predicate IdsIncreasing(careers: seq<Career>, nextId: nat)
  {
    (forall i, j :: 0 <= i < j < |careers| ==> careers[i].id < careers[j].id) &&
    (forall i :: 0 <= i < |careers| ==> careers[i].id < nextId)
  }

  function IndexOfCareer(careers: seq<Career>, id: int): (r: Option<nat>)
    ensures r.Some? ==> r.value < |careers| && careers[r.value].id == id
    ensures r.None? ==> forall k :: 0 <= k < |careers| ==> careers[k].id != id
  {
    if careers == [] then None
    else if careers[|careers| - 1].id == id then Some(|careers| - 1)
    else IndexOfCareer(careers[..|careers| - 1], id)
  }

  function DropHighlights(rows: seq<HighlightRow>, id: nat): (r: seq<HighlightRow>)
    ensures forall x :: x in r <==> x in rows && x.careerId != id
  {
    if rows == [] then []
    else
      var k := |rows| - 1;
      assert rows == rows[..k] + [rows[k]];
      DropHighlights(rows[..k], id) + (if rows[k].careerId == id then [] else [rows[k]])
  }

  function DropTags(rows: seq<CareerTag>, id: nat): (r: seq<CareerTag>)
    ensures forall x :: x in r <==> x in rows && x.careerId != id
  {
    if rows == [] then []
    else
      var k := |rows| - 1;
      assert rows == rows[..k] + [rows[k]];
      DropTags(rows[..k], id) + (if rows[k].careerId == id then [] else [rows[k]])
  }

  /** The careers after PATCH /api/careers/reorder: a career whose id was
      sent takes the assigned position, the others keep theirs. */
  function Reordered(careers: seq<Career>, m: map<int, nat>): (r: seq<Career>)
    ensures |r| == |careers|
    ensures forall i :: 0 <= i < |r| ==>
      r[i] == (if careers[i].id in m then careers[i].(sortOrder := m[careers[i].id]) else careers[i])
  {
    seq(|careers|, i requires 0 <= i < |careers| =>
      if careers[i].id in m then careers[i].(sortOrder := m[careers[i].id]) else careers[i])
  }

  /** With distinct ids in id_order, the career with the i-th id gets
      sort_order i, and a career whose id was not sent keeps its own. */
  lemma ReorderedPositions(careers: seq<Career>, idOrder: seq<int>, k: nat)
    requires k < |careers|
    requires forall i, j :: 0 <= i < j < |idOrder| ==> idOrder[i] != idOrder[j]
    ensures var r := Reordered(careers, Assignments(idOrder));
      (careers[k].id !in idOrder ==> r[k] == careers[k]) &&
      (forall i :: 0 <= i < |idOrder| && idOrder[i] == careers[k].id && careers[k].id != 0 ==>
        r[k] == careers[k].(sortOrder := i))
  {
    forall i | 0 <= i < |idOrder| && idOrder[i] == careers[k].id && careers[k].id != 0
      ensures Assignments(idOrder)[idOrder[i]] == i
    {
      assert idOrder[i] !in idOrder[i + 1..] by {
        forall j | i + 1 <= j < |idOrder| ensures idOrder[j] != idOrder[i] { }
      }
      AssignmentsAt(idOrder, i);
    }
  }

  // ---------------------------------------------------------------------
  // The store
  // ---------------------------------------------------------------------

  class CareerStore {
    var careers: seq<Career>
    var nextId: nat
    var links: seq<LinkRow>
    var highlights: seq<HighlightRow>
    var tags: seq<CareerTag>
    /** assets.file_path by asset id. */
    var assetPaths: map<int, Option<string>>

    predicate Valid()
      reads this`careers, this`nextId
    {
      IdsIncreasing(careers, nextId)
    }

    constructor (assets: map<int, Option<string>>)
      ensures Valid() && careers == [] && nextId == 1 && links == [] && highlights == [] && tags == []
      ensures assetPaths == assets
    {
      careers := [];
      nextId := 1;
      links := [];
      highlights := [];
      tags := [];
      assetPaths := assets;
    }

    /** The highlight insert loop. */
    method InsertHighlights(careerId: nat, kept: seq<string>)
      modifies this`highlights
      ensures highlights == old(highlights) + HighlightRows(careerId, kept)
    {
      ghost var rows := HighlightRows(careerId, kept);
      var idx := 0;
      while idx < |kept|
        invariant 0 <= idx <= |kept|
        invariant highlights == old(highlights) + rows[..idx]
      {
        var row := HighlightRow(careerId, Trim(kept[idx]), idx);
        assert rows[..idx + 1] == rows[..idx] + [row];
        highlights := highlights + [row];
        idx := idx + 1;
      }
      assert rows[..idx] == rows;
    }

    /** The tag insert loop. */
    method InsertTags(careerId: nat, ids: seq<int>)
      modifies this`tags
      ensures tags == old(tags) + TagRows(careerId, ids)
    {
      var first := Take(ids, TagCap);
      var i := 0;
      while i < |first|
        invariant 0 <= i <= |first|
        invariant tags == old(tags) + TagRowsOf(careerId, first[..i])
      {
        assert first[..i + 1][..i] == first[..i];
        if first[i] != 0 {
          tags := tags + [CareerTag(careerId, first[i])];
        }
        i := i + 1;
      }
      assert first[..i] == first;
    }

    /** The rows of one career: links (first five), highlights and tags. */
    method InsertChildren(careerId: nat, body: CareerBody)
      modifies this`links, this`highlights, this`tags
      ensures links == old(links) + LinkRows(careerId, Take(body.links, LinkCap))
      ensures highlights == old(highlights) + HighlightRows(careerId, KeptHighlights(body.highlights))
      ensures tags == old(tags) + TagRows(careerId, body.tags)
    {
      var rows := CollectLinkRows(careerId, Take(body.links, LinkCap));
      links := links + rows;
      InsertHighlights(careerId, KeptHighlights(body.highlights));
      InsertTags(careerId, body.tags);
    }

    /** Appends a row under the next id. */
    method AppendCareer(row: Career)
      requires Valid() && row.id == nextId
      modifies this`careers, this`nextId
      ensures Valid() && careers == old(careers) + [row] && nextId == old(nextId) + 1
    {
      careers := careers + [row];
      nextId := nextId + 1;
    }

    /** Rewrites the k-th row, keeping its id. */
    method ReplaceCareer(k: nat, row: Career)
      requires Valid() && k < |careers| && row.id == careers[k].id
      modifies this`careers
      ensures Valid() && careers == old(careers)[k := row]
    {
      careers := careers[k := row];
    }

    /** _relocate_temp_asset on the assets table. */
    method RelocateAsset(assetId: Option<int>, files: set<string>, ownerId: nat)
      modifies this`assetPaths
      ensures assetPaths == Relocated(old(assetPaths), assetId, files, Folder, ownerId)
    {
      assetPaths := Relocated(assetPaths, assetId, files, Folder, ownerId);
    }

    /** The link, highlight and tag rows of a career deleted. */
    method DropChildren(id: nat)
      modifies this`links, this`highlights, this`tags
      ensures links == DropLinks(old(links), id) && highlights == DropHighlights(old(highlights), id)
      ensures tags == DropTags(old(tags), id)
    {
      links := DropLinks(links, id);
      highlights := DropHighlights(highlights, id);
      tags := DropTags(tags, id);
    }

    /** Writes a new career: its row under the next id, its logo relocated,
        and its child rows. */
    method Insert(row: Career, body: CareerBody, files: set<string>)
      requires Valid() && row.id == nextId
      modifies this
      ensures Valid() && careers == old(careers) + [row] && nextId == old(nextId) + 1
      ensures assetPaths == Relocated(old(assetPaths), body.logoAssetId, files, Folder, row.id)
      ensures links == old(links) + LinkRows(row.id, Take(body.links, LinkCap))
      ensures highlights == old(highlights) + HighlightRows(row.id, KeptHighlights(body.highlights))
      ensures tags == old(tags) + TagRows(row.id, body.tags)
    {
      var id := nextId;
      AppendCareer(row);
      RelocateAsset(body.logoAssetId, files, id);
      InsertChildren(id, body);
    }

    /** Rewrites the k-th career: its row, its logo relocated, and its child
        rows replaced. */
    method Rewrite(k: nat, row: Career, body: CareerBody, files: set<string>)
      requires Valid() && k < |careers| && row.id == careers[k].id
      modifies this
      ensures Valid() && careers == old(careers)[k := row] && nextId == old(nextId)
      ensures assetPaths == Relocated(old(assetPaths), body.logoAssetId, files, Folder, row.id)
      ensures links == DropLinks(old(links), row.id) + LinkRows(row.id, Take(body.links, LinkCap))
      ensures highlights == DropHighlights(old(highlights), row.id) + HighlightRows(row.id, KeptHighlights(body.highlights))
      ensures tags == DropTags(old(tags), row.id) + TagRows(row.id, body.tags)
    {
      ReplaceCareer(k, row);
      RelocateAsset(body.logoAssetId, files, row.id);
      DropChildren(row.id);
      InsertChildren(row.id, body);
    }

    /** POST /api/careers: 400 on the first failed check; otherwise the row,
        the logo moved out of the temp folder, and the child rows. */
    method Create(body: CareerBody, files: set<string>) returns (r: Response<nat>)
      requires Valid()
      modifies this
      ensures Valid()
      ensures CheckCareer(body).Some? ==>
        r == Error(400, CheckCareer(body).value) && careers == old(careers) && links == old(links) &&
        highlights == old(highlights) && tags == old(tags) && assetPaths == old(assetPaths)
      ensures CheckCareer(body).None? ==>
        r == Ok(old(nextId)) && careers == old(careers) + [CareerRow(old(nextId), body)] &&
        assetPaths == Relocated(old(assetPaths), body.logoAssetId, files, Folder, old(nextId)) &&
        links == old(links) + LinkRows(old(nextId), Take(body.links, LinkCap)) &&
        highlights == old(highlights) + HighlightRows(old(nextId), KeptHighlights(body.highlights)) &&
        tags == old(tags) + TagRows(old(nextId), body.tags)
    {
      var problem := CheckCareer(body);
      if problem.Some? {
        return Error(400, problem.value);
      }
      var id := nextId;
      Insert(CareerRow(id, body), body, files);
      r := Ok(id);
    }

    /** PUT /api/careers/{id}: 404 for an unknown id, then the checks; the row
        is rewritten and its child rows replaced. */
    method Update(id: nat, body: CareerBody, files: set<string>) returns (r: Response<nat>)
      requires Valid()
      modifies this
      ensures Valid()
      ensures r.Error? ==>
        careers == old(careers) && links == old(links) && highlights == old(highlights) &&
        tags == old(tags) && assetPaths == old(assetPaths)
      ensures IndexOfCareer(old(careers), id).None? ==> r == Error(404, NotFound)
      ensures IndexOfCareer(old(careers), id).Some? && CheckCareer(body).Some? ==>
        r == Error(400, CheckCareer(body).value)
      ensures IndexOfCareer(old(careers), id).Some? && CheckCareer(body).None? ==>
        r == Ok(id) &&
        careers == old(careers)[IndexOfCareer(old(careers), id).value := CareerRow(id, body)] &&
        assetPaths == Relocated(old(assetPaths), body.logoAssetId, files, Folder, id) &&
        links == DropLinks(old(links), id) + LinkRows(id, Take(body.links, LinkCap)) &&
        highlights == DropHighlights(old(highlights), id) + HighlightRows(id, KeptHighlights(body.highlights)) &&
        tags == DropTags(old(tags), id) + TagRows(id, body.tags)
    {
      var found := IndexOfCareer(careers, id);
      if found.None? {
        return Error(404, NotFound);
      }
      var problem := CheckCareer(body);
      if problem.Some? {
        return Error(400, problem.value);
      }
      Rewrite(found.value, CareerRow(id, body), body, files);
      r := Ok(id);
    }

    /** PATCH /api/careers/reorder. */
    method Reorder(idOrder: seq<int>)
      modifies this`careers
      ensures careers == Reordered(old(careers), Assignments(idOrder))
    {
      var m := ReorderAssignments(idOrder);
      careers := Reordered(careers, m);
    }
  }
}
