// The projects router: the project table with its link and tag tables and
// the asset paths it relocates; create, update and reorder.
module ProjectsApi {
  import opened Wrappers
  import opened Strings
  import opened AdminRecords

  const Folder := "projects"

  const NotFound := "프로젝트를 찾을 수 없습니다."
  const TitleMissing := "프로젝트명을 입력하세요."

  /** A row of the projects table. */
  datatype Project = Project(id: nat, title: string, description: Option<string>,
                             startDate: Option<string>, endDate: Option<string>,
                             thumbnailAssetId: Option<int>, introImageAssetId: Option<int>,
                             sortOrder: int)

  /** A row of project_tags: the tag's position in the submitted list is
      its sort_order. */
  datatype ProjectTag = ProjectTag(projectId: nat, tagId: int, sortOrder: nat)

  /** The body of POST / PUT /api/projects, its tag list already through the
      validator (NormalizedTags). */
  datatype ProjectBody = ProjectBody(title: string, description: Option<string>,
                                     startDate: Option<string>, endDate: Option<string>,
                                     thumbnailAssetId: Option<int>, introImageAssetId: Option<int>,
                                     sortOrder: int, links: seq<LinkItem>, tags: seq<int>)

  /** The one check of create and update: a non-blank title. */
  function CheckProject(body: ProjectBody): (r: Option<string>)
    ensures r.None? <==> Trim(body.title) != []
    ensures r.Some? ==> r.value == TitleMissing
  {
    if Trim(body.title) == [] then Some(TitleMissing) else None
  }

  /** The row written for a body that passed the check. */
  function ProjectRow(id: nat, body: ProjectBody): (r: Project)
    ensures r.id == id && r.sortOrder == body.sortOrder
    ensures r.thumbnailAssetId == body.thumbnailAssetId && r.introImageAssetId == body.introImageAssetId
  {
    var d := body.description.GetOr("");
    Project(id, Trim(body.title), if Trim(d) == [] then None else Some(Trim(d)),
            ParseDate(body.startDate), ParseDate(body.endDate),
            body.thumbnailAssetId, body.introImageAssetId, body.sortOrder)
  }

  /** A stored title is non-blank and trimmed. */
  lemma ProjectRowTitle(id: nat, body: ProjectBody)
    requires CheckProject(body).None?
    ensures var t := ProjectRow(id, body).title; t != [] && Trim(t) == t
  {
    TrimIdempotent(body.title);
  }

  /** A stored description is NULL or non-blank and trimmed; stored dates
      are NULL exactly when the date sent was missing or blank. */
  lemma ProjectRowText(id: nat, body: ProjectBody)
    ensures var r := ProjectRow(id, body);
      (r.description.Some? ==> r.description.value != [] && Trim(r.description.value) == r.description.value) &&
      (r.startDate.None? <==> body.startDate.None? || Trim(body.startDate.value) == []) &&
      (r.endDate.None? <==> body.endDate.None? || Trim(body.endDate.value) == [])
  {
    var r := ProjectRow(id, body);
    var d := body.description.GetOr("");
    assert r.description == if Trim(d) == [] then None else Some(Trim(d));
    assert r.startDate == ParseDate(body.startDate) && r.endDate == ParseDate(body.endDate);
    TrimIdempotent(d);
  }

  /** The tag rows: every non-zero id with its position in the list. */
  function TagRows(projectId: nat, tags: seq<int>): (r: seq<ProjectTag>)
    ensures |r| <= |tags|
    ensures forall t :: t in r <==>
      t.projectId == projectId && t.sortOrder < |tags| && tags[t.sortOrder] == t.tagId && t.tagId != 0
    ensures forall i, j :: 0 <= i < j < |r| ==> r[i].sortOrder < r[j].sortOrder
    ensures forall i :: 0 <= i < |r| ==> r[i].sortOrder < |tags|
  {
    if tags == [] then []
    else
      var k := |tags| - 1;
      var init := TagRows(projectId, tags[..k]);
      if tags[k] != 0 then init + [ProjectTag(projectId, tags[k], k)] else init
  }

  // ---------------------------------------------------------------------
  // Row selections
  // ---------------------------------------------------------------------

  predicate IdsIncreasing(projects: seq<Project>, nextId: nat)
  {
    (forall i, j :: 0 <= i < j < |projects| ==> projects[i].id < projects[j].id) &&
    (forall i :: 0 <= i < |projects| ==> projects[i].id < nextId)
  }

  function IndexOfProject(projects: seq<Project>, id: int): (r: Option<nat>)
    ensures r.Some? ==> r.value < |projects| && projects[r.value].id == id
    ensures r.None? ==> forall k :: 0 <= k < |projects| ==> projects[k].id != id
  {
    if projects == [] then None
    else if projects[|projects| - 1].id == id then Some(|projects| - 1)
    else IndexOfProject(projects[..|projects| - 1], id)
  }

  function DropTags(rows: seq<ProjectTag>, id: nat): (r: seq<ProjectTag>)
    ensures forall x :: x in r <==> x in rows && x.projectId != id
  {
    if rows == [] then []
    else
      var k := |rows| - 1;
      assert rows == rows[..k] + [rows[k]];
      DropTags(rows[..k], id) + (if rows[k].projectId == id then [] else [rows[k]])
  }

  /** The projects after PATCH /api/projects/reorder. */
  function Reordered(projects: seq<Project>, m: map<int, nat>): (r: seq<Project>)
    ensures |r| == |projects|
    ensures forall i :: 0 <= i < |r| ==>
      r[i] == (if projects[i].id in m then projects[i].(sortOrder := m[projects[i].id]) else projects[i])
  {
    seq(|projects|, i requires 0 <= i < |projects| =>
      if projects[i].id in m then projects[i].(sortOrder := m[projects[i].id]) else projects[i])
  }

  /** With distinct ids in id_order, the project with the i-th id gets
      sort_order i, and a project whose id was not sent keeps its own. */
  lemma ReorderedPositions(projects: seq<Project>, idOrder: seq<int>, k: nat)
    requires k < |projects|
    requires forall i, j :: 0 <= i < j < |idOrder| ==> idOrder[i] != idOrder[j]
    ensures var r := Reordered(projects, Assignments(idOrder));
      (projects[k].id !in idOrder ==> r[k] == projects[k]) &&
      (forall i :: 0 <= i < |idOrder| && idOrder[i] == projects[k].id && projects[k].id != 0 ==>
        r[k] == projects[k].(sortOrder := i))
  {
    forall i | 0 <= i < |idOrder| && idOrder[i] == projects[k].id && projects[k].id != 0
      ensures Assignments(idOrder)[idOrder[i]] == i
    {
      assert idOrder[i] !in idOrder[i + 1..] by {
        forall j | i + 1 <= j < |idOrder| ensures idOrder[j] != idOrder[i] { }
      }
      AssignmentsAt(idOrder, i);
    }
  }

  // ---------------------------------------------------------------------
  // The store
  // ---------------------------------------------------------------------

  class ProjectStore {
    var projects: seq<Project>
    var nextId: nat
    var links: seq<LinkRow>
    var tags: seq<ProjectTag>
    /** assets.file_path by asset id. */
    var assetPaths: map<int, Option<string>>

    predicate Valid()
      reads this`projects, this`nextId
    {
      IdsIncreasing(projects, nextId)
    }

    constructor (assets: map<int, Option<string>>)
      ensures Valid() && projects == [] && nextId == 1 && links == [] && tags == []
      ensures assetPaths == assets
    {
      projects := [];
      nextId := 1;
      links := [];
      tags := [];
      assetPaths := assets;
    }

    /** The tag insert loop. */
    method InsertTags(projectId: nat, ids: seq<int>)
      modifies this`tags
      ensures tags == old(tags) + TagRows(projectId, ids)
    {
      var index := 0;
      while index < |ids|
        invariant 0 <= index <= |ids|
        invariant tags == old(tags) + TagRows(projectId, ids[..index])
      {
        assert ids[..index + 1][..index] == ids[..index];
        if ids[index] != 0 {
          tags := tags + [ProjectTag(projectId, ids[index], index)];
        }
        index := index + 1;
      }
      assert ids[..index] == ids;
    }

    /** The link and tag rows of one project; links have no cap. */
    method InsertChildren(projectId: nat, body: ProjectBody)
      modifies this`links, this`tags
      ensures links == old(links) + LinkRows(projectId, body.links)
      ensures tags == old(tags) + TagRows(projectId, body.tags)
    {
      var rows := CollectLinkRows(projectId, body.links);
      links := links + rows;
      InsertTags(projectId, body.tags);
    }

    /** _relocate_temp_asset for the thumbnail, then for the intro image. */
    method RelocateAssets(body: ProjectBody, files: set<string>, ownerId: nat)
      modifies this`assetPaths
      ensures assetPaths == Relocated(Relocated(old(assetPaths), body.thumbnailAssetId, files, Folder, ownerId),
                                      body.introImageAssetId, files, Folder, ownerId)
    {
      assetPaths := Relocated(assetPaths, body.thumbnailAssetId, files, Folder, ownerId);
      assetPaths := Relocated(assetPaths, body.introImageAssetId, files, Folder, ownerId);
    }

    method AppendProject(row: Project)
      requires Valid() && row.id == nextId
      modifies this`projects, this`nextId
      ensures Valid() && projects == old(projects) + [row] && nextId == old(nextId) + 1
    {
      projects := projects + [row];
      nextId := nextId + 1;
    }

    method ReplaceProject(k: nat, row: Project)
      requires Valid() && k < |projects| && row.id == projects[k].id
      modifies this`projects
      ensures Valid() && projects == old(projects)[k := row]
    {
      projects := projects[k := row];
    }

    /** Writes a new project: its row under the next id, its two images
        relocated, and its link and tag rows. */
    method Insert(row: Project, body: ProjectBody, files: set<string>)
      requires Valid() && row.id == nextId
      modifies this
      ensures Valid() && projects == old(projects) + [row] && nextId == old(nextId) + 1
      ensures assetPaths == Relocated(Relocated(old(assetPaths), body.thumbnailAssetId, files, Folder, row.id),
                                      body.introImageAssetId, files, Folder, row.id)
      ensures links == old(links) + LinkRows(row.id, body.links)
      ensures tags == old(tags) + TagRows(row.id, body.tags)
    {
      var id := nextId;
      AppendProject(row);
      RelocateAssets(body, files, id);
      InsertChildren(id, body);
    }

    /** Rewrites the k-th project: its row, its link and tag rows replaced,
        its two images relocated. */
    method Rewrite(k: nat, row: Project, body: ProjectBody, files: set<string>)
      requires Valid() && k < |projects| && row.id == projects[k].id
      modifies this
      ensures Valid() && projects == old(projects)[k := row] && nextId == old(nextId)
      ensures assetPaths == Relocated(Relocated(old(assetPaths), body.thumbnailAssetId, files, Folder, row.id),
                                      body.introImageAssetId, files, Folder, row.id)
      ensures links == DropLinks(old(links), row.id) + LinkRows(row.id, body.links)
      ensures tags == DropTags(old(tags), row.id) + TagRows(row.id, body.tags)
    {
      ReplaceProject(k, row);
      links := DropLinks(links, row.id);
      tags := DropTags(tags, row.id);
      InsertChildren(row.id, body);
      RelocateAssets(body, files, row.id);
    }

    /** POST /api/projects: 400 for a blank title; otherwise the row, the
        images moved out of the temp folder, and the child rows. */
    method Create(body: ProjectBody, files: set<string>) returns (r: Response<nat>)
      requires Valid()
      modifies this
      ensures Valid()
      ensures CheckProject(body).Some? ==>
        r == Error(400, TitleMissing) && projects == old(projects) && links == old(links) &&
        tags == old(tags) && assetPaths == old(assetPaths)
      ensures CheckProject(body).None? ==>
        r == Ok(old(nextId)) && projects == old(projects) + [ProjectRow(old(nextId), body)] &&
        assetPaths == Relocated(Relocated(old(assetPaths), body.thumbnailAssetId, files, Folder, old(nextId)),
                                body.introImageAssetId, files, Folder, old(nextId)) &&
        links == old(links) + LinkRows(old(nextId), body.links) &&
        tags == old(tags) + TagRows(old(nextId), body.tags)
    {
      var problem := CheckProject(body);
      if problem.Some? {
        return Error(400, problem.value);
      }
      var id := nextId;
      Insert(ProjectRow(id, body), body, files);
      r := Ok(id);
    }

    /** PUT /api/projects/{id}: 404 for an unknown id, then the title check. */
    method Update(id: nat, body: ProjectBody, files: set<string>) returns (r: Response<nat>)
      requires Valid()
      modifies this
      ensures Valid()
      ensures r.Error? ==>
        projects == old(projects) && links == old(links) && tags == old(tags) && assetPaths == old(assetPaths)
      ensures IndexOfProject(old(projects), id).None? ==> r == Error(404, NotFound)
      ensures IndexOfProject(old(projects), id).Some? && CheckProject(body).Some? ==>
        r == Error(400, TitleMissing)
      ensures IndexOfProject(old(projects), id).Some? && CheckProject(body).None? ==>
        r == Ok(id) &&
        projects == old(projects)[IndexOfProject(old(projects), id).value := ProjectRow(id, body)] &&
        assetPaths == Relocated(Relocated(old(assetPaths), body.thumbnailAssetId, files, Folder, id),
                                body.introImageAssetId, files, Folder, id) &&
        links == DropLinks(old(links), id) + LinkRows(id, body.links) &&
        tags == DropTags(old(tags), id) + TagRows(id, body.tags)
    {
      var found := IndexOfProject(projects, id);
      if found.None? {
        return Error(404, NotFound);
      }
      var problem := CheckProject(body);
      if problem.Some? {
        return Error(400, problem.value);
      }
      Rewrite(found.value, ProjectRow(id, body), body, files);
      r := Ok(id);
    }

    /** PATCH /api/projects/reorder. */
    method Reorder(idOrder: seq<int>)
      modifies this`projects
      ensures projects == Reordered(old(projects), Assignments(idOrder))
    {
      var m := ReorderAssignments(idOrder);
      projects := Reordered(projects, m);
    }
  }
}
