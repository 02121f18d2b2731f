// The back-office project form: loading a project into the form, the tag
// drag-and-drop, the period inputs, the submit gate and checks, and the
// payload sent to the projects API.
module ProjectForm {
  import opened Wrappers
  import opened Strings
  import opened Sorting
  import opened FormLists
  import CategoryTree

  const TitleMax := 25
  const DescriptionMax := 100
  const TagCap := 6

  datatype Form = Form(title: string, description: string, startDate: string, endDate: string,
                       thumbnailAssetId: Option<int>, introImageAssetId: Option<int>, sortOrder: int,
                       links: seq<EditLink>, tags: seq<string>)

  // ---------------------------------------------------------------------
  // Loading
  // ---------------------------------------------------------------------

  datatype StoredProject = StoredProject(title: Option<string>, description: Option<string>,
                                         startDate: Option<string>, endDate: Option<string>,
                                         thumbnailAssetId: Option<int>, introImageAssetId: Option<int>,
                                         sortOrder: Option<int>, links: seq<StoredLink>, tags: seq<string>)

  /** The link rows of a loaded project: its links with their names mapped,
      or one empty default row when it has none. */
  function LoadedLinks(stored: seq<StoredLink>): (r: seq<EditLink>)
    ensures |r| >= 1
    ensures stored == [] ==> r == [NewLink(0)]
    ensures stored != [] ==> |r| == |stored|
    ensures stored != [] ==> forall i :: 0 <= i < |r| ==> r[i].name in LinkTypes && r[i].url == stored[i].url.GetOr("")
  {
    if stored == [] then [NewLink(0)]
    else seq(|stored|, i requires 0 <= i < |stored| => EditLinkOf(stored[i]))
  }

  /** loadProject: the form, the "ongoing" box and the "no links" box. */
  function LoadProject(p: StoredProject): (r: (Form, bool, bool))
    ensures r.1 <==> !Truthy(p.endDate) && Truthy(p.startDate)
    ensures r.2 <==> p.links == []
    ensures |r.0.links| >= 1 && forall i :: 0 <= i < |r.0.links| ==> r.0.links[i].name in LinkTypes
    ensures |r.0.startDate| <= 10 && |r.0.endDate| <= 10
  {
    var form := Form(p.title.GetOr(""), p.description.GetOr(""),
                     Take(p.startDate.GetOr(""), 10), Take(p.endDate.GetOr(""), 10),
                     p.thumbnailAssetId, p.introImageAssetId, p.sortOrder.GetOr(0),
                     LoadedLinks(p.links), p.tags);
    (form, !Truthy(p.endDate) && Truthy(p.startDate), p.links == [])
  }

  // ---------------------------------------------------------------------
  // handleTagDragEnd
  // ---------------------------------------------------------------------

  /** Dropping the tag `active` on the tag `over` (None when dropped outside
      any tag). */
  function TagDragEnd(tags: seq<string>, active: string, over: Option<string>): (r: seq<string>)
    ensures |r| == |tags| && multiset(r) == multiset(tags)
  {
    if over.Some? && active != over.value then
      var oldIndex := IndexOfElem(tags, active);
      var newIndex := IndexOfElem(tags, over.value);
      if oldIndex == -1 || newIndex == -1 then tags
      else CategoryTree.MoveInArray(tags, oldIndex, newIndex)
    else tags
  }

  /** The dragged tag lands where the tag it was dropped on was; nothing moves
      without a distinct drop target present in the list. */
  lemma TagDragEndMoves(tags: seq<string>, active: string, over: Option<string>)
    ensures !(over.Some? && active != over.value && active in tags && over.value in tags) ==>
      TagDragEnd(tags, active, over) == tags
    ensures over.Some? && active != over.value && active in tags && over.value in tags ==>
      TagDragEnd(tags, active, over)[IndexOfElem(tags, over.value)] == active
  {
    if over.Some? && active != over.value && active in tags && over.value in tags {
      var oldIndex := IndexOfElem(tags, active);
      var newIndex := IndexOfElem(tags, over.value);
      CategoryTree.MoveInArrayAt(tags, oldIndex, newIndex, newIndex);
    }
  }

  // ---------------------------------------------------------------------
  // Period inputs
  // ---------------------------------------------------------------------

  /** The start month input: the new start, and an end date whose month is
      earlier than it is cleared. */
  function StartDateChanged(form: Form, v: string): (r: Form)
    ensures r.startDate == v
    ensures r == form.(startDate := v, endDate := r.endDate)
    ensures r.endDate == form.endDate || r.endDate == []
  {
    var clear := v != [] && form.endDate != [] && LexLess(Take(form.endDate, 7), v);
    form.(startDate := v, endDate := if clear then [] else form.endDate)
  }

  /** After the start month changes, the end month (when there is one) is
      never earlier than the start month. */
  lemma StartDateChangedKeepsOrder(form: Form, v: string)
    requires v != []
    ensures var r := StartDateChanged(form, v);
      r.endDate == [] || !LexLess(Take(r.endDate, 7), v)
    ensures !LexLess(Take(form.endDate, 7), v) ==> StartDateChanged(form, v).endDate == form.endDate
  {
  }

  /** The "ongoing" box: checking it clears the end date. */
  function OngoingChanged(form: Form, checked: bool): (r: (Form, bool))
    ensures r.1 == checked
    ensures checked ==> r.0 == form.(endDate := [])
    ensures !checked ==> r.0 == form
  {
    (if checked then form.(endDate := []) else form, checked)
  }

  // ---------------------------------------------------------------------
  // Submit
  // ---------------------------------------------------------------------

  /** The submit button's disabled rule (while not saving): a blank title or
      description or no start month, or a finished project without an end. */
  predicate SubmitDisabled(saving: bool, form: Form, isOngoing: bool)
  {
    saving ||
    !(Trim(form.title) != [] && Trim(form.description) != [] && form.startDate != []) ||
    (form.startDate != [] && !isOngoing && !(form.endDate != [] && Trim(form.endDate) != []))
  }

  /** The checks handleSubmit makes before any request, in order. */
  function SubmitError(form: Form): (r: Option<string>)
    ensures r.None? <==> Trim(form.title) != [] && |form.title| <= TitleMax && |form.description| <= DescriptionMax
    ensures Trim(form.title) == [] ==> r == Some("프로젝트명을 입력하세요.")
    ensures Trim(form.title) != [] && |form.title| > TitleMax ==> r == Some("프로젝트명은 최대 25자까지 입력 가능합니다.")
    ensures Trim(form.title) != [] && |form.title| <= TitleMax && |form.description| > DescriptionMax ==>
      r == Some("상세 내용은 최대 100자까지 입력 가능합니다.")
  {
    if Trim(form.title) == [] then Some("프로젝트명을 입력하세요.")
    else if |form.title| > TitleMax then Some("프로젝트명은 최대 25자까지 입력 가능합니다.")
    else if |form.description| > DescriptionMax then Some("상세 내용은 최대 100자까지 입력 가능합니다.")
    else None
  }

  /** The title and description inputs cut what is typed to 25 and 100
      characters. */
  function TitleInput(v: string): (r: string)
    ensures |r| <= TitleMax && |r| <= |v| && r == v[..|r|]
  {
    Take(v, TitleMax)
  }

  function DescriptionInput(v: string): (r: string)
    ensures |r| <= DescriptionMax && |r| <= |v| && r == v[..|r|]
  {
    Take(v, DescriptionMax)
  }

  /** With the title and description typed through their inputs, an enabled
      submit button never meets a check failure. */
  lemma EnabledSubmitPassesChecks(form: Form, isOngoing: bool, typedTitle: string, typedDescription: string)
    requires form.title == TitleInput(typedTitle) && form.description == DescriptionInput(typedDescription)
    requires !SubmitDisabled(false, form, isOngoing)
    ensures SubmitError(form).None?
  {
  }

  datatype Payload = Payload(title: string, description: Option<string>, startDate: Option<string>,
                             endDate: Option<string>, thumbnailAssetId: Option<int>,
                             introImageAssetId: Option<int>, sortOrder: int,
                             links: seq<EditLink>, tags: seq<int>)

  function NonEmpty(s: string): Option<string>
  {
    if s == [] then None else Some(s)
  }

  /** The payload of POST / PUT /api/projects; `tagIds` is what the tag loop
      collected. */
  function SubmitPayload(form: Form, isOngoing: bool, noLinks: bool, tagIds: seq<int>): Payload
  {
    Payload(Trim(form.title), NonEmpty(Trim(form.description)), NonEmpty(form.startDate),
            if isOngoing then None else NonEmpty(form.endDate),
            form.thumbnailAssetId, form.introImageAssetId, form.sortOrder,
            if noLinks then [] else PayloadLinks(form.links),
            Take(tagIds, TagCap))
  }

  /** A form that passed the checks sends a trimmed title the server will not
      refuse as blank, within the 25-character limit. */
  lemma PayloadTitle(form: Form, isOngoing: bool, noLinks: bool, tagIds: seq<int>)
    requires SubmitError(form).None?
    ensures var t := SubmitPayload(form, isOngoing, noLinks, tagIds).title;
      t != [] && Trim(t) == t && |t| <= TitleMax
  {
    TrimmedTitle(form.title);
  }

  /** The trimmed title of a form that passed the checks. */
  lemma TrimmedTitle(title: string)
    requires Trim(title) != [] && |title| <= TitleMax
    ensures Trim(Trim(title)) == Trim(title) && |Trim(title)| <= TitleMax
  {
    TrimIdempotent(title);
  }

  /** The payload has no end date while ongoing, no links with "no links"
      checked, at most five links numbered by position otherwise, and the
      first six collected tag ids. */
  lemma PayloadShape(form: Form, isOngoing: bool, noLinks: bool, tagIds: seq<int>)
    ensures var p := SubmitPayload(form, isOngoing, noLinks, tagIds);
      (isOngoing ==> p.endDate.None?) &&
      (!isOngoing ==> p.endDate == NonEmpty(form.endDate)) &&
      (noLinks ==> p.links == []) &&
      (!noLinks ==> p.links == PayloadLinks(form.links)) &&
      |p.links| <= 5 && (forall i :: 0 <= i < |p.links| ==> p.links[i].sortOrder == i) &&
      |p.tags| == (if |tagIds| <= TagCap then |tagIds| else TagCap) && p.tags == tagIds[..|p.tags|]
  {
    PayloadLinksShape(form.links);
  }
}
