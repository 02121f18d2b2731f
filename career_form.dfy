// The back-office career form: loading a career into the form, the link,
// highlight and tag editors with their caps, the submit gate and checks, and
// the payload sent to the careers API.
module CareerForm {
  import opened Wrappers
  import opened Strings
  import opened FormLists

  const LinkCap := 5
  const HighlightCap := 5
  const HighlightMax := 20
  const TagCap := 5

  datatype Form = Form(companyName: string, role: string, startDate: string, endDate: string,
                       description: string, logoAssetId: Option<int>, sortOrder: int,
                       links: seq<EditLink>, highlights: seq<string>, tags: seq<string>)

  // ---------------------------------------------------------------------
  // Loading
  // ---------------------------------------------------------------------

  /** A career as GET /api/careers returns it; a highlight is its content
      (None for null), a tag its name. */
  datatype StoredCareer = StoredCareer(companyName: Option<string>, role: Option<string>,
                                       startDate: Option<string>, endDate: Option<string>,
                                       description: Option<string>, logoAssetId: Option<int>,
                                       sortOrder: Option<int>, links: seq<StoredLink>,
                                       highlights: seq<Option<string>>, tags: seq<string>)

  /** The link rows of a loaded career: its first five links with their names
      mapped, or one empty default row when it has none. */
  function LoadedLinks(stored: seq<StoredLink>): (r: seq<EditLink>)
    ensures 1 <= |r| <= LinkCap
    ensures stored == [] ==> r == [NewLink(0)]
    ensures stored != [] ==> |r| == (if |stored| <= LinkCap then |stored| else LinkCap)
    ensures stored != [] ==> forall i :: 0 <= i < |r| ==> r[i] == EditLinkOf(stored[i])
  {
    if stored == [] then [NewLink(0)]
    else
      var s := Take(stored, LinkCap);
      seq(|s|, i requires 0 <= i < |s| => EditLinkOf(s[i]))
  }

  /** The highlight rows of a loaded career: the first five contents (null as
      ''), or one empty row when it has none. */
  function LoadedHighlights(stored: seq<Option<string>>): (r: seq<string>)
    ensures 1 <= |r| <= HighlightCap
    ensures stored == [] ==> r == [""]
    ensures stored != [] ==> |r| == (if |stored| <= HighlightCap then |stored| else HighlightCap)
    ensures stored != [] ==> forall i :: 0 <= i < |r| ==> r[i] == stored[i].GetOr("")
  {
    if stored == [] then [""]
    else
      var s := Take(stored, HighlightCap);
      seq(|s|, i requires 0 <= i < |s| => s[i].GetOr(""))
  }

  /** loadCareer: the form and the "ongoing" box. Months are cut to 'YYYY-MM'. */
  function LoadCareer(c: StoredCareer): (r: (Form, bool))
    ensures r.1 <==> !Truthy(c.endDate) && Truthy(c.startDate)
    ensures 1 <= |r.0.links| <= LinkCap && 1 <= |r.0.highlights| <= HighlightCap && |r.0.tags| <= TagCap
    ensures |r.0.tags| <= |c.tags| && r.0.tags == c.tags[..|r.0.tags|]
    ensures |r.0.startDate| <= 7 && |r.0.endDate| <= 7
  {
    var form := Form(c.companyName.GetOr(""), c.role.GetOr(""),
                     Take(c.startDate.GetOr(""), 7), Take(c.endDate.GetOr(""), 7),
                     c.description.GetOr(""), c.logoAssetId, c.sortOrder.GetOr(0),
                     LoadedLinks(c.links), LoadedHighlights(c.highlights), Take(c.tags, TagCap));
    (form, !Truthy(c.endDate) && Truthy(c.startDate))
  }

  // ---------------------------------------------------------------------
  // Highlights
  // ---------------------------------------------------------------------

  /** updateHighlight: row `idx` takes the typed value cut to 20 characters. */
  function UpdateHighlight(hs: seq<string>, idx: int, value: string): (r: seq<string>)
    ensures |r| == |hs|
    ensures forall i :: 0 <= i < |hs| && i != idx ==> r[i] == hs[i]
    ensures 0 <= idx < |hs| ==> |r[idx]| <= HighlightMax && |r[idx]| <= |value| && r[idx] == value[..|r[idx]|]
    ensures 0 <= idx < |hs| && |value| <= HighlightMax ==> r[idx] == value
  {
    var capped := Take(value, HighlightMax);
    seq(|hs|, i requires 0 <= i < |hs| => if i == idx then capped else hs[i])
  }

  /** addHighlight: an empty row, unless there are five already. */
  function AddHighlight(hs: seq<string>): (r: seq<string>)
    ensures |hs| >= HighlightCap ==> r == hs
    ensures |hs| < HighlightCap ==> r == hs + [""]
  {
    if |hs| >= HighlightCap then hs else hs + [""]
  }

  /** removeHighlight: drops row `idx`, unless it is the last row left. */
  function RemoveHighlight(hs: seq<string>, idx: int): (r: seq<string>)
    ensures |hs| <= 1 ==> r == hs
    ensures |hs| > 1 && 0 <= idx < |hs| ==> r == hs[..idx] + hs[idx + 1..]
    ensures !(0 <= idx < |hs|) ==> r == hs
  {
    if |hs| <= 1 then hs
    else if 0 <= idx < |hs| then
      RemoveIndexIsSplice(hs, idx);
      RemoveIndex(hs, idx)
    else RemoveIndex(hs, idx)
  }

  /** The highlight rows of the form: one to five rows, none longer than 20
      characters. Loading can bring longer ones; every edit keeps the row
      count and never makes a row longer than 20. */
  predicate HighlightsOk(hs: seq<string>)
  {
    1 <= |hs| <= HighlightCap && forall i :: 0 <= i < |hs| ==> |hs[i]| <= HighlightMax
  }

  lemma HighlightEditsKeepCount(hs: seq<string>, idx: int, value: string)
    requires 1 <= |hs| <= HighlightCap
    ensures 1 <= |UpdateHighlight(hs, idx, value)| <= HighlightCap
    ensures 1 <= |AddHighlight(hs)| <= HighlightCap
    ensures 1 <= |RemoveHighlight(hs, idx)| <= HighlightCap
  {
  }

  lemma HighlightEditsKeepShape(hs: seq<string>, idx: int, value: string)
    requires HighlightsOk(hs)
    ensures HighlightsOk(UpdateHighlight(hs, idx, value))
    ensures HighlightsOk(AddHighlight(hs))
    ensures HighlightsOk(RemoveHighlight(hs, idx))
  {
    var a := AddHighlight(hs);
    forall i | 0 <= i < |a| ensures |a[i]| <= HighlightMax {
      if i < |hs| {
        assert a[i] == hs[i];
      }
    }
    if |hs| > 1 && 0 <= idx < |hs| {
      var r := RemoveHighlight(hs, idx);
      forall i | 0 <= i < |r| ensures |r[i]| <= HighlightMax {
        RemoveIndexAt(hs, idx, i);
      }
    }
  }

  // ---------------------------------------------------------------------
  // Submit
  // ---------------------------------------------------------------------

  const CompanyMissing := "회사명을 입력하세요."
  const RoleMissing := "역할을 입력하세요."
  const StartMissing := "시작일을 입력하세요."
  const HighlightMissing := "한 일을 최소 1개 입력하세요."

  /** The checks handleSubmit makes before any request, in order: company
      name, role, start month, at least one non-blank highlight. */
  function SubmitError(form: Form): (r: Option<string>)
    ensures r == Some(CompanyMissing) <==> Trim(form.companyName) == []
    ensures r == Some(RoleMissing) <==> Trim(form.companyName) != [] && Trim(form.role) == []
    ensures r == Some(StartMissing) <==>
      Trim(form.companyName) != [] && Trim(form.role) != [] && form.startDate == []
    ensures r == Some(HighlightMissing) <==>
      Trim(form.companyName) != [] && Trim(form.role) != [] && form.startDate != [] &&
      NonBlank(form.highlights) == []
    ensures r.None? <==>
      Trim(form.companyName) != [] && Trim(form.role) != [] && form.startDate != [] &&
      NonBlank(form.highlights) != []
  {
    if Trim(form.companyName) == [] then Some(CompanyMissing)
    else if Trim(form.role) == [] then Some(RoleMissing)
    else if form.startDate == [] then Some(StartMissing)
    else if NonBlank(form.highlights) == [] then Some(HighlightMissing)
    else None
  }

  /** The submit button's disabled rule. */
  predicate SubmitDisabled(saving: bool, form: Form)
  {
    saving ||
    !(Trim(form.companyName) != [] && Trim(form.role) != [] && form.startDate != []) ||
    |NonBlank(form.highlights)| < 1
  }

  /** The button and the checks agree: while not saving, the button is enabled
      exactly when every check passes. */
  lemma SubmitGateMatchesChecks(form: Form)
    ensures !SubmitDisabled(false, form) <==> SubmitError(form).None?
  {
  }

  /** A 'YYYY-MM' month becomes the first of that month; anything else is sent
      as it is. */
  function DateWithDay(d: string): (r: string)
    ensures |d| == 7 ==> |r| == 10 && r[..7] == d && r[7..] == "-01"
    ensures |d| != 7 ==> r == d
  {
    if |d| == 7 then d + "-01" else d
  }

  datatype Payload = Payload(logoAssetId: Option<int>, companyName: string, role: string,
                             startDate: string, endDate: Option<string>, description: Option<string>,
                             sortOrder: int, links: seq<EditLink>, highlights: seq<string>,
                             tags: seq<int>)

  /** The payload of POST / PUT /api/careers; `tagIds` is what the tag loop
      collected. */
  function SubmitPayload(form: Form, isOngoing: bool, tagIds: seq<int>): Payload
  {
    Payload(form.logoAssetId, Trim(form.companyName), Trim(form.role), DateWithDay(form.startDate),
            if isOngoing || form.endDate == [] then None else Some(DateWithDay(form.endDate)),
            None, form.sortOrder, PayloadLinks(form.links),
            Take(NonBlank(form.highlights), HighlightCap), Take(tagIds, TagCap))
  }

  /** The payload has no end date while ongoing or without an end month, the
      legacy description always null, at most five numbered links, the first
      five non-blank highlights (untrimmed, in order) and the first five tag
      ids. */
  lemma PayloadShape(form: Form, isOngoing: bool, tagIds: seq<int>)
    ensures var p := SubmitPayload(form, isOngoing, tagIds);
      (p.endDate.None? <==> isOngoing || form.endDate == []) &&
      p.description.None? &&
      |p.links| <= LinkCap && (forall i :: 0 <= i < |p.links| ==> p.links[i].sortOrder == i) &&
      |p.highlights| <= HighlightCap &&
      |p.highlights| == (if |NonBlank(form.highlights)| < HighlightCap then |NonBlank(form.highlights)| else HighlightCap) &&
      p.highlights == NonBlank(form.highlights)[..|p.highlights|] &&
      (forall i :: 0 <= i < |p.highlights| ==> Trim(p.highlights[i]) != [] && p.highlights[i] in form.highlights) &&
      |p.tags| <= TagCap && |p.tags| <= |tagIds| && p.tags == tagIds[..|p.tags|]
  {
    PayloadLinksShape(form.links);
    var h := NonBlank(form.highlights);
    var t := Take(h, HighlightCap);
    forall i | 0 <= i < |t| ensures Trim(t[i]) != [] && t[i] in form.highlights {
      assert t[i] == h[i];
    }
  }

  /** A form that passed the checks (SubmitError is None exactly under this
      requires) sends a non-blank trimmed company name and role, a start date,
      and at least one highlight. */
  lemma PayloadOfCheckedForm(form: Form, isOngoing: bool, tagIds: seq<int>)
    requires Trim(form.companyName) != [] && Trim(form.role) != [] && form.startDate != []
    requires NonBlank(form.highlights) != []
    ensures var p := SubmitPayload(form, isOngoing, tagIds);
      p.companyName != [] && Trim(p.companyName) == p.companyName &&
      p.role != [] && Trim(p.role) == p.role &&
      p.startDate != [] && p.highlights != []
  {
    PayloadNames(form, isOngoing, tagIds);
    PayloadContent(form, isOngoing, tagIds);
  }

  lemma PayloadNames(form: Form, isOngoing: bool, tagIds: seq<int>)
    requires Trim(form.companyName) != [] && Trim(form.role) != []
    ensures var p := SubmitPayload(form, isOngoing, tagIds);
      p.companyName != [] && Trim(p.companyName) == p.companyName &&
      p.role != [] && Trim(p.role) == p.role
  {
    TrimIdempotent(form.companyName);
    TrimIdempotent(form.role);
  }

  lemma PayloadContent(form: Form, isOngoing: bool, tagIds: seq<int>)
    requires form.startDate != [] && NonBlank(form.highlights) != []
    ensures var p := SubmitPayload(form, isOngoing, tagIds);
      p.startDate != [] && p.highlights != []
  {
  }
}
