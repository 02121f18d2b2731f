// The back-office career and project list pages: drag-and-drop reordering,
// the row numbers, the fetched list, and the projects/careers intro dialog.
module ListPages {
  import opened Wrappers
  import opened Strings
  import opened Periods
  import CategoryTree

  const IntroMax := 20
  const FetchFailed := "목록을 불러오지 못했습니다."
  const ReorderFailed := "순서 변경에 실패했습니다."
  const SaveFailed := "저장에 실패했습니다."

  /** A project row as the list page uses it. */
  datatype ProjectItem = ProjectItem(id: int, title: string, startDate: string, endDate: string)

  /** `err?.message || fallback`: an empty message stands for a missing one. */
  function MessageOr(message: string, fallback: string): (r: string)
    ensures r != [] || fallback == []
    ensures message != [] ==> r == message
  {
    if message != [] then message else fallback
  }

  // ---------------------------------------------------------------------
  // handleDrop
  // ---------------------------------------------------------------------

  /** The list after dropping the dragged row `from` on row `to`, or None when
      nothing is dragged or the row is dropped on itself. */
  function Dropped<T>(list: seq<T>, from: Option<nat>, to: nat): (r: Option<seq<T>>)
    requires to < |list| && (from.Some? ==> from.value < |list|)
    ensures r.None? <==> from.None? || from.value == to
    ensures r.Some? ==> |r.value| == |list| && multiset(r.value) == multiset(list) && r.value[to] == list[from.value]
  {
    if from.None? || from.value == to then None
    else
      CategoryTree.MoveInArrayAt(list, from.value, to, to);
      Some(CategoryTree.MoveInArray(list, from.value, to))
  }

  /** Dropping a row back where it came from restores the list. */
  lemma DroppedBack<T>(list: seq<T>, from: nat, to: nat)
    requires from < |list| && to < |list| && from != to
    ensures Dropped(Dropped(list, Some(from), to).value, Some(to), from) == Some(list)
  {
    CategoryTree.MoveInArrayInverse(list, from, to);
  }

  function CareerIds(list: seq<CareerItem>): (r: seq<int>)
    ensures |r| == |list| && forall i :: 0 <= i < |list| ==> r[i] == list[i].id
  {
    seq(|list|, i requires 0 <= i < |list| => list[i].id)
  }

  function ProjectIds(list: seq<ProjectItem>): (r: seq<int>)
    ensures |r| == |list| && forall i :: 0 <= i < |list| ==> r[i] == list[i].id
  {
    seq(|list|, i requires 0 <= i < |list| => list[i].id)
  }

  // ---------------------------------------------------------------------
  // Row numbers
  // ---------------------------------------------------------------------

  /** The career list counts down from its length. */
  function CareerRowNumber(n: nat, idx: nat): (r: nat)
    requires idx < n
    ensures 1 <= r <= n
  {
    n - idx
  }

  /** The project list counts up from 1. */
  function ProjectRowNumber(n: nat, idx: nat): (r: nat)
    requires idx < n
    ensures 1 <= r <= n
  {
    idx + 1
  }

  /** Either numbering gives each row its own number. */
  lemma RowNumbersDistinct(n: nat, i: nat, j: nat)
    requires i < n && j < n && i != j
    ensures CareerRowNumber(n, i) != CareerRowNumber(n, j)
    ensures ProjectRowNumber(n, i) != ProjectRowNumber(n, j)
    ensures CareerRowNumber(n, i) == ProjectRowNumber(n, n - 1 - i)
  {
  }

  // ---------------------------------------------------------------------
  // Intro dialog
  // ---------------------------------------------------------------------

  /** The text sent on save: trimmed, cut to 20. */
  function IntroPayload(text: string): (r: string)
    ensures |r| <= IntroMax
  {
    Take(Trim(text), IntroMax)
  }

  predicate IntroSaveDisabled(saving: bool, text: string)
  {
    saving || |text| > IntroMax
  }

  /** Whenever save is enabled the trimmed text is sent whole. */
  lemma IntroSentWhole(text: string)
    requires !IntroSaveDisabled(false, text)
    ensures IntroPayload(text) == Trim(text)
  {
    TrimNoLonger(text);
  }

  lemma TrimNoLonger(s: string)
    ensures |Trim(s)| <= |s|
  {
  }

  // ---------------------------------------------------------------------
  // The career list page
  // ---------------------------------------------------------------------

  class CareerListPage {
    var careers: seq<CareerItem>
    var dragId: Option<nat>
    var dropTargetIdx: Option<nat>
    var error: Option<string>

    constructor ()
      ensures careers == [] && dragId.None? && dropTargetIdx.None? && error.None?
    {
      careers := [];
      dragId := None;
      dropTargetIdx := None;
      error := None;
    }

    /** fetchCareers with the response (None: the request failed). */
    method Fetched(res: Option<seq<CareerItem>>, failMessage: string)
      modifies this`careers, this`error
      ensures res.Some? ==> careers == SortLatestFirst(res.value) && error.None?
      ensures res.None? ==> careers == [] && error == Some(MessageOr(failMessage, FetchFailed))
    {
      error := None;
      if res.Some? {
        careers := SortLatestFirst(res.value);
      } else {
        error := Some(MessageOr(failMessage, FetchFailed));
        careers := [];
      }
    }

    method DragStart(idx: nat)
      modifies this`dragId, this`dropTargetIdx
      ensures dragId == Some(idx) && dropTargetIdx.None?
    {
      dragId := Some(idx);
      dropTargetIdx := None;
    }

    /** handleDragOver: a row other than the dragged one is highlighted. */
    method DragOver(targetIdx: nat)
      modifies this`dropTargetIdx
      ensures dragId.None? || dragId == Some(targetIdx) ==> dropTargetIdx == old(dropTargetIdx)
      ensures dragId.Some? && dragId != Some(targetIdx) ==> dropTargetIdx == Some(targetIdx)
    {
      if dragId.None? || dragId == Some(targetIdx) {
        return;
      }
      dropTargetIdx := Some(targetIdx);
    }

    /** handleDrop on row `toIdx`: `request` is the id order PATCHed (None:
        none sent); `patchError` the failure of that request, `refetched`
        the list the following fetch returns and `refetchMessage` that
        fetch's error message when it fails. */
    method HandleDrop(toIdx: nat, patchError: Option<string>, refetched: Option<seq<CareerItem>>,
                      refetchMessage: string)
      returns (request: Option<seq<int>>)
      requires toIdx < |careers| && (dragId.Some? ==> dragId.value < |careers|)
      modifies this`careers, this`error, this`dragId, this`dropTargetIdx
      ensures dragId.None? && dropTargetIdx.None?
      ensures var moved := Dropped(old(careers), old(dragId), toIdx);
        (moved.None? ==> request.None? && careers == old(careers) && error == old(error)) &&
        (moved.Some? ==> request == Some(CareerIds(moved.value)))
      ensures request.Some? && patchError.Some? ==>
        careers == old(careers) && error == Some(MessageOr(patchError.value, ReorderFailed))
      ensures request.Some? && patchError.None? && refetched.Some? ==>
        careers == SortLatestFirst(refetched.value) && error.None?
      ensures request.Some? && patchError.None? && refetched.None? ==>
        careers == [] && error == Some(MessageOr(refetchMessage, FetchFailed))
    {
      dropTargetIdx := None;
      var fromIdx := dragId;
      if fromIdx.None? || fromIdx.value == toIdx {
        dragId := None;
        return None;
      }
      var arr := CategoryTree.MoveInArray(careers, fromIdx.value, toIdx);
      request := Some(CareerIds(arr));
      if patchError.None? {
        Fetched(refetched, refetchMessage);
      } else {
        error := Some(MessageOr(patchError.value, ReorderFailed));
      }
      dragId := None;
    }
  }

  // ---------------------------------------------------------------------
  // The project list page
  // ---------------------------------------------------------------------

  class ProjectListPage {
    var projects: seq<ProjectItem>
    var dragId: Option<nat>
    var dropTargetIdx: Option<nat>
    var error: Option<string>
    var introOpen: bool
    var introText: string
    var introSaving: bool
    var introError: Option<string>

    constructor ()
      ensures projects == [] && dragId.None? && dropTargetIdx.None? && error.None?
      ensures !introOpen && introText == [] && !introSaving && introError.None?
    {
      projects := [];
      dragId := None;
      dropTargetIdx := None;
      error := None;
      introOpen := false;
      introText := [];
      introSaving := false;
      introError := None;
    }

    /** fetchProjects: the list is kept in the order the server sends. */
    method Fetched(res: Option<seq<ProjectItem>>, failMessage: string)
      modifies this`projects, this`error
      ensures res.Some? ==> projects == res.value && error.None?
      ensures res.None? ==> projects == [] && error == Some(MessageOr(failMessage, FetchFailed))
    {
      error := None;
      if res.Some? {
        projects := res.value;
      } else {
        error := Some(MessageOr(failMessage, FetchFailed));
        projects := [];
      }
    }

    method DragStart(idx: nat)
      modifies this`dragId, this`dropTargetIdx
      ensures dragId == Some(idx) && dropTargetIdx.None?
    {
      dragId := Some(idx);
      dropTargetIdx := None;
    }

    /** handleDrop on row `toIdx`: the moved list replaces the shown one only
        after the PATCH succeeds. */
    method HandleDrop(toIdx: nat, patchError: Option<string>) returns (request: Option<seq<int>>)
      requires toIdx < |projects| && (dragId.Some? ==> dragId.value < |projects|)
      modifies this`projects, this`error, this`dragId, this`dropTargetIdx
      ensures dragId.None? && dropTargetIdx.None?
      ensures var moved := Dropped(old(projects), old(dragId), toIdx);
        (moved.None? ==> request.None? && projects == old(projects) && error == old(error)) &&
        (moved.Some? ==> (request == Some(ProjectIds(moved.value)) &&
           (patchError.None? ==> projects == moved.value && error == old(error)) &&
           (patchError.Some? ==> projects == old(projects) && error == Some(MessageOr(patchError.value, ReorderFailed)))))
    {
      dropTargetIdx := None;
      var fromIdx := dragId;
      if fromIdx.None? || fromIdx.value == toIdx {
        dragId := None;
        return None;
      }
      var arr := CategoryTree.MoveInArray(projects, fromIdx.value, toIdx);
      request := Some(ProjectIds(arr));
      if patchError.None? {
        projects := arr;
      } else {
        error := Some(MessageOr(patchError.value, ReorderFailed));
      }
      dragId := None;
    }

    /** Opening the intro dialog with the fetched text (None: no text or a
        failed request). */
    method IntroOpened(fetched: Option<string>)
      modifies this`introOpen, this`introError, this`introText
      ensures introOpen && introError.None? && introText == fetched.GetOr("")
    {
      introOpen := true;
      introError := None;
      introText := fetched.GetOr("");
    }

    /** Typing in the intro field. */
    method IntroTyped(v: string)
      modifies this`introText
      ensures introText == v
    {
      introText := v;
    }

    /** The save button (enabled only while not saving and within 20
        characters): the text sent, then the dialog closes or shows the
        error. */
    method IntroSave(putError: Option<string>) returns (sent: string)
      requires !IntroSaveDisabled(introSaving, introText)
      modifies this`introSaving, this`introError, this`introOpen
      ensures sent == Trim(introText) && |sent| <= IntroMax
      ensures !introSaving
      ensures putError.None? ==> !introOpen && introError.None?
      ensures putError.Some? ==> introOpen == old(introOpen) && introError == Some(MessageOr(putError.value, SaveFailed))
    {
      introSaving := true;
      introError := None;
      sent := IntroPayload(introText);
      IntroSentWhole(introText);
      if putError.None? {
        introOpen := false;
      } else {
        introError := Some(MessageOr(putError.value, SaveFailed));
      }
      introSaving := false;
    }
  }
}
