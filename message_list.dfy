// The back-office about-messages page: at most three messages, the add and
// edit dialog, and the renumbering that an edit of the position causes.
module MessageList {
  import opened Wrappers
  import opened Strings
  import opened Sorting
  import CategoryTree

  const TitleMax := 20
  const ContentMax := 120
  const MessageCap := 3

  const CapReached := "최대 3개만 추가 가능합니다. 수정을 진행해 주세요."
  const NotFound := "항목을 찾을 수 없습니다."
  const NeedsAuth := "인증이 필요합니다."
  const FetchFailed := "목록을 불러오지 못했습니다."
  const SaveFailed := "저장 실패"

  /** truncate: '' for a missing value (None) or empty text, the text itself
      up to maxLen characters, else its first maxLen characters and '…'. */
  function Truncate(str: Option<string>, maxLen: nat): (r: string)
    ensures str.None? || str.value == [] ==> r == []
    ensures str.Some? && |str.value| <= maxLen ==> r == str.value
    ensures str.Some? && |str.value| > maxLen ==>
      |r| == maxLen + 1 && r[..maxLen] == str.value[..maxLen] && r[maxLen] == '…'
  {
    if str.None? || str.value == [] then []
    else if |str.value| <= maxLen then str.value
    else str.value[..maxLen] + "…"
  }

  datatype Message = Message(id: int, title: string, content: string, sortOrder: Option<int>)

  /** `sort_order ?? 0` */
  function Key(m: Message): int
  {
    m.sortOrder.GetOr(0)
  }

  predicate KeyLess(a: Message, b: Message)
  {
    Key(a) < Key(b)
  }

  datatype Mode = Add | Edit

  /** The dialog; `position` is the typed position, None when it is not a
      number. */
  datatype Dialog = Dialog(open: bool, mode: Mode, id: Option<int>, title: string, content: string,
                           position: Option<int>)

  datatype Request = Post(title: string, content: string, sortOrder: int)
                   | Put(id: int, title: string, content: string, sortOrder: int)

  // ---------------------------------------------------------------------
  // Add
  // ---------------------------------------------------------------------

  function MaxKey(items: seq<Message>): (r: int)
    requires items != []
    ensures forall i :: 0 <= i < |items| ==> Key(items[i]) <= r
    ensures exists i :: 0 <= i < |items| && Key(items[i]) == r
  {
    if |items| == 1 then Key(items[0])
    else
      var m := MaxKey(items[..|items| - 1]);
      var last := Key(items[|items| - 1]);
      assert forall i :: 0 <= i < |items| - 1 ==> items[..|items| - 1][i] == items[i];
      if last > m then last else m
  }

  /** The sort_order an added message gets: one more than the largest, or 1
      for the first message. */
  function AddSortOrder(items: seq<Message>): (r: int)
    ensures items == [] ==> r == 1
    ensures forall i :: 0 <= i < |items| ==> Key(items[i]) < r
    ensures items != [] ==> exists i :: 0 <= i < |items| && Key(items[i]) == r - 1
  {
    if items == [] then 1 else MaxKey(items) + 1
  }

  // ---------------------------------------------------------------------
  // Edit
  // ---------------------------------------------------------------------

  /** `Math.min(3, Math.max(1, Number(sort_order) || 1))` */
  function Position(v: Option<int>): (r: int)
    ensures 1 <= r <= MessageCap
    ensures v.None? || v == Some(0) ==> r == 1
    ensures v.Some? && 1 <= v.value <= MessageCap ==> r == v.value
    ensures v.Some? && v.value > MessageCap ==> r == MessageCap
    ensures v.Some? && v.value < 0 ==> r == 1
  {
    var n := if v.None? || v.value == 0 then 1 else v.value;
    if n < 1 then 1 else if n > MessageCap then MessageCap else n
  }

  /** findIndex on the id. */
  function IndexOfMessage(list: seq<Message>, id: Option<int>): (r: Option<nat>)
    ensures r.Some? ==> r.value < |list| && Some(list[r.value].id) == id
    ensures r.Some? ==> forall k :: 0 <= k < r.value ==> Some(list[k].id) != id
    ensures r.None? ==> forall k :: 0 <= k < |list| ==> Some(list[k].id) != id
  {
    if list == [] then None
    else if Some(list[0].id) == id then Some(0)
    else match IndexOfMessage(list[1..], id)
      case None => None
      case Some(k) => Some(k + 1)
  }

  /** The sorted messages with the edited one moved to its new position. */
  function Moved(items: seq<Message>, idx: nat, position: int): (r: seq<Message>)
    requires idx < |items| && 1 <= position
    ensures |r| == |items|
  {
    CategoryTree.MoveInArray(SortBy(items, KeyLess), idx, position - 1)
  }

  /** The PUT sent for the i-th message of the renumbered list, if any: one
      whose number changed, and the edited one in any case. */
  function RequestAt(moved: seq<Message>, i: nat, id: Option<int>, t: string, c: string): (r: seq<Request>)
    requires i < |moved|
    ensures |r| <= 1
  {
    var m := moved[i];
    var edited := Some(m.id) == id;
    if i + 1 != Key(m) then [Put(m.id, if edited then t else m.title, if edited then c else m.content, i + 1)]
    else if edited then [Put(m.id, t, c, i + 1)]
    else []
  }

  /** The PUTs of the first n messages, in order. */
  function EditRequests(moved: seq<Message>, n: nat, id: Option<int>, t: string, c: string): (r: seq<Request>)
    requires n <= |moved|
    ensures |r| <= n
  {
    if n == 0 then [] else EditRequests(moved, n - 1, id, t, c) + RequestAt(moved, n - 1, id, t, c)
  }

  lemma {:induction false} EditRequestsMembers(moved: seq<Message>, n: nat, id: Option<int>, t: string, c: string, x: Request)
    requires n <= |moved|
    ensures x in EditRequests(moved, n, id, t, c) <==> exists i :: 0 <= i < n && x in RequestAt(moved, i, id, t, c)
  {
    if n > 0 {
      EditRequestsMembers(moved, n - 1, id, t, c, x);
    }
  }

  /** After the PUTs every message is numbered by its position: either its
      number was already right or a PUT sets it. */
  lemma EditRenumbers(moved: seq<Message>, id: Option<int>, t: string, c: string, i: nat)
    requires i < |moved|
    ensures Key(moved[i]) == i + 1 ||
      exists x :: x in EditRequests(moved, |moved|, id, t, c) && x.Put? && x.id == moved[i].id && x.sortOrder == i + 1
  {
    if Key(moved[i]) != i + 1 {
      var x := RequestAt(moved, i, id, t, c)[0];
      EditRequestsMembers(moved, |moved|, id, t, c, x);
    }
  }

  /** The edited message is always sent, with the new title and content. */
  lemma EditedIsSent(moved: seq<Message>, id: Option<int>, t: string, c: string, i: nat)
    requires i < |moved| && Some(moved[i].id) == id
    ensures Put(moved[i].id, t, c, i + 1) in EditRequests(moved, |moved|, id, t, c)
  {
    assert Put(moved[i].id, t, c, i + 1) in RequestAt(moved, i, id, t, c);
    EditRequestsMembers(moved, |moved|, id, t, c, Put(moved[i].id, t, c, i + 1));
  }

  /** No other message is sent unless its number changed. */
  lemma OnlyChangedAreSent(moved: seq<Message>, id: Option<int>, t: string, c: string, x: Request)
    requires x in EditRequests(moved, |moved|, id, t, c)
    ensures exists i :: (0 <= i < |moved| && x.Put? && x.id == moved[i].id && x.sortOrder == i + 1 &&
      (Key(moved[i]) != i + 1 || Some(moved[i].id) == id))
  {
    EditRequestsMembers(moved, |moved|, id, t, c, x);
  }

  /** The edited message lands at its (clamped) new position. */
  lemma MovedLandsAt(items: seq<Message>, idx: nat, position: int)
    requires idx < |items| && 1 <= position
    ensures var d := CategoryTree.Clamp(position - 1, |items| - 1);
      Moved(items, idx, position)[d] == SortBy(items, KeyLess)[idx]
  {
    var sorted := SortBy(items, KeyLess);
    CategoryTree.MoveInArrayAt(sorted, idx, position - 1, CategoryTree.Clamp(position - 1, |items| - 1));
  }

  // ---------------------------------------------------------------------
  // saveDialog as a plan
  // ---------------------------------------------------------------------

  datatype Plan = Rejected(message: string) | Requests(all: seq<Request>)

  function TitleTooLong(n: nat): string
  {
    "제목은 20자 이하여야 합니다. (현재 " + NatToString(n) + "자)"
  }

  function ContentTooLong(n: nat): string
  {
    "내용은 120자 이하여야 합니다. (현재 " + NatToString(n) + "자)"
  }

  /** What saveDialog does before any failure: the message it shows instead
      of saving, or the requests it sends. */
  function Planned(items: seq<Message>, d: Dialog): (r: Plan)
    ensures r.Requests? ==> |Trim(d.title)| <= TitleMax && |Trim(d.content)| <= ContentMax
    ensures r.Requests? && d.mode == Add ==> |items| < MessageCap && |r.all| == 1
    ensures r.Requests? && d.mode == Edit ==> |r.all| <= |items|
    ensures |Trim(d.title)| > TitleMax ==> r == Rejected(TitleTooLong(|Trim(d.title)|))
    ensures |Trim(d.title)| <= TitleMax && |Trim(d.content)| > ContentMax ==>
      r == Rejected(ContentTooLong(|Trim(d.content)|))
    ensures var ok := |Trim(d.title)| <= TitleMax && |Trim(d.content)| <= ContentMax;
      ok && d.mode == Add ==>
        (|items| >= MessageCap ==> r == Rejected(CapReached)) &&
        (|items| < MessageCap ==> r == Requests([Post(Trim(d.title), Trim(d.content), AddSortOrder(items))]))
    ensures var ok := |Trim(d.title)| <= TitleMax && |Trim(d.content)| <= ContentMax;
      var idx := IndexOfMessage(SortBy(items, KeyLess), d.id);
      ok && d.mode == Edit ==>
        (idx.None? ==> r == Rejected(NotFound)) &&
        (idx.Some? ==>
          idx.value < |items| &&
          r == Requests(EditRequests(Moved(items, idx.value, Position(d.position)), |items|,
                                     d.id, Trim(d.title), Trim(d.content))))
  {
    var t := Trim(d.title);
    var c := Trim(d.content);
    if |t| > TitleMax then Rejected(TitleTooLong(|t|))
    else if |c| > ContentMax then Rejected(ContentTooLong(|c|))
    else if d.mode == Add && |items| >= MessageCap then Rejected(CapReached)
    else if d.mode == Add then Requests([Post(t, c, AddSortOrder(items))])
    else
      var sorted := SortBy(items, KeyLess);
      var idx := IndexOfMessage(sorted, d.id);
      if idx.None? then Rejected(NotFound)
      else
        var moved := Moved(items, idx.value, Position(d.position));
        Requests(EditRequests(moved, |moved|, d.id, t, c))
  }

  // ---------------------------------------------------------------------
  // The page
  // ---------------------------------------------------------------------

  class MessageListPage {
    var items: seq<Message>
    var error: Option<string>
    var dialog: Dialog

    constructor ()
      ensures items == [] && error.None? && !dialog.open
    {
      items := [];
      error := None;
      dialog := Dialog(false, Add, None, "", "", Some(1));
    }

    /** fetchList: nothing without a token; a failure keeps the list. */
    method FetchList(hasToken: bool, res: Option<seq<Message>>, failMessage: string)
      modifies this`items, this`error
      ensures !hasToken ==> items == old(items) && error == Some(NeedsAuth)
      ensures hasToken && res.Some? ==> items == res.value && error.None?
      ensures hasToken && res.None? ==> items == old(items) && error == Some(if failMessage != [] then failMessage else FetchFailed)
    {
      if !hasToken {
        error := Some(NeedsAuth);
        return;
      }
      error := None;
      if res.Some? {
        items := res.value;
      } else {
        error := Some(if failMessage != [] then failMessage else FetchFailed);
      }
    }

    /** openAdd: refused at three messages; the position shown is the next
        slot. */
    method OpenAdd()
      modifies this`error, this`dialog
      ensures |items| >= MessageCap ==> error == Some(CapReached) && dialog == old(dialog)
      ensures |items| < MessageCap ==>
        error.None? && dialog == Dialog(true, Add, None, "", "", Some(|items| + 1))
    {
      error := None;
      if |items| >= MessageCap {
        error := Some(CapReached);
        return;
      }
      dialog := Dialog(true, Add, None, "", "", Some(|items| + 1));
    }

    /** openEdit on a message at its shown position (None: none given). */
    method OpenEdit(msg: Message, position: Option<int>)
      modifies this`error, this`dialog
      ensures error.None? && dialog == Dialog(true, Edit, Some(msg.id), msg.title, msg.content, Some(position.GetOr(1)))
    {
      error := None;
      dialog := Dialog(true, Edit, Some(msg.id), msg.title, msg.content, Some(position.GetOr(1)));
    }

    method CloseDialog()
      modifies this`dialog, this`error
      ensures dialog == old(dialog).(open := false) && error.None?
    {
      dialog := dialog.(open := false);
      error := None;
    }

    /** saveDialog (Save); `saved` says the dialog closed and the list is
        fetched again (FetchList). */
    method SaveDialog(failAt: Option<nat>, failMessage: string) returns (sent: seq<Request>, saved: bool)
      modifies this`error, this`dialog
      ensures SavedAs(items, old(dialog), failAt, failMessage, sent, if saved then None else error)
      ensures saved ==> dialog == old(dialog).(open := false) && error.None?
      ensures !saved ==> dialog == old(dialog)

    {
      var failure;
      var its := items;
      var dd := dialog;
      sent, failure := Save(its, dd, failAt, failMessage);
      if failure.Some? {
        error := failure;
        return sent, false;
      }
      CloseDialog();
      saved := true;
    }
  }

  /** What saveDialog ends with under a plan: the requests sent and the
      message shown (None: everything was saved). */
  predicate SaveOutcome(plan: Plan, failAt: Option<nat>, failMessage: string, sent: seq<Request>, failure: Option<string>)
  {
    match plan
    case Rejected(message) => sent == [] && failure == Some(message)
    case Requests(all) =>
      if failAt.Some? && failAt.value < |all| then
        sent == all[..failAt.value + 1] && failure == Some(if failMessage != [] then failMessage else SaveFailed)
      else
        sent == all && failure.None?
  }

  predicate SavedAs(items: seq<Message>, d: Dialog, failAt: Option<nat>, failMessage: string,
                    sent: seq<Request>, failure: Option<string>)
  {
    SaveOutcome(Planned(items, d), failAt, failMessage, sent, failure)
  }

  /** The body of saveDialog: the checks in order, then the POST of an add or
      the PUTs of an edit. The request with index `failAt` fails with
      `failMessage` and the ones after it are not sent. */
  method Save(items: seq<Message>, d: Dialog, failAt: Option<nat>, failMessage: string)
    returns (sent: seq<Request>, failure: Option<string>)
    ensures SavedAs(items, d, failAt, failMessage, sent, failure)
  {
    ghost var plan := Planned(items, d);
    var t := Trim(d.title);
    var c := Trim(d.content);
    if |t| > TitleMax {
      assert plan == Rejected(TitleTooLong(|t|));
      return [], Some(TitleTooLong(|t|));
    }
    if |c| > ContentMax {
      assert plan == Rejected(ContentTooLong(|c|));
      return [], Some(ContentTooLong(|c|));
    }
    if d.mode == Add && |items| >= MessageCap {
      return [], Some(CapReached);
    }
    if d.mode == Add {
      sent := [Post(t, c, AddSortOrder(items))];
      assert plan == Requests(sent);
      if failAt == Some(0) {
        return sent, Some(if failMessage != [] then failMessage else SaveFailed);
      }
      return sent, None;
    }
    var sorted := SortBy(items, KeyLess);
    var currentIdx := IndexOfMessage(sorted, d.id);
    if currentIdx.None? {
      return [], Some(NotFound);
    }
    var moved := Moved(items, currentIdx.value, Position(d.position));
    assert plan == Requests(EditRequests(moved, |moved|, d.id, t, c));
    var failed;
    sent, failed := SendEdits(moved, d.id, t, c, failAt);
    failure := if failed then Some(if failMessage != [] then failMessage else SaveFailed) else None;
  }

  /** The loop of saveDialog's edit path: one PUT after another, stopping
      at the one with index `failAt`, which fails. */
  method SendEdits(moved: seq<Message>, id: Option<int>, t: string, c: string, failAt: Option<nat>)
    returns (sent: seq<Request>, failed: bool)
    ensures var all := EditRequests(moved, |moved|, id, t, c);
      if failAt.Some? && failAt.value < |all| then sent == all[..failAt.value + 1] && failed
      else sent == all && !failed
  {
    sent := [];
    var i := 0;
    while i < |moved|
      invariant 0 <= i <= |moved|
      invariant sent == EditRequests(moved, i, id, t, c)
      invariant failAt.None? || failAt.value >= |sent|
    {
      var step := RequestAt(moved, i, id, t, c);
      if step != [] && failAt == Some(|sent|) {
        SentPrefix(moved, i, id, t, c);
        return sent + step, true;
      }
      sent := sent + step;
      i := i + 1;
    }
    failed := false;
  }

  /** When the i-th message sends a request, the requests up to and
      including it start the full list. */
  lemma SentPrefix(moved: seq<Message>, i: nat, id: Option<int>, t: string, c: string)
    requires i < |moved| && RequestAt(moved, i, id, t, c) != []
    ensures var all := EditRequests(moved, |moved|, id, t, c);
      var before := EditRequests(moved, i, id, t, c);
      var k := |before|;
      k < |all| && all[..k + 1] == before + RequestAt(moved, i, id, t, c)
  {
    EditRequestsPrefix(moved, i + 1, |moved|, id, t, c);
    EditRequestsStep(moved, i, id, t, c);
  }

  /** One message further, the list grows by that message's request. */
  lemma EditRequestsStep(moved: seq<Message>, i: nat, id: Option<int>, t: string, c: string)
    requires i < |moved| && RequestAt(moved, i, id, t, c) != []
    ensures EditRequests(moved, i + 1, id, t, c) == EditRequests(moved, i, id, t, c) + RequestAt(moved, i, id, t, c)
    ensures |EditRequests(moved, i + 1, id, t, c)| == |EditRequests(moved, i, id, t, c)| + 1
  {
  }

  lemma {:induction false} EditRequestsPrefix(moved: seq<Message>, m: nat, n: nat, id: Option<int>, t: string, c: string)
    requires m <= n <= |moved|
    ensures var a := EditRequests(moved, m, id, t, c);
      var b := EditRequests(moved, n, id, t, c);
      |a| <= |b| && b[..|a|] == a
    decreases n - m
  {
    if m < n {
      EditRequestsPrefix(moved, m, n - 1, id, t, c);
      var a := EditRequests(moved, m, id, t, c);
      var b0 := EditRequests(moved, n - 1, id, t, c);
      var b := EditRequests(moved, n, id, t, c);
      assert b == b0 + RequestAt(moved, n - 1, id, t, c);
      assert b[..|a|] == b0[..|a|];
    }
  }
}
