// The public client's API layer: static URLs, the error message a failed
// request reports, and the query of the post list.
module ClientApi {
  import opened Wrappers
  import opened Strings
  import opened SearchParams

  const DefaultMessage := "요청을 처리할 수 없습니다."
  const NetworkMessage := "네트워크 연결을 확인해 주세요."

  // ---------------------------------------------------------------------
  // getStaticUrl
  // ---------------------------------------------------------------------

  /** `replace(/\/$/, '')`: one trailing '/' goes. */
  function StripTrailingSlash(s: string): (r: string)
    ensures s == [] || s[|s| - 1] != '/' ==> r == s
    ensures s != [] && s[|s| - 1] == '/' ==> r + "/" == s
  {
    if s != [] && s[|s| - 1] == '/' then s[..|s| - 1] else s
  }

  /** The path with a leading '/'. */
  function Segment(path: string): (r: string)
    requires path != []
    ensures r != [] && r[0] == '/' && EndsWith(r, path)
    ensures path[0] == '/' ==> r == path
    ensures path[0] != '/' ==> r == "/" + path
  {
    if path[0] == '/' then path else "/" + path
  }

  /** getStaticUrl: '' for no path, else the base (trailing '/' dropped)
      followed by the path with a leading '/'. */
  function StaticUrl(base: string, path: string): (r: string)
    ensures path == [] ==> r == []
    ensures path != [] ==> r == StripTrailingSlash(base) + Segment(path)
  {
    if path == [] then []
    else
      var b := StripTrailingSlash(base);
      if b != [] then b + Segment(path)
      else
        assert b + Segment(path) == Segment(path);
        Segment(path)
  }

  /** A path with or without its leading '/' gives the same URL. */
  lemma StaticUrlSlashInsensitive(base: string, path: string)
    requires path != [] && path[0] != '/'
    ensures StaticUrl(base, path) == StaticUrl(base, "/" + path)
  {
  }

  /** Without a base, a static URL is its own static URL. */
  lemma StaticUrlIdempotent(path: string)
    ensures StaticUrl("", StaticUrl("", path)) == StaticUrl("", path)
  {
  }

  // ---------------------------------------------------------------------
  // request
  // ---------------------------------------------------------------------

  /** The `detail` of an error body: a string, a list of validation items
      (each with its `msg` when that is a string), or anything else
      (including a body that is not JSON). */
  datatype Detail = Text(text: string) | Items(msgs: seq<Option<string>>) | Other

  /** The non-empty string messages, in order. */
  function Messages(msgs: seq<Option<string>>): (r: seq<string>)
    ensures forall k :: 0 <= k < |r| ==> r[k] != []
    ensures forall x :: x in r <==> x != [] && Some(x) in msgs
    ensures |msgs| == 1 ==> r == (if msgs[0].Some? && msgs[0].value != [] then [msgs[0].value] else [])
  {
    if msgs == [] then []
    else
      var rest := Messages(msgs[1..]);
      assert forall x :: Some(x) in msgs <==> Some(x) == msgs[0] || Some(x) in msgs[1..];
      (if msgs[0].Some? && msgs[0].value != [] then [msgs[0].value] else []) + rest
  }

  /** The filter keeps the items' order: the messages of two runs of items
      are those of the first run, then those of the second. */
  lemma {:induction false} MessagesConcat(a: seq<Option<string>>, b: seq<Option<string>>)
    ensures Messages(a + b) == Messages(a) + Messages(b)
  {
    if a == [] {
      assert a + b == b;
    } else {
      assert (a + b)[0] == a[0];
      assert (a + b)[1..] == a[1..] + b;
      MessagesConcat(a[1..], b);
    }
  }

  /** The message of a non-OK response. */
  function ErrorMessage(d: Detail): (r: string)
    ensures d.Text? ==> r == d.text
    ensures d.Items? && Messages(d.msgs) != [] ==> r == Join(Messages(d.msgs), "\n")
    ensures d.Other? || (d.Items? && Messages(d.msgs) == []) ==> r == DefaultMessage
  {
    match d
    case Text(t) => t
    case Items(msgs) =>
      var parts := Messages(msgs);
      if parts != [] then Join(parts, "\n") else DefaultMessage
    case Other => DefaultMessage
  }

  /** Messages on one line each come back out of the joined text line by
      line. */
  lemma ErrorMessageLines(msgs: seq<Option<string>>)
    requires Messages(msgs) != []
    requires forall x :: Some(x) in msgs ==> '\n' !in x
    ensures Split(ErrorMessage(Items(msgs)), '\n') == Messages(msgs)
  {
    var parts := Messages(msgs);
    forall k | 0 <= k < |parts| ensures '\n' !in parts[k] {
      assert parts[k] in parts;
    }
    SplitJoin(parts, '\n');
  }

  /** How a fetch ended: no response at all, a non-OK status with the error
      body's detail, an OK body, or an OK response whose body is not JSON
      (with the parser's error message). */
  datatype Fetched<T> = NetworkDown | NotOk(detail: Detail) | Ok(data: T) | OkNotJson(parseError: string)

  datatype Outcome<T> = Data(value: T) | Failure(message: string)

  /** request: an OK body is the result; a non-OK response fails with its
      message, and a fetch that got no response with the network message.
      The OK body's `res.json()` is returned without being awaited, so its
      parse error escapes the catch and reaches the caller as it is. */
  function Request<T>(f: Fetched<T>): (r: Outcome<T>)
    ensures f.Ok? <==> r.Data?
    ensures f.Ok? ==> r == Data(f.data)
    ensures f.NotOk? ==> r == Failure(ErrorMessage(f.detail))
    ensures f.NetworkDown? ==> r == Failure(NetworkMessage)
    ensures f.OkNotJson? ==> r == Failure(f.parseError)
  {
    match f
    case NetworkDown => Failure(NetworkMessage)
    case NotOk(d) => Failure(ErrorMessage(d))
    case Ok(data) => Data(data)
    case OkNotJson(e) => Failure(e)
  }

  /** fetchProjectsCareersIntro: the `text` of the body (None: missing or
      null), '' when there is none. */
  function IntroText(f: Fetched<Option<string>>): (r: Outcome<string>)
    ensures f.Ok? ==> r == Data(f.data.GetOr(""))
    ensures !f.Ok? ==> r.Failure? && r.message == Request(f).message
  {
    match Request(f)
    case Data(text) => Data(text.GetOr(""))
    case Failure(m) => Failure(m)
  }

  // ---------------------------------------------------------------------
  // fetchPosts
  // ---------------------------------------------------------------------

  /** The value each key of GET /api/posts' query reads: page, per_page and
      status=PUBLISHED always, category_id and tag_id when given, q trimmed
      and only when not blank, and nothing else. */
  function PostsQueryValue(page: nat, perPage: nat, category: string, tag: string, q: string, k: string): Option<string>
  {
    if k == "page" then Some(NatToString(page))
    else if k == "per_page" then Some(NatToString(perPage))
    else if k == "status" then Some("PUBLISHED")
    else if k == "category_id" then (if category != [] then Some(category) else None)
    else if k == "tag_id" then (if tag != [] then Some(tag) else None)
    else if k == "q" then (if Trim(q) != [] then Some(Trim(q)) else None)
    else None
  }

  /** fetchPosts' query: successive `set` calls on an empty list (a filter
      is '' when it is not given). */
  function PostsQuery(page: nat, perPage: nat, category: string, tag: string, q: string): seq<Param>
  {
    SetIf(SetIf(SetIf(
      Set(Set(Set([], "page", NatToString(page)), "per_page", NatToString(perPage)), "status", "PUBLISHED"),
      category != [], "category_id", category),
      tag != [], "tag_id", tag),
      Trim(q) != [], "q", Trim(q))
  }

  /** Every key of the query reads the value it should. */
  lemma PostsQueryReads(page: nat, perPage: nat, category: string, tag: string, q: string, k: string)
    ensures Get(PostsQuery(page, perPage, category, tag, q), k) == PostsQueryValue(page, perPage, category, tag, q, k)
  {
    var p0 := Set([], "page", NatToString(page));
    var p1 := Set(p0, "per_page", NatToString(perPage));
    var p2 := Set(p1, "status", "PUBLISHED");
    var p3 := SetIf(p2, category != [], "category_id", category);
    var p4 := SetIf(p3, tag != [], "tag_id", tag);
    GetSet([], "page", NatToString(page), k);
    GetSet(p0, "per_page", NatToString(perPage), k);
    GetSet(p1, "status", "PUBLISHED", k);
    GetSetIf(p2, category != [], "category_id", category, k);
    GetSetIf(p3, tag != [], "tag_id", tag, k);
    GetSetIf(p4, Trim(q) != [], "q", Trim(q), k);
  }
}
