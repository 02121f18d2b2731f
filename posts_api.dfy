// The post router of the API: slug uniqueness, the published-at checks of
// create and update, the /temp/ path rewrite of uploaded assets, the list
// query (filters, ordering, paging), the neighbour query, the single-post
// read with its view counting, and the post_tags / post_attachments rows.
// Instants are integer seconds (UTC); the tables are sequences of rows.
module PostsApi {
  import opened Wrappers
  import opened Strings
  import opened Sorting
  import CategoriesApi

  datatype Post = Post(
    id: int,
    title: string,
    slug: string,
    status: string,
    publishedAt: Option<int>,
    categoryId: Option<int>,
    prefixId: Option<int>,
    thumbnailAssetId: Option<int>,
    contentHtml: Option<string>,
    contentJson: Option<string>,
    viewCount: nat)

  datatype TagLink = TagLink(postId: int, tagId: int)
  datatype AttachmentLink = AttachmentLink(postId: int, assetId: int, sortOrder: nat)

  const NotFound := "글을 찾을 수 없습니다."
  const PastPublish := "발행일은 현재 시각 이전으로 설정할 수 없습니다."

  // ---------------------------------------------------------------- slugs

  /** _slug_exists: some post other than the excluded one has this slug;
      `slug = :slug` compares under the case-insensitive collation. */
  predicate SlugTaken(posts: seq<Post>, slug: string, exclude: Option<int>)
  {
    exists k :: 0 <= k < |posts| && SameText(posts[k].slug, slug) && (exclude.None? || posts[k].id != exclude.value)
  }

  function Candidate(slug: string, n: nat): string
  {
    slug + "-" + NatToString(n)
  }

  lemma {:induction false} CandidateInjective(slug: string, m: nat, n: nat)
    ensures Lower(Candidate(slug, m)) == Lower(Candidate(slug, n)) ==> m == n
  {
    if Lower(Candidate(slug, m)) == Lower(Candidate(slug, n)) {
      LowerCandidateSuffix(slug, m);
      LowerCandidateSuffix(slug, n);
      NatToStringInjective(m, n);
    }
  }

  /** Case folding leaves the "-n" suffix as it is. */
  lemma LowerCandidateSuffix(slug: string, n: nat)
    ensures Lower(Candidate(slug, n))[|slug| + 1..] == NatToString(n)
  {
    var c := Candidate(slug, n);
    var d := NatToString(n);
    assert c[|slug| + 1..] == d;
    forall i | |slug| + 1 <= i < |c| ensures Lower(c)[i] == c[i] {
      assert c[i] == d[i - |slug| - 1];
      assert IsDigit(d[i - |slug| - 1]);
    }
  }

  ghost function Slugs(posts: seq<Post>): set<string>
  {
    set k | 0 <= k < |posts| :: Lower(posts[k].slug)
  }

  lemma {:induction false} SlugsSize(posts: seq<Post>)
    ensures |Slugs(posts)| <= |posts|
  {
    if posts != [] {
      var init := posts[..|posts| - 1];
      SlugsSize(init);
      assert Slugs(posts) == Slugs(init) + {Lower(posts[|posts| - 1].slug)} by {
        forall x | x in Slugs(posts) ensures x in Slugs(init) + {Lower(posts[|posts| - 1].slug)} {
          var k :| 0 <= k < |posts| && Lower(posts[k].slug) == x;
          if k < |posts| - 1 {
            assert Lower(init[k].slug) == x;
          }
        }
        forall x | x in Slugs(init) ensures x in Slugs(posts) {
          var k :| 0 <= k < |init| && Lower(init[k].slug) == x;
          assert Lower(posts[k].slug) == x;
        }
      }
    }
  }

  ghost function Candidates(slug: string, n: nat): set<string>
  {
    set m | 1 <= m < n :: Lower(Candidate(slug, m))
  }

  lemma {:induction false} CandidatesSize(slug: string, n: nat)
    requires n >= 1
    ensures |Candidates(slug, n)| == n - 1
  {
    if n > 1 {
      CandidatesSize(slug, n - 1);
      assert Candidates(slug, n) == Candidates(slug, n - 1) + {Lower(Candidate(slug, n - 1))};
      if Lower(Candidate(slug, n - 1)) in Candidates(slug, n - 1) {
        var m :| 1 <= m < n - 1 && Lower(Candidate(slug, m)) == Lower(Candidate(slug, n - 1));
        CandidateInjective(slug, m, n - 1);
      }
    } else {
      assert Candidates(slug, n) == {};
    }
  }

  /** Only |posts| candidates can be taken, so the search for a free one stops. */
  lemma {:induction false} CandidatesBound(posts: seq<Post>, slug: string, exclude: Option<int>, n: nat)
    requires n >= 1
    requires forall m :: 1 <= m < n ==> SlugTaken(posts, Candidate(slug, m), exclude)
    ensures n - 1 <= |posts|
  {
    CandidatesSize(slug, n);
    SlugsSize(posts);
    var c := Candidates(slug, n);
    var t := Slugs(posts);
    assert c <= t by {
      forall x | x in c ensures x in t {
        var m :| 1 <= m < n && Lower(Candidate(slug, m)) == x;
        assert SlugTaken(posts, Candidate(slug, m), exclude);
        var k :| 0 <= k < |posts| && SameText(posts[k].slug, Candidate(slug, m)) && (exclude.None? || posts[k].id != exclude.value);
        assert Lower(posts[k].slug) in t;
      }
    }
    assert t == c + (t - c);
    assert |t| == |c| + |t - c|;
  }

  /** The slug a post is saved under: base, or "untitled" for an empty base. */
  function SlugBase(base: string): (r: string)
    ensures r != []
  {
    if base == [] then "untitled" else base
  }

  /** The slug _unique_slug settles on: the base ("untitled" for none) when
      it is free, else base-n for the least n >= 1 that is free. */
  ghost predicate ChosenSlug(posts: seq<Post>, base: string, exclude: Option<int>, r: string)
  {
    var slug := SlugBase(base);
    (!SlugTaken(posts, slug, exclude) && r == slug) ||
    (SlugTaken(posts, slug, exclude) &&
      exists n: nat :: 1 <= n && r == Candidate(slug, n) && !SlugTaken(posts, r, exclude) &&
        forall m :: 1 <= m < n ==> SlugTaken(posts, Candidate(slug, m), exclude))
  }

  /** Exactly one slug meets that description, so the choice is the
      function of the table and the base. */
  lemma ChosenSlugUnique(posts: seq<Post>, base: string, exclude: Option<int>, r1: string, r2: string)
    requires ChosenSlug(posts, base, exclude, r1) && ChosenSlug(posts, base, exclude, r2)
    ensures r1 == r2
  {
    var slug := SlugBase(base);
    if SlugTaken(posts, slug, exclude) {
      var n1: nat :| 1 <= n1 && r1 == Candidate(slug, n1) && !SlugTaken(posts, r1, exclude) &&
        forall m :: 1 <= m < n1 ==> SlugTaken(posts, Candidate(slug, m), exclude);
      var n2: nat :| 1 <= n2 && r2 == Candidate(slug, n2) && !SlugTaken(posts, r2, exclude) &&
        forall m :: 1 <= m < n2 ==> SlugTaken(posts, Candidate(slug, m), exclude);
      assert n1 < n2 ==> SlugTaken(posts, Candidate(slug, n1), exclude);
      assert n2 < n1 ==> SlugTaken(posts, Candidate(slug, n2), exclude);
    }
  }

  /** _unique_slug: the base if it is free, else base-n for the smallest n >= 1
      that is free. */
  method UniqueSlug(posts: seq<Post>, base: string, exclude: Option<int>) returns (r: string)
    ensures ChosenSlug(posts, base, exclude, r)
    ensures !SlugTaken(posts, r, exclude)
    ensures !SlugTaken(posts, SlugBase(base), exclude) ==> r == SlugBase(base)
    ensures SlugTaken(posts, SlugBase(base), exclude) ==>
      exists n :: 1 <= n <= |posts| + 1 && r == Candidate(SlugBase(base), n) &&
        forall m :: 1 <= m < n ==> SlugTaken(posts, Candidate(SlugBase(base), m), exclude)
  {
    var slug := SlugBase(base);
    if !SlugTaken(posts, slug, exclude) {
      return slug;
    }
    var n := 1;
    while SlugTaken(posts, Candidate(slug, n), exclude)
      invariant 1 <= n <= |posts| + 1
      invariant forall m :: 1 <= m < n ==> SlugTaken(posts, Candidate(slug, m), exclude)
      decreases |posts| + 1 - n
    {
      CandidatesBound(posts, slug, exclude, n + 1);
      n := n + 1;
    }
    r := Candidate(slug, n);
  }

  // ------------------------------------------------------- published_at

  /** _published_at_in_past: more than 60 seconds before now. */
  predicate PublishedInPast(parsed: Option<int>, now: int)
  {
    parsed.Some? && parsed.value < now - 60
  }

  /** The minute of an instant: the first 16 characters of its ISO form. */
  function Minute(t: int): int
  {
    t / 60
  }

  /** create_post refuses a published_at in the past. */
  predicate CreateRejects(parsed: Option<int>, now: int)
  {
    PublishedInPast(parsed, now)
  }

  /** update_post refuses a past published_at unless it names the stored minute;
      a post without a stored date compares as "" and so is refused. */
  predicate UpdateRejects(parsed: Option<int>, existing: Option<int>, now: int)
  {
    PublishedInPast(parsed, now) && (existing.None? || Minute(existing.value) != Minute(parsed.value))
  }

  lemma PastCheck(parsed: Option<int>, now: int)
    ensures PublishedInPast(parsed, now) <==> parsed.Some? && now - parsed.value > 60
    ensures parsed.None? ==> !PublishedInPast(parsed, now)
  {
  }

  /** Update is create's check with one exemption: re-sending the stored minute. */
  lemma UpdateCheckRelaxesCreate(parsed: Option<int>, existing: Option<int>, now: int)
    ensures UpdateRejects(parsed, existing, now) ==> CreateRejects(parsed, now)
    ensures CreateRejects(parsed, now) && !UpdateRejects(parsed, existing, now) ==>
      existing.Some? && Minute(existing.value) == Minute(parsed.value)
    ensures parsed.Some? && existing.Some? && Minute(existing.value) == Minute(parsed.value) ==>
      !UpdateRejects(parsed, existing, now)
  {
  }

  /** Two instants of the same minute are less than 60 seconds apart. */
  lemma {:induction false} SameMinuteClose(a: int, b: int)
    requires Minute(a) == Minute(b)
    ensures -60 < a - b < 60
  {
    assert a == 60 * Minute(a) + a % 60;
    assert b == 60 * Minute(b) + b % 60;
  }

  // --------------------------------------------------- temp asset paths

  /** file_path.strip().replace("\\", "/"). */
  function NormalizePath(path: string): (r: string)
    ensures '\\' !in r
  {
    ReplaceChar(Trim(path), '\\', '/')
  }

  /** The folder a relocated asset moves to: "/{post_id}/". */
  function PostFolder(postId: nat): string
  {
    "/" + NatToString(postId) + "/"
  }

  /** The new relative path of a post asset stored under a /temp/ folder, or
      None where _relocate_post_temp_asset leaves it alone. */
  function RelocatedPath(path: string, postId: nat): (r: Option<string>)
    ensures r.None? <==> !Contains(NormalizePath(path), "/temp/")
    ensures r.Some? ==>
      var p := NormalizePath(path);
      var k := IndexOf(p, "/temp/").value;
      var n := |PostFolder(postId)|;
      k + 6 <= |p| && |r.value| == |p| - 6 + n &&
      r.value[..k] == p[..k] && r.value[k..k + n] == PostFolder(postId) && r.value[k + n..] == p[k + 6..]
  {
    var p := NormalizePath(path);
    if !Contains(p, "/temp/") then None
    else
      RelocatedPathFirst(p, postId);
      Some(ReplaceFirst(p, "/temp/", PostFolder(postId)))
  }

  /** Only the first /temp/ changes: what precedes it is kept, it becomes the
      post's folder, and what follows is kept. */
  lemma {:induction false} RelocatedPathFirst(p: string, postId: nat)
    requires Contains(p, "/temp/")
    ensures var k := IndexOf(p, "/temp/").value;
      var r := ReplaceFirst(p, "/temp/", PostFolder(postId));
      (forall j :: 0 <= j < k ==> !OccursAt(p, "/temp/", j)) &&
      r[..k] == p[..k] && r[k..k + |PostFolder(postId)|] == PostFolder(postId) &&
      r[k + |PostFolder(postId)|..] == p[k + 6..]
  {
  }

  /** The body rewrite REPLACE(content, '/temp/', '/{id}/'): text without /temp/
      is left as it is. */
  function RewriteContent(content: string, postId: nat): (r: string)
    ensures !Contains(content, "/temp/") ==> r == content
  {
    ReplaceAllUnchanged(content, "/temp/", PostFolder(postId));
    ReplaceAll(content, "/temp/", PostFolder(postId))
  }

  /** Every stored temp path in the body is rewritten: the text up to the
      first "/temp/" is kept, that occurrence becomes the post's folder, and
      the rest of the body is rewritten in the same way. */
  lemma {:induction false} RewriteContentAt(a: string, b: string, postId: nat)
    requires forall k :: 0 <= k < |a| ==> !OccursAt(a + "/temp/" + b, "/temp/", k)
    ensures RewriteContent(a + "/temp/" + b, postId) == a + PostFolder(postId) + RewriteContent(b, postId)
  {
    var rep := PostFolder(postId);
    assert a + "/temp/" + b == a + ("/temp/" + b);
    ReplaceAllCopies(a, "/temp/" + b, "/temp/", rep);
    ReplaceAllAtMatch(b, "/temp/", rep);
  }

  /** The first "/temp/" of the body becomes the post's folder, the text
      before it is kept and the rest is rewritten in turn; with the ensures
      of RewriteContent this fixes the whole result. */
  lemma {:induction false} RewriteContentFirst(content: string, postId: nat, k: nat)
    requires IndexOf(content, "/temp/") == Some(k)
    ensures RewriteContent(content, postId) ==
      content[..k] + PostFolder(postId) + RewriteContent(content[k + 6..], postId)
  {
    ReplaceAllAt(content, "/temp/", PostFolder(postId), k);
  }

  /** Two temp paths in one body are both moved to the post's folder. */
  lemma {:induction false} RewriteContentTwoPaths(a: string, b: string, c: string, postId: nat)
    requires forall k :: 0 <= k < |a| ==> !OccursAt(a + "/temp/" + (b + "/temp/" + c), "/temp/", k)
    requires forall k :: 0 <= k < |b| ==> !OccursAt(b + "/temp/" + c, "/temp/", k)
    requires !Contains(c, "/temp/")
    ensures RewriteContent(a + "/temp/" + (b + "/temp/" + c), postId) ==
      a + PostFolder(postId) + (b + PostFolder(postId) + c)
  {
    RewriteContentAt(a, b + "/temp/" + c, postId);
    RewriteContentAt(b, c, postId);
  }

  /** REPLACE does not rescan what it produced or skipped: in "/temp/temp/"
      only the first occurrence is rewritten, and "temp/" stays. */
  lemma RewriteContentNoRescan()
    ensures RewriteContent("/temp/temp/", 5) == "/5/temp/"
  {
    assert "/temp/temp/" == "/temp/" + "temp/";
    ReplaceAllAtMatch("temp/", "/temp/", "/5/");
    ReplaceAllUnchanged("temp/", "/temp/", "/5/");
  }

  // ------------------------------------------------------------- listing

  datatype ListQuery = ListQuery(
    page: int,
    perPage: int,
    categoryId: Option<int>,
    tagId: Option<int>,
    prefixId: Option<int>,
    status: string,
    q: string,
    orderBy: string)

  datatype PostPage = PostPage(items: seq<Post>, total: nat)

  /** A post is "visible" to readers: published, with a date not in the future. */
  predicate Visible(p: Post, now: int)
  {
    p.status == "PUBLISHED" && p.publishedAt.Some? && p.publishedAt.value <= now
  }

  /** The category filter takes the category and its direct children. */
  predicate InCategory(p: Post, cats: seq<CategoriesApi.Row>, cid: int)
  {
    p.categoryId.Some? &&
    exists k :: 0 <= k < |cats| && cats[k].id == p.categoryId.value &&
      (cats[k].id == cid || cats[k].parentId == Some(cid))
  }

  predicate HasTag(links: seq<TagLink>, postId: int, tagId: int)
  {
    TagLink(postId, tagId) in links
  }

  /** The WHERE clause of list_posts. The title match of LIKE is modelled as an
      ASCII case-insensitive substring test. */
  predicate Matches(p: Post, query: ListQuery, cats: seq<CategoriesApi.Row>, links: seq<TagLink>, now: int)
  {
    (query.categoryId.None? || InCategory(p, cats, query.categoryId.value)) &&
    (query.status == "" || (p.status == query.status &&
                            (query.status != "PUBLISHED" || Visible(p, now)))) &&
    (query.tagId.None? || HasTag(links, p.id, query.tagId.value)) &&
    (query.prefixId.None? || p.prefixId == query.prefixId) &&
    (IsBlank(query.q) || Contains(Lower(p.title), Lower(Trim(query.q))))
  }

  function Filtered(posts: seq<Post>, query: ListQuery, cats: seq<CategoriesApi.Row>, links: seq<TagLink>, now: int)
    : (r: seq<Post>)
    ensures |r| <= |posts|
  {
    if posts == [] then []
    else
      var last := posts[|posts| - 1];
      Filtered(posts[..|posts| - 1], query, cats, links, now) +
        (if Matches(last, query, cats, links, now) then [last] else [])
  }

  lemma {:induction false} FilteredMembers(posts: seq<Post>, query: ListQuery, cats: seq<CategoriesApi.Row>,
                                           links: seq<TagLink>, now: int)
    ensures forall x :: x in Filtered(posts, query, cats, links, now) <==>
      x in posts && Matches(x, query, cats, links, now)
  {
    if posts != [] {
      var init := posts[..|posts| - 1];
      FilteredMembers(init, query, cats, links, now);
      assert posts == init + [posts[|posts| - 1]];
    }
  }

  predicate Newest(a: Post, b: Post) { a.id > b.id }
  predicate Oldest(a: Post, b: Post) { a.id < b.id }
  predicate MostViewed(a: Post, b: Post)
  {
    a.viewCount > b.viewCount || (a.viewCount == b.viewCount && a.id > b.id)
  }

  /** ORDER BY of list_posts. */
  function Ordering(orderBy: string): (Post, Post) -> bool
  {
    if orderBy == "oldest" then Oldest
    else if orderBy == "views" then MostViewed
    else Newest
  }

  lemma OrderingStrict(orderBy: string)
    ensures StrictOrder(Ordering(orderBy))
  {
  }

  /** list_posts: total counts every matching post; the page is the slice
      starting at (page - 1) * per_page of the ordered matches. A negative
      OFFSET or LIMIT is an SQL error. */
  function ListPosts(posts: seq<Post>, query: ListQuery, cats: seq<CategoriesApi.Row>, links: seq<TagLink>, now: int)
    : (r: Response<PostPage>)
    ensures r.Error? <==> query.perPage < 0 || (query.page - 1) * query.perPage < 0
    ensures r.Ok? ==> r.value.total == |Filtered(posts, query, cats, links, now)|
    ensures r.Ok? ==>
      query.perPage >= 0 && (query.page - 1) * query.perPage >= 0 &&
      r.value.items == Page(SortBy(Filtered(posts, query, cats, links, now), Ordering(query.orderBy)),
                            (query.page - 1) * query.perPage, query.perPage)
  {
    var offset := (query.page - 1) * query.perPage;
    if query.perPage < 0 || offset < 0 then Error(500, "invalid LIMIT/OFFSET")
    else
      var matching := Filtered(posts, query, cats, links, now);
      var ordered := SortBy(matching, Ordering(query.orderBy));
      Ok(PostPage(Page(ordered, offset, query.perPage), |matching|))
  }

  /** A listed page is in the requested order. */
  lemma ListPostsSorted(posts: seq<Post>, query: ListQuery, cats: seq<CategoriesApi.Row>, links: seq<TagLink>, now: int)
    requires ListPosts(posts, query, cats, links, now).Ok?
    ensures SortedBy(ListPosts(posts, query, cats, links, now).value.items, Ordering(query.orderBy))
  {
    var matching := Filtered(posts, query, cats, links, now);
    var lt := Ordering(query.orderBy);
    var ordered := SortBy(matching, lt);
    var offset := (query.page - 1) * query.perPage;
    OrderingStrict(query.orderBy);
    SortBySorted(matching, lt);
    SortedSlice(ordered, lt, Min(offset, |ordered|), Min(offset + query.perPage, |ordered|));
  }

  /** Every listed post is a stored post that matches the query. */
  lemma ListPostsMatch(posts: seq<Post>, query: ListQuery, cats: seq<CategoriesApi.Row>, links: seq<TagLink>, now: int,
                       x: Post)
    requires ListPosts(posts, query, cats, links, now).Ok?
    requires x in ListPosts(posts, query, cats, links, now).value.items
    ensures x in posts && Matches(x, query, cats, links, now)
  {
    var matching := Filtered(posts, query, cats, links, now);
    var ordered := SortBy(matching, Ordering(query.orderBy));
    assert x in ordered;
    assert x in multiset(ordered);
    assert x in matching;
    FilteredMembers(posts, query, cats, links, now);
  }

  /** LIMIT per_page OFFSET offset of the ordered rows: the rows from
      position offset on, at most per_page of them, none past the end. */
  function Page<T>(ordered: seq<T>, offset: nat, perPage: nat): (items: seq<T>)
    ensures |items| <= perPage
    ensures offset >= |ordered| ==> items == []
    ensures offset < |ordered| ==> |items| == Min(perPage, |ordered| - offset)
  {
    ordered[Min(offset, |ordered|)..Min(offset + perPage, |ordered|)]
  }

  function Min(a: int, b: int): int
  {
    if a <= b then a else b
  }

  lemma SortedSlice<T>(s: seq<T>, lt: (T, T) -> bool, i: nat, j: nat)
    requires i <= j <= |s| && SortedBy(s, lt)
    ensures SortedBy(s[i..j], lt)
  {
    assert forall a, b :: 0 <= a < b < j - i ==> s[i..j][a] == s[i + a] && s[i..j][b] == s[i + b];
  }

  // ----------------------------------------------------------- neighbours

  /** (published_at, id) order over visible posts. */
  predicate KeyBefore(at: int, aid: int, bt: int, bid: int)
  {
    at < bt || (at == bt && aid < bid)
  }

  /** A visible post strictly before the current (t, id) key. */
  predicate OlderThan(p: Post, t: int, id: int, now: int)
  {
    Visible(p, now) && p.id != id && KeyBefore(p.publishedAt.value, p.id, t, id)
  }

  /** A visible post strictly after the current (t, id) key. */
  predicate NewerThan(p: Post, t: int, id: int, now: int)
  {
    Visible(p, now) && p.id != id && KeyBefore(t, id, p.publishedAt.value, p.id)
  }

  /** The latest post older than the key (ORDER BY ... DESC LIMIT 1). */
  function Previous(posts: seq<Post>, t: int, id: int, now: int): (r: Option<Post>)
    ensures r.Some? ==> r.value in posts && OlderThan(r.value, t, id, now)
    ensures r.Some? ==> forall x :: x in posts && OlderThan(x, t, id, now) ==>
      !KeyBefore(r.value.publishedAt.value, r.value.id, x.publishedAt.value, x.id)
    ensures r.None? ==> forall x :: x in posts ==> !OlderThan(x, t, id, now)
  {
    if posts == [] then None
    else
      var init := posts[..|posts| - 1];
      var last := posts[|posts| - 1];
      assert posts == init + [last];
      var best := Previous(init, t, id, now);
      if !OlderThan(last, t, id, now) then best
      else if best.None? then Some(last)
      else if KeyBefore(best.value.publishedAt.value, best.value.id, last.publishedAt.value, last.id) then Some(last)
      else best
  }

  /** The earliest post newer than the key (ORDER BY ... ASC LIMIT 1). */
  function Following(posts: seq<Post>, t: int, id: int, now: int): (r: Option<Post>)
    ensures r.Some? ==> r.value in posts && NewerThan(r.value, t, id, now)
    ensures r.Some? ==> forall x :: x in posts && NewerThan(x, t, id, now) ==>
      !KeyBefore(x.publishedAt.value, x.id, r.value.publishedAt.value, r.value.id)
    ensures r.None? ==> forall x :: x in posts ==> !NewerThan(x, t, id, now)
  {
    if posts == [] then None
    else
      var init := posts[..|posts| - 1];
      var last := posts[|posts| - 1];
      assert posts == init + [last];
      var best := Following(init, t, id, now);
      if !NewerThan(last, t, id, now) then best
      else if best.None? then Some(last)
      else if KeyBefore(last.publishedAt.value, last.id, best.value.publishedAt.value, best.value.id) then Some(last)
      else best
  }

  datatype PostRef = PostRef(id: int, title: string)
  datatype Neighbors = Neighbors(prev: Option<PostRef>, next: Option<PostRef>)

  function RefOf(p: Option<Post>): Option<PostRef>
  {
    if p.None? then None else Some(PostRef(p.value.id, p.value.title))
  }

  /** The current post of the neighbour query: the visible post with this id. */
  function FindVisible(posts: seq<Post>, id: int, now: int): (r: Option<Post>)
    ensures r.Some? ==> r.value in posts && r.value.id == id && Visible(r.value, now)
    ensures r.None? ==> forall x :: x in posts && x.id == id ==> !Visible(x, now)
  {
    if posts == [] then None
    else if posts[0].id == id && Visible(posts[0], now) then Some(posts[0])
    else
      assert forall x :: x in posts ==> x == posts[0] || x in posts[1..];
      FindVisible(posts[1..], id, now)
  }

  /** get_post_neighbors: 404 unless the post is visible; prev is the older
      neighbour, next the newer one, both among visible posts. */
  function GetNeighbors(posts: seq<Post>, id: int, now: int): (r: Response<Neighbors>)
    ensures r.Error? <==> FindVisible(posts, id, now).None?
    ensures r.Error? ==> r == Error(404, NotFound)
    ensures r.Ok? ==>
      var cur := FindVisible(posts, id, now).value;
      r.value == Neighbors(RefOf(Previous(posts, cur.publishedAt.value, id, now)),
                           RefOf(Following(posts, cur.publishedAt.value, id, now)))
  {
    match FindVisible(posts, id, now)
    case None => Error(404, NotFound)
    case Some(cur) =>
      var t := cur.publishedAt.value;
      Ok(Neighbors(RefOf(Previous(posts, t, id, now)), RefOf(Following(posts, t, id, now))))
  }

  /** No visible post lies strictly between a post and its older neighbour. */
  lemma {:induction false} NothingBetweenPrevious(posts: seq<Post>, t: int, id: int, now: int, x: Post)
    requires Previous(posts, t, id, now).Some?
    requires x in posts && Visible(x, now) && x.id != id
    ensures var p := Previous(posts, t, id, now).value;
      !(KeyBefore(p.publishedAt.value, p.id, x.publishedAt.value, x.id) &&
        KeyBefore(x.publishedAt.value, x.id, t, id))
  {
  }

  /** No visible post lies strictly between a post and its newer neighbour. */
  lemma {:induction false} NothingBetweenFollowing(posts: seq<Post>, t: int, id: int, now: int, x: Post)
    requires Following(posts, t, id, now).Some?
    requires x in posts && Visible(x, now) && x.id != id
    ensures var n := Following(posts, t, id, now).value;
      !(KeyBefore(t, id, x.publishedAt.value, x.id) &&
        KeyBefore(x.publishedAt.value, x.id, n.publishedAt.value, n.id))
  {
  }

  // ------------------------------------------------------- child rows

  /** post_tags rows of a save: zero ids are skipped. */
  function TagLinks(postId: int, tags: seq<int>): (r: seq<TagLink>)
    ensures forall l :: l in r <==> l.postId == postId && l.tagId in tags && l.tagId != 0
  {
    if tags == [] then []
    else
      var init := TagLinks(postId, tags[..|tags| - 1]);
      var last := tags[|tags| - 1];
      assert tags == tags[..|tags| - 1] + [last];
      init + (if last != 0 then [TagLink(postId, last)] else [])
  }

  /** post_attachments rows of a save: zero ids are skipped, and sort_order is
      the position in the submitted list. */
  function AttachmentLinks(postId: int, ids: seq<int>): (r: seq<AttachmentLink>)
    ensures |r| <= |ids|
    ensures forall l :: l in r ==> (l.postId == postId && l.sortOrder < |ids| &&
                                    ids[l.sortOrder] == l.assetId && l.assetId != 0)
    ensures forall i :: 0 <= i < |ids| && ids[i] != 0 ==> AttachmentLink(postId, ids[i], i) in r
  {
    if ids == [] then []
    else
      var init := AttachmentLinks(postId, ids[..|ids| - 1]);
      var last := ids[|ids| - 1];
      assert forall i :: 0 <= i < |ids| - 1 ==> ids[..|ids| - 1][i] == ids[i];
      init + (if last != 0 then [AttachmentLink(postId, last, |ids| - 1)] else [])
  }

  /** Attachment rows come out in the submitted order. */
  predicate IncreasingOrder(r: seq<AttachmentLink>)
  {
    forall i, j :: 0 <= i < j < |r| ==> r[i].sortOrder < r[j].sortOrder
  }

  lemma {:induction false} AttachmentLinksOrdered(postId: int, ids: seq<int>)
    ensures IncreasingOrder(AttachmentLinks(postId, ids))
  {
    if ids != [] {
      var init := ids[..|ids| - 1];
      AttachmentLinksOrdered(postId, init);
      var a := AttachmentLinks(postId, init);
      var r := AttachmentLinks(postId, ids);
      if ids[|ids| - 1] != 0 {
        var x := AttachmentLink(postId, ids[|ids| - 1], |ids| - 1);
        assert r == a + [x];
        forall i, j | 0 <= i < j < |r| ensures r[i].sortOrder < r[j].sortOrder {
          assert r[i] == a[i];
          if j < |a| {
            assert r[j] == a[j];
          } else {
            assert r[j] == x;
            assert a[i] in a;
          }
        }
      } else {
        assert r == a;
      }
    }
  }

  // ------------------------------------------------------------- storage

  datatype PostBody = PostBody(
    title: string,
    slug: string,
    status: string,
    publishedAt: Option<int>,
    categoryId: Option<int>,
    prefixId: Option<int>,
    thumbnailAssetId: Option<int>,
    contentHtml: Option<string>,
    contentJson: Option<string>,
    postTags: seq<int>,
    attachmentAssetIds: seq<int>)

  /** (body.title or "제목 없음").strip(): only an empty title is replaced. */
  function StoredTitle(title: string): string
  {
    Trim(if title == [] then "제목 없음" else title)
  }

  function StoredStatus(status: string): (r: string)
    ensures r != []
  {
    if status == [] then "DRAFT" else status
  }

  /** The row a save writes, before the /temp/ rewrite of its body. */
  function SavedPost(id: int, slug: string, body: PostBody, viewCount: nat): Post
  {
    Post(id, StoredTitle(body.title), slug, StoredStatus(body.status), body.publishedAt,
         body.categoryId, body.prefixId, body.thumbnailAssetId, body.contentHtml, body.contentJson, viewCount)
  }

  /** The final content columns: REPLACE on content_html (NULL stays NULL) and on
      COALESCE(content_json, ''). */
  function RewriteColumns(p: Post): (r: Post)
    requires p.id >= 0
    ensures r.id == p.id && r.slug == p.slug && r.status == p.status && r.publishedAt == p.publishedAt
    ensures p.contentHtml.None? <==> r.contentHtml.None?
    ensures r.contentJson.Some?
  {
    p.(contentHtml := if p.contentHtml.None? then None else Some(RewriteContent(p.contentHtml.value, p.id)),
       contentJson := Some(RewriteContent(p.contentJson.GetOr(""), p.id)))
  }

  predicate IdsIncreasing(posts: seq<Post>, nextId: int)
  {
    (forall i, j :: 0 <= i < j < |posts| ==> posts[i].id < posts[j].id) &&
    (forall i :: 0 <= i < |posts| ==> 1 <= posts[i].id < nextId) &&
    nextId >= 1
  }

  /** A row appended under the next id keeps the ids increasing. */
  lemma IdsIncreasingSnoc(posts: seq<Post>, nextId: int, row: Post)
    requires IdsIncreasing(posts, nextId) && row.id == nextId
    ensures IdsIncreasing(posts + [row], nextId + 1)
  {
  }

  function IndexOfPost(posts: seq<Post>, id: int): (r: Option<nat>)
    ensures r.Some? ==> r.value < |posts| && posts[r.value].id == id
    ensures r.None? ==> forall k :: 0 <= k < |posts| ==> posts[k].id != id
  {
    if posts == [] then None
    else if posts[0].id == id then Some(0)
    else match IndexOfPost(posts[1..], id)
      case None => None
      case Some(k) => Some(k + 1)
  }

  /** Rows without the given post id (DELETE ... WHERE post_id = :id). */
  function DropTagLinks(links: seq<TagLink>, postId: int): (r: seq<TagLink>)
    ensures forall l :: l in r <==> l in links && l.postId != postId
  {
    if links == [] then []
    else (if links[0].postId == postId then [] else [links[0]]) + DropTagLinks(links[1..], postId)
  }

  function DropAttachmentLinks(links: seq<AttachmentLink>, postId: int): (r: seq<AttachmentLink>)
    ensures forall l :: l in r <==> l in links && l.postId != postId
  {
    if links == [] then []
    else (if links[0].postId == postId then [] else [links[0]]) + DropAttachmentLinks(links[1..], postId)
  }

  /** A post's row as a reader gets it: logged-in users see every post,
      anonymous readers only visible ones. */
  predicate Readable(p: Post, loggedIn: bool, now: int)
  {
    loggedIn || Visible(p, now)
  }

  class PostStore {
    var posts: seq<Post>
    var nextId: int
    var postTags: seq<TagLink>
    var attachments: seq<AttachmentLink>
    /** daily_stats: total views and visitor count per date. */
    var dailyViews: map<string, nat>

    predicate Valid()
      reads this
    {
      IdsIncreasing(posts, nextId)
    }

    constructor ()
      ensures Valid() && posts == [] && nextId == 1 && postTags == [] && attachments == [] && dailyViews == map[]
    {
      posts := [];
      nextId := 1;
      postTags := [];
      attachments := [];
      dailyViews := map[];
    }

    /** get_post: 404 for an unknown id and, for anonymous readers, for a post
        that is not visible; an anonymous read of a visible post counts one view.
        The row returned is the one read before the count. */
    method GetPost(id: int, loggedIn: bool, now: int, today: string) returns (r: Response<Post>)
      requires Valid()
      modifies this`posts, this`dailyViews
      ensures Valid()
      ensures IndexOfPost(old(posts), id).None? ==> r == Error(404, NotFound) && posts == old(posts)
      ensures IndexOfPost(old(posts), id).Some? && !Readable(old(posts)[IndexOfPost(old(posts), id).value], loggedIn, now) ==>
        r == Error(404, NotFound) && posts == old(posts)
      ensures IndexOfPost(old(posts), id).Some? && Readable(old(posts)[IndexOfPost(old(posts), id).value], loggedIn, now) ==>
        var k := IndexOfPost(old(posts), id).value;
        var p := old(posts)[k];
        r == Ok(p) && posts == (if loggedIn then old(posts) else old(posts)[k := p.(viewCount := p.viewCount + 1)])
      ensures loggedIn || r.Error? ==> dailyViews == old(dailyViews)
      ensures !loggedIn && r.Ok? ==>
        dailyViews == old(dailyViews)[today := (if today in old(dailyViews) then old(dailyViews)[today] else 0) + 1]
    {
      var found := IndexOfPost(posts, id);
      if found.None? {
        return Error(404, NotFound);
      }
      var k := found.value;
      var p := posts[k];
      if !loggedIn && p.status != "PUBLISHED" {
        return Error(404, NotFound);
      }
      if !loggedIn && !(p.publishedAt.Some? && p.publishedAt.value <= now) {
        return Error(404, NotFound);
      }
      if !loggedIn {
        var before := if today in dailyViews then dailyViews[today] else 0;
        dailyViews := dailyViews[today := before + 1];
        posts := posts[k := p.(viewCount := p.viewCount + 1)];
      }
      r := Ok(p);
    }

    /** The insert loop over post_tags. */
    method InsertTagLinks(postId: int, tags: seq<int>)
      modifies this`postTags
      ensures postTags == old(postTags) + TagLinks(postId, tags)
    {
      var i := 0;
      while i < |tags|
        invariant 0 <= i <= |tags|
        invariant postTags == old(postTags) + TagLinks(postId, tags[..i])
      {
        assert tags[..i + 1][..i] == tags[..i];
        if tags[i] != 0 {
          postTags := postTags + [TagLink(postId, tags[i])];
        }
        i := i + 1;
      }
      assert tags[..i] == tags;
    }

    /** The insert loop over post_attachments (enumerate gives the position). */
    method InsertAttachmentLinks(postId: int, ids: seq<int>)
      modifies this`attachments
      ensures attachments == old(attachments) + AttachmentLinks(postId, ids)
    {
      var i := 0;
      while i < |ids|
        invariant 0 <= i <= |ids|
        invariant attachments == old(attachments) + AttachmentLinks(postId, ids[..i])
      {
        assert ids[..i + 1][..i] == ids[..i];
        if ids[i] != 0 {
          attachments := attachments + [AttachmentLink(postId, ids[i], i)];
        }
        i := i + 1;
      }
      assert ids[..i] == ids;
    }

    /** create_post: the slug _unique_slug picks, no past publish date, then
        the row under the next id, its tags and attachments, and the /temp/
        rewrite of its body. */
    method CreatePost(body: PostBody, now: int) returns (r: Response<(int, string)>)
      requires Valid()
      modifies this`posts, this`nextId, this`postTags, this`attachments
      ensures Valid()
      ensures CreateRejects(body.publishedAt, now) ==>
        r == Error(400, PastPublish) && posts == old(posts) && postTags == old(postTags) &&
        attachments == old(attachments) && nextId == old(nextId)
      ensures !CreateRejects(body.publishedAt, now) ==>
        r.Ok? && r.value.0 == old(nextId) && nextId == old(nextId) + 1 &&
        ChosenSlug(old(posts), Trim(body.slug), None, r.value.1) &&
        !SlugTaken(old(posts), r.value.1, None) &&
        posts == old(posts) + [RewriteColumns(SavedPost(old(nextId), r.value.1, body, 0))] &&
        postTags == old(postTags) + TagLinks(old(nextId), body.postTags) &&
        attachments == old(attachments) + AttachmentLinks(old(nextId), body.attachmentAssetIds)
    {
      var slug := UniqueSlug(posts, Trim(body.slug), None);
      if PublishedInPast(body.publishedAt, now) {
        return Error(400, PastPublish);
      }
      var id := nextId;
      Insert(RewriteColumns(SavedPost(id, slug, body, 0)), body.postTags, body.attachmentAssetIds);
      r := Ok((id, slug));
    }

    /** The writes of create_post: the row under the next id, then its links. */
    method Insert(row: Post, tags: seq<int>, assetIds: seq<int>)
      requires Valid() && row.id == nextId
      modifies this`posts, this`nextId, this`postTags, this`attachments
      ensures Valid()
      ensures posts == old(posts) + [row] && nextId == old(nextId) + 1
      ensures postTags == old(postTags) + TagLinks(row.id, tags)
      ensures attachments == old(attachments) + AttachmentLinks(row.id, assetIds)
    {
      IdsIncreasingSnoc(posts, nextId, row);
      posts := posts + [row];
      nextId := nextId + 1;
      InsertTagLinks(row.id, tags);
      InsertAttachmentLinks(row.id, assetIds);
    }

    /** update_post: 404 for an unknown id; the slug _unique_slug picks among
        the other posts; a
        past date only if it repeats the stored minute; tags and attachments are
        replaced. */
    method UpdatePost(id: int, body: PostBody, now: int) returns (r: Response<(int, string)>)
      requires Valid()
      modifies this`posts, this`postTags, this`attachments
      ensures Valid()
      ensures r.Error? ==> posts == old(posts) && postTags == old(postTags) && attachments == old(attachments)
      ensures IndexOfPost(old(posts), id).None? ==> r == Error(404, NotFound)
      ensures IndexOfPost(old(posts), id).Some? ==>
        var k := IndexOfPost(old(posts), id).value;
        var cur := old(posts)[k];
        if UpdateRejects(body.publishedAt, cur.publishedAt, now) then r == Error(400, PastPublish)
        else
          r.Ok? && r.value.0 == id && ChosenSlug(old(posts), Trim(body.slug), Some(id), r.value.1) &&
          !SlugTaken(old(posts), r.value.1, Some(id)) &&
          posts == old(posts)[k := RewriteColumns(SavedPost(id, r.value.1, body, cur.viewCount))] &&
          postTags == DropTagLinks(old(postTags), id) + TagLinks(id, body.postTags) &&
          attachments == DropAttachmentLinks(old(attachments), id) + AttachmentLinks(id, body.attachmentAssetIds)
    {
      var found := IndexOfPost(posts, id);
      if found.None? {
        return Error(404, NotFound);
      }
      var k := found.value;
      var cur := posts[k];
      var slug := UniqueSlug(posts, Trim(body.slug), Some(id));
      if UpdateRejects(body.publishedAt, cur.publishedAt, now) {
        return Error(400, PastPublish);
      }
      Rewrite(k, RewriteColumns(SavedPost(id, slug, body, cur.viewCount)), body.postTags, body.attachmentAssetIds);
      r := Ok((id, slug));
    }

    /** The writes of update_post: the row in place, then its links replaced. */
    method Rewrite(k: nat, row: Post, tags: seq<int>, assetIds: seq<int>)
      requires Valid() && k < |posts| && row.id == posts[k].id
      modifies this`posts, this`postTags, this`attachments
      ensures Valid()
      ensures posts == old(posts)[k := row]
      ensures postTags == DropTagLinks(old(postTags), row.id) + TagLinks(row.id, tags)
      ensures attachments == DropAttachmentLinks(old(attachments), row.id) + AttachmentLinks(row.id, assetIds)
    {
      posts := posts[k := row];
      postTags := DropTagLinks(postTags, row.id);
      InsertTagLinks(row.id, tags);
      attachments := DropAttachmentLinks(attachments, row.id);
      InsertAttachmentLinks(row.id, assetIds);
    }
  }
}
