// What the public project card, the public career timeline modal and the
// back-office project detail modal show: capped titles, texts and tag
// lists, the links kept and their order, the highlights, the image URLs
// and the period lines.
module Cards {
  import opened Wrappers
  import opened Strings
  import opened Sorting
  import opened Periods
  import ClientApi

  const CardTitleMax := 25
  const CardDescriptionMax := 100
  const CardTagMax := 6
  const LinkMax := 5
  const ModalTagMax := 5
  const HighlightMax := 5
  const CardWidth := 320
  const CardGap := 24
  const Favicon := "/favicon.png"

  datatype Tag = Tag(id: int, name: string)

  /** A link row; `url` is '' where link_url is null. */
  datatype Link = Link(id: int, name: string, url: string, sortOrder: Option<int>)

  /** r is s cut to its first n elements (`s.slice(0, n)`). */
  predicate Cut<T(==)>(r: seq<T>, s: seq<T>, n: nat)
  {
    |r| == (if |s| <= n then |s| else n) && r == s[..|r|]
  }

  // ---------------------------------------------------------------------
  // Links: non-blank URLs, by sort_order (missing = 0), the first five
  // ---------------------------------------------------------------------

  predicate HasUrl(l: Link)
  {
    Trim(l.url) != []
  }

  function LinkKey(l: Link): int
  {
    l.sortOrder.GetOr(0)
  }

  /** `(a.sort_order || 0) - (b.sort_order || 0) < 0`. */
  predicate LinkLess(a: Link, b: Link)
  {
    LinkKey(a) < LinkKey(b)
  }

  lemma LinkLessIsStrict()
    ensures StrictOrder(LinkLess)
  {
  }

  /** The links whose URL is not blank, in their order. */
  function Usable(links: seq<Link>): (r: seq<Link>)
    ensures |r| <= |links|
    ensures forall l :: l in r <==> l in links && HasUrl(l)
  {
    if links == [] then []
    else
      FrontLast(links);
      var init := Usable(links[..|links| - 1]);
      if HasUrl(links[|links| - 1]) then init + [links[|links| - 1]] else init
  }

  /** The links a card or a career shows. */
  function ShownLinks(links: seq<Link>): (r: seq<Link>)
    ensures |r| == if |Usable(links)| <= LinkMax then |Usable(links)| else LinkMax
    ensures forall l :: l in r ==> l in links && HasUrl(l)
    ensures SortedBy(r, LinkLess)
  {
    var s := SortBy(Usable(links), LinkLess);
    LinkLessIsStrict();
    SortBySorted(Usable(links), LinkLess);
    forall l | l in Take(s, LinkMax) ensures l in links && HasUrl(l) {
      assert l in multiset(s);
    }
    Take(s, LinkMax)
  }

  /** With five usable links or fewer every one of them is shown. */
  lemma AllLinksShownWhenFew(links: seq<Link>, l: Link)
    requires |Usable(links)| <= LinkMax && l in links && HasUrl(l)
    ensures l in ShownLinks(links)
  {
    var s := SortBy(Usable(links), LinkLess);
    assert l in multiset(Usable(links));
    assert l in multiset(s);
    assert Take(s, LinkMax) == s;
  }

  /** A usable link left out has a sort order no smaller than any shown. */
  lemma DroppedLinksComeLater(links: seq<Link>, l: Link)
    requires l in links && HasUrl(l) && l !in ShownLinks(links)
    ensures forall m :: m in ShownLinks(links) ==> LinkKey(m) <= LinkKey(l)
  {
    var u := Usable(links);
    var s := SortBy(u, LinkLess);
    LinkLessIsStrict();
    SortBySorted(u, LinkLess);
    assert l in s by {
      assert l in multiset(u);
    }
    var n := |ShownLinks(links)|;
    var j := TailIndex(s, n, l);
    PrefixComesFirst(s, n, j, LinkLess);
  }

  /** An element of s outside its first n elements sits at some position
      from n on. */
  lemma TailIndex<T>(s: seq<T>, n: nat, x: T) returns (j: nat)
    requires n <= |s| && x in s && x !in s[..n]
    ensures n <= j < |s| && s[j] == x
  {
    assert forall k :: 0 <= k < n ==> s[..n][k] == s[k];
    j :| 0 <= j < |s| && s[j] == x;
  }

  /** In a sorted sequence nothing past position j goes before the first
      n elements, n <= j. */
  lemma PrefixComesFirst<T>(s: seq<T>, n: nat, j: nat, lt: (T, T) -> bool)
    requires SortedBy(s, lt) && n <= j < |s|
    ensures forall m :: m in s[..n] ==> !lt(s[j], m)
  {
    forall m | m in s[..n] ensures !lt(s[j], m) {
      var i :| 0 <= i < n && s[..n][i] == m;
      assert s[i] == m;
    }
  }

  // ---------------------------------------------------------------------
  // ProjectCard
  // ---------------------------------------------------------------------

  /** The project fields the card reads ('' for a missing text). */
  datatype CardProject = CardProject(
    thumbnail: string, title: string, description: string,
    tags: seq<Tag>, links: seq<Link>, startDate: string, endDate: string)

  datatype CardView = CardView(
    thumb: string, title: string, description: string,
    tags: seq<Tag>, links: seq<Link>, period: string)

  function ProjectCardView(base: string, p: CardProject): (v: CardView)
    ensures p.thumbnail != [] ==> v.thumb == ClientApi.StaticUrl(base, p.thumbnail)
    ensures p.thumbnail == [] ==> v.thumb == Favicon
    ensures Cut(v.title, p.title, CardTitleMax)
    ensures Cut(v.description, p.description, CardDescriptionMax)
    ensures Cut(v.tags, p.tags, CardTagMax)
    ensures v.links == ShownLinks(p.links)
    ensures v.period == CardPeriod(p.startDate, p.endDate)
  {
    CardView(
      if p.thumbnail != [] then ClientApi.StaticUrl(base, p.thumbnail) else Favicon,
      Take(p.title, CardTitleMax),
      Take(p.description, CardDescriptionMax),
      Take(p.tags, CardTagMax),
      ShownLinks(p.links),
      CardPeriod(p.startDate, p.endDate))
  }

  /** The heading: the cut title, or '프로젝트' for an empty one. */
  function CardHeading(v: CardView): (r: string)
    ensures r != []
    ensures v.title != [] ==> r == v.title
  {
    if v.title != [] then v.title else "프로젝트"
  }

  // ---------------------------------------------------------------------
  // CareerModal
  // ---------------------------------------------------------------------

  /** A highlight; None where its content is null. */
  datatype Highlight = Highlight(content: Option<string>)

  datatype Career = Career(
    companyName: string, role: string, description: string, logo: string,
    startDate: string, endDate: string,
    links: seq<Link>, highlights: seq<Highlight>, tags: seq<Tag>)

  datatype CareerView = CareerView(
    period: string, logoUrl: Option<string>, company: string,
    links: seq<Link>, highlights: seq<string>, tags: seq<Tag>,
    legacyDescription: Option<string>)

  /** The text a highlight contributes: its content when that is not empty. */
  function HighlightText(h: Highlight): (r: seq<string>)
    ensures r == [] <==> h.content.None? || h.content.value == []
    ensures r != [] ==> r == [h.content.value]
  {
    if h.content.Some? && h.content.value != [] then [h.content.value] else []
  }

  /** The texts of the highlights, empty ones (and null contents) dropped. */
  function HighlightTexts(hs: seq<Highlight>): (r: seq<string>)
    ensures |r| <= |hs|
    ensures forall x :: x in r <==> x != [] && Highlight(Some(x)) in hs
    ensures |hs| == 1 ==> r == HighlightText(hs[0])
  {
    if hs == [] then []
    else
      var init := HighlightTexts(hs[..|hs| - 1]);
      var h := hs[|hs| - 1];
      assert hs == hs[..|hs| - 1] + [h];
      init + HighlightText(h)
  }

  /** `.map(...).filter(Boolean)` keeps the order: the texts of two runs of
      highlights are the texts of the first run, then those of the second. */
  lemma {:induction false} HighlightTextsConcat(a: seq<Highlight>, b: seq<Highlight>)
    ensures HighlightTexts(a + b) == HighlightTexts(a) + HighlightTexts(b)
    decreases |b|
  {
    if b == [] {
      assert a + b == a;
    } else {
      var b0 := b[..|b| - 1];
      assert a + b == (a + b0) + [b[|b| - 1]];
      assert (a + b)[..|a + b| - 1] == a + b0;
      assert b[..|b| - 1] == b0;
      HighlightTextsConcat(a, b0);
    }
  }

  /** The highlights shown: those among the first five with a text, in
      order. */
  function ShownHighlights(hs: seq<Highlight>): (r: seq<string>)
    ensures |hs| <= HighlightMax ==> r == HighlightTexts(hs)
    ensures |hs| > HighlightMax ==> r == HighlightTexts(hs[..HighlightMax])
    ensures |r| <= HighlightMax
    ensures forall x :: x in r ==> x != [] && Highlight(Some(x)) in hs
    ensures forall i :: 0 <= i < |hs| && i < HighlightMax && hs[i].content.Some? && hs[i].content.value != [] ==>
      hs[i].content.value in r
  {
    var first := Take(hs, HighlightMax);
    var r := HighlightTexts(first);
    forall i | 0 <= i < |hs| && i < HighlightMax && hs[i].content.Some? && hs[i].content.value != []
      ensures hs[i].content.value in r
    {
      assert first[i] == hs[i];
      assert Highlight(Some(hs[i].content.value)) == hs[i];
    }
    forall x | x in r ensures Highlight(Some(x)) in hs {
      var k :| 0 <= k < |first| && first[k] == Highlight(Some(x));
      assert hs[k] == first[k];
    }
    r
  }

  function CareerEntry(base: string, c: Career): (v: CareerView)
    ensures v.period == ModalPeriod(c.startDate, c.endDate)
    ensures c.logo != [] <==> v.logoUrl.Some?
    ensures c.logo != [] ==> v.logoUrl == Some(ClientApi.StaticUrl(base, c.logo))
    ensures v.company != [] && (c.companyName != [] ==> v.company == c.companyName)
    ensures v.links == ShownLinks(c.links)
    ensures v.highlights == ShownHighlights(c.highlights)
    ensures Cut(v.tags, c.tags, ModalTagMax)
    ensures v.legacyDescription.Some? <==> v.highlights == [] && c.description != []
    ensures v.legacyDescription.Some? ==> v.legacyDescription.value == c.description
  {
    var hs := ShownHighlights(c.highlights);
    CareerView(
      ModalPeriod(c.startDate, c.endDate),
      if c.logo != [] then Some(ClientApi.StaticUrl(base, c.logo)) else None,
      if c.companyName != [] then c.companyName else "(회사명)",
      ShownLinks(c.links),
      hs,
      Take(c.tags, ModalTagMax),
      if hs == [] && c.description != [] then Some(c.description) else None)
  }

  /** The modal: nothing while closed, else one entry per career in the
      order given. */
  function CareerModal(open: bool, base: string, careers: seq<Career>): (r: Option<seq<CareerView>>)
    ensures r.None? <==> !open
    ensures r.Some? ==> (|r.value| == |careers| &&
      forall i :: 0 <= i < |careers| ==> r.value[i] == CareerEntry(base, careers[i]))
  {
    if !open then None
    else Some(seq(|careers|, i requires 0 <= i < |careers| => CareerEntry(base, careers[i])))
  }

  /** A career whose first five highlights all have text shows no legacy
      description, and one with none shows its description. */
  lemma LegacyDescriptionOnlyWithoutHighlights(base: string, c: Career)
    ensures c.highlights != [] && c.highlights[0].content.Some? && c.highlights[0].content.value != [] ==>
      CareerEntry(base, c).legacyDescription.None?
    ensures c.highlights == [] && c.description != [] ==>
      CareerEntry(base, c).legacyDescription == Some(c.description)
  {
    if c.highlights != [] && c.highlights[0].content.Some? && c.highlights[0].content.value != [] {
      assert c.highlights[0].content.value in ShownHighlights(c.highlights);
    }
  }

  // ---------------------------------------------------------------------
  // ProjectDetailModal (back office)
  // ---------------------------------------------------------------------

  /** An asset id is used only when present and not 0. */
  predicate Truthy(id: Option<int>)
  {
    id.Some? && id.value != 0
  }

  /** The image URL: an 'http…' path as it is, another path under the base
      with a leading '/', else the asset's download URL, else none. */
  function ImageUrl(base: string, path: string, assetId: Option<int>): (r: Option<string>)
    ensures r.None? <==> path == [] && !Truthy(assetId)
    ensures path != [] && StartsWith(path, "http") ==> r == Some(path)
    ensures path != [] && !StartsWith(path, "http") && StartsWith(path, "/") ==> r == Some(base + path)
    ensures path != [] && !StartsWith(path, "http") && !StartsWith(path, "/") ==> r == Some(base + "/" + path)
    ensures path == [] && Truthy(assetId) ==>
      r == Some(base + "/api/assets/" + IntText(assetId.value) + "/download")
  {
    if path != [] then
      if StartsWith(path, "http") then Some(path)
      else if StartsWith(path, "/") then
        Some(base + path)
      else
        Some(base + "/" + path)
    else if Truthy(assetId) then Some(base + "/api/assets/" + IntText(assetId.value) + "/download")
    else None
  }

  /** A relative path gives the same URL with or without its leading '/'. */
  lemma ImageUrlSlashInsensitive(base: string, path: string, assetId: Option<int>, otherId: Option<int>)
    requires path != [] && !StartsWith(path, "/") && !StartsWith(path, "http")
    ensures ImageUrl(base, "/" + path, otherId) == ImageUrl(base, path, assetId)
  {
    assert ("/" + path)[..1] == "/";
    assert base + "/" + path == base + ("/" + path);
  }

  /** A stored path always wins over the asset id. */
  lemma ImageUrlPathFirst(base: string, path: string, a: Option<int>, b: Option<int>)
    requires path != []
    ensures ImageUrl(base, path, a) == ImageUrl(base, path, b)
  {
  }

  datatype DetailProject = DetailProject(
    title: string, startDate: string, endDate: string,
    thumbnail: string, thumbnailAssetId: Option<int>,
    introImage: string, introImageAssetId: Option<int>)

  datatype DetailView = DetailView(title: string, period: string, thumbUrl: Option<string>, introUrl: Option<string>)

  /** The dialog: nothing without a project. */
  function ProjectDetail(base: string, p: Option<DetailProject>): (r: Option<DetailView>)
    ensures r.None? <==> p.None?
    ensures r.Some? ==> r.value.title != [] && (p.value.title != [] ==> r.value.title == p.value.title)
    ensures r.Some? ==> r.value.period == ProjectPeriod(p.value.startDate, p.value.endDate)
    ensures r.Some? ==> r.value.thumbUrl == ImageUrl(base, p.value.thumbnail, p.value.thumbnailAssetId)
    ensures r.Some? ==> r.value.introUrl == ImageUrl(base, p.value.introImage, p.value.introImageAssetId)
  {
    match p
    case None => None
    case Some(q) =>
      Some(DetailView(
        if q.title != [] then q.title else "(제목 없음)",
        ProjectPeriod(q.startDate, q.endDate),
        ImageUrl(base, q.thumbnail, q.thumbnailAssetId),
        ImageUrl(base, q.introImage, q.introImageAssetId)))
  }
}
