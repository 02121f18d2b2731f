// The post editor of the back office: the slug derived from the title, the
// save gate, the heading rewrite, the published_at decision, the payload sent
// to the posts API, and the editor state touched by the tag input and the
// attachment picker.
module PostEditor {
  import opened Wrappers
  import opened Strings
  import PostsApi

  // ---------------------------------------------------------------------
  // slugFromTitle
  // ---------------------------------------------------------------------

  /** \w of a JavaScript regular expression without the u flag. */
  predicate IsWordChar(c: char)
  {
    ('a' <= c <= 'z') || ('A' <= c <= 'Z') || ('0' <= c <= '9') || c == '_'
  }

  predicate IsHangul(c: char)
  {
    '가' <= c <= '힣'
  }

  /** The characters kept by /[^\w가-힣-]+/g. */
  predicate IsSlugChar(c: char)
  {
    IsWordChar(c) || IsHangul(c) || c == '-'
  }

  /** The characters a finished slug may hold: no upper-case letter. */
  predicate IsLowerSlugChar(c: char)
  {
    IsSlugChar(c) && !('A' <= c <= 'Z')
  }

  predicate NoDoubleDash(s: string)
  {
    forall i :: 0 <= i < |s| - 1 ==> !(s[i] == '-' && s[i + 1] == '-')
  }

  predicate NoSpace(s: string)
  {
    forall i :: 0 <= i < |s| ==> !IsSpace(s[i])
  }

  /** .replace(/\s+/g, '-'): every run of whitespace becomes one dash. */
  function SpacesToDash(s: string): (r: string)
    ensures NoSpace(r)
    decreases |s|
  {
    if s == [] then []
    else if IsSpace(s[0]) then "-" + SpacesToDash(TrimStart(s[1..]))
    else [s[0]] + SpacesToDash(s[1..])
  }

  /** .replace(/[^\w가-힣-]+/g, ''): drop every other character. */
  function KeepSlugChars(s: string): (r: string)
    ensures |r| <= |s|
    ensures forall i :: 0 <= i < |r| ==> IsSlugChar(r[i])
  {
    if s == [] then []
    else
      var init := KeepSlugChars(s[..|s| - 1]);
      if IsSlugChar(s[|s| - 1]) then init + [s[|s| - 1]] else init
  }

  /** .replace(/-+/g, '-'): every run of dashes becomes one dash. */
  function CollapseDashes(s: string): (r: string)
    ensures |r| <= |s|
    ensures NoDoubleDash(r)
    ensures forall i :: 0 <= i < |r| ==> r[i] in s
    ensures r == [] <==> s == []
    ensures r != [] ==> r[|r| - 1] == s[|s| - 1]
  {
    if s == [] then []
    else
      var init := CollapseDashes(s[..|s| - 1]);
      var c := s[|s| - 1];
      if c == '-' && init != [] && init[|init| - 1] == '-' then init else init + [c]
  }

  /** .replace(/^-|-$/g, ''): one dash is removed at each end. */
  function StripDashes(s: string): (r: string)
    requires NoDoubleDash(s)
    ensures r == [] || (r[0] != '-' && r[|r| - 1] != '-')
    ensures NoDoubleDash(r)
    ensures exists i, j :: 0 <= i <= j <= |s| && r == s[i..j]
  {
    var i := if s != [] && s[0] == '-' then 1 else 0;
    var j := if i < |s| && s[|s| - 1] == '-' then |s| - 1 else |s|;
    assert s[i..j] == [] || s[i..j][0] == s[i];
    s[i..j]
  }

  /** The replace chain of slugFromTitle, before lower-casing. */
  function SlugChain(title: string): (r: string)
  {
    StripDashes(CollapseDashes(KeepSlugChars(SpacesToDash(Trim(title)))))
  }

  function SlugFromTitle(title: string): (r: string)
  {
    var s := Lower(SlugChain(title));
    if s == [] then "untitled" else s
  }

  /** A finished slug: non-empty, lower-case slug characters only, no "--",
      and no dash at either end. */
  predicate IsSlug(s: string)
  {
    s != [] && (forall i :: 0 <= i < |s| ==> IsLowerSlugChar(s[i])) &&
    NoDoubleDash(s) && s[0] != '-' && s[|s| - 1] != '-'
  }

  lemma LowerKeepsSlugShape(s: string)
    requires forall i :: 0 <= i < |s| ==> IsSlugChar(s[i])
    requires NoDoubleDash(s)
    requires s == [] || (s[0] != '-' && s[|s| - 1] != '-')
    ensures s != [] ==> IsSlug(Lower(s))
  {
    var r := Lower(s);
    forall i | 0 <= i < |s| ensures IsLowerSlugChar(r[i]) && (r[i] == '-' <==> s[i] == '-') {
      assert r[i] == LowerChar(s[i]);
    }
  }

  /** The replace chain leaves slug characters only, no "--" and no dash at
      either end. */
  lemma SlugChainShape(title: string)
    ensures forall m :: 0 <= m < |SlugChain(title)| ==> IsSlugChar(SlugChain(title)[m])
    ensures NoDoubleDash(SlugChain(title))
    ensures SlugChain(title) == [] || (SlugChain(title)[0] != '-' && SlugChain(title)[|SlugChain(title)| - 1] != '-')
  {
    var k := KeepSlugChars(SpacesToDash(Trim(title)));
    var c := CollapseDashes(k);
    CollapseKeepsSlugChars(k);
    StripKeepsSlugChars(c);
  }

  lemma CollapseKeepsSlugChars(k: string)
    requires forall m :: 0 <= m < |k| ==> IsSlugChar(k[m])
    ensures forall m :: 0 <= m < |CollapseDashes(k)| ==> IsSlugChar(CollapseDashes(k)[m])
  {
    var c := CollapseDashes(k);
    forall m | 0 <= m < |c| ensures IsSlugChar(c[m]) {
      assert c[m] in k;
    }
  }

  lemma StripKeepsSlugChars(c: string)
    requires NoDoubleDash(c)
    requires forall m :: 0 <= m < |c| ==> IsSlugChar(c[m])
    ensures forall m :: 0 <= m < |StripDashes(c)| ==> IsSlugChar(StripDashes(c)[m])
  {
    var d := StripDashes(c);
    var i, j :| 0 <= i <= j <= |c| && d == c[i..j];
    forall m | 0 <= m < |d| ensures IsSlugChar(d[m]) {
      assert d[m] == c[i + m];
    }
  }

  lemma UntitledIsSlug()
    ensures IsSlug("untitled")
  {
    var u := "untitled";
    assert forall m :: 0 <= m < |u| ==> IsWordChar(u[m]) && 'a' <= u[m] <= 'z';
  }

  /** Whatever the title, slugFromTitle yields a well-formed slug. */
  lemma SlugFromTitleIsSlug(title: string)
    ensures IsSlug(SlugFromTitle(title))
  {
    var d := SlugChain(title);
    SlugChainShape(title);
    LowerKeepsSlugShape(d);
    UntitledIsSlug();
  }

  /** A slug has no surrounding whitespace and is never empty. */
  lemma SlugIsTrimmed(s: string)
    requires IsSlug(s)
    ensures Trim(s) == s
    ensures PostsApi.SlugBase(s) == s
  {
    assert IsLowerSlugChar(s[0]) && IsLowerSlugChar(s[|s| - 1]);
    TrimKeepsTrimmed(s);
  }

  lemma {:induction false} SpacesToDashIdentity(s: string)
    requires NoSpace(s)
    ensures SpacesToDash(s) == s
    decreases |s|
  {
    if s != [] {
      assert !IsSpace(s[0]);
      SpacesToDashIdentity(s[1..]);
      assert s == [s[0]] + s[1..];
    }
  }

  lemma {:induction false} KeepSlugCharsIdentity(s: string)
    requires forall i :: 0 <= i < |s| ==> IsSlugChar(s[i])
    ensures KeepSlugChars(s) == s
  {
    if s != [] {
      KeepSlugCharsIdentity(s[..|s| - 1]);
      assert s == s[..|s| - 1] + [s[|s| - 1]];
    }
  }

  lemma {:induction false} CollapseDashesIdentity(s: string)
    requires NoDoubleDash(s)
    ensures CollapseDashes(s) == s
  {
    if s != [] {
      var init := s[..|s| - 1];
      assert NoDoubleDash(init) by {
        forall i | 0 <= i < |init| - 1 ensures !(init[i] == '-' && init[i + 1] == '-') {
          assert init[i] == s[i] && init[i + 1] == s[i + 1];
        }
      }
      CollapseDashesIdentity(init);
      assert s == init + [s[|s| - 1]];
      if |s| >= 2 {
        assert init[|init| - 1] == s[|s| - 2];
      }
    }
  }

  lemma LowerKeepsSlug(s: string)
    requires IsSlug(s)
    ensures Lower(s) == s
  {
    forall i | 0 <= i < |s| ensures Lower(s)[i] == s[i] {
      assert IsLowerSlugChar(s[i]);
    }
  }

  lemma SlugChars(s: string)
    requires IsSlug(s)
    ensures NoSpace(s)
    ensures forall i :: 0 <= i < |s| ==> IsSlugChar(s[i])
  {
    forall i | 0 <= i < |s| ensures IsSlugChar(s[i]) && !IsSpace(s[i]) {
      assert IsLowerSlugChar(s[i]);
    }
  }

  lemma SlugChainFixesSlugs(s: string)
    requires IsSlug(s)
    ensures SlugChain(s) == s
  {
    SlugChars(s);
    TrimKeepsTrimmed(s);
    SpacesToDashIdentity(s);
    KeepSlugCharsIdentity(s);
    CollapseDashesIdentity(s);
    StripDashesIdentity(s);
  }

  /** A text with no dash at either end keeps all of itself. */
  lemma StripDashesIdentity(s: string)
    requires NoDoubleDash(s) && s != [] && s[0] != '-' && s[|s| - 1] != '-'
    ensures StripDashes(s) == s
  {
    assert s[0..|s|] == s;
  }

  /** A slug passes through slugFromTitle unchanged. */
  lemma SlugFromTitleFixesSlugs(s: string)
    requires IsSlug(s)
    ensures SlugFromTitle(s) == s
  {
    SlugChainFixesSlugs(s);
    LowerKeepsSlug(s);
  }

  /** slugFromTitle is idempotent: running it on its own output changes nothing. */
  lemma SlugFromTitleIdempotent(title: string)
    ensures SlugFromTitle(SlugFromTitle(title)) == SlugFromTitle(title)
  {
    SlugFromTitleIsSlug(title);
    SlugFromTitleFixesSlugs(SlugFromTitle(title));
  }

  // ---------------------------------------------------------------------
  // canSave
  // ---------------------------------------------------------------------

  /** .replace(/<[^>]+>/g, ''): a '<', at least one character other than
      '>', and the next '>' are removed, scanning from the left. */
  function StripTags(s: string): (r: string)
    ensures |r| <= |s|
    ensures forall c :: c in r ==> c in s
    decreases |s|
  {
    if s == [] then []
    else if s[0] == '<' then
      match IndexOfChar(s[1..], '>')
      case Some(k) =>
        if k > 0 then StripTags(s[1..][k + 1..]) else [s[0]] + StripTags(s[1..])
      case None => s
    else [s[0]] + StripTags(s[1..])
  }

  lemma {:induction false} StripTagsNoTag(s: string)
    requires '<' !in s
    ensures StripTags(s) == s
    decreases |s|
  {
    if s != [] {
      StripTagsNoTag(s[1..]);
      assert s == [s[0]] + s[1..];
    }
  }

  /** A complete tag at the front is removed whole. */
  lemma StripTagsDropsTag(t: string, rest: string)
    requires t != [] && '>' !in t
    ensures StripTags("<" + t + ">" + rest) == StripTags(rest)
  {
    var s := "<" + t + ">" + rest;
    assert s[1..] == t + ">" + rest;
    assert IndexOfChar(s[1..], '>') == Some(|t|) by {
      var m := IndexOfChar(s[1..], '>');
      assert s[1..][|t|] == '>';
      assert m.Some?;
      assert s[1..][..m.value] == t[..m.value];
    }
    assert s[1..][|t| + 1..] == rest;
  }

  /** The status values the editor can submit. */
  predicate IsSubmittableStatus(status: string)
  {
    status == "PUBLISHED" || status == "UNLISTED" || status == "PRIVATE"
  }

  /** The category select: '__select__' until a choice is made, '' for "none". */
  datatype Choice = Unselected | NoChoice | Chosen(id: int)

  predicate CanSave(title: string, category: Choice, contentHtml: string, status: string)
  {
    !IsBlank(title) && !category.Unselected? && Trim(StripTags(contentHtml)) != [] &&
    IsSubmittableStatus(status)
  }

  /** A body made only of markup, such as the editor's empty paragraph,
      cannot be saved. */
  lemma EmptyParagraphCannotBeSaved(title: string, category: Choice, status: string)
    ensures !CanSave(title, category, "<p></p>", status)
  {
    StripTagsEmptyParagraph();
  }

  lemma StripTagsEmptyParagraph()
    ensures StripTags("<p></p>") == []
  {
    StripTagsClosingP();
    assert "<p></p>" == "<" + "p" + ">" + "</p>";
    StripTagsDropsTag("p", "</p>");
  }

  lemma StripTagsClosingP()
    ensures StripTags("</p>") == []
  {
    assert "</p>" == "<" + "/p" + ">" + "";
    StripTagsDropsTag("/p", "");
  }

  lemma StripTagsParagraph()
    ensures StripTags("<p>x</p>") == "x"
  {
    assert "<p>x</p>" == "<" + "p" + ">" + "x</p>";
    StripTagsDropsTag("p", "x</p>");
    assert "x</p>"[1..] == "</p>";
    assert StripTags("x</p>") == "x" + StripTags("</p>");
    StripTagsClosingP();
  }

  /** One visible character between tags is enough. */
  lemma VisibleTextCanBeSaved(title: string, category: Choice, status: string)
    requires !IsBlank(title) && category.Chosen? && IsSubmittableStatus(status)
    ensures CanSave(title, category, "<p>x</p>", status)
  {
    StripTagsParagraph();
    TrimKeepsTrimmed("x");
  }

  // ---------------------------------------------------------------------
  // Heading rewrite on save: </h5>, </h6> -> </h4>, then <h5 / <h6 -> <h4
  // ---------------------------------------------------------------------

  predicate IsH(c: char)
  {
    c == 'h' || c == 'H'
  }

  predicate IsFiveOrSix(c: char)
  {
    c == '5' || c == '6'
  }

  /** A closing tag </h5> or </h6>, in either case, starts at k. */
  predicate CloseAt(s: string, k: int)
  {
    0 <= k && k + 5 <= |s| && s[k] == '<' && s[k + 1] == '/' && IsH(s[k + 2]) &&
    IsFiveOrSix(s[k + 3]) && s[k + 4] == '>'
  }

  /** An opening tag <h5 or <h6 followed by whitespace or '>' starts at k. */
  predicate OpenAt(s: string, k: int)
  {
    0 <= k && k + 4 <= |s| && s[k] == '<' && IsH(s[k + 1]) && IsFiveOrSix(s[k + 2]) &&
    (IsSpace(s[k + 3]) || s[k + 3] == '>')
  }

  /** .replace(/<\/h[56]>/gi, '</h4>'), scanning from the left. */
  function FixClosing(s: string): (r: string)
    ensures |r| == |s|
    decreases |s|
  {
    if CloseAt(s, 0) then "</h4>" + FixClosing(s[5..])
    else if s == [] then []
    else [s[0]] + FixClosing(s[1..])
  }

  /** .replace(/<h[56](\s|>)/gi, '<h4$1'), scanning from the left. */
  function FixOpening(s: string): (r: string)
    ensures |r| == |s|
    decreases |s|
  {
    if OpenAt(s, 0) then "<h4" + [s[3]] + FixOpening(s[4..])
    else if s == [] then []
    else [s[0]] + FixOpening(s[1..])
  }

  /** The save-time rewrite of the editor content. */
  function RewriteHeadings(s: string): (r: string)
  {
    FixOpening(FixClosing(s))
  }

  /** Character j after the closing-tag rewrite. */
  function ClosedChar(s: string, j: int): char
    requires 0 <= j < |s|
  {
    if CloseAt(s, j - 2) then 'h' else if CloseAt(s, j - 3) then '4' else s[j]
  }

  /** Character j after the opening-tag rewrite. */
  function OpenedChar(s: string, j: int): char
    requires 0 <= j < |s|
  {
    if OpenAt(s, j - 1) then 'h' else if OpenAt(s, j - 2) then '4' else s[j]
  }

  lemma {:induction false} FixClosingAt(s: string)
    ensures forall j :: 0 <= j < |s| ==> FixClosing(s)[j] == ClosedChar(s, j)
    decreases |s|
  {
    var r := FixClosing(s);
    if CloseAt(s, 0) {
      var t := s[5..];
      FixClosingAt(t);
      assert r == "</h4>" + FixClosing(t);
      forall j | 0 <= j < |s| ensures r[j] == ClosedChar(s, j) {
        if j >= 5 {
          assert r[j] == FixClosing(t)[j - 5];
          assert CloseAt(t, j - 7) == CloseAt(s, j - 2);
          assert CloseAt(t, j - 8) == CloseAt(s, j - 3);
        }
      }
    } else if s != [] {
      var t := s[1..];
      FixClosingAt(t);
      assert r == [s[0]] + FixClosing(t);
      forall j | 0 <= j < |s| ensures r[j] == ClosedChar(s, j) {
        if j >= 1 {
          assert r[j] == FixClosing(t)[j - 1];
          assert CloseAt(t, j - 3) == CloseAt(s, j - 2);
          assert CloseAt(t, j - 4) == CloseAt(s, j - 3);
        }
      }
    }
  }

  lemma {:induction false} FixOpeningAt(s: string)
    ensures forall j :: 0 <= j < |s| ==> FixOpening(s)[j] == OpenedChar(s, j)
    decreases |s|
  {
    var r := FixOpening(s);
    if OpenAt(s, 0) {
      var t := s[4..];
      FixOpeningAt(t);
      assert r == "<h4" + [s[3]] + FixOpening(t);
      forall j | 0 <= j < |s| ensures r[j] == OpenedChar(s, j) {
        if j >= 4 {
          assert r[j] == FixOpening(t)[j - 4];
          assert OpenAt(t, j - 5) == OpenAt(s, j - 1);
          assert OpenAt(t, j - 6) == OpenAt(s, j - 2);
        }
      }
    } else if s != [] {
      var t := s[1..];
      FixOpeningAt(t);
      assert r == [s[0]] + FixOpening(t);
      forall j | 0 <= j < |s| ensures r[j] == OpenedChar(s, j) {
        if j >= 1 {
          assert r[j] == FixOpening(t)[j - 1];
          assert OpenAt(t, j - 2) == OpenAt(s, j - 1);
          assert OpenAt(t, j - 3) == OpenAt(s, j - 2);
        }
      }
    }
  }

  /** No closing h5/h6 tag survives the first replace. */
  lemma FixClosingLeavesNone(s: string)
    ensures forall i :: !CloseAt(FixClosing(s), i)
  {
    FixClosingAt(s);
    var r := FixClosing(s);
    forall i | 0 <= i && i + 5 <= |r| ensures !CloseAt(r, i) {
      assert r[i] == ClosedChar(s, i) && r[i + 1] == ClosedChar(s, i + 1);
      assert r[i + 2] == ClosedChar(s, i + 2) && r[i + 3] == ClosedChar(s, i + 3);
      assert r[i + 4] == ClosedChar(s, i + 4);
    }
  }

  /** The first replace neither creates nor destroys an opening h5/h6 tag. */
  lemma FixClosingKeepsOpenings(s: string)
    ensures forall k :: OpenAt(FixClosing(s), k) <==> OpenAt(s, k)
  {
    FixClosingAt(s);
    var m := FixClosing(s);
    forall k | 0 <= k && k + 4 <= |s| ensures OpenAt(m, k) <==> OpenAt(s, k) {
      assert m[k] == ClosedChar(s, k) && m[k + 1] == ClosedChar(s, k + 1);
      assert m[k + 2] == ClosedChar(s, k + 2) && m[k + 3] == ClosedChar(s, k + 3);
    }
  }

  /** The second replace creates no closing h5/h6 tag and leaves no opening one. */
  lemma FixOpeningLeavesNone(m: string)
    requires forall i :: !CloseAt(m, i)
    ensures forall i :: !CloseAt(FixOpening(m), i) && !OpenAt(FixOpening(m), i)
  {
    FixOpeningAt(m);
    var r := FixOpening(m);
    assert !IsSpace('h') && !IsSpace('4');
    forall i | 0 <= i && i + 4 <= |r| ensures !OpenAt(r, i) {
      assert r[i] == OpenedChar(m, i) && r[i + 1] == OpenedChar(m, i + 1);
      assert r[i + 2] == OpenedChar(m, i + 2) && r[i + 3] == OpenedChar(m, i + 3);
    }
    forall i | 0 <= i && i + 5 <= |r| ensures !CloseAt(r, i) {
      assert r[i] == OpenedChar(m, i) && r[i + 1] == OpenedChar(m, i + 1);
      assert r[i + 2] == OpenedChar(m, i + 2) && r[i + 3] == OpenedChar(m, i + 3);
      assert r[i + 4] == OpenedChar(m, i + 4);
      assert !CloseAt(m, i);
    }
  }

  /** After saving, no h5 or h6 tag is left, opening or closing, in either case. */
  lemma RewriteHeadingsLeavesNone(s: string)
    ensures forall i :: !CloseAt(RewriteHeadings(s), i) && !OpenAt(RewriteHeadings(s), i)
  {
    FixClosingLeavesNone(s);
    FixOpeningLeavesNone(FixClosing(s));
  }

  /** Character j of the original content once its h5/h6 tags are rewritten. */
  function HeadingFixedChar(s: string, j: int): char
    requires 0 <= j < |s|
  {
    if CloseAt(s, j - 2) || OpenAt(s, j - 1) then 'h'
    else if CloseAt(s, j - 3) || OpenAt(s, j - 2) then '4'
    else s[j]
  }

  /** Exactly the letter and the digit of each h5/h6 tag of the original
      content change: the letter becomes 'h' and the digit '4'; every other
      character is kept, so other tags and text are left alone. */
  lemma RewriteHeadingsChangesOnlyHeadings(s: string)
    ensures |RewriteHeadings(s)| == |s|
    ensures forall j :: 0 <= j < |s| ==> RewriteHeadings(s)[j] == HeadingFixedChar(s, j)
  {
    var m := FixClosing(s);
    FixClosingAt(s);
    FixClosingKeepsOpenings(s);
    FixOpeningAt(m);
    var r := RewriteHeadings(s);
    forall j | 0 <= j < |s| ensures r[j] == HeadingFixedChar(s, j) {
      assert r[j] == OpenedChar(m, j);
      assert m[j] == ClosedChar(s, j);
    }
  }

  /** Content without h5/h6 tags is sent as it is. */
  lemma RewriteHeadingsWithoutSmallHeadings(s: string)
    requires forall i :: !CloseAt(s, i) && !OpenAt(s, i)
    ensures RewriteHeadings(s) == s
  {
    RewriteHeadingsChangesOnlyHeadings(s);
  }

  // ---------------------------------------------------------------------
  // handleSave: published_at and the payload
  // ---------------------------------------------------------------------

  /** The "now" / "scheduled" radio of the publish section. */
  datatype PublishType = PublishNow | PublishScheduled

  /** published_at sent on save. Instants are seconds; `picked` is the date
      field (None when empty), `origin` the value loaded with the post. */
  function PublishedAtFor(visibility: string, publishType: PublishType, picked: Option<int>,
                          origin: Option<int>, now: int): (r: Option<int>)
    ensures visibility == "PUBLISHED" ==> r.Some?
    ensures visibility != "PUBLISHED" ==> r == origin
    ensures visibility == "PUBLISHED" && !(publishType.PublishScheduled? && picked.Some?) ==>
      r.value <= now && (r == origin || r == Some(now))
    ensures visibility == "PUBLISHED" && publishType.PublishScheduled? && picked.Some? ==> r == picked
    ensures visibility == "PUBLISHED" && !(publishType.PublishScheduled? && picked.Some?) ==>
      (r == origin <==> origin.Some? && origin.value <= now)
  {
    if visibility == "PUBLISHED" then
      if publishType.PublishScheduled? && picked.Some? then picked
      else if origin.Some? && origin.value <= now then origin
      else Some(now)
    else origin
  }

  /** A new post published "now" is accepted by create_post as long as the
      request arrives within the 60-second tolerance of the editor's clock. */
  lemma PublishNowAcceptedOnCreate(publishType: PublishType, picked: Option<int>, now: int, serverNow: int)
    requires !(publishType.PublishScheduled? && picked.Some?)
    requires serverNow - now <= 60
    ensures !PostsApi.CreateRejects(PublishedAtFor("PUBLISHED", publishType, picked, None, now), serverNow)
  {
  }

  /** Re-saving a post that keeps its stored date is never refused by
      update_post, whatever the server's clock: the date names the stored minute. */
  lemma KeepingOriginAcceptedOnUpdate(visibility: string, publishType: PublishType, picked: Option<int>,
                                      origin: Option<int>, now: int, serverNow: int)
    requires visibility != "PUBLISHED" || (origin.Some? && origin.value <= now &&
                                          !(publishType.PublishScheduled? && picked.Some?))
    ensures !PostsApi.UpdateRejects(PublishedAtFor(visibility, publishType, picked, origin, now), origin, serverNow)
  {
  }

  /** A scheduled date that is already more than a minute old when the server
      receives it is refused on create. */
  lemma PastScheduleRefusedOnCreate(d: int, origin: Option<int>, now: int, serverNow: int)
    requires serverNow - d > 60
    ensures PostsApi.CreateRejects(PublishedAtFor("PUBLISHED", PublishScheduled, Some(d), origin, now), serverNow)
  {
  }

  /** An entry of form.post_tags: a tag id, or a text value. */
  datatype TagRef = TagNum(n: int) | TagText(s: string)

  /** post_tags of the payload: numbers, and all-digit strings as numbers,
      in form order (PayloadTagsConcat). */
  function PayloadTags(tags: seq<TagRef>): (r: seq<int>)
    ensures |r| <= |tags|
    ensures |tags| == 1 && tags[0].TagNum? ==> r == [tags[0].n]
    ensures |tags| == 1 && tags[0].TagText? ==>
      r == (if AllDigits(tags[0].s) then [DigitsValue(tags[0].s)] else [])
  {
    if tags == [] then []
    else
      var init := PayloadTags(tags[..|tags| - 1]);
      match tags[|tags| - 1]
      case TagNum(n) => init + [n]
      case TagText(t) => if AllDigits(t) then init + [DigitsValue(t)] else init
  }

  lemma {:induction false} PayloadTagsMembers(tags: seq<TagRef>)
    ensures forall n :: n in PayloadTags(tags) <==>
      (TagNum(n) in tags || exists t :: TagText(t) in tags && AllDigits(t) && DigitsValue(t) == n)
  {
    if tags != [] {
      var init := tags[..|tags| - 1];
      PayloadTagsMembers(init);
      assert tags == init + [tags[|tags| - 1]];
    }
  }

  /** The tags keep the form's order: those of a + b are a's, then b's. */
  lemma {:induction false} PayloadTagsConcat(a: seq<TagRef>, b: seq<TagRef>)
    ensures PayloadTags(a + b) == PayloadTags(a) + PayloadTags(b)
    decreases |b|
  {
    if b == [] {
      assert a + b == a;
    } else {
      var k := |b| - 1;
      assert (a + b)[..|a + b| - 1] == a + b[..k];
      assert (a + b)[|a + b| - 1] == b[k];
      PayloadTagsConcat(a, b[..k]);
    }
  }

  /** An uploaded attachment shown in the editor. */
  datatype Attachment = Attachment(id: int, originalName: string)

  /** attachment_asset_ids of the payload: the positive ids, in list order. */
  function PayloadAttachmentIds(list: seq<Attachment>): (r: seq<int>)
    ensures |r| <= |list|
    ensures forall k :: 0 <= k < |r| ==> r[k] > 0
    ensures forall a :: a in list && a.id > 0 ==> a.id in r
    ensures |list| == 1 ==> r == (if list[0].id > 0 then [list[0].id] else [])
  {
    if list == [] then []
    else
      var init := PayloadAttachmentIds(list[..|list| - 1]);
      var a := list[|list| - 1];
      assert list == list[..|list| - 1] + [a];
      if a.id > 0 then init + [a.id] else init
  }

  /** The ids are kept in list order: those of a + b are a's, then b's. */
  lemma {:induction false} PayloadAttachmentIdsConcat(a: seq<Attachment>, b: seq<Attachment>)
    ensures PayloadAttachmentIds(a + b) == PayloadAttachmentIds(a) + PayloadAttachmentIds(b)
    decreases |b|
  {
    if b == [] {
      assert a + b == a;
    } else {
      var k := |b| - 1;
      assert (a + b)[..|a + b| - 1] == a + b[..k];
      assert (a + b)[|a + b| - 1] == b[k];
      PayloadAttachmentIdsConcat(a, b[..k]);
    }
  }

  /** The editor's form fields that reach the payload. */
  datatype EditorForm = EditorForm(
    title: string,
    status: string,
    visibility: string,
    publishType: PublishType,
    picked: Option<int>,
    category: Choice,
    prefix: Choice,
    thumbnailAssetId: Option<int>,
    postTags: seq<TagRef>)

  function ChoiceId(c: Choice): (r: Option<int>)
    ensures r.Some? <==> c.Chosen?
  {
    if c.Chosen? then Some(c.id) else None
  }

  /** The body of the POST / PUT sent by handleSave. */
  function Payload(form: EditorForm, content: string, attachments: seq<Attachment>,
                   origin: Option<int>, now: int): PostsApi.PostBody
  {
    var visibility := if form.visibility != [] then form.visibility else form.status;
    PostsApi.PostBody(
      if form.title != [] then form.title else "제목 없음",
      SlugFromTitle(form.title),
      visibility,
      PublishedAtFor(visibility, form.publishType, form.picked, origin, now),
      ChoiceId(form.category),
      ChoiceId(form.prefix),
      if form.thumbnailAssetId == Some(0) then None else form.thumbnailAssetId,
      Some(RewriteHeadings(content)),
      None,
      PayloadTags(form.postTags),
      PayloadAttachmentIds(attachments))
  }

  /** The payload's slug is slugFromTitle of the form title; the server
      starts its unique-slug search from that slug as is:
      stripping it or replacing an empty one changes nothing. */
  lemma ServerKeepsEditorSlug(title: string)
    ensures Trim(SlugFromTitle(title)) == SlugFromTitle(title)
    ensures PostsApi.SlugBase(SlugFromTitle(title)) == SlugFromTitle(title)
  {
    SlugFromTitleIsSlug(title);
    SlugIsTrimmed(SlugFromTitle(title));
  }

  /** A post that passes canSave is stored with its own, non-blank title. */
  lemma SavedTitleIsFormTitle(form: EditorForm, content: string, attachments: seq<Attachment>,
                              origin: Option<int>, now: int)
    requires CanSave(form.title, form.category, content, form.status)
    ensures PostsApi.StoredTitle(Payload(form, content, attachments, origin, now).title) == Trim(form.title)
    ensures Trim(form.title) != []
  {
  }

  // ---------------------------------------------------------------------
  // Tag input and attachment picker
  // ---------------------------------------------------------------------

  datatype Tag = Tag(id: int, name: string)

  /** tags.find(t => (t.name || '').toLowerCase() === name.toLowerCase()). */
  function FindTag(tags: seq<Tag>, name: string): (r: Option<nat>)
    ensures r.Some? ==> r.value < |tags| && Lower(tags[r.value].name) == Lower(name)
    ensures r.Some? ==> forall k :: 0 <= k < r.value ==> Lower(tags[k].name) != Lower(name)
    ensures r.None? ==> forall k :: 0 <= k < |tags| ==> Lower(tags[k].name) != Lower(name)
  {
    if tags == [] then None
    else if Lower(tags[0].name) == Lower(name) then Some(0)
    else match FindTag(tags[1..], name)
      case None => None
      case Some(k) => Some(k + 1)
  }

  /** Matching ignores ASCII case in both the typed name and the stored names. */
  lemma FindTagIgnoresCase(tags: seq<Tag>, a: string, b: string)
    requires Lower(a) == Lower(b)
    ensures FindTag(tags, a) == FindTag(tags, b)
  {
    if tags != [] {
      FindTagIgnoresCase(tags[1..], a, b);
    }
  }

  /** filter(x => x !== v), in order (WithoutConcat). */
  function Without(s: seq<TagRef>, v: TagRef): (r: seq<TagRef>)
    ensures |r| <= |s|
    ensures v !in r
    ensures forall x :: x != v ==> (x in r <==> x in s)
    ensures |s| == 1 ==> r == (if s[0] == v then [] else s)
  {
    if s == [] then []
    else
      var init := Without(s[..|s| - 1], v);
      var x := s[|s| - 1];
      assert s == s[..|s| - 1] + [x];
      if x == v then init else init + [x]
  }

  /** Attachments other than the one with the given id, in order
      (WithoutAttachmentConcat). */
  function WithoutAttachment(list: seq<Attachment>, id: int): (r: seq<Attachment>)
    ensures |r| <= |list|
    ensures forall a :: a in r <==> a in list && a.id != id
    ensures |list| == 1 ==> r == (if list[0].id == id then [] else list)
  {
    if list == [] then []
    else
      var init := WithoutAttachment(list[..|list| - 1], id);
      var a := list[|list| - 1];
      assert list == list[..|list| - 1] + [a];
      if a.id == id then init else init + [a]
  }

  /** The kept references keep their order: those of a + b are a's, then b's. */
  lemma {:induction false} WithoutConcat(a: seq<TagRef>, b: seq<TagRef>, v: TagRef)
    ensures Without(a + b, v) == Without(a, v) + Without(b, v)
    decreases |b|
  {
    if b == [] {
      assert a + b == a;
    } else {
      var k := |b| - 1;
      assert (a + b)[..|a + b| - 1] == a + b[..k];
      assert (a + b)[|a + b| - 1] == b[k];
      WithoutConcat(a, b[..k], v);
    }
  }

  /** The kept attachments keep their order, which becomes their sort_order
      on save: those of a + b are a's, then b's. */
  lemma {:induction false} WithoutAttachmentConcat(a: seq<Attachment>, b: seq<Attachment>, id: int)
    ensures WithoutAttachment(a + b, id) == WithoutAttachment(a, id) + WithoutAttachment(b, id)
    decreases |b|
  {
    if b == [] {
      assert a + b == a;
    } else {
      var k := |b| - 1;
      assert (a + b)[..|a + b| - 1] == a + b[..k];
      assert (a + b)[|a + b| - 1] == b[k];
      WithoutAttachmentConcat(a, b[..k], id);
    }
  }

  predicate Distinct(s: seq<TagRef>)
  {
    forall i, j :: 0 <= i < j < |s| ==> s[i] != s[j]
  }

  /** Appending a tag reference that is not yet present keeps the list distinct. */
  lemma DistinctSnoc(s: seq<TagRef>, x: TagRef)
    requires Distinct(s) && x !in s
    ensures Distinct(s + [x])
  {
    var t := s + [x];
    forall i, j | 0 <= i < j < |t| ensures t[i] != t[j] {
      if j == |s| {
        assert t[i] == s[i];
      }
    }
  }

  /** The answer of POST /api/tags, or its failure. */
  datatype TagCreate = TagCreated(id: Option<int>, name: Option<string>) | TagCreateFailed

  /** A file chosen in the attachment picker. */
  datatype FileInfo = FileInfo(name: string, size: int)

  /** The answer of the upload endpoint for one file: the asset id and original
      name it reports (name "" when absent), or a failure with its detail. */
  datatype UploadOutcome = Uploaded(id: Option<int>, originalName: string) | UploadFailed(detail: string)

  const AttachExtensions: seq<string> := ["png", "jpg", "jpeg", "pdf", "ppt", "pptx", "hwp", "hwpx", "docx"]
  const MaxAttachSize: int := 10 * 1024 * 1024

  /** Membership in a list of names, one entry at a time. */
  predicate Listed(e: string, names: seq<string>)
    decreases |names|
  {
    names != [] && (names[0] == e || Listed(e, names[1..]))
  }

  lemma {:induction false} ListedIsMember(e: string, names: seq<string>)
    ensures Listed(e, names) <==> e in names
    decreases |names|
  {
    if names != [] {
      ListedIsMember(e, names[1..]);
      assert names == [names[0]] + names[1..];
    }
  }

  /** The lower-cased text after the last '.' of a file name. */
  function FileExt(name: string): (r: string)
  {
    if name == [] || name[|name| - 1] == '.' then []
    else FileExt(name[..|name| - 1]) + [LowerChar(name[|name| - 1])]
  }

  lemma {:induction false} FileExtIsLastPiece(name: string)
    ensures FileExt(name) == Lower(AfterLast(name, '.'))
  {
    if name != [] && name[|name| - 1] != '.' {
      var init := name[..|name| - 1];
      FileExtIsLastPiece(init);
      AfterLastStep(name, '.');
      LowerSnoc(AfterLast(init, '.'), name[|name| - 1]);
    }
  }

  /** ATTACH_EXT_SET.has(name.split('.').pop().toLowerCase()). */
  predicate ExtOk(name: string)
  {
    Listed(FileExt(name), AttachExtensions)
  }

  /** The extension test reads the last piece of the name split at '.'; a
      name without a dot is its own extension. */
  lemma ExtOkIsLastPiece(name: string)
    ensures ExtOk(name) <==> Lower(Split(name, '.')[|Split(name, '.')| - 1]) in AttachExtensions
    ensures '.' !in name ==> (ExtOk(name) <==> Lower(name) in AttachExtensions)
  {
    SplitLast(name, '.');
    FileExtIsLastPiece(name);
    ListedIsMember(FileExt(name), AttachExtensions);
  }

  predicate Accepted(f: FileInfo)
  {
    ExtOk(f.name) && f.size <= MaxAttachSize
  }

  /** The message left in saveError for a skipped file: the type message when
      the extension is refused, else the size message. */
  function SkipMessage(f: FileInfo): string
  {
    if !ExtOk(f.name) then "허용되지 않는 파일 형식입니다: " + f.name
    else "파일 크기는 10MB 이하여야 합니다: " + f.name
  }

  function FailMessage(detail: string): (r: string)
    ensures r != []
  {
    if detail == [] then "업로드에 실패했습니다." else detail
  }

  predicate FailsAt(files: seq<FileInfo>, outcomes: seq<UploadOutcome>, i: int)
    requires |outcomes| == |files|
  {
    0 <= i < |files| && Accepted(files[i]) && outcomes[i].UploadFailed?
  }

  /** Index of the first true flag at or after i, |b| when there is none. */
  function FirstTrueFrom(b: seq<bool>, i: nat): (r: nat)
    requires i <= |b|
    ensures i <= r <= |b|
    ensures r < |b| ==> b[r]
    decreases |b| - i
  {
    if i == |b| || b[i] then i else FirstTrueFrom(b, i + 1)
  }

  lemma {:induction false} FirstTrueFromIsFirst(b: seq<bool>, i: nat, k: nat)
    requires i <= |b| && i <= k < FirstTrueFrom(b, i)
    ensures !b[k]
    decreases |b| - i
  {
    if k > i {
      FirstTrueFromIsFirst(b, i + 1, k);
    }
  }

  /** Which files stop the upload loop. */
  function FailFlags(files: seq<FileInfo>, outcomes: seq<UploadOutcome>): (r: seq<bool>)
    requires |outcomes| == |files|
    ensures |r| == |files|
    ensures forall k :: 0 <= k < |r| ==> r[k] == FailsAt(files, outcomes, k)
  {
    seq(|files|, k requires 0 <= k < |files| => FailsAt(files, outcomes, k))
  }

  /** Index of the first upload that fails, |files| when none does. */
  function FirstFailure(files: seq<FileInfo>, outcomes: seq<UploadOutcome>): (r: nat)
    requires |outcomes| == |files|
    ensures r <= |files|
    ensures r < |files| ==> FailsAt(files, outcomes, r)
  {
    FirstTrueFrom(FailFlags(files, outcomes), 0)
  }

  /** No upload before the first failure fails. */
  lemma FirstFailureIsFirst(files: seq<FileInfo>, outcomes: seq<UploadOutcome>)
    requires |outcomes| == |files|
    ensures forall k :: 0 <= k < FirstFailure(files, outcomes) ==> !FailsAt(files, outcomes, k)
  {
    var b := FailFlags(files, outcomes);
    forall k | 0 <= k < FirstFailure(files, outcomes) ensures !FailsAt(files, outcomes, k) {
      FirstTrueFromIsFirst(b, 0, k);
    }
  }

  /** A failing upload at i is the first failure when none came before it. */
  lemma FirstFailureAt(files: seq<FileInfo>, outcomes: seq<UploadOutcome>, i: nat)
    requires |outcomes| == |files| && FirstFailure(files, outcomes) >= i
    requires FailsAt(files, outcomes, i)
    ensures FirstFailure(files, outcomes) == i
  {
    FirstFailureIsFirst(files, outcomes);
  }

  /** The attachments an upload outcome adds: one with a positive id. */
  function Added(f: FileInfo, o: UploadOutcome): (r: seq<Attachment>)
    ensures |r| <= 1
    ensures forall a :: a in r ==> a.id > 0
  {
    if Accepted(f) && o.Uploaded? && o.id.Some? && o.id.value > 0 then
      [Attachment(o.id.value, if o.originalName != [] then o.originalName else f.name)]
    else []
  }

  /** The attachments added for the files, in file order. */
  function AddedAll(files: seq<FileInfo>, outcomes: seq<UploadOutcome>): (r: seq<Attachment>)
    requires |outcomes| == |files|
    ensures |r| <= |files|
  {
    if files == [] then []
    else
      AddedAll(files[..|files| - 1], outcomes[..|files| - 1]) +
        Added(files[|files| - 1], outcomes[|files| - 1])
  }

  /** Every attachment the picker adds has a positive id and comes from an
      accepted file whose upload reported that id. */
  lemma {:induction false} AddedAllSound(files: seq<FileInfo>, outcomes: seq<UploadOutcome>)
    requires |outcomes| == |files|
    ensures forall a :: a in AddedAll(files, outcomes) ==> (a.id > 0 &&
      exists k :: 0 <= k < |files| && Accepted(files[k]) && outcomes[k].Uploaded? &&
                  outcomes[k].id == Some(a.id))
  {
    if files != [] {
      var n := |files| - 1;
      AddedAllSound(files[..n], outcomes[..n]);
      forall a | a in AddedAll(files, outcomes) ensures a.id > 0 &&
        exists k :: 0 <= k < |files| && Accepted(files[k]) && outcomes[k].Uploaded? &&
                    outcomes[k].id == Some(a.id)
      {
        if a in AddedAll(files[..n], outcomes[..n]) {
          var k :| 0 <= k < n && Accepted(files[..n][k]) && outcomes[..n][k].Uploaded? &&
                   outcomes[..n][k].id == Some(a.id);
          assert files[k] == files[..n][k] && outcomes[k] == outcomes[..n][k];
        } else {
          assert a in Added(files[n], outcomes[n]);
        }
      }
    }
  }

  /** saveError after the skipped files among `files`: the last skip wins. */
  function SkipError(files: seq<FileInfo>, err: Option<string>): Option<string>
  {
    if files == [] then err
    else if Accepted(files[|files| - 1]) then SkipError(files[..|files| - 1], err)
    else Some(SkipMessage(files[|files| - 1]))
  }

  /** A skipped file adds nothing and leaves its message. */
  lemma SkipStep(files: seq<FileInfo>, outcomes: seq<UploadOutcome>, i: nat, err: Option<string>)
    requires |outcomes| == |files| && i < |files| && !Accepted(files[i])
    ensures AddedAll(files[..i + 1], outcomes[..i + 1]) == AddedAll(files[..i], outcomes[..i])
    ensures SkipError(files[..i + 1], err) == Some(SkipMessage(files[i]))
  {
    assert files[..i + 1][..i] == files[..i] && outcomes[..i + 1][..i] == outcomes[..i];
  }

  /** An uploaded file adds what its answer reports and leaves saveError alone. */
  lemma UploadStep(files: seq<FileInfo>, outcomes: seq<UploadOutcome>, i: nat, err: Option<string>)
    requires |outcomes| == |files| && i < |files| && Accepted(files[i])
    ensures AddedAll(files[..i + 1], outcomes[..i + 1]) ==
      AddedAll(files[..i], outcomes[..i]) + Added(files[i], outcomes[i])
    ensures SkipError(files[..i + 1], err) == SkipError(files[..i], err)
  {
    assert files[..i + 1][..i] == files[..i] && outcomes[..i + 1][..i] == outcomes[..i];
  }

  /** One file of handleAttachmentSelect that does not stop the loop: the
      loop's invariants hold again one file further on. */
  lemma SelectStep(files: seq<FileInfo>, outcomes: seq<UploadOutcome>, i: nat, err: Option<string>,
                   base: seq<Attachment>, before: seq<Attachment>, after: seq<Attachment>,
                   errAfter: Option<string>)
    requires |outcomes| == |files| && i < |files| && FirstFailure(files, outcomes) >= i
    requires !FailsAt(files, outcomes, i)
    requires before == base + AddedAll(files[..i], outcomes[..i])
    requires after == before + Added(files[i], outcomes[i])
    requires errAfter == (if !Accepted(files[i]) then Some(SkipMessage(files[i]))
                          else SkipError(files[..i], err))
    ensures FirstFailure(files, outcomes) >= i + 1
    ensures after == base + AddedAll(files[..i + 1], outcomes[..i + 1])
    ensures errAfter == SkipError(files[..i + 1], err)
  {
    if Accepted(files[i]) {
      UploadStep(files, outcomes, i, err);
    } else {
      SkipStep(files, outcomes, i, err);
    }
  }

  /** The post editor's state that the tag input and the attachment picker change. */
  class EditorState {
    var knownTags: seq<Tag>
    var postTags: seq<TagRef>
    var tagInput: string
    var attachments: seq<Attachment>
    var saveError: Option<string>

    constructor (tags: seq<Tag>, loadedTags: seq<TagRef>, loadedAttachments: seq<Attachment>)
      ensures knownTags == tags && postTags == loadedTags && attachments == loadedAttachments
      ensures tagInput == [] && saveError.None?
    {
      knownTags := tags;
      postTags := loadedTags;
      tagInput := [];
      attachments := loadedAttachments;
      saveError := None;
    }

    /** handleTagKeyDown. `created` is the answer of POST /api/tags, used only
        when no known tag matches. */
    method TagKeyDown(key: string, created: TagCreate)
      modifies this`knownTags, this`postTags, this`tagInput
      ensures Distinct(old(postTags)) ==> Distinct(postTags)
      ensures key != "Enter" || IsBlank(old(tagInput)) ==>
        knownTags == old(knownTags) && postTags == old(postTags) && tagInput == old(tagInput)
      ensures key == "Enter" && !IsBlank(old(tagInput)) ==>
        var name := Trim(old(tagInput));
        var found := FindTag(old(knownTags), name);
        var existingId := if found.Some? then old(knownTags)[found.value].id else 0;
        if existingId != 0 then
          knownTags == old(knownTags) && tagInput == [] &&
          postTags == (if TagNum(existingId) in old(postTags) then old(postTags)
                       else old(postTags) + [TagNum(existingId)])
        else if created.TagCreateFailed? then
          knownTags == old(knownTags) && postTags == old(postTags) && tagInput == old(tagInput)
        else
          var id := created.id.GetOr(0);
          tagInput == [] &&
          knownTags == (if id != 0 then old(knownTags) + [Tag(id, created.name.GetOr(name))] else old(knownTags)) &&
          postTags == (if id != 0 && TagNum(id) !in old(postTags) then old(postTags) + [TagNum(id)]
                       else old(postTags))
    {
      if key != "Enter" || IsBlank(tagInput) {
        return;
      }
      var name := Trim(tagInput);
      var found := FindTag(knownTags, name);
      var id := if found.Some? then knownTags[found.value].id else 0;
      if id == 0 {
        match created
        case TagCreateFailed =>
          return;
        case TagCreated(cid, cname) =>
          id := cid.GetOr(0);
          if id != 0 {
            knownTags := knownTags + [Tag(id, cname.GetOr(name))];
          }
      }
      if id != 0 && TagNum(id) !in postTags {
        if Distinct(postTags) {
          DistinctSnoc(postTags, TagNum(id));
        }
        postTags := postTags + [TagNum(id)];
      }
      tagInput := [];
    }

    /** removeTag. */
    method RemoveTag(x: TagRef)
      modifies this`postTags
      ensures postTags == Without(old(postTags), x)
    {
      postTags := Without(postTags, x);
    }

    /** removeAttachment. */
    method RemoveAttachment(id: int)
      modifies this`attachments
      ensures attachments == WithoutAttachment(old(attachments), id)
    {
      attachments := WithoutAttachment(attachments, id);
    }

    /** One pass of the handleAttachmentSelect loop: a file with another
        extension or over 10 MiB is skipped with a message, an accepted file
        is uploaded, and an answer with a positive id adds an attachment.
        `stopped` reports the failed upload that ends the loop. */
    method AttachFile(f: FileInfo, o: UploadOutcome) returns (stopped: bool)
      modifies this`attachments, this`saveError
      ensures stopped <==> Accepted(f) && o.UploadFailed?
      ensures attachments == old(attachments) + Added(f, o)
      ensures saveError == (if !Accepted(f) then Some(SkipMessage(f))
                            else if o.UploadFailed? then Some(FailMessage(o.detail))
                            else old(saveError))
    {
      if !ExtOk(f.name) {
        saveError := Some("허용되지 않는 파일 형식입니다: " + f.name);
        return false;
      }
      if f.size > MaxAttachSize {
        saveError := Some("파일 크기는 10MB 이하여야 합니다: " + f.name);
        return false;
      }
      match o
      case UploadFailed(detail) =>
        saveError := Some(FailMessage(detail));
        return true;
      case Uploaded(id, originalName) =>
        if id.Some? && id.value > 0 {
          attachments := attachments + [Attachment(id.value, if originalName != [] then originalName else f.name)];
        }
        return false;
    }

    /** handleAttachmentSelect: the files are handled in turn until an upload
        fails. `outcomes[i]` is the answer for files[i]. */
    method SelectAttachments(files: seq<FileInfo>, outcomes: seq<UploadOutcome>)
      requires |outcomes| == |files|
      modifies this`attachments, this`saveError
      ensures var stop := FirstFailure(files, outcomes);
        attachments == old(attachments) + AddedAll(files[..stop], outcomes[..stop]) &&
        saveError == (if stop < |files| then Some(FailMessage(outcomes[stop].detail))
                      else SkipError(files, old(saveError)))
    {
      var i := 0;
      while i < |files|
        invariant 0 <= i <= |files|
        invariant FirstFailure(files, outcomes) >= i
        invariant attachments == old(attachments) + AddedAll(files[..i], outcomes[..i])
        invariant saveError == SkipError(files[..i], old(saveError))
      {
        ghost var before, errBefore := attachments, saveError;
        var stopped := AttachFile(files[i], outcomes[i]);
        if stopped {
          FirstFailureAt(files, outcomes, i);
          return;
        }
        SelectStep(files, outcomes, i, old(saveError), old(attachments), before, attachments, saveError);
        i := i + 1;
      }
      assert files[..i] == files && outcomes[..i] == outcomes;
    }
  }
}
