// The list editors shared by the project form and the career form of the back
// office: links, tags, the link-name mapping, the link list sent on submit
// and the loop that turns tag names into tag ids.
module FormLists {
  import opened Wrappers
  import opened Strings

  /** One row of the link editor. */
  datatype EditLink = EditLink(name: string, url: string, sortOrder: int)

  /** The row a new link starts with. */
  function NewLink(position: nat): EditLink
  {
    EditLink("웹사이트", "", position)
  }

  // ---------------------------------------------------------------------
  // mapLinkName
  // ---------------------------------------------------------------------

  const LinkTypes: seq<string> := ["웹사이트", "깃허브", "인스타그램", "유튜브", "기타"]

  function MapLinkName(name: string): (r: string)
    ensures r in LinkTypes
    ensures name in LinkTypes ==> r == name
    ensures name !in LinkTypes ==> r == "기타"
  {
    if name in LinkTypes then name else "기타"
  }

  /** A stored link name that is one of the link types survives loading, any
      other becomes '기타', and mapping twice changes nothing more. */
  lemma MapLinkNameIdempotent(name: string)
    ensures MapLinkName(MapLinkName(name)) == MapLinkName(name)
  {
  }

  /** A link as the list endpoints return it (null fields are None). */
  datatype StoredLink = StoredLink(name: Option<string>, url: Option<string>, sortOrder: Option<int>)

  /** A stored link as a row of the editor: its name mapped to a link type,
      a missing URL empty and a missing position 0. */
  function EditLinkOf(l: StoredLink): (r: EditLink)
    ensures r.name in LinkTypes && r.url == l.url.GetOr("")
  {
    EditLink(MapLinkName(l.name.GetOr("")), l.url.GetOr(""), l.sortOrder.GetOr(0))
  }

  /** A present, non-empty string (JavaScript truthiness of a string). */
  predicate Truthy(s: Option<string>)
  {
    s.Some? && s.value != []
  }

  // ---------------------------------------------------------------------
  // Index-based list edits
  // ---------------------------------------------------------------------

  /** `.filter((_, i) => i !== idx)`. */
  function RemoveIndex<T>(s: seq<T>, idx: int): (r: seq<T>)
    ensures 0 <= idx < |s| ==> |r| == |s| - 1
    ensures !(0 <= idx < |s|) ==> r == s
  {
    if s == [] then []
    else
      var init := RemoveIndex(s[..|s| - 1], idx);
      if idx == |s| - 1 then init else init + [s[|s| - 1]]
  }

  /** Removing by index drops exactly that element and keeps the order of
      the others. */
  lemma {:induction false} RemoveIndexIsSplice<T>(s: seq<T>, idx: int)
    requires 0 <= idx < |s|
    ensures RemoveIndex(s, idx) == s[..idx] + s[idx + 1..]
  {
    var init := s[..|s| - 1];
    if idx == |s| - 1 {
      assert s[..idx] + s[idx + 1..] == init;
    } else {
      RemoveIndexIsSplice(init, idx);
      assert init[..idx] == s[..idx];
      assert init[idx + 1..] + [s[|s| - 1]] == s[idx + 1..];
    }
  }

  /** Every element of RemoveIndex comes from the list. */
  lemma RemoveIndexSubset<T>(s: seq<T>, idx: int)
    ensures forall x :: x in RemoveIndex(s, idx) ==> x in s
  {
    if 0 <= idx < |s| {
      RemoveIndexIsSplice(s, idx);
      assert forall x :: x in s[..idx] + s[idx + 1..] ==> x in s;
    }
  }

  /** addLink with a cap of five rows. */
  function AddLink(links: seq<EditLink>): (r: seq<EditLink>)
    ensures |links| >= 5 ==> r == links
    ensures |links| < 5 ==> r == links + [NewLink(|links|)]
  {
    if |links| >= 5 then links else links + [NewLink(|links|)]
  }

  datatype LinkField = LinkName | LinkUrl

  /** updateLink: one field of one row. */
  function UpdateLink(links: seq<EditLink>, idx: int, field: LinkField, value: string): (r: seq<EditLink>)
    ensures |r| == |links|
    ensures forall i :: 0 <= i < |links| && i != idx ==> r[i] == links[i]
    ensures 0 <= idx < |links| ==>
      r[idx].sortOrder == links[idx].sortOrder &&
      (field == LinkName ==> r[idx].name == value && r[idx].url == links[idx].url) &&
      (field == LinkUrl ==> r[idx].url == value && r[idx].name == links[idx].name)
  {
    seq(|links|, i requires 0 <= i < |links| =>
      if i != idx then links[i]
      else if field == LinkName then links[i].(name := value)
      else links[i].(url := value))
  }

  /** Whatever the sequence of add, remove and update, a link list of at
      most five rows stays at most five rows. */
  lemma LinkEditsKeepCap(links: seq<EditLink>, idx: int, field: LinkField, value: string)
    requires |links| <= 5
    ensures |AddLink(links)| <= 5
    ensures |RemoveIndex(links, idx)| <= 5
    ensures |UpdateLink(links, idx, field, value)| <= 5
  {
  }

  // ---------------------------------------------------------------------
  // addTag
  // ---------------------------------------------------------------------

  /** addTag(name) with the form's cap: the tag list and the tag input after
      the call. A blank name changes nothing; otherwise the input is cleared,
      and the trimmed name is appended unless the cap is reached or it is
      already there. */
  function AddTag(tags: seq<string>, input: string, cap: nat): (r: (seq<string>, string))
    ensures Trim(input) == [] ==> r == (tags, input)
    ensures Trim(input) != [] ==>
      (r.1 == [] && r.0 == (if |tags| >= cap || Trim(input) in tags then tags else tags + [Trim(input)]))
  {
    var n := Trim(input);
    if n == [] then (tags, input)
    else if |tags| >= cap || n in tags then (tags, [])
    else (tags + [n], [])
  }

  /** The tag list of a form: at most `cap` tags, each trimmed and non-blank,
      no tag twice. */
  predicate TagsOk(tags: seq<string>, cap: nat)
  {
    |tags| <= cap && TagsTrimmed(tags) && TagsDistinct(tags)
  }

  predicate TagsTrimmed(tags: seq<string>)
  {
    forall i :: 0 <= i < |tags| ==> tags[i] != [] && Trim(tags[i]) == tags[i]
  }

  predicate TagsDistinct(tags: seq<string>)
  {
    forall i, j :: 0 <= i < j < |tags| ==> tags[i] != tags[j]
  }

  lemma AddTagKeepsTags(tags: seq<string>, input: string, cap: nat)
    requires TagsOk(tags, cap)
    ensures TagsOk(AddTag(tags, input, cap).0, cap)
  {
    var n := Trim(input);
    if n != [] && |tags| < cap && n !in tags {
      TrimIdempotent(input);
      assert AddTag(tags, input, cap).0 == tags + [n];
      TrimmedSnoc(tags, n);
      DistinctSnoc(tags, n);
    }
  }

  lemma TrimmedSnoc(tags: seq<string>, n: string)
    requires TagsTrimmed(tags) && n != [] && Trim(n) == n
    ensures TagsTrimmed(tags + [n])
  {
    var t := tags + [n];
    forall i | 0 <= i < |t| ensures t[i] != [] && Trim(t[i]) == t[i] {
      if i < |tags| {
        assert t[i] == tags[i];
      }
    }
  }

  lemma DistinctSnoc(tags: seq<string>, n: string)
    requires TagsDistinct(tags) && n !in tags
    ensures TagsDistinct(tags + [n])
  {
    var t := tags + [n];
    forall i, j | 0 <= i < j < |t| ensures t[i] != t[j] {
      assert t[i] == tags[i];
      if j < |tags| {
        assert t[j] == tags[j];
      }
    }
  }

  lemma RemoveTagKeepsTags(tags: seq<string>, idx: int, cap: nat)
    requires TagsOk(tags, cap)
    ensures TagsOk(RemoveIndex(tags, idx), cap)
  {
    if 0 <= idx < |tags| {
      TrimmedRemove(tags, idx);
      DistinctRemove(tags, idx);
    }
  }

  /** Element i of the list with index idx removed. */
  lemma RemoveIndexAt<T>(s: seq<T>, idx: int, i: nat)
    requires 0 <= idx < |s| && i < |s| - 1
    ensures RemoveIndex(s, idx)[i] == s[if i < idx then i else i + 1]
  {
    RemoveIndexIsSplice(s, idx);
  }

  lemma TrimmedRemove(tags: seq<string>, idx: int)
    requires TagsTrimmed(tags) && 0 <= idx < |tags|
    ensures TagsTrimmed(RemoveIndex(tags, idx))
  {
    var r := RemoveIndex(tags, idx);
    forall i | 0 <= i < |r| ensures r[i] != [] && Trim(r[i]) == r[i] {
      RemoveIndexAt(tags, idx, i);
    }
  }

  lemma DistinctRemove(tags: seq<string>, idx: int)
    requires TagsDistinct(tags) && 0 <= idx < |tags|
    ensures TagsDistinct(RemoveIndex(tags, idx))
  {
    var r := RemoveIndex(tags, idx);
    forall i, j | 0 <= i < j < |r| ensures r[i] != r[j] {
      RemoveIndexAt(tags, idx, i);
      RemoveIndexAt(tags, idx, j);
    }
  }

  /** The first index of `x`, -1 when absent (Array.prototype.indexOf). */
  function IndexOfElem<T(==)>(s: seq<T>, x: T): (r: int)
    ensures -1 <= r < |s|
    ensures r >= 0 ==> s[r] == x && x !in s[..r]
    ensures r == -1 ==> x !in s
  {
    if s == [] then -1
    else if s[0] == x then 0
    else
      var k := IndexOfElem(s[1..], x);
      assert s[1..] == s[1..][..] && (k >= 0 ==> s[..k + 1] == [s[0]] + s[1..][..k]);
      if k < 0 then -1 else k + 1
  }

  // ---------------------------------------------------------------------
  // The link list of the submit payload
  // ---------------------------------------------------------------------

  predicate Filled(l: EditLink)
  {
    Trim(l.name) != [] && Trim(l.url) != []
  }

  /** `.filter((l) => l.link_name?.trim() && l.link_url?.trim())`. */
  function KeepFilled(links: seq<EditLink>): (r: seq<EditLink>)
    ensures |r| <= |links|
    ensures forall i :: 0 <= i < |r| ==> Filled(r[i])
    ensures |links| == 1 ==> r == (if Filled(links[0]) then links else [])
  {
    if links == [] then []
    else
      var init := KeepFilled(links[..|links| - 1]);
      if Filled(links[|links| - 1]) then init + [links[|links| - 1]] else init
  }

  /** `.map((l, i) => ({ trimmed name, trimmed url, sort_order: i }))`. */
  function Reindex(links: seq<EditLink>): (r: seq<EditLink>)
    ensures |r| == |links|
    ensures forall i :: 0 <= i < |r| ==>
      r[i] == EditLink(Trim(links[i].name), Trim(links[i].url), i)
  {
    seq(|links|, i requires 0 <= i < |links| => EditLink(Trim(links[i].name), Trim(links[i].url), i))
  }

  /** The links sent on submit: the filled rows, the first five of them,
      trimmed and numbered 0..k-1. */
  function PayloadLinks(links: seq<EditLink>): seq<EditLink>
  {
    Reindex(Take(KeepFilled(links), 5))
  }

  /** The payload links are at most five, numbered by position, with trimmed
      non-blank names and URLs, and they are the first filled rows in order:
      all of them when there are at most five. */
  lemma PayloadLinksShape(links: seq<EditLink>)
    ensures var r := PayloadLinks(links);
      |r| <= 5 &&
      |r| == (if |KeepFilled(links)| <= 5 then |KeepFilled(links)| else 5) &&
      (forall i :: 0 <= i < |r| ==>
        r[i].sortOrder == i &&
        r[i].name != [] && Trim(r[i].name) == r[i].name &&
        r[i].url != [] && Trim(r[i].url) == r[i].url &&
        r[i].name == Trim(KeepFilled(links)[i].name) && r[i].url == Trim(KeepFilled(links)[i].url))
  {
    var f := KeepFilled(links);
    var t := Take(f, 5);
    forall i | 0 <= i < |t| ensures Trim(Trim(t[i].name)) == Trim(t[i].name) && Trim(Trim(t[i].url)) == Trim(t[i].url) {
      TrimIdempotent(t[i].name);
      TrimIdempotent(t[i].url);
    }
  }

  /** Every filled row is kept, in order: when all rows are filled the
      filter returns them all. */
  lemma {:induction false} KeepFilledKeepsFilled(links: seq<EditLink>)
    requires forall i :: 0 <= i < |links| ==> Filled(links[i])
    ensures KeepFilled(links) == links
  {
    if links != [] {
      var init, last := links[..|links| - 1], links[|links| - 1];
      FrontLast(links);
      forall i | 0 <= i < |init| ensures Filled(init[i]) {
        assert init[i] == links[i];
      }
      KeepFilledKeepsFilled(init);
    }
  }

  /** Filtering a concatenation filters each part: with the singleton case
      this fixes which rows are kept and their order. */
  lemma {:induction false} KeepFilledConcat(a: seq<EditLink>, b: seq<EditLink>)
    ensures KeepFilled(a + b) == KeepFilled(a) + KeepFilled(b)
    decreases |b|
  {
    if b == [] {
      assert a + b == a;
    } else {
      var init, last := b[..|b| - 1], b[|b| - 1];
      assert b == init + [last];
      assert (a + b)[..|a + b| - 1] == a + init;
      assert (a + b)[|a + b| - 1] == last;
      KeepFilledConcat(a, init);
    }
  }

  /** The filter keeps only rows of the list. */
  lemma {:induction false} KeepFilledSubset(links: seq<EditLink>)
    ensures forall l :: l in KeepFilled(links) ==> l in links
  {
    if links != [] {
      var init, last := links[..|links| - 1], links[|links| - 1];
      assert links == init + [last];
      KeepFilledSubset(init);
    }
  }

  // ---------------------------------------------------------------------
  // Tag names to tag ids
  // ---------------------------------------------------------------------

  /** The ids collected from the tag answers: `answers[k]` is the id in the
      answer of POST /api/tags for tags[k] (no request is sent for a blank
      name, so its answer is never read); a missing or zero id is dropped. */
  function TagIds(tags: seq<string>, answers: seq<Option<int>>): (r: seq<int>)
    requires |answers| == |tags|
    ensures |r| <= |tags|
    ensures forall i :: 0 <= i < |r| ==> r[i] != 0
  {
    if tags == [] then []
    else
      var k := |tags| - 1;
      var init := TagIds(tags[..k], answers[..k]);
      if Trim(tags[k]) != [] && answers[k].Some? && answers[k].value != 0 then init + [answers[k].value]
      else init
  }

  lemma TagIdsStep(tags: seq<string>, answers: seq<Option<int>>, i: nat)
    requires |answers| == |tags| && i < |tags|
    ensures TagIds(tags[..i + 1], answers[..i + 1]) ==
      TagIds(tags[..i], answers[..i]) +
      (if Trim(tags[i]) != [] && answers[i].Some? && answers[i].value != 0 then [answers[i].value] else [])
  {
    assert tags[..i + 1][..i] == tags[..i] && answers[..i + 1][..i] == answers[..i];
  }

  /** The tag loop of handleSubmit: each non-blank name is sent in turn and a
      non-zero id in the answer is kept. */
  method CollectTagIds(tags: seq<string>, answers: seq<Option<int>>) returns (ids: seq<int>)
    requires |answers| == |tags|
    ensures ids == TagIds(tags, answers)
  {
    ids := [];
    var i := 0;
    while i < |tags|
      invariant 0 <= i <= |tags|
      invariant ids == TagIds(tags[..i], answers[..i])
    {
      TagIdsStep(tags, answers, i);
      var n := Trim(tags[i]);
      if n != [] {
        var answer := answers[i];
        if answer.Some? && answer.value != 0 {
          ids := ids + [answer.value];
        }
      }
      i := i + 1;
    }
    assert tags[..i] == tags && answers[..i] == answers;
  }

  /** Every collected id is the answer for a non-blank tag. (The order of
      the ids is the tags' order by TagIds' definition, which CollectTagIds
      follows step by step.) */
  lemma {:induction false} TagIdsFromAnswers(tags: seq<string>, answers: seq<Option<int>>)
    requires |answers| == |tags|
    ensures forall x :: x in TagIds(tags, answers) ==>
      exists k :: 0 <= k < |tags| && Trim(tags[k]) != [] && answers[k] == Some(x)
  {
    if tags != [] {
      var k := |tags| - 1;
      TagIdsFromAnswers(tags[..k], answers[..k]);
      forall x | x in TagIds(tags, answers)
        ensures exists j :: 0 <= j < |tags| && Trim(tags[j]) != [] && answers[j] == Some(x)
      {
        if x in TagIds(tags[..k], answers[..k]) {
          var j :| 0 <= j < k && Trim(tags[..k][j]) != [] && answers[..k][j] == Some(x);
          assert tags[j] == tags[..k][j] && answers[j] == answers[..k][j];
        } else {
          assert Trim(tags[k]) != [] && answers[k] == Some(x);
        }
      }
    }
  }
}
