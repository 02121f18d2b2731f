// What the careers and projects routers share, written once: the date
// parser, the tag-id normaliser of the request body, the move of an uploaded
// image out of the temp folder, the file URL and the reorder assignment.
module AdminRecords {
  import opened Wrappers
  import opened Strings

  // ---------------------------------------------------------------------
  // _parse_date
  // ---------------------------------------------------------------------

  /** _parse_date: nothing for a missing or blank value; otherwise the first
      ten characters of the trimmed value, with a 'YYYY-MM' month completed
      to the first day. */
  function ParseDate(s: Option<string>): (r: Option<string>)
    ensures r.None? <==> s.None? || Trim(s.value) == []
    ensures r.Some? ==> 0 < |r.value| <= 10 && StartsWith(r.value, Take(Trim(s.value), 10))
    ensures r.Some? ==> var raw := Take(Trim(s.value), 10);
      r.value == (if |raw| == 7 && raw[4] == '-' then raw + "-01" else raw)
  {
    if s.None? || Trim(s.value) == [] then None
    else
      var raw := Take(Trim(s.value), 10);
      if |raw| == 7 && raw[4] == '-' then Some(raw + "-01") else Some(raw)
  }

  /** A 'YYYY-MM' month from a form is completed to its first day, and the
      completed date is stored as it is: the server and the form agree. */
  lemma ParseDateOfMonth(ym: string)
    requires |ym| == 7 && ym[4] == '-' && !IsSpace(ym[0]) && !IsSpace(ym[6])
    ensures ParseDate(Some(ym)) == Some(ym + "-01")
    ensures ParseDate(Some(ym + "-01")) == Some(ym + "-01")
  {
    TrimKeepsTrimmed(ym);
    var d := ym + "-01";
    assert d[0] == ym[0] && d[|d| - 1] == '1';
    TrimKeepsTrimmed(d);
  }

  // ---------------------------------------------------------------------
  // normalize_career_tags / normalize_project_tags
  // ---------------------------------------------------------------------

  /** One element of the tag list in the request body, before validation. */
  datatype TagInput = IntTag(n: int) | StrTag(s: string) | OtherTag

  /** The id an element contributes: a non-zero integer, or a string whose
      trimmed text is all digits (its value, zero included). */
  function KeptTag(x: TagInput): (r: Option<int>)
    ensures x.IntTag? ==> (r.Some? <==> x.n != 0) && (r.Some? ==> r.value == x.n)
    ensures x.StrTag? ==> (r.Some? <==> AllDigits(Trim(x.s)))
    ensures x.StrTag? && r.Some? ==> r.value == DigitsValue(Trim(x.s))
    ensures x.OtherTag? ==> r.None?
  {
    match x
    case IntTag(n) => if n != 0 then Some(n) else None
    case StrTag(s) =>
      var p := ParseDigitsTrimmed(s);
      if p.Some? then Some(p.value as int) else None
    case OtherTag => None
  }

  /** The normalised list, in input order: each element contributes its
      kept id, if any (NormalizedTagsConcat). */
  function NormalizedTags(v: seq<TagInput>): (r: seq<int>)
    ensures |r| <= |v|
    ensures |v| == 1 ==> r == (if KeptTag(v[0]).Some? then [KeptTag(v[0]).value] else [])
  {
    if v == [] then []
    else
      var init := NormalizedTags(v[..|v| - 1]);
      var kept := KeptTag(v[|v| - 1]);
      if kept.Some? then init + [kept.value] else init
  }

  /** The ids keep the input order: those of a + b are a's, then b's. */
  lemma {:induction false} NormalizedTagsConcat(a: seq<TagInput>, b: seq<TagInput>)
    ensures NormalizedTags(a + b) == NormalizedTags(a) + NormalizedTags(b)
    decreases |b|
  {
    if b == [] {
      assert a + b == a;
    } else {
      var k := |b| - 1;
      assert (a + b)[..|a + b| - 1] == a + b[..k];
      assert (a + b)[|a + b| - 1] == b[k];
      NormalizedTagsConcat(a, b[..k]);
    }
  }

  /** The validator's loop: each element that yields an id is appended. */
  method NormalizeTags(v: seq<TagInput>) returns (out: seq<int>)
    ensures out == NormalizedTags(v)
  {
    out := [];
    var i := 0;
    while i < |v|
      invariant 0 <= i <= |v|
      invariant out == NormalizedTags(v[..i])
    {
      assert v[..i + 1][..i] == v[..i];
      match v[i] {
        case IntTag(n) =>
          if n != 0 {
            out := out + [n];
          }
        case StrTag(s) =>
          var p := ParseDigitsTrimmed(s);
          if p.Some? {
            out := out + [p.value];
          }
        case OtherTag =>
      }
      i := i + 1;
    }
    assert v[..i] == v;
  }

  /** An id is in the normalised list exactly when some element yields it. */
  lemma {:induction false} NormalizedTagsMembers(v: seq<TagInput>, x: int)
    ensures x in NormalizedTags(v) <==> exists k :: 0 <= k < |v| && KeptTag(v[k]) == Some(x)
  {
    if v != [] {
      var k := |v| - 1;
      NormalizedTagsMembers(v[..k], x);
      if exists j :: 0 <= j < k && KeptTag(v[..k][j]) == Some(x) {
        var j :| 0 <= j < k && KeptTag(v[..k][j]) == Some(x);
        assert v[j] == v[..k][j];
      }
      if exists j :: 0 <= j < |v| && KeptTag(v[j]) == Some(x) {
        var j :| 0 <= j < |v| && KeptTag(v[j]) == Some(x);
        if j < k {
          assert v[..k][j] == v[j];
        }
      }
    }
  }

  /** The ids a form sends (non-zero integers) pass the validator unchanged. */
  lemma {:induction false} NormalizeKeepsFormIds(ids: seq<int>)
    requires forall i :: 0 <= i < |ids| ==> ids[i] != 0
    ensures NormalizedTags(seq(|ids|, i requires 0 <= i < |ids| => IntTag(ids[i]))) == ids
  {
    if ids != [] {
      var k := |ids| - 1;
      var v := seq(|ids|, i requires 0 <= i < |ids| => IntTag(ids[i]));
      var w := seq(k, i requires 0 <= i < k => IntTag(ids[..k][i]));
      assert v[..k] == w;
      NormalizeKeepsFormIds(ids[..k]);
      assert ids == ids[..k] + [ids[k]];
    }
  }

  // ---------------------------------------------------------------------
  // _relocate_temp_asset
  // ---------------------------------------------------------------------

  /** The stored path with backslashes turned into slashes. */
  function SlashPath(p: string): (r: string)
    ensures '\\' !in r && |r| == |p|
    ensures forall i :: 0 <= i < |p| ==> r[i] == (if p[i] == '\\' then '/' else p[i])
  {
    ReplaceChar(p, '\\', '/')
  }

  function TempFolder(folder: string): string
  {
    "images/" + folder + "/temp/"
  }

  function OwnerFolder(folder: string, ownerId: nat): string
  {
    "images/" + folder + "/" + NatToString(ownerId) + "/"
  }

  /** The new file_path _relocate_temp_asset writes for an asset, or None when
      it does nothing: no asset id, no asset row, a path outside the folder's
      temp directory, or no such file among `files` (the uploaded files, by
      path relative to the upload directory). `stored` is the asset row's
      file_path (None: no row; Some(None): a null path). */
  function RelocatedAsset(assetId: Option<int>, stored: Option<Option<string>>, files: set<string>,
                          folder: string, ownerId: nat): (r: Option<string>)
    ensures r.Some? ==> assetId.Some? && assetId.value != 0 && stored.Some?
    ensures r.Some? ==> StartsWith(r.value, OwnerFolder(folder, ownerId))
    ensures r.Some? ==>
      r.value == OwnerFolder(folder, ownerId) + AfterLast(SlashPath(Trim(stored.value.GetOr(""))), '/')
  {
    if assetId.None? || assetId.value == 0 || stored.None? then None
    else
      var fp := SlashPath(Trim(stored.value.GetOr("")));
      if !StartsWith(fp, TempFolder(folder)) || fp !in files then None
      else Some(OwnerFolder(folder, ownerId) + AfterLast(fp, '/'))
  }

  /** The asset is moved exactly when it has a non-zero id and a row whose
      path, trimmed and with slashes, is an uploaded file in the temp folder. */
  lemma RelocatedAssetWhen(assetId: Option<int>, stored: Option<Option<string>>, files: set<string>,
                           folder: string, ownerId: nat)
    ensures var fp := SlashPath(Trim(stored.GetOr(None).GetOr("")));
      RelocatedAsset(assetId, stored, files, folder, ownerId).Some? <==>
        assetId.Some? && assetId.value != 0 && stored.Some? &&
        StartsWith(fp, TempFolder(folder)) && fp in files
  {
    if assetId.Some? && assetId.value != 0 && stored.Some? {
      assert stored.GetOr(None) == stored.value;
    }
  }

  /** The relocated file keeps its name. */
  lemma RelocatedKeepsName(assetId: Option<int>, stored: Option<Option<string>>, files: set<string>,
                           folder: string, ownerId: nat)
    requires RelocatedAsset(assetId, stored, files, folder, ownerId).Some?
    ensures AfterLast(RelocatedAsset(assetId, stored, files, folder, ownerId).value, '/') ==
            AfterLast(SlashPath(Trim(stored.value.GetOr(""))), '/')
  {
    var fp := SlashPath(Trim(stored.value.GetOr("")));
    var dir := OwnerFolder(folder, ownerId);
    assert dir[|dir| - 1] == '/';
    AfterLastOfJoin(dir, AfterLast(fp, '/'));
  }

  /** A relocated path is no longer in the temp directory: relocating the
      asset again does nothing. */
  lemma RelocatedOnce(np: string, assetId: Option<int>, files: set<string>, folder: string, ownerId: nat)
    requires StartsWith(np, OwnerFolder(folder, ownerId))
    ensures RelocatedAsset(assetId, Some(Some(np)), files, folder, ownerId).None?
  {
    TrimmedOwnerPath(np, OwnerFolder(folder, ownerId), folder, ownerId);
  }

  /** The text after the last '/' of dir + name when dir ends with '/' and
      name has none. */
  lemma AfterLastOfJoin(dir: string, name: string)
    requires |dir| > 0 && dir[|dir| - 1] == '/' && '/' !in name
    ensures AfterLast(dir + name, '/') == name
  {
    var s := dir + name;
    assert s[|dir| - 1] == '/';
    assert s[|dir|..] == name;
    LastIndexOfUnique(s, '/', |dir| - 1);
  }

  /** Trimming a string that does not begin with a space only cuts its end. */
  lemma {:induction false} TrimPrefixOf(s: string)
    requires |s| > 0 && !IsSpace(s[0])
    ensures |Trim(s)| <= |s| && Trim(s) == s[..|Trim(s)|]
  {
    if IsSpace(s[|s| - 1]) {
      var u := s[..|s| - 1];
      assert u[0] == s[0];
      TrimPrefixOf(u);
      assert Trim(s) == Trim(u);
      assert u[..|Trim(u)|] == s[..|Trim(u)|];
    }
  }

  /** The relocated path, trimmed and slashed again, is not in the temp
      directory: the first character after "images/<folder>/" is a digit of
      the owner id there, where the temp directory has 't'. */
  lemma TrimmedOwnerPath(np: string, dir: string, folder: string, ownerId: nat)
    requires dir == OwnerFolder(folder, ownerId) && StartsWith(np, dir)
    ensures !StartsWith(SlashPath(Trim(np)), TempFolder(folder))
  {
    var k := |"images/" + folder + "/"|;
    var d := NatToString(ownerId);
    assert dir[0] == 'i' && dir[k] == d[0];
    TrimPrefixOf(np);
    var t := Trim(np);
    var sp := SlashPath(t);
    assert TempFolder(folder)[k] == 't';
    if |sp| > k {
      assert t[k] == np[k] == d[0];
      assert sp[k] == d[0];
    }
  }

  // ---------------------------------------------------------------------
  // _file_path_to_url
  // ---------------------------------------------------------------------

  /** The public URL of a stored file path: '/static/uploads/' and the path
      with slashes; nothing for a missing or empty path. */
  function FileUrl(fp: Option<string>): (r: Option<string>)
    ensures r.None? <==> fp.None? || fp.value == []
    ensures r.Some? ==> (StartsWith(r.value, "/static/uploads/") && '\\' !in r.value &&
                         |r.value| == |"/static/uploads/"| + |fp.value|)
    ensures r.Some? ==> r.value[..16] == "/static/uploads/"
    ensures r.Some? ==>
      forall i :: 0 <= i < |fp.value| ==> r.value[16 + i] == (if fp.value[i] == '\\' then '/' else fp.value[i])
  {
    if fp.None? || fp.value == [] then None
    else Some("/static/uploads/" + SlashPath(fp.value))
  }

  // ---------------------------------------------------------------------
  // reorder_careers / reorder_projects
  // ---------------------------------------------------------------------

  /** The sort_order each id receives from PATCH .../reorder: its position in
      id_order, the last one when it occurs twice; zero ids are skipped. */
  function Assignments(idOrder: seq<int>): (m: map<int, nat>)
    ensures forall k :: k in m <==> k != 0 && k in idOrder
    ensures forall k :: k in m ==> m[k] < |idOrder| && idOrder[m[k]] == k
  {
    if idOrder == [] then map[]
    else
      var last := |idOrder| - 1;
      var init := Assignments(idOrder[..last]);
      if idOrder[last] != 0 then init[idOrder[last] := last] else init
  }

  /** The reorder loop: one UPDATE per non-zero id, in order. */
  method ReorderAssignments(idOrder: seq<int>) returns (m: map<int, nat>)
    ensures m == Assignments(idOrder)
  {
    m := map[];
    var idx := 0;
    while idx < |idOrder|
      invariant 0 <= idx <= |idOrder|
      invariant m == Assignments(idOrder[..idx])
    {
      assert idOrder[..idx + 1][..idx] == idOrder[..idx];
      var cid := idOrder[idx];
      if cid != 0 {
        m := m[cid := idx];
      }
      idx := idx + 1;
    }
    assert idOrder[..idx] == idOrder;
  }

  /** An id that does not occur again later receives its own index; so with
      distinct ids every id receives exactly its position. */
  lemma {:induction false} AssignmentsAt(idOrder: seq<int>, i: nat)
    requires i < |idOrder| && idOrder[i] != 0 && idOrder[i] !in idOrder[i + 1..]
    ensures Assignments(idOrder)[idOrder[i]] == i
  {
    var last := |idOrder| - 1;
    var init := idOrder[..last];
    if i < last {
      assert init[i] == idOrder[i];
      assert init[i + 1..] == idOrder[i + 1..last];
      assert idOrder[last] == idOrder[i + 1..][last - i - 1];
      AssignmentsAt(init, i);
      var m := Assignments(init);
      assert Assignments(idOrder) == if idOrder[last] != 0 then m[idOrder[last] := last] else m;
    } else {
      assert Assignments(idOrder) == Assignments(init)[idOrder[last] := last];
    }
  }

  // ---------------------------------------------------------------------
  // The link rows of a career or project
  // ---------------------------------------------------------------------

  /** A link of the request body. */
  datatype LinkItem = LinkItem(name: string, url: string, sortOrder: int)

  /** A row of career_links / project_links. */
  datatype LinkRow = LinkRow(ownerId: nat, name: string, url: string, sortOrder: int)

  /** A link with a name and a URL (Python truthiness: empty strings are
      false; a blank one is kept). */
  predicate HasNameAndUrl(l: LinkItem)
  {
    l.name != [] && l.url != []
  }

  /** The row stored for such a link: trimmed, with its own sort_order. */
  function RowOf(ownerId: nat, l: LinkItem): LinkRow
  {
    LinkRow(ownerId, Trim(l.name), Trim(l.url), l.sortOrder)
  }

  /** The links that get a row, in order. */
  function KeptLinks(links: seq<LinkItem>): (r: seq<LinkItem>)
    ensures |r| <= |links|
    ensures forall i :: 0 <= i < |r| ==> HasNameAndUrl(r[i])
  {
    if links == [] then []
    else
      var k := |links| - 1;
      KeptLinks(links[..k]) + (if HasNameAndUrl(links[k]) then [links[k]] else [])
  }

  /** A link gets a row exactly when it has a name and a URL. */
  lemma {:induction false} KeptLinksMembers(links: seq<LinkItem>, x: LinkItem)
    ensures x in KeptLinks(links) <==> x in links && HasNameAndUrl(x)
  {
    if links != [] {
      var k := |links| - 1;
      KeptLinksMembers(links[..k], x);
      assert links == links[..k] + [links[k]];
    }
  }

  /** The rows inserted for the body's links, in order. */
  function LinkRows(ownerId: nat, links: seq<LinkItem>): (r: seq<LinkRow>)
    ensures |r| == |KeptLinks(links)|
    ensures forall i :: 0 <= i < |r| ==> r[i] == RowOf(ownerId, KeptLinks(links)[i])
  {
    var kept := KeptLinks(links);
    seq(|kept|, i requires 0 <= i < |kept| => RowOf(ownerId, kept[i]))
  }

  lemma LinkRowsStep(ownerId: nat, links: seq<LinkItem>, idx: nat)
    requires idx < |links|
    ensures LinkRows(ownerId, links[..idx + 1]) ==
      LinkRows(ownerId, links[..idx]) + (if HasNameAndUrl(links[idx]) then [RowOf(ownerId, links[idx])] else [])
  {
    assert links[..idx + 1][..idx] == links[..idx];
    var extra := if HasNameAndUrl(links[idx]) then [links[idx]] else [];
    var k1 := KeptLinks(links[..idx + 1]);
    var k0 := KeptLinks(links[..idx]);
    assert k1 == k0 + extra;
    var a := LinkRows(ownerId, links[..idx + 1]);
    var b := LinkRows(ownerId, links[..idx]) + (if HasNameAndUrl(links[idx]) then [RowOf(ownerId, links[idx])] else []);
    assert |a| == |b|;
    forall i | 0 <= i < |a| ensures a[i] == b[i] {
      assert a[i] == RowOf(ownerId, k1[i]);
      if i < |k0| {
        assert k1[i] == k0[i];
      } else {
        assert k1[i] == links[idx];
      }
    }
  }

  /** The link insert loop. */
  method CollectLinkRows(ownerId: nat, links: seq<LinkItem>) returns (rows: seq<LinkRow>)
    ensures rows == LinkRows(ownerId, links)
  {
    rows := [];
    var idx := 0;
    while idx < |links|
      invariant 0 <= idx <= |links|
      invariant rows == LinkRows(ownerId, links[..idx])
    {
      LinkRowsStep(ownerId, links, idx);
      var link := links[idx];
      if link.name != [] && link.url != [] {
        rows := rows + [RowOf(ownerId, link)];
      }
      idx := idx + 1;
    }
    assert links[..idx] == links;
  }

  /** The link rows left after deleting those of one owner. */
  function DropLinks(rows: seq<LinkRow>, id: nat): (r: seq<LinkRow>)
    ensures forall x :: x in r <==> x in rows && x.ownerId != id
  {
    if rows == [] then []
    else
      var k := |rows| - 1;
      assert rows == rows[..k] + [rows[k]];
      DropLinks(rows[..k], id) + (if rows[k].ownerId == id then [] else [rows[k]])
  }

  // ---------------------------------------------------------------------
  // The assets table under _relocate_temp_asset
  // ---------------------------------------------------------------------

  /** The file_path of the asset row an id names (None: no id or no row). */
  function StoredPath(paths: map<int, Option<string>>, assetId: Option<int>): Option<Option<string>>
  {
    if assetId.Some? && assetId.value in paths then Some(paths[assetId.value]) else None
  }

  /** assets.file_path by asset id after relocating one asset: only that
      asset's path can change, to the relocated path. */
  function Relocated(paths: map<int, Option<string>>, assetId: Option<int>, files: set<string>,
                     folder: string, ownerId: nat): (r: map<int, Option<string>>)
    ensures forall k :: k in r <==> k in paths
    ensures forall k :: k in paths && (assetId.None? || k != assetId.value) ==> r[k] == paths[k]
    ensures assetId.Some? && assetId.value in paths &&
            RelocatedAsset(assetId, Some(paths[assetId.value]), files, folder, ownerId).Some? ==>
              r[assetId.value] == RelocatedAsset(assetId, Some(paths[assetId.value]), files, folder, ownerId)
    ensures assetId.None? || assetId.value !in paths ||
            RelocatedAsset(assetId, Some(paths[assetId.value]), files, folder, ownerId).None? ==>
              r == paths
  {
    if assetId.None? || assetId.value !in paths then paths
    else
      var np := RelocatedAsset(assetId, Some(paths[assetId.value]), files, folder, ownerId);
      if np.Some? then
        UpdateKeepsOthers(paths, assetId.value, np);
        paths[assetId.value := np]
      else paths
  }

  /** Updating one key of a table keeps its keys and every other entry. */
  lemma UpdateKeepsOthers(paths: map<int, Option<string>>, key: int, v: Option<string>)
    requires key in paths
    ensures forall k :: k in paths[key := v] <==> k in paths
    ensures forall k :: k in paths && k != key ==> paths[key := v][k] == paths[k]
  {
  }

  /** Relocating is idempotent: a second pass finds the file already out of
      the temp folder and leaves the table as it is. */
  lemma RelocatedTwice(paths: map<int, Option<string>>, assetId: Option<int>, files: set<string>,
                       folder: string, ownerId: nat)
    ensures Relocated(Relocated(paths, assetId, files, folder, ownerId), assetId, files, folder, ownerId) ==
            Relocated(paths, assetId, files, folder, ownerId)
  {
    var once := Relocated(paths, assetId, files, folder, ownerId);
    if assetId.Some? && assetId.value in paths {
      var np := RelocatedAsset(assetId, Some(paths[assetId.value]), files, folder, ownerId);
      if np.Some? {
        RelocatedOnce(np.value, assetId, files, folder, ownerId);
        NothingToRelocate(once, assetId, Some(np.value), files, folder, ownerId);
      }
    }
  }

  /** A table whose entry for the asset is a path that does not relocate is
      left as it is. */
  lemma NothingToRelocate(paths: map<int, Option<string>>, assetId: Option<int>, fp: Option<string>,
                          files: set<string>, folder: string, ownerId: nat)
    requires assetId.Some? && assetId.value in paths && paths[assetId.value] == fp
    requires RelocatedAsset(assetId, Some(fp), files, folder, ownerId).None?
    ensures Relocated(paths, assetId, files, folder, ownerId) == paths
  {
  }
}
