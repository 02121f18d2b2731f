// The asset endpoints: the upload checks (extension whitelist, content
// type, size), where an upload is stored and under which URL, and the
// download's Content-Disposition header (section 3.2 of RFC 5987: an ASCII
// fallback name plus the UTF-8 percent-encoded name).
module Assets {
  import opened Wrappers
  import opened Strings

  const MaxFileSize := 10 * 1024 * 1024
  const Octet := "application/octet-stream"

  const ImageTypes: set<string> := {"image/jpeg", "image/jpg", "image/png", "image/gif", "image/webp"}
  const DocumentTypes: set<string> := {
    "application/pdf",
    "application/vnd.ms-powerpoint",
    "application/vnd.openxmlformats-officedocument.presentationml.presentation",
    "application/x-hwp",
    "application/octet-stream",
    "application/vnd.openxmlformats-officedocument.wordprocessingml.document"}
  const AllowedTypes: set<string> := ImageTypes + DocumentTypes

  const ImageExtensions: set<string> := {"png", "jpg", "jpeg", "gif", "webp"}
  const AllowedExtensions: set<string> := {"png", "jpg", "jpeg", "gif", "webp", "pdf", "ppt", "pptx", "hwp", "hwpx", "docx"}

  const BadExtension := "허용되지 않는 파일 형식입니다. (허용: png, jpg, jpeg, gif, webp, pdf, ppt, pptx, hwp, hwpx, docx)"
  const BadType := "허용되지 않는 파일 형식입니다."
  const TooLarge := "파일 크기는 10MB 이하여야 합니다."
  const NotFound := "파일을 찾을 수 없습니다."
  const NoPath := "파일 경로가 없습니다."
  const NoFile := "파일이 존재하지 않습니다."

  // ---------------------------------------------------------------------
  // Upload checks
  // ---------------------------------------------------------------------

  /** _get_ext: the last '.'-piece in lower case, '' unless whitelisted. */
  function GetExt(filename: string): (r: string)
    ensures r == [] || r in AllowedExtensions
    ensures r != [] ==> r == Lower(AfterLast(filename, '.'))
    ensures Lower(AfterLast(filename, '.')) in AllowedExtensions ==> r != []
  {
    NoEmptyExtension();
    var e := Lower(AfterLast(filename, '.'));
    if e in AllowedExtensions then e else []
  }

  lemma NoEmptyExtension()
    ensures [] !in AllowedExtensions
  {
  }

  /** 'stem.e' has extension e (lower-cased) when that is whitelisted. */
  lemma GetExtOfName(stem: string, e: string)
    requires '.' !in e
    ensures GetExt(stem + "." + e) == (if Lower(e) in AllowedExtensions then Lower(e) else [])
  {
    var s := stem + "." + e;
    assert s[|stem|] == '.' && s[|stem| + 1..] == e;
    AfterLastSuffix(s, '.', |stem|);
  }

  /** A name without '.' is its own extension. */
  lemma GetExtWithoutDot(name: string)
    requires '.' !in name
    ensures GetExt(name) == (if Lower(name) in AllowedExtensions then Lower(name) else [])
  {
  }

  predicate IsImageExt(ext: string)
  {
    ext in ImageExtensions
  }

  /** The content-type test as written: rejected when non-empty, not
      allowed, and not the octet-stream exemption for hwp/hwpx. */
  predicate TypeAccepted(contentType: string, ext: string)
  {
    !(contentType != [] && contentType !in AllowedTypes &&
      (contentType != Octet || ext !in {"hwp", "hwpx"}))
  }

  /** Octet-stream is itself allowed, so the exemption never decides. */
  lemma OctetExemptionRedundant(contentType: string, ext: string)
    ensures TypeAccepted(contentType, ext) <==> contentType == [] || contentType in AllowedTypes
  {
    assert Octet in AllowedTypes;
  }

  /** The 400 an upload gets, if any: the extension first, then the type. */
  function UploadProblem(filename: string, contentType: string): (r: Option<string>)
    ensures GetExt(filename) == [] <==> r == Some(BadExtension)
    ensures GetExt(filename) != [] ==> (r.None? <==> contentType == [] || contentType in AllowedTypes)
    ensures r.Some? ==> r == Some(BadExtension) || r == Some(BadType)
  {
    var ext := GetExt(filename);
    OctetExemptionRedundant(contentType, ext);
    if ext == [] then Some(BadExtension)
    else if !TypeAccepted(contentType, ext) then Some(BadType)
    else None
  }

  // ---------------------------------------------------------------------
  // Where an upload goes
  // ---------------------------------------------------------------------

  /** `(post_id or "temp").strip() or "temp"` ('temp' has no spaces to
      strip). */
  function PostFolder(postId: Option<string>): (r: string)
    ensures r != []
    ensures postId.None? || IsBlank(postId.value) ==> r == "temp"
    ensures postId.Some? && !IsBlank(postId.value) ==> r == Trim(postId.value)
  {
    if postId.None? then "temp"
    else
      var p := Trim(postId.value);
      if p == [] then "temp" else p
  }

  /** The day of the upload (the clock is a parameter). */
  datatype Day = Day(year: string, month: string, day: string)

  /** The directory under the uploads root, ending in '/'. */
  function Directory(folder: Option<string>, ext: string, today: Day): (r: string)
    ensures r != [] && r[|r| - 1] == '/'
  {
    if folder == Some("projects") then "images/projects/"
    else if folder == Some("careers") then "images/careers/"
    else (if IsImageExt(ext) then "images/posts/" else "documents/") + DayPath(today)
  }

  /** Projects and careers get their own folders; everything else is filed
      by day, images apart from documents. */
  lemma DirectoryCases(folder: Option<string>, ext: string, today: Day)
    ensures folder == Some("projects") ==> Directory(folder, ext, today) == "images/projects/"
    ensures folder == Some("careers") ==> Directory(folder, ext, today) == "images/careers/"
    ensures folder != Some("projects") && folder != Some("careers") ==>
      Directory(folder, ext, today) == (if IsImageExt(ext) then "images/posts/" else "documents/") + DayPath(today)
  {
  }

  /** 'YYYY/MM/DD/'. */
  function DayPath(today: Day): string
  {
    today.year + "/" + today.month + "/" + today.day + "/"
  }

  /** `uuid.uuid4().hex`: 32 lower-case hexadecimal digits. */
  predicate IsUuidHex(h: string)
  {
    |h| == 32 && forall k :: 0 <= k < |h| ==> ('0' <= h[k] <= '9' || 'a' <= h[k] <= 'f')
  }

  /** The stored file name: the first 12 hex digits of a fresh UUID, a '.'
      and the extension. */
  function StoredName(uuidHex: string, ext: string): (r: string)
    requires IsUuidHex(uuidHex)
    ensures |r| == 13 + |ext|
    ensures r[..12] == uuidHex[..12] && r[12] == '.' && r[13..] == ext
    ensures forall k :: 0 <= k < 12 ==> ('0' <= r[k] <= '9' || 'a' <= r[k] <= 'f')
  {
    uuidHex[..12] + "." + ext
  }

  /** The path relative to the uploads root. */
  function RelPath(folder: Option<string>, pid: string, name: string, today: Day, ext: string): (r: string)
  {
    Directory(folder, ext, today) + pid + "/" + name
  }

  /** The file name is the path's last segment, directly under the post
      folder. */
  lemma RelPathEndsInName(folder: Option<string>, pid: string, name: string, today: Day, ext: string)
    requires '/' !in name
    ensures var r := RelPath(folder, pid, name, today, ext);
      AfterLast(r, '/') == name && r[..|r| - |name| - 1] == Directory(folder, ext, today) + pid
  {
    var d := Directory(folder, ext, today);
    var r := RelPath(folder, pid, name, today, ext);
    var k := |d| + |pid|;
    assert r == (d + pid) + ['/'] + name;
    assert r[k] == '/' && r[k + 1..] == name && r[..k] == d + pid;
    LastIndexOfUnique(r, '/', k);
  }

  /** '/static/uploads/' and the path with '\' turned into '/'. */
  function UploadUrl(rel: string): (r: string)
    ensures StartsWith(r, "/static/uploads/") && |r| == 16 + |rel|
    ensures forall i :: 0 <= i < |rel| ==> r[16 + i] == (if rel[i] == '\\' then '/' else rel[i])
    ensures '\\' !in r
    ensures '\\' !in rel ==> r == "/static/uploads/" + rel
  {
    var p := ReplaceChar(rel, '\\', '/');
    assert '\\' !in rel ==> p == rel;
    "/static/uploads/" + p
  }

  // ---------------------------------------------------------------------
  // Content-Disposition
  // ---------------------------------------------------------------------

  type Byte = b: int | 0 <= b < 256

  /** The UTF-8 encoding of one code point. */
  function Utf8(c: char): (r: seq<Byte>)
    ensures 1 <= |r| <= 4
    ensures |r| == 1 <==> (c as int) < 0x80
    ensures |r| == 2 <==> 0x80 <= (c as int) < 0x800
    ensures |r| == 3 <==> 0x800 <= (c as int) < 0x10000
    ensures |r| == 4 <==> 0x10000 <= (c as int)
    ensures |r| == 1 ==> r[0] == c as int
    ensures |r| == 2 ==> 0xC0 <= r[0] < 0xE0
    ensures |r| == 3 ==> 0xE0 <= r[0] < 0xF0
    ensures |r| == 4 ==> 0xF0 <= r[0] < 0xF8
    ensures |r| > 1 ==> forall k :: 1 <= k < |r| ==> 0x80 <= r[k] < 0xC0
  {
    var n := c as int;
    var q1, r0 := n / 64, n % 64;
    var q2, r1 := q1 / 64, q1 % 64;
    var q3, r2 := q2 / 64, q2 % 64;
    if n < 0x80 then [n]
    else if n < 0x800 then [0xC0 + q1, 0x80 + r0]
    else if n < 0x10000 then [0xE0 + q2, 0x80 + r1, 0x80 + r0]
    else [0xF0 + q3, 0x80 + r2, 0x80 + r1, 0x80 + r0]
  }

  /** The code point a one- to four-byte UTF-8 sequence stands for. */
  function CodePoint(bs: seq<Byte>): int
    requires 1 <= |bs| <= 4
  {
    var b := seq(|bs|, k requires 0 <= k < |bs| => bs[k] as int);
    if |b| == 1 then b[0]
    else if |b| == 2 then ((b[0] - 0xC0) * 64) + (b[1] - 0x80)
    else if |b| == 3 then (((b[0] - 0xE0) * 64) + (b[1] - 0x80)) * 64 + (b[2] - 0x80)
    else (((((b[0] - 0xF0) * 64) + (b[1] - 0x80)) * 64) + (b[2] - 0x80)) * 64 + (b[3] - 0x80)
  }

  /** Decoding gives the code point back. */
  lemma Utf8Decodes(c: char)
    ensures CodePoint(Utf8(c)) == c as int
  {
    var n := c as int;
    var q1, r0 := n / 64, n % 64;
    var q2, r1 := q1 / 64, q1 % 64;
    var q3, r2 := q2 / 64, q2 % 64;
    assert n == q1 * 64 + r0 && q1 == q2 * 64 + r1 && q2 == q3 * 64 + r2;
  }

  /** The UTF-8 encoding of a string. */
  function Utf8Bytes(s: string): (r: seq<Byte>)
    ensures |r| >= |s|
    ensures |s| == 1 ==> r == Utf8(s[0])
  {
    if s == [] then [] else Utf8(s[0]) + Utf8Bytes(s[1..])
  }

  /** A string is encoded character by character: the bytes of a + b are
      those of a, then those of b. */
  lemma {:induction false} Utf8BytesConcat(a: string, b: string)
    ensures Utf8Bytes(a + b) == Utf8Bytes(a) + Utf8Bytes(b)
  {
    if a == [] {
      assert a + b == b;
    } else {
      assert (a + b)[0] == a[0];
      assert (a + b)[1..] == a[1..] + b;
      Utf8BytesConcat(a[1..], b);
    }
  }

  /** The characters urllib's quote never escapes. */
  predicate Unreserved(c: char)
  {
    ('A' <= c <= 'Z') || ('a' <= c <= 'z') || ('0' <= c <= '9') || c == '_' || c == '.' || c == '-' || c == '~'
  }

  function HexDigit(d: nat): (c: char)
    requires d < 16
    ensures Unreserved(c)
  {
    if d < 10 then ('0' as int + d) as char else ('A' as int + d - 10) as char
  }

  function HexValue(c: char): (r: Option<nat>)
    ensures r.Some? ==> r.value < 16
  {
    if '0' <= c <= '9' then Some(c as int - '0' as int)
    else if 'A' <= c <= 'F' then Some(c as int - 'A' as int + 10)
    else None
  }

  lemma HexRoundTrip(d: nat)
    requires d < 16
    ensures HexValue(HexDigit(d)) == Some(d)
  {
  }

  /** One byte: kept when it is an unreserved ASCII character, else '%XX'. */
  function EscapeByte(b: Byte): (r: string)
    ensures |r| == 1 || |r| == 3
    ensures |r| == 1 <==> b < 128 && Unreserved(b as char)
    ensures forall k :: 0 <= k < |r| ==> Unreserved(r[k]) || r[k] == '%'
  {
    if b < 128 && Unreserved(b as char) then [b as char]
    else ['%', HexDigit(b / 16), HexDigit(b % 16)]
  }

  function EscapeBytes(bs: seq<Byte>): (r: string)
    ensures forall k :: 0 <= k < |r| ==> Unreserved(r[k]) || r[k] == '%'
  {
    if bs == [] then [] else EscapeByte(bs[0]) + EscapeBytes(bs[1..])
  }

  /** `quote(name, safe="")`. */
  function PercentEncode(s: string): (r: string)
    ensures forall k :: 0 <= k < |r| ==> Unreserved(r[k]) || r[k] == '%'
  {
    EscapeBytes(Utf8Bytes(s))
  }

  /** The bytes a percent-encoded text stands for (None for a text quote
      could not have produced). */
  function PercentDecode(s: string): (r: Option<seq<Byte>>)
    decreases |s|
  {
    if s == [] then Some([])
    else if s[0] == '%' then
      if |s| >= 3 && HexValue(s[1]).Some? && HexValue(s[2]).Some? then
        match PercentDecode(s[3..])
        case Some(rest) => Some([HexValue(s[1]).value * 16 + HexValue(s[2]).value] + rest)
        case None => None
      else None
    else if (s[0] as int) < 128 && Unreserved(s[0]) then
      match PercentDecode(s[1..])
      case Some(rest) => Some([s[0] as int] + rest)
      case None => None
    else None
  }

  /** The escape of one byte is read back as that byte. */
  lemma DecodeEscapeByte(b: Byte, rest: string)
    ensures PercentDecode(EscapeByte(b) + rest) ==
      match PercentDecode(rest) case Some(t) => Some([b] + t) case None => None
  {
    var e := EscapeByte(b);
    var s := e + rest;
    if |e| == 1 {
      assert s[0] == b as char && s[1..] == rest;
    } else {
      HexRoundTrip(b / 16);
      HexRoundTrip(b % 16);
      assert s[0] == '%' && s[1] == HexDigit(b / 16) && s[2] == HexDigit(b % 16) && s[3..] == rest;
    }
  }

  lemma {:induction false} DecodeEscapeBytes(bs: seq<Byte>)
    ensures PercentDecode(EscapeBytes(bs)) == Some(bs)
  {
    if bs != [] {
      DecodeEscapeBytes(bs[1..]);
      DecodeEscapeByte(bs[0], EscapeBytes(bs[1..]));
      assert [bs[0]] + bs[1..] == bs;
    }
  }

  /** The encoded name decodes to exactly the UTF-8 bytes of the name. */
  lemma PercentRoundTrip(s: string)
    ensures PercentDecode(PercentEncode(s)) == Some(Utf8Bytes(s))
  {
    DecodeEscapeBytes(Utf8Bytes(s));
  }

  /** A name of unreserved ASCII characters is sent as it is. */
  lemma {:induction false} UnreservedUnchanged(s: string)
    requires forall k :: 0 <= k < |s| ==> (s[k] as int) < 128 && Unreserved(s[k])
    ensures PercentEncode(s) == s
  {
    if s != [] {
      UnreservedUnchanged(s[1..]);
      assert [s[0]] + s[1..] == s;
    }
  }

  /** `encode("ascii", "replace")`: every non-ASCII character becomes '?'. */
  function AsciiReplace(s: string): (r: string)
    ensures |r| == |s|
    ensures forall k :: 0 <= k < |r| ==> (r[k] as int) < 128
    ensures forall k :: 0 <= k < |s| ==> (s[k] as int < 128 ==> r[k] == s[k]) && (s[k] as int >= 128 ==> r[k] == '?')
  {
    seq(|s|, k requires 0 <= k < |s| => if (s[k] as int) < 128 then s[k] else '?')
  }

  function AsciiFallback(name: string): (r: string)
    ensures r != []
    ensures name == [] ==> r == "download"
    ensures name != [] ==> r == AsciiReplace(name)
  {
    var a := AsciiReplace(name);
    if a == [] then "download" else a
  }

  function ContentDisposition(name: string): (r: string)
  {
    "attachment; filename=\"" + AsciiFallback(name) + "\"; filename*=UTF-8''" + PercentEncode(name)
  }

  // ---------------------------------------------------------------------
  // The asset table and the uploads directory
  // ---------------------------------------------------------------------

  datatype Asset = Asset(uuidName: string, originalName: string, mimeType: string, filePath: string, sizeBytes: nat)

  datatype Uploaded = Uploaded(id: nat, url: string, originalName: string)

  datatype Download = Download(path: string, disposition: string)

  /** `(file.filename or name).strip() or name`. */
  function OriginalName(filename: string, name: string): (r: string)
    ensures !IsBlank(filename) ==> r == Trim(filename)
    ensures IsBlank(filename) ==> r == name || r == Trim(name)
  {
    var o := Trim(if filename != [] then filename else name);
    if o == [] then name else o
  }

  /** What an accepted upload writes: the relative path, the row and the
      URL returned. */
  datatype Stored = Stored(rel: string, asset: Asset, url: string)

  /** upload_file's decisions: the 400s, then the 413 for content over
      10 MiB, else where the file goes and the row stored for it. */
  function UploadPlan(filename: string, contentType: string, size: nat, postId: Option<string>,
                      folder: Option<string>, uuidHex: string, today: Day): (r: Response<Stored>)
    requires IsUuidHex(uuidHex)
    ensures UploadProblem(filename, contentType).Some? ==> r == Error(400, UploadProblem(filename, contentType).value)
    ensures UploadProblem(filename, contentType).None? ==> (r.Error? <==> size > MaxFileSize)
    ensures r.Error? && UploadProblem(filename, contentType).None? ==> r == Error(413, TooLarge)
    ensures r.Ok? ==>
      var ext := GetExt(filename);
      var name := StoredName(uuidHex, ext);
      r.value.rel == RelPath(folder, PostFolder(postId), name, today, ext) &&
      r.value.url == UploadUrl(r.value.rel) &&
      r.value.asset == Asset(name, OriginalName(filename, name), if contentType != [] then contentType else Octet,
                             ReplaceChar(r.value.rel, '\\', '/'), size)
  {
    var problem := UploadProblem(filename, contentType);
    if problem.Some? then Error(400, problem.value)
    else if size > MaxFileSize then Error(413, TooLarge)
    else
      var ext := GetExt(filename);
      var name := StoredName(uuidHex, ext);
      var rel := RelPath(folder, PostFolder(postId), name, today, ext);
      Ok(Stored(rel, Asset(name, OriginalName(filename, name), if contentType != [] then contentType else Octet,
                           ReplaceChar(rel, '\\', '/'), size), UploadUrl(rel)))
  }

  /** A stored path without '\' is kept as it is in the row. */
  lemma StoredPathKept(rel: string)
    requires '\\' !in rel
    ensures ReplaceChar(rel, '\\', '/') == rel
  {
  }

  class AssetStore {
    /** The assets table by id. */
    var assets: map<nat, Asset>
    var nextId: nat
    /** The uploads directory: the size of the file at each relative path. */
    var files: map<string, nat>

    predicate Valid()
      reads this
    {
      forall id :: id in assets ==> id < nextId
    }

    constructor ()
      ensures Valid() && assets == map[] && files == map[] && nextId == 1
    {
      assets := map[];
      nextId := 1;
      files := map[];
    }

    /** GET /api/assets/{id}/download. */
    function DownloadOf(id: nat): (r: Response<Download>)
      reads this
      ensures id !in assets ==> r == Error(404, NotFound)
      ensures id in assets && assets[id].filePath == [] ==> r == Error(404, NoPath)
      ensures id in assets && assets[id].filePath != [] ==>
        (r.Ok? <==> ReplaceChar(assets[id].filePath, '\\', '/') in files)
      ensures id in assets && assets[id].filePath != [] && ReplaceChar(assets[id].filePath, '\\', '/') !in files ==>
        r == Error(404, NoFile)
      ensures r.Ok? ==> r.value.path == ReplaceChar(assets[id].filePath, '\\', '/')
      ensures r.Ok? ==> r.value.disposition == ContentDisposition(assets[id].originalName)
    {
      if id !in assets then Error(404, NotFound)
      else
        var a := assets[id];
        if a.filePath == [] then Error(404, NoPath)
        else
          var p := ReplaceChar(a.filePath, '\\', '/');
          if p !in files then Error(404, NoFile)
          else Ok(Download(p, ContentDisposition(a.originalName)))
    }

    /** POST /api/assets/upload: the file is written and the row inserted
        exactly as the plan says, or nothing changes. */
    method Upload(filename: string, contentType: string, size: nat, postId: Option<string>,
                  folder: Option<string>, uuidHex: string, today: Day)
      returns (r: Response<Uploaded>)
      requires Valid() && IsUuidHex(uuidHex)
      modifies this
      ensures Valid()
      ensures var plan := UploadPlan(filename, contentType, size, postId, folder, uuidHex, today);
        (plan.Error? ==> r == Error(plan.status, plan.detail) && unchanged(this)) &&
        (plan.Ok? ==>
          r == Ok(Uploaded(old(nextId), plan.value.url, plan.value.asset.originalName)) &&
          files == old(files)[plan.value.rel := size] && nextId == old(nextId) + 1 &&
          assets == old(assets)[old(nextId) := plan.value.asset])
      ensures r.Ok? && '\\' !in UploadPlan(filename, contentType, size, postId, folder, uuidHex, today).value.rel ==>
        DownloadOf(r.value.id).Ok?
    {
      var plan := UploadPlan(filename, contentType, size, postId, folder, uuidHex, today);
      if plan.Error? {
        return Error(plan.status, plan.detail);
      }
      var id := nextId;
      Store(plan.value, size);
      r := Ok(Uploaded(id, plan.value.url, plan.value.asset.originalName));
    }

    /** The file written and its row inserted under the next id. */
    method Store(p: Stored, size: nat)
      requires Valid()
      modifies this
      ensures Valid()
      ensures files == old(files)[p.rel := size] && nextId == old(nextId) + 1 &&
        assets == old(assets)[old(nextId) := p.asset]
    {
      files := files[p.rel := size];
      assets := assets[nextId := p.asset];
      nextId := nextId + 1;
    }
  }
}
