// The post page's attachment list: the size label, the file extension and
// the badge shown beside each attachment.
module PostDetail {
  import opened Wrappers
  import opened Strings

  const KiB := 1024
  const MiB := 1024 * 1024

  /** The tenths `(b / 1024).toFixed(1)` shows: the nearest tenth, a tie
      going up (b / 1024 is exact in binary floating point). */
  function KibTenths(b: nat): (n: nat)
    ensures (2 * n - 1) * KiB <= 20 * b < (2 * n + 1) * KiB
  {
    (20 * b + KiB) / (2 * KiB)
  }

  /** The same for `(b / (1024 * 1024)).toFixed(1)`. */
  function MibTenths(b: nat): (n: nat)
    ensures (2 * n - 1) * MiB <= 20 * b < (2 * n + 1) * MiB
  {
    (20 * b + MiB) / (2 * MiB)
  }

  /** A number of tenths with one decimal: the whole part in decimal, with
      no leading zero, a '.', and the digit of the tenths. */
  function OneDecimal(n: nat): (r: string)
    ensures |r| >= 3 && r[|r| - 2] == '.'
    ensures AllDigits(r[..|r| - 2]) && DigitsValue(r[..|r| - 2]) == n / 10
    ensures r[0] == '0' ==> n < 10 && |r| == 3
    ensures IsDigit(r[|r| - 1]) && r[|r| - 1] as int - '0' as int == n % 10
  {
    var whole := NatToString(n / 10);
    var r := whole + "." + [DigitChar(n % 10)];
    assert r[..|r| - 2] == whole;
    DigitsValueOfNatToString(n / 10);
    r
  }

  /** formatBytes: '' for no size or 0, bytes below 1 KiB, KB below 1 MiB,
      MB from there. */
  function FormatBytes(bytes: Option<int>): (r: string)
    ensures bytes.None? || bytes == Some(0) ==> r == []
    ensures bytes.Some? && bytes.value != 0 && bytes.value < KiB ==> r == IntText(bytes.value) + " B"
    ensures bytes.Some? && KiB <= bytes.value < MiB ==> r == OneDecimal(KibTenths(bytes.value)) + " KB"
    ensures bytes.Some? && MiB <= bytes.value ==> r == OneDecimal(MibTenths(bytes.value)) + " MB"
  {
    if bytes.None? || bytes.value == 0 then []
    else if bytes.value < KiB then IntText(bytes.value) + " B"
    else if bytes.value < MiB then OneDecimal(KibTenths(bytes.value)) + " KB"
    else OneDecimal(MibTenths(bytes.value)) + " MB"
  }

  /** The KB label never reads below 1.0, and the MB label never below 1.0
      either: each unit takes over where the last one ends. */
  lemma LabelsStartAtOne(b: nat)
    ensures KiB <= b ==> KibTenths(b) >= 10
    ensures MiB <= b ==> MibTenths(b) >= 10
  {
  }

  // ---------------------------------------------------------------------
  // Extension and badge
  // ---------------------------------------------------------------------

  /** The character at i is the last '.' of s, and e is the text after it in lower case. */
  predicate ExtAfter(s: string, i: int, e: string)
  {
    0 <= i < |s| && s[i] == '.' && '.' !in s[i + 1..] && e == Lower(s[i + 1..])
  }

  /** getFileExt: '' for a missing name or one without '.', else the text
      after the last '.' in lower case. */
  function FileExt(name: Option<string>): (r: string)
    ensures '.' !in r
    ensures name.None? || '.' !in name.value ==> r == []
    ensures name.Some? && '.' in name.value ==>
      exists i :: ExtAfter(name.value, i, r)
    ensures forall k :: 0 <= k < |r| ==> !('A' <= r[k] <= 'Z')
  {
    match name
    case None => []
    case Some(s) =>
      var i := LastIndexOfChar(s, '.');
      if i >= 0 then
        ExtAfterLastDot(s, i);
        Lower(s[i + 1..])
      else []
  }

  lemma ExtAfterLastDot(s: string, i: int)
    requires 0 <= i < |s| && s[i] == '.' && '.' !in s[i + 1..]
    ensures var e := Lower(s[i + 1..]);
      '.' in s && ExtAfter(s, i, e) && '.' !in e && forall k :: 0 <= k < |e| ==> !('A' <= e[k] <= 'Z')
  {
    assert s[i] in s;
    LowerNoUpper(s[i + 1..]);
    LowerNoDot(s[i + 1..]);
  }

  /** The extension of 'stem.ext' is ext, in lower case. */
  lemma FileExtOf(stem: string, ext: string)
    requires '.' !in ext
    ensures FileExt(Some(stem + "." + ext)) == Lower(ext)
  {
    var n := stem + "." + ext;
    assert n[|stem|] == '.' && n[|stem| + 1..] == ext;
    LastIndexOfUnique(n, '.', |stem|);
  }

  /** The badge: 'PDF' for pdf, else the extension (or 'FILE') in capitals,
      at most four characters. */
  function Badge(ext: string): (r: string)
    ensures 1 <= |r| <= 4
    ensures ext == [] ==> r == "FILE"
    ensures ext == "pdf" ==> r == "PDF"
    ensures ext != "pdf" ==> r == Take(Upper(if ext == [] then "FILE" else ext), 4)
  {
    if ext == "pdf" then "PDF" else Take(Upper(if ext == [] then "FILE" else ext), 4)
  }

  /** For an extension as getFileExt returns it, the badge reads 'PDF'
      exactly when the file is a pdf. */
  lemma BadgePdfOnly(ext: string)
    requires forall k :: 0 <= k < |ext| ==> !('A' <= ext[k] <= 'Z')
    ensures Badge(ext) == "PDF" <==> ext == "pdf"
  {
    if ext != "pdf" && ext != [] {
      var u := Upper(ext);
      if |ext| == 3 {
        var k := if ext[0] != 'p' then 0 else if ext[1] != 'd' then 1 else 2;
        assert ext[k] != "pdf"[k];
        assert u[k] != "PDF"[k];
        assert Badge(ext)[k] != "PDF"[k];
      } else {
        assert |Badge(ext)| != 3;
      }
    }
  }
}
