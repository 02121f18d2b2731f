// Text helpers shared by the model: the whitespace trimming of JavaScript's
// String.prototype.trim and Python's str.strip, ASCII case mapping, prefix
// tests, first-occurrence search and replacement, decimal rendering and
// parsing, splitting and joining.
module Strings {
  import opened Wrappers

  /** Characters removed by trim()/strip(): ASCII whitespace plus the common
      Unicode spaces (no-break space, ideographic space, byte-order mark). */
  predicate IsSpace(c: char)
  {
    c == ' ' || c == '\t' || c == '\n' || c == '\r' || c == '\U{0B}' || c == '\U{0C}'
    || c == '\U{A0}' || c == '\U{3000}' || c == '\U{FEFF}'
  }

  predicate AllSpace(s: string)
  {
    forall i :: 0 <= i < |s| ==> IsSpace(s[i])
  }

  function TrimStart(s: string): (r: string)
    ensures |r| <= |s| && r == s[|s| - |r|..]
    ensures AllSpace(s[..|s| - |r|])
    ensures r == [] || !IsSpace(r[0])
  {
    if s == [] || !IsSpace(s[0]) then s
    else
      var r := TrimStart(s[1..]);
      TrimStartStep(s, r);
      r
  }

  /** One leading space more in front of a trimmed suffix. */
  lemma TrimStartStep(s: string, r: string)
    requires s != [] && IsSpace(s[0])
    requires |r| <= |s| - 1 && r == s[1..][|s| - 1 - |r|..] && AllSpace(s[1..][..|s| - 1 - |r|])
    ensures r == s[|s| - |r|..] && AllSpace(s[..|s| - |r|])
  {
    var n := |s| - |r|;
    assert s[1..][n - 1..] == s[n..];
    forall k | 0 <= k < n ensures IsSpace(s[..n][k]) {
      if k > 0 {
        assert s[..n][k] == s[1..][..n - 1][k - 1];
      }
    }
  }

  function TrimEnd(s: string): (r: string)
    ensures |r| <= |s| && r == s[..|r|]
    ensures AllSpace(s[|r|..])
    ensures r == [] || !IsSpace(r[|r| - 1])
  {
    if s == [] || !IsSpace(s[|s| - 1]) then s
    else
      var r := TrimEnd(s[..|s| - 1]);
      TrimEndStep(s, r);
      r
  }

  /** One trailing space more behind a trimmed prefix. */
  lemma TrimEndStep(s: string, r: string)
    requires s != [] && IsSpace(s[|s| - 1])
    requires |r| <= |s| - 1 && r == s[..|s| - 1][..|r|] && AllSpace(s[..|s| - 1][|r|..])
    ensures r == s[..|r|] && AllSpace(s[|r|..])
  {
    forall k | 0 <= k < |s| - |r| ensures IsSpace(s[|r|..][k]) {
      if k < |s| - 1 - |r| {
        assert s[|r|..][k] == s[..|s| - 1][|r|..][k];
      }
    }
  }

  /** r is s[i..j], with only whitespace before i and after j. */
  predicate TrimmedAt(s: string, r: string, i: nat, j: nat)
  {
    i <= j <= |s| && r == s[i..j] && AllSpace(s[..i]) && AllSpace(s[j..])
  }

  /** r is the inner slice of s left when whitespace is cut from both ends. */
  ghost predicate TrimmedSlice(s: string, r: string)
  {
    exists i: nat, j: nat :: TrimmedAt(s, r, i, j)
  }

  /** trim() / strip(): the longest inner slice without leading or trailing whitespace. */
  function Trim(s: string): (r: string)
    ensures TrimmedSlice(s, r)
    ensures r == [] || (!IsSpace(r[0]) && !IsSpace(r[|r| - 1]))
    decreases |s|
  {
    if s == [] then TrimmedWhole(s); s
    else if IsSpace(s[0]) then
      var r := Trim(s[1..]);
      TrimmedFront(s, r);
      r
    else if IsSpace(s[|s| - 1]) then
      var r := Trim(s[..|s| - 1]);
      TrimmedBack(s, r);
      r
    else
      TrimmedWhole(s);
      s
  }

  /** A leading space more in front of a trimmed string. */
  lemma TrimmedFront(s: string, r: string)
    requires s != [] && IsSpace(s[0]) && TrimmedSlice(s[1..], r)
    ensures TrimmedSlice(s, r)
  {
    var i: nat, j: nat :| TrimmedAt(s[1..], r, i, j);
    TrimmedFrontAt(s, r, i, j);
  }

  lemma TrimmedFrontAt(s: string, r: string, i: nat, j: nat)
    requires s != [] && IsSpace(s[0]) && TrimmedAt(s[1..], r, i, j)
    ensures TrimmedAt(s, r, i + 1, j + 1)
  {
    var t := s[1..];
    assert t[i..j] == s[i + 1..j + 1];
    assert s[j + 1..] == t[j..];
    SpaceBefore(s[0], t[..i]);
    assert s[..i + 1] == [s[0]] + t[..i];
  }

  /** A trailing space more behind a trimmed string. */
  lemma TrimmedBack(s: string, r: string)
    requires s != [] && IsSpace(s[|s| - 1]) && TrimmedSlice(s[..|s| - 1], r)
    ensures TrimmedSlice(s, r)
  {
    var i: nat, j: nat :| TrimmedAt(s[..|s| - 1], r, i, j);
    TrimmedBackAt(s, r, i, j);
  }

  lemma TrimmedBackAt(s: string, r: string, i: nat, j: nat)
    requires s != [] && IsSpace(s[|s| - 1]) && TrimmedAt(s[..|s| - 1], r, i, j)
    ensures TrimmedAt(s, r, i, j)
  {
    var t := s[..|s| - 1];
    assert t[i..j] == s[i..j];
    assert s[..i] == t[..i];
    SpaceAfter(t[j..], s[|s| - 1]);
    assert s[j..] == t[j..] + [s[|s| - 1]];
  }

  lemma SpaceBefore(c: char, t: string)
    requires IsSpace(c) && AllSpace(t)
    ensures AllSpace([c] + t)
  {
    assert forall k :: 0 < k < |t| + 1 ==> ([c] + t)[k] == t[k - 1];
  }

  lemma SpaceAfter(t: string, c: char)
    requires IsSpace(c) && AllSpace(t)
    ensures AllSpace(t + [c])
  {
    assert forall k :: 0 <= k < |t| ==> (t + [c])[k] == t[k];
  }

  /** A string is its own trimmed slice, the cuts at its two ends. */
  lemma TrimmedWhole(s: string)
    ensures TrimmedSlice(s, s)
  {
    assert s == s[0..|s|] && s[..0] == [] && s[|s|..] == [];
    assert TrimmedAt(s, s, 0, |s|);
  }

  /** A non-empty sequence is its front followed by its last element. */
  lemma FrontLast<T>(s: seq<T>)
    requires s != []
    ensures s == s[..|s| - 1] + [s[|s| - 1]]
  {
  }

  /** Concatenation regrouped around the first element. */
  lemma FirstRest<T>(a: seq<T>, t: seq<T>)
    requires a != []
    ensures a + t == [a[0]] + (a[1..] + t)
  {
  }

  /** Text without whitespace at either end is left alone by trimming. */
  lemma TrimKeepsTrimmed(s: string)
    requires s == [] || (!IsSpace(s[0]) && !IsSpace(s[|s| - 1]))
    ensures Trim(s) == s
  {
    assert TrimStart(s) == s;
    assert TrimEnd(s) == s;
  }

  /** A string is blank when trimming leaves nothing. */
  predicate IsBlank(s: string)
  {
    Trim(s) == []
  }

  lemma BlankIffAllSpace(s: string)
    ensures IsBlank(s) <==> AllSpace(s)
  {
    var r := Trim(s);
    var i: nat, j: nat :| TrimmedAt(s, r, i, j);
    if r == [] {
      forall k | 0 <= k < |s| ensures IsSpace(s[k]) {
        if k < i { assert s[k] == s[..i][k]; } else { assert s[k] == s[j..][k - j]; }
      }
    }
  }

  lemma {:induction false} TrimIdempotent(s: string)
    ensures Trim(Trim(s)) == Trim(s)
  {
    var r := Trim(s);
    assert TrimStart(r) == r;
    assert TrimEnd(r) == r;
  }

  function LowerChar(c: char): (d: char)
    ensures 'A' <= c <= 'Z' ==> d as int == c as int + 32
    ensures !('A' <= c <= 'Z') ==> d == c
  {
    if 'A' <= c <= 'Z' then (c as int + 32) as char else c
  }

  function UpperChar(c: char): (d: char)
    ensures 'a' <= c <= 'z' ==> d as int == c as int - 32
    ensures !('a' <= c <= 'z') ==> d == c
  {
    if 'a' <= c <= 'z' then (c as int - 32) as char else c
  }

  /** toLowerCase() / lower(), restricted to the ASCII letters. */
  function Lower(s: string): (r: string)
    ensures |r| == |s| && forall i :: 0 <= i < |s| ==> r[i] == LowerChar(s[i])
  {
    seq(|s|, i requires 0 <= i < |s| => LowerChar(s[i]))
  }

  /** Equal under the database's case-insensitive collation, approximated
      by ASCII case folding. */
  predicate SameText(a: string, b: string)
  {
    Lower(a) == Lower(b)
  }

  /** Lower leaves no upper-case letter. */
  lemma LowerNoUpper(s: string)
    ensures forall k :: 0 <= k < |Lower(s)| ==> !('A' <= Lower(s)[k] <= 'Z')
  {
  }

  /** Lower adds no '.'. */
  lemma LowerNoDot(s: string)
    requires '.' !in s
    ensures '.' !in Lower(s)
  {
    forall k | 0 <= k < |s| ensures Lower(s)[k] != '.' {
      assert s[k] != '.';
    }
  }

  /** toUpperCase(), restricted to the ASCII letters. */
  function Upper(s: string): (r: string)
    ensures |r| == |s| && forall i :: 0 <= i < |s| ==> r[i] == UpperChar(s[i])
  {
    seq(|s|, i requires 0 <= i < |s| => UpperChar(s[i]))
  }

  /** slice(0, n) / [:n]: at most the first n characters. */
  function Take<T>(s: seq<T>, n: nat): (r: seq<T>)
    ensures |r| == (if |s| <= n then |s| else n)
    ensures r == s[..|r|]
  {
    if |s| <= n then s else s[..n]
  }

  predicate StartsWith(s: string, p: string)
  {
    |p| <= |s| && s[..|p|] == p
  }

  predicate EndsWith(s: string, p: string)
  {
    |p| <= |s| && s[|s| - |p|..] == p
  }

  predicate OccursAt(s: string, pat: string, k: nat)
  {
    k + |pat| <= |s| && s[k..k + |pat|] == pat
  }

  /** The first index at which pat occurs in s. */
  function IndexOf(s: string, pat: string): (r: Option<nat>)
    ensures r.Some? ==> OccursAt(s, pat, r.value) && forall k :: 0 <= k < r.value ==> !OccursAt(s, pat, k)
    ensures r.None? ==> forall k :: 0 <= k <= |s| ==> !OccursAt(s, pat, k)
    decreases |s|
  {
    if |pat| > |s| then None
    else if s[..|pat|] == pat then Some(0)
    else
      match IndexOf(s[1..], pat)
      case None =>
        forall k | 1 <= k <= |s| ensures !OccursAt(s, pat, k) {
          OccursShift(s, pat, k);
        }
        None
      case Some(k) =>
        OccursShift(s, pat, k + 1);
        forall m | 1 <= m < k + 1 ensures !OccursAt(s, pat, m) {
          OccursShift(s, pat, m);
        }
        Some(k + 1)
  }

  /** An occurrence past the first character is one in the rest. */
  lemma OccursShift(s: string, pat: string, k: nat)
    requires 1 <= k <= |s|
    ensures OccursAt(s, pat, k) <==> OccursAt(s[1..], pat, k - 1)
  {
    if k + |pat| <= |s| {
      assert s[1..][k - 1..k - 1 + |pat|] == s[k..k + |pat|];
    }
  }

  predicate Contains(s: string, pat: string)
  {
    IndexOf(s, pat).Some?
  }

  /** A pattern holding a character the string lacks does not occur in it. */
  lemma AbsentCharNotContained(s: string, pat: string, k: nat)
    requires k < |pat| && pat[k] !in s
    ensures !Contains(s, pat)
  {
    forall i | 0 <= i <= |s| ensures !OccursAt(s, pat, i) {
      if i + |pat| <= |s| {
        assert s[i + k] in s;
        assert s[i..i + |pat|][k] != pat[k];
      }
    }
  }

  /** Python's str.replace(old, new, 1): only the first occurrence changes. */
  function ReplaceFirst(s: string, pat: string, rep: string): (r: string)
    ensures IndexOf(s, pat).None? ==> r == s
    ensures IndexOf(s, pat).Some? ==>
      var k := IndexOf(s, pat).value; r == s[..k] + rep + s[k + |pat|..]
  {
    match IndexOf(s, pat)
    case None => s
    case Some(k) => s[..k] + rep + s[k + |pat|..]
  }

  /** SQL REPLACE(s, pat, rep): every occurrence, scanning left to right;
      the scan resumes after each replaced occurrence. The lemmas below
      state its result. */
  function ReplaceAll(s: string, pat: string, rep: string): string
    requires |pat| > 0
    decreases |s|
  {
    if s == [] then []
    else if StartsWith(s, pat) then rep + ReplaceAll(s[|pat|..], pat, rep)
    else [s[0]] + ReplaceAll(s[1..], pat, rep)
  }

  /** Text that begins with the pattern: the replacement, then the rest
      rewritten. */
  lemma {:induction false} ReplaceAllAtMatch(b: string, pat: string, rep: string)
    requires |pat| > 0
    ensures ReplaceAll(pat + b, pat, rep) == rep + ReplaceAll(b, pat, rep)
  {
    assert (pat + b)[..|pat|] == pat;
    assert (pat + b)[|pat|..] == b;
  }

  /** Where the pattern does not begin, one character is copied. */
  lemma {:induction false} ReplaceAllCopiesOne(s: string, pat: string, rep: string, c: char, t: string)
    requires |pat| > 0 && s == [c] + t && !OccursAt(s, pat, 0)
    ensures ReplaceAll(s, pat, rep) == [c] + ReplaceAll(t, pat, rep)
  {
    assert s[1..] == t;
  }

  /** Text in which no occurrence of the pattern begins is copied as it is,
      and the scan goes on with what follows. */
  lemma {:induction false} ReplaceAllCopies(a: string, b: string, pat: string, rep: string)
    requires |pat| > 0
    requires forall k :: 0 <= k < |a| ==> !OccursAt(a + b, pat, k)
    ensures ReplaceAll(a + b, pat, rep) == a + ReplaceAll(b, pat, rep)
    decreases |a|
  {
    if a != [] {
      var s := a + b;
      var t := a[1..] + b;
      assert s == [a[0]] + t;
      ReplaceAllCopiesOne(s, pat, rep, a[0], t);
      forall k | 0 <= k < |a[1..]| ensures !OccursAt(t, pat, k) {
        assert s[1..] == t;
        OccursShift(s, pat, k + 1);
      }
      ReplaceAllCopies(a[1..], b, pat, rep);
      assert a == [a[0]] + a[1..];
    } else {
      assert a + b == b;
    }
  }

  /** The text before the first occurrence is kept, the occurrence becomes
      the replacement, and the rest is rewritten in turn. */
  lemma {:induction false} ReplaceAllAt(s: string, pat: string, rep: string, k: nat)
    requires |pat| > 0 && IndexOf(s, pat) == Some(k)
    ensures ReplaceAll(s, pat, rep) == s[..k] + rep + ReplaceAll(s[k + |pat|..], pat, rep)
  {
    var b := s[k + |pat|..];
    assert s == s[..k] + (pat + b);
    ReplaceAllCopies(s[..k], pat + b, pat, rep);
    ReplaceAllAtMatch(b, pat, rep);
  }

  /** Text in which the pattern does not occur is left as it is. */
  lemma {:induction false} ReplaceAllUnchanged(s: string, pat: string, rep: string)
    requires |pat| > 0
    ensures IndexOf(s, pat).None? ==> ReplaceAll(s, pat, rep) == s
  {
    if IndexOf(s, pat).None? {
      assert s + [] == s;
      ReplaceAllCopies(s, [], pat, rep);
    }
  }

  /** Every occurrence of one character replaced by another (replace('\\', '/')). */
  function ReplaceChar(s: string, a: char, b: char): (r: string)
    ensures |r| == |s|
    ensures forall i :: 0 <= i < |s| ==> r[i] == (if s[i] == a then b else s[i])
  {
    seq(|s|, i requires 0 <= i < |s| => if s[i] == a then b else s[i])
  }

  predicate IsDigit(c: char)
  {
    '0' <= c <= '9'
  }

  /** A non-empty run of decimal digits (/^\d+$/, str.isdigit on ASCII). */
  predicate AllDigits(s: string)
  {
    |s| > 0 && forall i :: 0 <= i < |s| ==> IsDigit(s[i])
  }

  function DigitChar(d: nat): (c: char)
    requires d < 10
    ensures IsDigit(c) && c as int - '0' as int == d
  {
    ('0' as int + d) as char
  }

  /** Decimal rendering of a natural number (str(n), String(n)). */
  function NatToString(n: nat): (r: string)
    ensures AllDigits(r)
    ensures r[0] == '0' ==> n == 0 && r == "0"
    decreases n
  {
    if n < 10 then [DigitChar(n)] else NatToString(n / 10) + [DigitChar(n % 10)]
  }

  /** `${n}` for an integer. */
  function IntText(n: int): (r: string)
    ensures n >= 0 ==> r == NatToString(n)
    ensures n < 0 ==> r == "-" + NatToString(-n)
  {
    if n < 0 then "-" + NatToString(-n) else NatToString(n)
  }

  /** Value of a run of decimal digits (int(s), Number(s)). */
  function DigitsValue(s: string): nat
    requires forall i :: 0 <= i < |s| ==> IsDigit(s[i])
  {
    if s == [] then 0
    else
      assert IsDigit(s[|s| - 1]);
      10 * DigitsValue(s[..|s| - 1]) + (s[|s| - 1] as int - '0' as int) as nat
  }

  lemma {:induction false} DigitsValueOfNatToString(n: nat)
    ensures DigitsValue(NatToString(n)) == n
    decreases n
  {
    if n >= 10 {
      var s := NatToString(n);
      assert s[..|s| - 1] == NatToString(n / 10);
      DigitsValueOfNatToString(n / 10);
    }
  }

  lemma NatToStringInjective(m: nat, n: nat)
    ensures NatToString(m) == NatToString(n) ==> m == n
  {
    DigitsValueOfNatToString(m);
    DigitsValueOfNatToString(n);
  }

  /** Python's int() on a string that passed str.strip().isdigit(). */
  function ParseDigitsTrimmed(s: string): (r: Option<nat>)
    ensures r.Some? <==> AllDigits(Trim(s))
    ensures r.Some? ==> r.value == DigitsValue(Trim(s))
  {
    var t := Trim(s);
    if AllDigits(t) then Some(DigitsValue(t)) else None
  }

  function Join(parts: seq<string>, sep: string): (r: string)
    ensures parts == [] ==> r == []
    ensures |parts| == 1 ==> r == parts[0]
  {
    if parts == [] then []
    else if |parts| == 1 then parts[0]
    else parts[0] + sep + Join(parts[1..], sep)
  }

  /** The first index of c in s, if any. */
  function IndexOfChar(s: string, c: char): (r: Option<nat>)
    ensures r.Some? ==> r.value < |s| && s[r.value] == c && c !in s[..r.value]
    ensures r.None? ==> c !in s
  {
    if s == [] then None
    else if s[0] == c then Some(0)
    else match IndexOfChar(s[1..], c)
      case None => None
      case Some(k) =>
        assert s[..k + 1] == [s[0]] + s[1..][..k];
        Some(k + 1)
  }

  /** split(c) in JavaScript and Python: the pieces between the separators. */
  function Split(s: string, c: char): (r: seq<string>)
    ensures |r| >= 1
    ensures forall k :: 0 <= k < |r| ==> c !in r[k]
    decreases |s|
  {
    match IndexOfChar(s, c)
    case None => [s]
    case Some(i) => [s[..i]] + Split(s[i + 1..], c)
  }

  lemma {:induction false} JoinSplit(s: string, c: char)
    ensures Join(Split(s, c), [c]) == s
    decreases |s|
  {
    match IndexOfChar(s, c)
    case None =>
    case Some(i) =>
      var rest := Split(s[i + 1..], c);
      assert Split(s, c) == [s[..i]] + rest;
      JoinSplit(s[i + 1..], c);
      JoinCons(s[..i], rest, [c]);
      CutAt(s, i);
  }

  /** Joining a first part in front of at least one more. */
  lemma JoinCons(a: string, rest: seq<string>, sep: string)
    requires rest != []
    ensures Join([a] + rest, sep) == a + sep + Join(rest, sep)
  {
    assert ([a] + rest)[1..] == rest;
  }

  /** A text is what precedes index i, the character there, and what follows. */
  lemma CutAt<T>(s: seq<T>, i: nat)
    requires i < |s|
    ensures s == s[..i] + [s[i]] + s[i + 1..]
  {
  }

  /** Splitting text with no separator gives the text itself. */
  lemma SplitNone(s: string, c: char)
    requires c !in s
    ensures Split(s, c) == [s]
  {
  }

  /** Splitting at a first separator: the piece before it, then the rest. */
  lemma SplitAt(a: string, b: string, c: char)
    requires c !in a
    ensures Split(a + [c] + b, c) == [a] + Split(b, c)
  {
    var s := a + [c] + b;
    var i := IndexOfChar(s, c);
    assert s[|a|] == c && c !in s[..|a|] by { assert s[..|a|] == a; }
    assert i == Some(|a|) by {
      assert c in s;
      assert i.value <= |a| ==> s[i.value] == (a + [c])[i.value];
    }
    assert s[..|a|] == a && s[|a| + 1..] == b;
  }

  /** Joining pieces free of the separator and splitting again gives the
      pieces back. */
  lemma {:induction false} SplitJoin(parts: seq<string>, c: char)
    requires parts != [] && forall k :: 0 <= k < |parts| ==> c !in parts[k]
    ensures Split(Join(parts, [c]), c) == parts
  {
    if |parts| == 1 {
      SplitNone(parts[0], c);
    } else {
      SplitJoin(parts[1..], c);
      assert Join(parts, [c]) == parts[0] + [c] + Join(parts[1..], [c]);
      SplitAt(parts[0], Join(parts[1..], [c]), c);
      assert parts == [parts[0]] + parts[1..];
    }
  }

  /** lastIndexOf(c), -1 when absent. */
  function LastIndexOfChar(s: string, c: char): (r: int)
    ensures -1 <= r < |s|
    ensures r >= 0 ==> s[r] == c && c !in s[r + 1..]
    ensures r == -1 ==> c !in s
  {
    if s == [] then -1
    else if s[|s| - 1] == c then |s| - 1
    else
      var k := LastIndexOfChar(s[..|s| - 1], c);
      LastIndexStep(s, c, k);
      k
  }

  /** The step of LastIndexOfChar past a last character other than c. */
  lemma LastIndexStep(s: string, c: char, k: int)
    requires s != [] && s[|s| - 1] != c && -1 <= k < |s| - 1
    requires k >= 0 ==> s[..|s| - 1][k] == c && c !in s[..|s| - 1][k + 1..]
    requires k == -1 ==> c !in s[..|s| - 1]
    ensures k >= 0 ==> s[k] == c && c !in s[k + 1..]
    ensures k == -1 ==> c !in s
  {
    FrontLast(s);
    if k >= 0 {
      assert s[k + 1..] == s[..|s| - 1][k + 1..] + [s[|s| - 1]];
    }
  }

  /** The text after the last c: split(c).pop() / rsplit(c, 1)[-1]. */
  function AfterLast(s: string, c: char): (r: string)
    ensures c !in r
    ensures EndsWith(s, r)
    ensures c in s ==> |r| < |s| && s[|s| - |r| - 1] == c
    ensures c !in s ==> r == s
  {
    var i := LastIndexOfChar(s, c);
    assert s[i + 1..] == s[|s| - |s[i + 1..]|..];
    s[i + 1..]
  }

  /** A last character other than c extends the text after the last c. */
  lemma AfterLastStep(s: string, c: char)
    requires s != [] && s[|s| - 1] != c
    ensures AfterLast(s, c) == AfterLast(s[..|s| - 1], c) + [s[|s| - 1]]
  {
    var init := s[..|s| - 1];
    var i := LastIndexOfChar(init, c);
    assert LastIndexOfChar(s, c) == i;
    assert AfterLast(s, c) == s[i + 1..];
    assert AfterLast(init, c) == init[i + 1..];
    SliceSnoc(s, i + 1);
  }

  lemma SliceSnoc(s: string, k: nat)
    requires k < |s|
    ensures s[k..] == s[..|s| - 1][k..] + [s[|s| - 1]]
  {
  }

  lemma LowerSnoc(s: string, c: char)
    ensures Lower(s + [c]) == Lower(s) + [LowerChar(c)]
  {
  }

  /** The last piece of Split is the text after the last separator. */
  lemma {:induction false} SplitLast(s: string, c: char)
    ensures Split(s, c)[|Split(s, c)| - 1] == AfterLast(s, c)
    decreases |s|
  {
    var m := IndexOfChar(s, c);
    if m.Some? {
      var i := m.value;
      var t := s[i + 1..];
      var r := Split(t, c);
      var w := Split(s, c);
      assert w == [s[..i]] + r;
      assert w[|w| - 1] == r[|r| - 1];
      SplitLast(t, c);
      AfterLastSuffix(s, c, i);
    }
  }

  /** After a separator at i, the text after the last c is found in s[i + 1..]. */
  lemma {:induction false} AfterLastSuffix(s: string, c: char, i: nat)
    requires i < |s| && s[i] == c
    ensures AfterLast(s, c) == AfterLast(s[i + 1..], c)
  {
    var t := s[i + 1..];
    var j := LastIndexOfChar(t, c);
    if j >= 0 {
      assert s[i + 1 + j] == t[j];
      assert s[i + 1 + j + 1..] == t[j + 1..];
      LastIndexOfUnique(s, c, i + 1 + j);
    } else {
      LastIndexOfUnique(s, c, i);
      assert t[j + 1..] == t;
    }
  }

  lemma {:induction false} LastIndexOfUnique(s: string, c: char, k: nat)
    requires k < |s| && s[k] == c && c !in s[k + 1..]
    ensures LastIndexOfChar(s, c) == k
  {
  }

  /** The non-blank strings of a list, in order (`.filter((h) => (h || '').trim())`,
      `[h for h in hs if h and h.strip()]`). */
  function NonBlank(hs: seq<string>): (r: seq<string>)
    ensures |r| <= |hs|
    ensures forall i :: 0 <= i < |r| ==> Trim(r[i]) != []
    ensures forall x :: x in r ==> x in hs
    ensures |hs| == 1 ==> r == (if Trim(hs[0]) != [] then hs else [])
  {
    if hs == [] then []
    else
      var init := NonBlank(hs[..|hs| - 1]);
      assert |hs| == 1 ==> init == [] && hs == [hs[|hs| - 1]];
      if Trim(hs[|hs| - 1]) != [] then init + [hs[|hs| - 1]] else init
  }

  /** The filter keeps the order: the rows kept from a + b are a's, then b's. */
  lemma {:induction false} NonBlankConcat(a: seq<string>, b: seq<string>)
    ensures NonBlank(a + b) == NonBlank(a) + NonBlank(b)
    decreases |b|
  {
    if b == [] {
      assert a + b == a;
    } else {
      var k := |b| - 1;
      assert (a + b)[..|a + b| - 1] == a + b[..k];
      assert (a + b)[|a + b| - 1] == b[k];
      NonBlankConcat(a, b[..k]);
    }
  }

  /** The filter finds something exactly when some row is not blank. */
  lemma NonBlankEmpty(hs: seq<string>)
    ensures NonBlank(hs) == [] <==> forall i :: 0 <= i < |hs| ==> Trim(hs[i]) == []
  {
    if forall i :: 0 <= i < |hs| ==> Trim(hs[i]) == [] {
      AllBlankDropped(hs);
    } else {
      var i :| 0 <= i < |hs| && Trim(hs[i]) != [];
      FilledRowFound(hs, i);
    }
  }

  lemma {:induction false} AllBlankDropped(hs: seq<string>)
    requires forall i :: 0 <= i < |hs| ==> Trim(hs[i]) == []
    ensures NonBlank(hs) == []
  {
    if hs != [] {
      var k := |hs| - 1;
      var init := hs[..k];
      forall i | 0 <= i < k ensures Trim(init[i]) == [] {
        assert init[i] == hs[i];
      }
      AllBlankDropped(init);
    }
  }

  lemma {:induction false} FilledRowFound(hs: seq<string>, i: nat)
    requires i < |hs| && Trim(hs[i]) != []
    ensures NonBlank(hs) != []
  {
    var k := |hs| - 1;
    if i < k {
      var init := hs[..k];
      assert init[i] == hs[i];
      FilledRowFound(init, i);
    }
  }
}
