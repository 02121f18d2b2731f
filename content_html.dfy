// processContentHtml: the post body's image sources made absolute. The
// global replace of `src=(["'])([^"']+)\1` is a left-to-right scan that
// either matches at the current position or copies one character.
module ContentHtml {
  import opened Wrappers
  import opened Strings
  import ClientApi

  predicate IsQuote(c: char)
  {
    c == '"' || c == '\''
  }

  /** The first quote character at or after `from`. */
  function QuoteFrom(s: string, from: nat): (r: Option<nat>)
    requires from <= |s|
    ensures r.Some? ==> from <= r.value < |s| && IsQuote(s[r.value])
    ensures r.Some? ==> forall k :: from <= k < r.value ==> !IsQuote(s[k])
    ensures r.None? ==> forall k :: from <= k < |s| ==> !IsQuote(s[k])
    decreases |s| - from
  {
    if from == |s| then None
    else if IsQuote(s[from]) then Some(from)
    else QuoteFrom(s, from + 1)
  }

  /** The index of the closing quote when the pattern matches at the start
      of `s`: 'src=', a quote, at least one character that is no quote, and
      the same quote again. */
  function MatchEnd(s: string): (r: Option<nat>)
    ensures r.Some? ==> 5 < r.value < |s| && StartsWith(s, "src=") && IsQuote(s[4]) && s[r.value] == s[4]
    ensures r.Some? ==> forall k :: 5 <= k < r.value ==> !IsQuote(s[k])
  {
    if |s| >= 6 && s[..4] == "src=" && IsQuote(s[4]) then
      match QuoteFrom(s, 5)
      case Some(j) => if j > 5 && s[j] == s[4] then Some(j) else None
      case None => None
    else None
  }

  /** An absolute http(s) address. */
  predicate IsAbsolute(t: string)
  {
    StartsWith(t, "http://") || StartsWith(t, "https://")
  }

  /** A quoted src attribute. */
  function Source(quote: char, src: string): (r: string)
    ensures |r| == |src| + 6 && r[..4] == "src=" && r[4] == quote && r[5..5 + |src|] == src && r[5 + |src|] == quote
  {
    "src=" + [quote] + src + [quote]
  }

  /** The replacement of one match: absolute http(s) sources as they are,
      the others through getStaticUrl after trimming. */
  function Replaced(base: string, quote: char, src: string): (r: string)
  {
    var trimmed := Trim(src);
    if IsAbsolute(trimmed) then Source(quote, src)
    else Source(quote, ClientApi.StaticUrl(base, trimmed))
  }

  function Rewrite(base: string, s: string): (r: string)
    decreases |s|
  {
    if s == [] then []
    else match MatchEnd(s)
      case Some(j) => Replaced(base, s[4], s[5..j]) + Rewrite(base, s[j + 1..])
      case None => [s[0]] + Rewrite(base, s[1..])
  }

  /** processContentHtml with the API base: a missing body is '', any other
      is rewritten match by match (the Rewrite lemmas below say how), and a
      body in which no 'src=' begins comes back as it is. */
  function ProcessContentHtml(base: string, html: string): (r: string)
    ensures html == [] <==> r == []
    ensures html != [] ==> r == Rewrite(base, html)
    ensures (forall i :: 0 <= i < |html| ==> !StartsWith(html[i..], "src=")) ==> r == html
  {
    if html == [] then []
    else
      RewriteFacts(base, html);
      Rewrite(base, html)
  }

  /** A body that is not empty is not rewritten to '', and one without
      'src=' anywhere is rewritten to itself. */
  lemma RewriteFacts(base: string, html: string)
    requires html != []
    ensures Rewrite(base, html) != []
    ensures (forall i :: 0 <= i < |html| ==> !StartsWith(html[i..], "src=")) ==> Rewrite(base, html) == html
  {
    if forall i :: 0 <= i < |html| ==> !StartsWith(html[i..], "src=") {
      NoSourceUnchanged(base, html);
    }
    match MatchEnd(html)
    case Some(j) =>
      var rep := Replaced(base, html[4], html[5..j]);
      assert rep[..4] == "src=";
    case None =>
  }

  /** Text in which no 'src=' begins is copied unchanged, and the rest is
      rewritten on its own. */
  lemma {:induction false} TextBeforeKept(base: string, a: string, b: string)
    requires forall i :: 0 <= i < |a| ==> !StartsWith((a + b)[i..], "src=")
    ensures Rewrite(base, a + b) == a + Rewrite(base, b)
    decreases |a|
  {
    if a != [] {
      var s := a + b;
      assert s[0..] == s;
      RewriteCopies(base, s, a[0], a[1..] + b);
      forall i | 0 <= i < |a[1..]| ensures !StartsWith((a[1..] + b)[i..], "src=") {
        assert (a[1..] + b)[i..] == s[i + 1..];
      }
      TextBeforeKept(base, a[1..], b);
      FirstRest(a, Rewrite(base, b));
    } else {
      assert a + b == b;
    }
  }

  /** Where no 'src=' begins, one character is copied. */
  lemma RewriteCopies(base: string, s: string, c: char, t: string)
    requires s == [c] + t && !StartsWith(s, "src=")
    ensures Rewrite(base, s) == [c] + Rewrite(base, t)
  {
    assert MatchEnd(s).None?;
    assert s[1..] == t;
  }

  /** Text without 'src=' anywhere comes back unchanged. */
  lemma NoSourceUnchanged(base: string, s: string)
    requires forall i :: 0 <= i < |s| ==> !StartsWith(s[i..], "src=")
    ensures Rewrite(base, s) == s
  {
    assert s + [] == s;
    TextBeforeKept(base, s, []);
  }

  /** One quoted source: an absolute http(s) one is left as it is. */
  lemma AbsoluteSourceKept(base: string, quote: char, src: string, rest: string)
    requires IsQuote(quote) && src != [] && forall k :: 0 <= k < |src| ==> !IsQuote(src[k])
    requires IsAbsolute(Trim(src))
    ensures Rewrite(base, Source(quote, src) + rest) == Source(quote, src) + Rewrite(base, rest)
  {
    SourceRewritten(base, quote, src, rest);
    ReplacedAbsolute(base, quote, src);
  }

  /** A quoted source is replaced and the scan goes on after it. */
  lemma SourceRewritten(base: string, quote: char, src: string, rest: string)
    requires IsQuote(quote) && src != [] && forall k :: 0 <= k < |src| ==> !IsQuote(src[k])
    ensures Rewrite(base, Source(quote, src) + rest) == Replaced(base, quote, src) + Rewrite(base, rest)
  {
    SourceMatches(quote, src, rest);
    RewriteAtSource(base, Source(quote, src) + rest, quote, src, rest);
  }

  lemma RewriteAtSource(base: string, s: string, quote: char, src: string, rest: string)
    requires 6 + |src| <= |s| && MatchEnd(s) == Some(5 + |src|)
    requires s[4] == quote && s[5..5 + |src|] == src && s[6 + |src|..] == rest
    ensures Rewrite(base, s) == Replaced(base, quote, src) + Rewrite(base, rest)
  {
    RewriteAtMatch(base, s);
  }

  lemma ReplacedAbsolute(base: string, quote: char, src: string)
    requires IsAbsolute(Trim(src))
    ensures Replaced(base, quote, src) == Source(quote, src)
  {
  }

  /** One quoted relative source is replaced by its static URL, in the same
      quotes. */
  lemma RelativeSourceRewritten(base: string, quote: char, src: string, rest: string)
    requires IsQuote(quote) && src != [] && forall k :: 0 <= k < |src| ==> !IsQuote(src[k])
    requires !IsAbsolute(Trim(src))
    ensures Rewrite(base, Source(quote, src) + rest) ==
      Source(quote, ClientApi.StaticUrl(base, Trim(src))) + Rewrite(base, rest)
  {
    SourceRewritten(base, quote, src, rest);
  }

  /** Where the pattern matches, the match is replaced and the scan goes on
      after it. */
  lemma RewriteAtMatch(base: string, s: string)
    requires MatchEnd(s).Some?
    ensures var j := MatchEnd(s).value;
      Rewrite(base, s) == Replaced(base, s[4], s[5..j]) + Rewrite(base, s[j + 1..])
  {
  }

  lemma SourceMatches(quote: char, src: string, rest: string)
    requires IsQuote(quote) && src != [] && forall k :: 0 <= k < |src| ==> !IsQuote(src[k])
    ensures var s := Source(quote, src) + rest;
      MatchEnd(s) == Some(5 + |src|) && s[4] == quote && s[5..5 + |src|] == src && s[6 + |src|..] == rest
  {
    var s := Source(quote, src) + rest;
    assert s[..4] == "src=";
    assert s[4] == quote;
    assert s[5..5 + |src|] == src;
    assert s[5 + |src|] == quote;
    assert s[6 + |src|..] == rest;
    assert forall k :: 5 <= k < 5 + |src| ==> s[k] == src[k - 5];
    assert QuoteFrom(s, 5) == Some(5 + |src|) by {
      QuoteFromSkips(s, 5, 5 + |src|);
    }
  }

  lemma {:induction false} QuoteFromSkips(s: string, from: nat, j: nat)
    requires from <= j < |s| && IsQuote(s[j]) && forall k :: from <= k < j ==> !IsQuote(s[k])
    ensures QuoteFrom(s, from) == Some(j)
    decreases j - from
  {
    if from < j {
      QuoteFromSkips(s, from + 1, j);
    }
  }
}
