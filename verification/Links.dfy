/** The two link regexes of the relay loop, as hand-written matchers:

      TikTok:    https?://(?:www\.|vm\.|vt\.|m\.|t\.)?tiktok\.com/[^\s]+
      Instagram: https?://(?:www\.)?instagram\.com/(?:reel|p|t|v)/[^\s]+

    Each pattern is a fixed "head" (scheme, optional subdomain, domain and, for
    Instagram, a path section) followed by a greedy run of one or more
    non-whitespace characters. `MatchesAt` is the language of the regex;
    `Find` is `Regex::find` and is proved to return the leftmost match,
    extended as far as the run goes.
 */
module Links {
  import opened Wrappers
  import opened Text

  datatype Platform = TikTok | Instagram
  datatype Link = Link(platform: Platform, url: string)

  /** `https?://`, the greedy `s?` trying "https" first. */
  const Schemes: seq<string> := ["https://", "http://"]

  /** A head `scheme subdomain domain section`, each part one of its listed
      alternatives in the order the regex tries them. An optional part lists
      "" last (a greedy `?`); a missing part is the single alternative "". */
  datatype Pattern = Pattern(subdomains: seq<string>, domain: string, sections: seq<string>)

  const TikTokPattern: Pattern := Pattern(["www.", "vm.", "vt.", "m.", "t.", ""], "tiktok.com/", [""])
  const InstagramPattern: Pattern := Pattern(["www.", ""], "instagram.com/", ["reel/", "p/", "t/", "v/"])

  function PatternOf(platform: Platform): Pattern {
    match platform
    case TikTok => TikTokPattern
    case Instagram => InstagramPattern
  }

  predicate ValidChoice(p: Pattern, a: nat, b: nat, c: nat) {
    a < |Schemes| && b < |p.subdomains| && c < |p.sections|
  }

  function Head(p: Pattern, a: nat, b: nat, c: nat): string
    requires ValidChoice(p, a, b, c)
  {
    Schemes[a] + p.subdomains[b] + p.domain + p.sections[c]
  }

  /** `text[i..k]` is `h` followed by one or more non-whitespace characters. */
  predicate HeadRun(text: string, i: nat, k: nat, h: string) {
    i + |h| < k <= |text| && text[i..i + |h|] == h && NoSpace(text[i + |h|..k])
  }

  /** `text[i..k]` is a match of `p` through head choice `(a, b, c)`. */
  predicate MatchesWith(p: Pattern, text: string, i: nat, k: nat, a: nat, b: nat, c: nat) {
    ValidChoice(p, a, b, c) && HeadRun(text, i, k, Head(p, a, b, c))
  }

  /** The regex's language: `text[i..k]` is a match of `p`. */
  ghost predicate MatchesAt(p: Pattern, text: string, i: nat, k: nat) {
    exists a: nat, b: nat, c: nat :: MatchesWith(p, text, i, k, a, b, c)
  }

  ghost predicate HasMatch(p: Pattern, text: string) {
    exists j: nat, k: nat :: MatchesAt(p, text, j, k)
  }

  /** `url` as a whole is a match of `p`. */
  ghost predicate InLanguage(p: Pattern, url: string) {
    MatchesAt(p, url, 0, |url|)
  }

  /** `text[s..e]` is the match `Regex::find` reports: no match starts before
      `s`, and no match starting at `s` ends after `e`. */
  ghost predicate IsLeftmostLongest(p: Pattern, text: string, s: nat, e: nat) {
    && MatchesAt(p, text, s, e)
    && (forall j: nat, k: nat :: j < s ==> !MatchesAt(p, text, j, k))
    && (forall k: nat :: MatchesAt(p, text, s, k) ==> k <= e)
  }

  /** No part of the pattern contains whitespace. */
  predicate SpaceFree(p: Pattern) {
    && (forall a :: 0 <= a < |Schemes| ==> NoSpace(Schemes[a]))
    && (forall b :: 0 <= b < |p.subdomains| ==> NoSpace(p.subdomains[b]))
    && NoSpace(p.domain)
    && (forall c :: 0 <= c < |p.sections| ==> NoSpace(p.sections[c]))
  }

  lemma PatternsSpaceFree()
    ensures SpaceFree(TikTokPattern) && SpaceFree(InstagramPattern)
  {
    SchemesSpaceFree();
    TikTokSpaceFree();
    InstagramSpaceFree();
  }

  /** Printable ASCII other than the space character is not whitespace. */
  predicate Graphic(s: string) {
    forall i :: 0 <= i < |s| ==> '!' <= s[i] <= '~'
  }

  lemma GraphicNoSpace(s: string)
    requires Graphic(s)
    ensures NoSpace(s)
  {
  }

  lemma SchemesSpaceFree()
    ensures forall a :: 0 <= a < |Schemes| ==> NoSpace(Schemes[a])
  {
    GraphicNoSpace(Schemes[0]);
    GraphicNoSpace(Schemes[1]);
  }

  lemma TikTokSpaceFree()
    ensures forall b :: 0 <= b < |TikTokPattern.subdomains| ==> NoSpace(TikTokPattern.subdomains[b])
    ensures NoSpace(TikTokPattern.domain)
    ensures forall c :: 0 <= c < |TikTokPattern.sections| ==> NoSpace(TikTokPattern.sections[c])
  {
    var p := TikTokPattern;
    forall b | 0 <= b < |p.subdomains| ensures NoSpace(p.subdomains[b]) {
      GraphicNoSpace(p.subdomains[b]);
    }
    GraphicNoSpace(p.domain);
  }

  lemma InstagramSpaceFree()
    ensures forall b :: 0 <= b < |InstagramPattern.subdomains| ==> NoSpace(InstagramPattern.subdomains[b])
    ensures NoSpace(InstagramPattern.domain)
    ensures forall c :: 0 <= c < |InstagramPattern.sections| ==> NoSpace(InstagramPattern.sections[c])
  {
    var p := InstagramPattern;
    forall b | 0 <= b < |p.subdomains| ensures NoSpace(p.subdomains[b]) {
      GraphicNoSpace(p.subdomains[b]);
    }
    GraphicNoSpace(p.domain);
    forall c | 0 <= c < |p.sections| ensures NoSpace(p.sections[c]) {
      GraphicNoSpace(p.sections[c]);
    }
  }

  lemma HeadSpaceFree(p: Pattern, a: nat, b: nat, c: nat)
    requires SpaceFree(p) && ValidChoice(p, a, b, c)
    ensures NoSpace(Head(p, a, b, c))
  {
    NoSpaceConcat(Schemes[a], p.subdomains[b]);
    NoSpaceConcat(Schemes[a] + p.subdomains[b], p.domain);
    NoSpaceConcat(Schemes[a] + p.subdomains[b] + p.domain, p.sections[c]);
  }

  /** `h` occurs at `text[i..]` and is followed by a non-whitespace character. */
  predicate HeadStarts(text: string, i: nat, h: string) {
    i + |h| < |text| && text[i..i + |h|] == h && !IsSpace(text[i + |h|])
  }

  /** Head choice `(a, b, c)` of `p` starts a match at `i`. */
  predicate StartsWith(p: Pattern, text: string, i: nat, a: nat, b: nat, c: nat) {
    ValidChoice(p, a, b, c) && HeadStarts(text, i, Head(p, a, b, c))
  }

  /** Choice `(a, b, c)` comes no earlier than `(a0, b0, c0)` in the order the
      regex tries alternatives (scheme slowest, section fastest). */
  predicate NotBefore(a: nat, b: nat, c: nat, a0: nat, b0: nat, c0: nat) {
    a > a0 || (a == a0 && (b > b0 || (b == b0 && c >= c0)))
  }

  /** Trying the heads from choice `(a, b, c)` on: the length of the first one
      that starts a match at `i`. */
  function FirstHead(p: Pattern, text: string, i: nat, a: nat, b: nat, c: nat): (r: Option<nat>)
    requires a <= |Schemes| && b <= |p.subdomains| && c <= |p.sections|
    ensures r.Some? ==> exists a': nat, b': nat, c': nat ::
      StartsWith(p, text, i, a', b', c') && |Head(p, a', b', c')| == r.value
    ensures r.None? ==> forall a': nat, b': nat, c': nat ::
      NotBefore(a', b', c', a, b, c) ==> !StartsWith(p, text, i, a', b', c')
    decreases |Schemes| - a, |p.subdomains| - b, |p.sections| - c
  {
    if a == |Schemes| then None
    else if b == |p.subdomains| then FirstHead(p, text, i, a + 1, 0, 0)
    else if c == |p.sections| then FirstHead(p, text, i, a, b + 1, 0)
    else if HeadStarts(text, i, Head(p, a, b, c)) then Some(|Head(p, a, b, c)|)
    else FirstHead(p, text, i, a, b, c + 1)
  }

  /** The first head of `p` that starts a match at `i`. */
  function HeadAt(p: Pattern, text: string, i: nat): (r: Option<nat>)
    ensures r.Some? ==> exists a: nat, b: nat, c: nat ::
      StartsWith(p, text, i, a, b, c) && |Head(p, a, b, c)| == r.value
    ensures r.None? ==> forall a: nat, b: nat, c: nat :: !StartsWith(p, text, i, a, b, c)
  {
    FirstHead(p, text, i, 0, 0, 0)
  }

  /** The end of the run of non-whitespace characters starting at `j`. */
  function RunEnd(text: string, j: nat): (e: nat)
    requires j <= |text|
    ensures j <= e <= |text|
    ensures NoSpace(text[j..e])
    ensures e == |text| || IsSpace(text[e])
    decreases |text| - j
  {
    if j == |text| || IsSpace(text[j]) then j
    else
      var e := RunEnd(text, j + 1);
      assert text[j..e] == [text[j]] + text[j + 1..e];
      e
  }

  /** A match of `p` starting at `i` never reaches past the whitespace that
      ends the run starting at `i`. */
  lemma MatchEndBound(p: Pattern, text: string, i: nat, k: nat)
    requires SpaceFree(p) && MatchesAt(p, text, i, k) && i <= |text|
    ensures k <= RunEnd(text, i)
  {
    var a: nat, b: nat, c: nat :| MatchesWith(p, text, i, k, a, b, c);
    var h := Head(p, a, b, c);
    HeadSpaceFree(p, a, b, c);
    assert text[i..k] == h + text[i + |h|..k];
    NoSpaceConcat(h, text[i + |h|..k]);
  }

  /** A match through choice `(a, b, c)` begins with that head and a
      non-whitespace character. */
  lemma MatchStartsWithHead(p: Pattern, text: string, i: nat, k: nat, a: nat, b: nat, c: nat)
    requires MatchesWith(p, text, i, k, a, b, c)
    ensures StartsWith(p, text, i, a, b, c)
  {
    var h := Head(p, a, b, c);
    assert text[i + |h|] == text[i + |h|..k][0];
  }

  /** Where no head starts a match at `i`, no match starts at `i`. */
  lemma NoHeadNoMatch(p: Pattern, text: string, i: nat, k: nat)
    requires HeadAt(p, text, i).None?
    ensures !MatchesAt(p, text, i, k)
  {
    if MatchesAt(p, text, i, k) {
      var a: nat, b: nat, c: nat :| MatchesWith(p, text, i, k, a, b, c);
      MatchStartsWithHead(p, text, i, k, a, b, c);
    }
  }

  /** Where a head starts a match at `i`, the match runs to the whitespace
      that ends the run starting at `i`. */
  lemma HeadGivesMatch(p: Pattern, text: string, i: nat)
    requires SpaceFree(p) && i <= |text| && HeadAt(p, text, i).Some?
    ensures var n := HeadAt(p, text, i).value;
      && i + n < |text|
      && RunEnd(text, i + n) == RunEnd(text, i)
      && MatchesAt(p, text, i, RunEnd(text, i))
  {
    var len := HeadAt(p, text, i).value;
    var a: nat, b: nat, c: nat :| StartsWith(p, text, i, a, b, c) && |Head(p, a, b, c)| == len;
    var h := Head(p, a, b, c);
    HeadSpaceFree(p, a, b, c);
    assert text[i..i + len] == h;
    RunEndAfterNoSpace(text, i, i + len);
    var e := RunEnd(text, i + len);
    assert e == RunEnd(text, i + len + 1) >= i + len + 1;
    assert HeadRun(text, i, e, h);
    assert MatchesWith(p, text, i, e, a, b, c);
  }

  lemma RunEndAfterNoSpace(text: string, i: nat, j: nat)
    requires i <= j <= |text| && NoSpace(text[i..j])
    ensures RunEnd(text, j) == RunEnd(text, i)
    decreases j - i
  {
    if i < j {
      assert text[i] == text[i..j][0];
      assert text[i + 1..j] == text[i..j][1..];
      RunEndAfterNoSpace(text, i + 1, j);
    }
  }

  /** What a search from `i` should report: the first position from `i` on
      where a match starts, with the longest match there, which ends at
      whitespace or at the end of the text; or nothing when no match starts
      at or after `i`. */
  ghost predicate SearchResult(p: Pattern, text: string, i: nat, r: Option<(nat, nat)>) {
    match r
    case Some((s, e)) =>
      && i <= s
      && MatchesAt(p, text, s, e)
      && (forall j: nat, k: nat :: i <= j < s ==> !MatchesAt(p, text, j, k))
      && (forall k: nat :: MatchesAt(p, text, s, k) ==> k <= e)
      && (e == |text| || (e < |text| && IsSpace(text[e])))
    case None => forall j: nat, k: nat :: i <= j ==> !MatchesAt(p, text, j, k)
  }

  /** `Regex::find` on `text[i..]`: the first position from `i` on where a
      head starts a match, and the end of the run that follows it. */
  function FindFrom(p: Pattern, text: string, i: nat): (r: Option<(nat, nat)>)
    requires SpaceFree(p) && i <= |text|
    ensures SearchResult(p, text, i, r)
    decreases |text| - i
  {
    match HeadAt(p, text, i)
    case Some(n) =>
      FoundHere(p, text, i);
      Some((i, RunEnd(text, i + n)))
    case None =>
      NothingHere(p, text, i);
      if i == |text| then
        NothingAfterEnd(p, text);
        None
      else
        var r := FindFrom(p, text, i + 1);
        SearchStep(p, text, i, r);
        r
  }

  /** No match starts at the end of the text. */
  lemma NothingAfterEnd(p: Pattern, text: string)
    ensures forall j: nat, k: nat :: |text| <= j ==> !MatchesAt(p, text, j, k)
  {
    forall j: nat, k: nat | |text| <= j ensures !MatchesAt(p, text, j, k) {
      if MatchesAt(p, text, j, k) {
        MatchInside(p, text, j, k);
      }
    }
  }

  /** A match lies inside the text and is not empty. */
  lemma MatchInside(p: Pattern, text: string, j: nat, k: nat)
    requires MatchesAt(p, text, j, k)
    ensures j < k <= |text|
  {
    var a: nat, b: nat, c: nat :| MatchesWith(p, text, j, k, a, b, c);
  }

  /** With no match at `i`, what a search from `i + 1` reports is right for `i` too. */
  lemma SearchStep(p: Pattern, text: string, i: nat, r: Option<(nat, nat)>)
    requires forall k: nat :: !MatchesAt(p, text, i, k)
    requires SearchResult(p, text, i + 1, r)
    ensures SearchResult(p, text, i, r)
  {
    match r
    case Some((s, e)) =>
      assert forall j: nat, k: nat :: i <= j < s ==> !MatchesAt(p, text, j, k) by {
        forall j: nat, k: nat | i <= j < s ensures !MatchesAt(p, text, j, k) {
          if j > i {
            assert i + 1 <= j < s;
          }
        }
      }
    case None =>
      assert forall j: nat, k: nat :: i <= j ==> !MatchesAt(p, text, j, k) by {
        forall j: nat, k: nat | i <= j ensures !MatchesAt(p, text, j, k) {
          if j > i {
            assert i + 1 <= j;
          }
        }
      }
  }

  /** Where a head starts a match at `i`, the run after it ends the longest match at `i`. */
  lemma FoundHere(p: Pattern, text: string, i: nat)
    requires SpaceFree(p) && i <= |text| && HeadAt(p, text, i).Some?
    ensures i + HeadAt(p, text, i).value < |text|
    ensures SearchResult(p, text, i, Some((i, RunEnd(text, i + HeadAt(p, text, i).value))))
  {
    HeadGivesMatch(p, text, i);
    forall k: nat | MatchesAt(p, text, i, k) ensures k <= RunEnd(text, i) {
      MatchEndBound(p, text, i, k);
    }
  }

  lemma NothingHere(p: Pattern, text: string, i: nat)
    requires HeadAt(p, text, i).None?
    ensures forall k: nat :: !MatchesAt(p, text, i, k)
  {
    forall k: nat ensures !MatchesAt(p, text, i, k) {
      NoHeadNoMatch(p, text, i, k);
    }
  }

  /** `Regex::find`: the leftmost match of `p` in `text`, extended greedily. */
  function Find(p: Pattern, text: string): (r: Option<(nat, nat)>)
    requires SpaceFree(p)
    ensures r.Some? ==> IsLeftmostLongest(p, text, r.value.0, r.value.1)
    ensures r.Some? ==> r.value.1 == |text| || IsSpace(text[r.value.1])
    ensures r.None? <==> !HasMatch(p, text)
  {
    FindFrom(p, text, 0)
  }

  /** A match, cut out of its text, is a match on its own. */
  lemma MatchSlice(p: Pattern, text: string, s: nat, e: nat)
    requires MatchesAt(p, text, s, e) && s <= e <= |text|
    ensures InLanguage(p, text[s..e])
  {
    var a: nat, b: nat, c: nat :| MatchesWith(p, text, s, e, a, b, c);
    var h := Head(p, a, b, c);
    var u := text[s..e];
    assert u[0..|h|] == text[s..s + |h|];
    assert u[|h|..|u|] == text[s + |h|..e];
    assert MatchesWith(p, u, 0, |u|, a, b, c);
  }

  /** `url` is what `Regex::find` reports for `p` on `text`: the leftmost
      match, ending at whitespace or at the end of the text. */
  ghost predicate IsReported(p: Pattern, text: string, url: string) {
    exists s: nat, e: nat :: s <= e <= |text| && url == text[s..e]
      && IsLeftmostLongest(p, text, s, e)
      && (e == |text| || IsSpace(text[e]))
  }

  /** The link for `platform`, when its regex finds one in `text`. */
  function FindLink(platform: Platform, text: string): (r: Option<Link>)
    ensures r.None? <==> !HasMatch(PatternOf(platform), text)
    ensures r.Some? ==> r.value.platform == platform && IsReported(PatternOf(platform), text, r.value.url)
  {
    PatternsSpaceFree();
    match Find(PatternOf(platform), text)
    case Some((s, e)) => Some(Link(platform, text[s..e]))
    case None => None
  }

  /** A reported URL is a match on its own and holds no whitespace. */
  lemma ReportedUrlShape(p: Pattern, text: string, url: string)
    requires SpaceFree(p) && IsReported(p, text, url)
    ensures InLanguage(p, url) && NoSpace(url)
  {
    var s: nat, e: nat :| s <= e <= |text| && url == text[s..e] && IsLeftmostLongest(p, text, s, e);
    MatchSlice(p, text, s, e);
    MatchNoSpace(p, url);
  }

  lemma MatchNoSpace(p: Pattern, url: string)
    requires SpaceFree(p) && InLanguage(p, url)
    ensures NoSpace(url)
  {
    var a: nat, b: nat, c: nat :| MatchesWith(p, url, 0, |url|, a, b, c);
    var h := Head(p, a, b, c);
    HeadSpaceFree(p, a, b, c);
    assert url[|h|..] == url[0 + |h|..|url|];
    assert url == h + url[|h|..];
    NoSpaceConcat(h, url[|h|..]);
  }

  /** The link the relay acts on: the first TikTok match if there is one,
      otherwise the first Instagram match, otherwise nothing. */
  function Classify(text: string): (r: Option<Link>)
    ensures (r.Some? && r.value.platform == TikTok) <==> HasMatch(TikTokPattern, text)
    ensures (r.Some? && r.value.platform == Instagram) <==>
      !HasMatch(TikTokPattern, text) && HasMatch(InstagramPattern, text)
    ensures r.Some? ==> IsReported(PatternOf(r.value.platform), text, r.value.url)
  {
    match FindLink(TikTok, text)
    case Some(link) => Some(link)
    case None => FindLink(Instagram, text)
  }

  /** Every classified URL has the shape its regex describes:
      scheme, optional listed subdomain, domain, section, then one or more
      non-whitespace characters, and nothing else. */
  lemma ClassifiedUrlShape(text: string)
    requires Classify(text).Some?
    ensures InLanguage(PatternOf(Classify(text).value.platform), Classify(text).value.url)
    ensures NoSpace(Classify(text).value.url)
  {
    PatternsSpaceFree();
    ReportedUrlShape(PatternOf(Classify(text).value.platform), text, Classify(text).value.url);
  }

  /** `Regex::find` reports one URL: at most one text is reported per pattern. */
  lemma ReportedUnique(p: Pattern, text: string, u1: string, u2: string)
    requires IsReported(p, text, u1) && IsReported(p, text, u2)
    ensures u1 == u2
  {
    var s1: nat, e1: nat :| s1 <= e1 <= |text| && u1 == text[s1..e1] && IsLeftmostLongest(p, text, s1, e1);
    var s2: nat, e2: nat :| s2 <= e2 <= |text| && u2 == text[s2..e2] && IsLeftmostLongest(p, text, s2, e2);
    assert s1 == s2;
    assert e1 <= e2 && e2 <= e1;
  }

  /** Every match begins with "http". */
  lemma MatchStartsHttp(p: Pattern, text: string, j: nat, k: nat)
    requires MatchesAt(p, text, j, k)
    ensures j + 4 <= |text| && text[j..j + 4] == "http"
  {
    var a: nat, b: nat, c: nat :| MatchesWith(p, text, j, k, a, b, c);
    var h := Head(p, a, b, c);
    assert h[..4] == "http";
    assert text[j..j + 4] == text[j..j + |h|][..4];
  }
}

