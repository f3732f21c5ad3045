/** The feed's URL collectors: the anchor loop of `collect_listing_urls` (both crawlers), the
    `href="…"` scan of `extract_urls_from_html` and the order in which the SQLite crawler and
    the CSV crawler fall back from one source of URLs to the next. */
module FeedUrls {
  import opened Text
  import opened Opt
  import opened Lists
  import opened ListingIds

  /** `BASE.rstrip("/")` of the SQLite crawler. */
  const BaseRoot: string := "https://www.realestate.com.au"

  /** `u.split("#", 1)[0]`: everything before the first `#`. */
  function BeforeHash(u: string): (r: string)
    ensures '#' !in r && StartsWith(u, r)
    ensures '#' !in u ==> r == u
    ensures r != u ==> u[|r|] == '#'
  {
    if u == [] || u[0] == '#' then []
    else
      var t := BeforeHash(u[1..]);
      assert u[..1 + |t|] == [u[0]] + u[1..][..|t|];
      [u[0]] + t
  }

  /** The URL a collector tests for an href: fragment cut off, and, in the HTML scan, a
      root-relative href made absolute first. */
  function Candidate(u: string, absolutize: bool): string {
    BeforeHash(if absolutize && StartsWith(u, "/") then BaseRoot + u else u)
  }

  /** The candidates of `urls`, in order. */
  function Candidates(urls: seq<string>, absolutize: bool): (r: seq<string>)
    ensures |r| == |urls|
  {
    if urls == [] then [] else Candidates(urls[..|urls| - 1], absolutize) + [Candidate(urls[|urls| - 1], absolutize)]
  }

  lemma {:induction false} CandidatesAt(urls: seq<string>, absolutize: bool, i: nat)
    requires i < |urls|
    ensures Candidates(urls, absolutize)[i] == Candidate(urls[i], absolutize)
  {
    if i < |urls| - 1 {
      CandidatesAt(urls[..|urls| - 1], absolutize, i);
    }
  }

  lemma CandidatesSnoc(urls: seq<string>, u: string, absolutize: bool)
    ensures Candidates(urls + [u], absolutize) == Candidates(urls, absolutize) + [Candidate(u, absolutize)]
  {
    assert (urls + [u])[..|urls|] == urls;
  }

  /** The loop `u = …; if re.search(r"-\d{6,}$", u) and u not in seen: …` over `urls`. */
  function KeptUrls(urls: seq<string>, absolutize: bool): seq<string> {
    Dedup(Filter(Candidates(urls, absolutize), HasListingSuffix))
  }

  /** The tail of the loop body: keep the candidate `u` if it is a listing URL not seen yet. */
  method KeepListingUrl(out: seq<string>, seen: set<string>, ghost cands: seq<string>, u: string)
    returns (out': seq<string>, seen': set<string>)
    requires out == Dedup(Filter(cands, HasListingSuffix))
    requires forall x :: x in seen <==> x in Filter(cands, HasListingSuffix)
    ensures out' == Dedup(Filter(cands + [u], HasListingSuffix))
    ensures forall x :: x in seen' <==> x in Filter(cands + [u], HasListingSuffix)
  {
    FilterSnoc(cands, u, HasListingSuffix);
    out', seen' := out, seen;
    if HasListingSuffix(u) {
      DedupSnoc(Filter(cands, HasListingSuffix), u);
      if u !in seen {
        seen' := seen + {u};
        out' := out + [u];
      }
    }
  }

  /** The anchor loop of `collect_listing_urls`: empty hrefs skipped, fragments cut off,
      only listing URLs kept, each once, in first-seen order. */
  method CollectCardUrls(urls: seq<string>) returns (out: seq<string>)
    ensures out == KeptUrls(urls, false)
  {
    out := [];
    var seen: set<string> := {};
    var i := 0;
    while i < |urls|
      invariant 0 <= i <= |urls|
      invariant out == KeptUrls(urls[..i], false)
      invariant forall x :: x in seen <==> x in Filter(Candidates(urls[..i], false), HasListingSuffix)
    {
      var u := urls[i];
      ghost var cands := Candidates(urls[..i], false);
      assert urls[..i + 1] == urls[..i] + [u];
      CandidatesSnoc(urls[..i], u, false);
      i := i + 1;
      if u == "" {
        FilterSnoc(cands, Candidate(u, false), HasListingSuffix);
        continue;
      }
      u := BeforeHash(u);
      out, seen := KeepListingUrl(out, seen, cands, u);
    }
    assert urls[..|urls|] == urls;
  }

  // ---------------------------------------------------------------------------
  // `re.findall(r'href="([^"]+-\d{6,})"', html)`

  const HrefOpen: string := "href=\""

  /** Index of the first `"` at or after `j`, or the end. */
  function QuoteEnd(h: string, j: nat): (q: nat)
    requires j <= |h|
    ensures j <= q <= |h| && '"' !in h[j..q]
    ensures q < |h| ==> h[q] == '"'
    decreases |h| - j
  {
    if j < |h| && h[j] != '"' then
      var q := QuoteEnd(h, j + 1);
      assert h[j..q] == [h[j]] + h[j + 1..q];
      q
    else j
  }

  /** The quoted text matches `[^"]+-\d{6,}` in full: at least one character, then a `-`
      right before the six or more digits that end it. */
  predicate HrefValueMatches(t: string) {
    var n := TrailingDigitCount(t);
    6 <= n && n + 1 < |t| && t[|t| - 1 - n] == '-'
  }

  /** The match starting at `i`, if any: its group, and where scanning resumes. The group
      cannot hold a `"`, so it is the whole text up to the next quote. */
  function HrefAt(h: string, i: nat): (r: Option<(string, nat)>)
    ensures r.Some? ==> i < r.value.1 <= |h| && HrefValueMatches(r.value.0) && '"' !in r.value.0
  {
    if OccursAt(h, HrefOpen, i) then
      var j := i + |HrefOpen|;
      var q := QuoteEnd(h, j);
      if q < |h| && HrefValueMatches(h[j..q]) then Some((h[j..q], q + 1)) else None
    else None
  }

  /** The groups of the non-overlapping matches at or after `from`, left to right. */
  function FindAllHrefs(h: string, from: nat): (r: seq<string>)
    requires from <= |h|
    decreases |h| - from
  {
    if from == |h| then []
    else match HrefAt(h, from)
      case Some((g, next)) => [g] + FindAllHrefs(h, next)
      case None => FindAllHrefs(h, from + 1)
  }

  /** Every group found is a full match of `[^"]+-\d{6,}` and holds no quote. */
  lemma {:induction false} FindAllHrefsMatch(h: string, from: nat)
    requires from <= |h|
    ensures forall k :: 0 <= k < |FindAllHrefs(h, from)| ==>
      HrefValueMatches(FindAllHrefs(h, from)[k]) && '"' !in FindAllHrefs(h, from)[k]
    decreases |h| - from
  {
    if from < |h| {
      match HrefAt(h, from)
      case Some((g, next)) =>
        FindAllHrefsMatch(h, next);
        assert FindAllHrefs(h, from) == [g] + FindAllHrefs(h, next);
      case None =>
        FindAllHrefsMatch(h, from + 1);
    }
  }

  /** What `extract_urls_from_html` returns. */
  function HtmlUrlsOf(h: string): seq<string> {
    KeptUrls(FindAllHrefs(h, 0), true)
  }

  /** `extract_urls_from_html`: the loop over the scanned hrefs. */
  method ExtractUrlsFromHtml(h: string) returns (out: seq<string>)
    ensures out == HtmlUrlsOf(h)
  {
    var found := FindAllHrefs(h, 0);
    out := KeepScannedUrls(found);
  }

  /** The loop of `extract_urls_from_html` over the groups `re.findall` returned. */
  method KeepScannedUrls(found: seq<string>) returns (out: seq<string>)
    ensures out == KeptUrls(found, true)
  {
    out := [];
    var seen: set<string> := {};
    var i := 0;
    while i < |found|
      invariant 0 <= i <= |found|
      invariant out == KeptUrls(found[..i], true)
      invariant forall x :: x in seen <==> x in Filter(Candidates(found[..i], true), HasListingSuffix)
    {
      var u := found[i];
      ghost var cands := Candidates(found[..i], true);
      assert found[..i + 1] == found[..i] + [u];
      CandidatesSnoc(found[..i], u, true);
      i := i + 1;
      if u == "" {
        FilterSnoc(cands, Candidate(u, true), HasListingSuffix);
        continue;
      }
      ghost var raw := u;
      if StartsWith(u, "/") {
        u := BaseRoot + u;
      }
      u := BeforeHash(u);
      assert u == Candidate(raw, true);
      out, seen := KeepListingUrl(out, seen, cands, u);
    }
    assert found[..|found|] == found;
  }

  // ---------------------------------------------------------------------------
  // Fallback order

  /** `collect_listing_urls` of the SQLite crawler. `cards` is what the card query returned
      ([] when it raised); `page` is the rendered HTML, `None` when reading it raised. The
      HTML is scanned only when the cards give no listing URL. */
  function SqliteCollectUrls(cards: seq<string>, page: Option<string>): seq<string> {
    var out := KeptUrls(cards, false);
    if out != [] then out
    else if page.None? then []
    else HtmlUrlsOf(page.value)
  }

  /** `collect_listing_urls` of the CSV crawler: the anchors of every `a[href]` are read
      only when the card query returned nothing; the same loop filters either list. */
  function CsvCollectUrls(cards: seq<string>, anchors: seq<string>): seq<string> {
    KeptUrls(if cards != [] then cards else anchors, false)
  }

  // ---------------------------------------------------------------------------
  // Properties

  /** The kept URLs are distinct, carry no fragment and end in `-` and six or more digits;
      they are exactly the candidates that pass the test. */
  lemma KeptUrlsFacts(urls: seq<string>, absolutize: bool)
    ensures NoDup(KeptUrls(urls, absolutize))
    ensures forall x :: x in KeptUrls(urls, absolutize) <==>
      (HasListingSuffix(x) && exists i :: 0 <= i < |urls| && Candidate(urls[i], absolutize) == x)
  {
    forall x ensures x in KeptUrls(urls, absolutize) <==>
      (HasListingSuffix(x) && exists i :: 0 <= i < |urls| && Candidate(urls[i], absolutize) == x)
    {
      var c := Candidates(urls, absolutize);
      if x in c {
        var i :| 0 <= i < |c| && c[i] == x;
        CandidatesAt(urls, absolutize, i);
      }
      if exists i :: 0 <= i < |urls| && Candidate(urls[i], absolutize) == x {
        var i :| 0 <= i < |urls| && Candidate(urls[i], absolutize) == x;
        CandidatesAt(urls, absolutize, i);
        assert c[i] == x;
      }
    }
  }

  /** No collected URL carries a fragment. */
  lemma KeptUrlsHaveNoFragment(urls: seq<string>, absolutize: bool, x: string)
    requires x in KeptUrls(urls, absolutize)
    ensures '#' !in x && HasListingSuffix(x)
  {
    KeptUrlsFacts(urls, absolutize);
  }

  /** A root-relative href is prefixed with the site's address. */
  lemma RootedHrefGetsBase(u: string)
    requires StartsWith(u, "/")
    ensures StartsWith(Candidate(u, true), BaseRoot + "/")
  {
    var v := BaseRoot + u;
    assert v[..|BaseRoot| + 1] == BaseRoot + "/";
    assert '#' !in BaseRoot + "/";
    BeforeHashKeepsPrefix(v, BaseRoot + "/");
  }

  lemma {:induction false} BeforeHashKeepsPrefix(u: string, p: string)
    requires StartsWith(u, p) && '#' !in p
    ensures StartsWith(BeforeHash(u), p)
  {
    if p != [] {
      assert u[0] == p[0];
      assert u[1..][..|p| - 1] == p[1..];
      BeforeHashKeepsPrefix(u[1..], p[1..]);
    }
  }

  /** The collectors keep first-seen order: of two kept URLs, the one listed first is the
      one whose first candidate comes first. */
  lemma KeptUrlsOrder(urls: seq<string>, absolutize: bool, i: nat, j: nat)
    requires i < j < |KeptUrls(urls, absolutize)|
    ensures var c := Filter(Candidates(urls, absolutize), HasListingSuffix);
      KeptUrls(urls, absolutize)[i] in c && KeptUrls(urls, absolutize)[j] in c
      && IndexOf(c, KeptUrls(urls, absolutize)[i]) < IndexOf(c, KeptUrls(urls, absolutize)[j])
  {
    DedupFirstSeenOrder(Filter(Candidates(urls, absolutize), HasListingSuffix), i, j);
  }

  /** Every collected URL yields a listing id, and it is the one its suffix carries. */
  lemma CollectedUrlHasId(u: string)
    requires HasListingSuffix(u)
    ensures ExtractListingId(u) != "" && ExtractListingId(u) == SuffixId(u)
  {
  }

  /** A page holding a single anchor `href="<slug>-<id>"` yields that href. */
  lemma FindAllOfOneAnchor(slug: string, id: string)
    requires slug != [] && '"' !in slug && |id| >= 6 && AllDigits(id)
    ensures FindAllHrefs(HrefOpen + (slug + "-" + id) + "\"", 0) == [slug + "-" + id]
  {
    CardHrefMatches(slug, id);
    FindAllOfOneHref(slug + "-" + id);
  }

  lemma FindAllOfOneHref(t: string)
    requires HrefValueMatches(t) && '"' !in t
    ensures FindAllHrefs(HrefOpen + t + "\"", 0) == [t]
  {
    var h := HrefOpen + t + "\"";
    HrefAtOne(t);
    assert FindAllHrefs(h, |h|) == [];
  }

  lemma HrefAtOne(t: string)
    requires HrefValueMatches(t) && '"' !in t
    ensures HrefAt(HrefOpen + t + "\"", 0) == Some((t, |HrefOpen + t + "\""|))
  {
    var h := HrefOpen + t + "\"";
    assert OccursAt(h, HrefOpen, 0) by {
      assert h[..|HrefOpen|] == HrefOpen;
    }
    var j := |HrefOpen|;
    assert |h| == j + |t| + 1 && h[j + |t|] == '"';
    assert h[j..j + |t|] == t;
    QuoteOver(h, j, t);
    assert QuoteEnd(h, j) == j + |t|;
  }

  /** `<slug>-<id>` matches `[^"]+-\d{6,}` in full. */
  lemma CardHrefMatches(slug: string, id: string)
    requires slug != [] && |id| >= 6 && AllDigits(id)
    ensures HrefValueMatches(slug + "-" + id)
  {
    var t := slug + "-" + id;
    assert t == (slug + "-") + id;
    TrailingDigitsOfDigits(slug + "-", id);
    assert t[|t| - 1 - |id|] == '-';
  }

  lemma {:induction false} QuoteOver(h: string, j: nat, t: string)
    requires j + |t| < |h| && h[j..j + |t|] == t && '"' !in t && h[j + |t|] == '"'
    ensures QuoteEnd(h, j) == j + |t|
    decreases |t|
  {
    if t != [] {
      assert h[j] == t[0];
      assert h[j + 1..j + 1 + |t[1..]|] == t[1..];
      QuoteOver(h, j + 1, t[1..]);
    }
  }

  /** The SQLite collector scans the HTML only when the cards give no listing URL. */
  lemma SqliteFallbackOnlyWhenEmpty(cards: seq<string>, p1: Option<string>, p2: Option<string>)
    requires KeptUrls(cards, false) != []
    ensures SqliteCollectUrls(cards, p1) == SqliteCollectUrls(cards, p2) == KeptUrls(cards, false)
  {
  }

  /** The CSV collector reads all anchors only when the card query returned nothing. */
  lemma CsvAnchorsOnlyWhenNoCards(cards: seq<string>, a1: seq<string>, a2: seq<string>)
    requires cards != []
    ensures CsvCollectUrls(cards, a1) == CsvCollectUrls(cards, a2)
  {
  }
}
