/** The per-URL steps of the two crawl loops: the SQLite crawler skips URLs without an id,
    touches known listings and scrapes and upserts new ones; the CSV crawler skips seen keys,
    and marks a key seen only once its row is written. Also the feed retry loop and the
    stop flag the signal handlers set. */
module Crawl {
  import opened Opt
  import opened ListingIds
  import opened Reconcile
  import opened Store
  import opened SeenIds

  // ---------------------------------------------------------------------------
  // The SQLite crawler

  /** What visiting one listing URL gave: the rendered page (`None` when Playwright raised)
      and the clock readings the step takes. */
  datatype SqliteVisit = SqliteVisit(fetched: Option<ListingPage>, touchedAt: string,
                                     scrapedAt: string, lastSeenAt: string)

  /** What the loop body of `main` works from for URL `u`: the URL's listing id, the time
      `db_touch_seen` stamps, and what `scrape_listing_fast` gives on the loaded page
      (`None` when loading failed). The scrape is only consulted for an id the table
      lacks. */
  datatype UrlPass = UrlPass(lid: string, touchedAt: string, scraped: Option<Outcome<Row>>)

  function PassOf(u: string, v: SqliteVisit): UrlPass {
    UrlPass(ExtractListingId(u), v.touchedAt,
            match v.fetched
            case None => None
            case Some(p) => Some(ScrapeListingFastOf(p, u, v.scrapedAt, v.lastSeenAt)))
  }

  /** The table after the loop body of `main` handles one URL. */
  function SqliteStep(rows: map<string, Row>, pass: UrlPass): map<string, Row> {
    if pass.lid == "" then rows
    else if pass.lid in rows then Touched(rows, pass.lid, pass.touchedAt)
    else match pass.scraped
      case None => rows
      case Some(Raised) => rows
      case Some(Returned(row)) => if row.listingId != "" then Upserted(rows, row) else rows
  }

  /** A listing the table already holds is only touched, whatever scraping its page would
      give: it is never scraped again. */
  lemma KnownListingOnlyTouched(rows: map<string, Row>, pass: UrlPass)
    requires pass.lid in rows && pass.lid != ""
    ensures SqliteStep(rows, pass) == Touched(rows, pass.lid, pass.touchedAt)
  {
  }

  /** A URL without an id, a failed page load and a raising scrape leave the table as it
      was. */
  lemma FailureLeavesTable(rows: map<string, Row>, pass: UrlPass)
    requires pass.lid !in rows || pass.lid == ""
    requires pass.scraped.None? || pass.scraped.value.Raised?
    ensures SqliteStep(rows, pass) == rows
  {
  }

  /** A step never drops a row, never stores a row under the empty id, and changes the
      row of at most one id. */
  lemma SqliteStepKeeps(rows: map<string, Row>, pass: UrlPass)
    ensures rows.Keys <= SqliteStep(rows, pass).Keys
    ensures "" !in rows ==> "" !in SqliteStep(rows, pass)
    ensures |SqliteStep(rows, pass).Keys - rows.Keys| <= 1
  {
    var r := SqliteStep(rows, pass);
    if pass.lid != "" && pass.lid !in rows && pass.scraped.Some? {
      var out := pass.scraped.value;
      if out.Returned? && out.value.listingId != "" {
        assert r.Keys - rows.Keys <= {out.value.listingId};
        SubsetCard(r.Keys - rows.Keys, {out.value.listingId});
      }
    }
  }

  lemma SubsetCard(a: set<string>, b: set<string>)
    requires a <= b
    ensures |a| <= |b|
  {
    assert b == a + (b - a);
  }

  /** The passes of a feed page's URLs, one visit each. */
  function PassesOf(urls: seq<string>, visits: seq<SqliteVisit>): seq<UrlPass>
    requires |visits| == |urls|
  {
    seq(|urls|, i requires 0 <= i < |urls| => PassOf(urls[i], visits[i]))
  }

  /** The table after handling `passes` in order. */
  function SqlitePageOf(rows: map<string, Row>, passes: seq<UrlPass>): map<string, Row> {
    if passes == [] then rows
    else
      var n := |passes| - 1;
      SqliteStep(SqlitePageOf(rows, passes[..n]), passes[n])
  }

  lemma SqlitePagePrefix(rows: map<string, Row>, passes: seq<UrlPass>, i: nat)
    requires i < |passes|
    ensures SqlitePageOf(rows, passes[..i + 1]) == SqliteStep(SqlitePageOf(rows, passes[..i]), passes[i])
  {
    var ps := passes[..i + 1];
    assert ps != [] && |ps| - 1 == i;
    assert ps[..i] == passes[..i] && ps[i] == passes[i];
  }

  /** Over a feed page, rows are never dropped and the empty id never gets a row. */
  lemma {:induction false} SqlitePageKeeps(rows: map<string, Row>, passes: seq<UrlPass>)
    ensures rows.Keys <= SqlitePageOf(rows, passes).Keys
    ensures "" !in rows ==> "" !in SqlitePageOf(rows, passes)
  {
    if passes != [] {
      var n := |passes| - 1;
      SqlitePageKeeps(rows, passes[..n]);
      SqliteStepKeeps(SqlitePageOf(rows, passes[..n]), passes[n]);
    }
  }

  /** `main`'s body for one listing URL, on the open connection. */
  method CrawlListing(store: ListingStore, u: string, v: SqliteVisit)
    modifies store
    ensures store.rows == SqliteStep(old(store.rows), PassOf(u, v))
    ensures store.columns == old(store.columns)
  {
    var lid := ExtractListingId(u);
    if lid == "" {
      return;
    }
    if store.Has(lid) {
      store.Touch(lid, v.touchedAt);
      return;
    }
    if v.fetched.None? {
      return;
    }
    var out := ScrapeListingFast(v.fetched.value, u, v.scrapedAt, v.lastSeenAt);
    StoreScraped(store, out);
  }

  /** The end of `main`'s body for a new listing: the row `scrape_listing_fast` returned is
      upserted unless its id is empty. */
  method StoreScraped(store: ListingStore, out: Outcome<Row>)
    modifies store
    ensures store.rows == if out.Returned? && out.value.listingId != "" then Upserted(old(store.rows), out.value)
                          else old(store.rows)
    ensures store.columns == old(store.columns)
  {
    if out.Returned? && out.value.listingId != "" {
      store.Upsert(out.value);
    }
  }

  /** The loop over one feed page's URLs; STOP is first seen before URL `stopBefore`
      (`|urls|` when it is not raised during the page). */
  method CrawlFeedPage(store: ListingStore, urls: seq<string>, visits: seq<SqliteVisit>, stopBefore: nat)
    requires |visits| == |urls|
    modifies store
    ensures var k := if stopBefore < |urls| then stopBefore else |urls|;
      store.rows == SqlitePageOf(old(store.rows), PassesOf(urls, visits)[..k])
    ensures store.columns == old(store.columns)
  {
    var k := if stopBefore < |urls| then stopBefore else |urls|;
    ghost var passes := PassesOf(urls, visits);
    for i := 0 to k
      invariant store.rows == SqlitePageOf(old(store.rows), passes[..i])
      invariant store.columns == old(store.columns)
    {
      CrawlListing(store, urls[i], visits[i]);
      assert passes[i] == PassOf(urls[i], visits[i]);
      SqlitePagePrefix(old(store.rows), passes, i);
    }
  }

  /** The retry loop around `collect_listing_urls`: up to `retries + 1` attempts, stopping
      at the first that finds URLs. `collectAt(k)` is what attempt `k` finds. */
  method CollectWithRetry(collectAt: nat -> seq<string>, retries: nat) returns (urls: seq<string>, tries: nat)
    ensures 1 <= tries <= retries + 1
    ensures urls == collectAt(tries - 1)
    ensures forall k :: 0 <= k < tries - 1 ==> collectAt(k) == []
    ensures urls == [] ==> tries == retries + 1
  {
    urls := [];
    tries := 0;
    while tries < retries + 1
      invariant tries <= retries + 1
      invariant forall k :: 0 <= k < tries ==> collectAt(k) == []
      invariant urls == []
    {
      urls := collectAt(tries);
      tries := tries + 1;
      if urls != [] {
        return;
      }
    }
  }

  /** `feed_retry_times`. */
  const FeedRetryTimes: nat := 2

  /** The feed collection of `main`: with `feed_retry_times` retries, at most three attempts. */
  method CollectFeedUrls(collectAt: nat -> seq<string>) returns (urls: seq<string>, tries: nat)
    ensures 1 <= tries <= 3
    ensures urls == collectAt(tries - 1)
    ensures forall k :: 0 <= k < tries - 1 ==> collectAt(k) == []
    ensures urls == [] ==> tries == 3
  {
    urls, tries := CollectWithRetry(collectAt, FeedRetryTimes);
  }

  // ---------------------------------------------------------------------------
  // The CSV crawler

  /** The key the CSV crawler remembers a listing by: its id, or the URL when it has none. */
  function SeenKey(u: string): (key: string)
    ensures key != "" <==> u != ""
    ensures ExtractListingId(u) != "" ==> key == ExtractListingId(u)
    ensures ExtractListingId(u) == "" ==> key == u
  {
    Or(ExtractListingId(u), u)
  }

  /** What visiting one listing URL gave the CSV crawler: `scrape_listing` raised, or it
      returned a record built from `page`, after which `append_csv` and `save_seen` each
      either succeeded or raised. */
  datatype CsvVisit =
    | ScrapeFailed
    | Scraped(page: CsvPage, detailsJson: string, scrapedAt: string, appended: bool, saved: bool)

  /** The CSV line `append_csv` writes for the record `scrape_listing` returns. */
  function RowLine(fields: seq<string>, p: CsvPage, u: string, dj: string, at: string): seq<string> {
    CsvLine(fields, ScrapeListingOf(p, u, dj, at).AsDict())
  }

  /** `scrape_listing` followed by the projection `append_csv` writes. */
  method ScrapeRow(fields: seq<string>, p: CsvPage, u: string, dj: string, at: string) returns (line: seq<string>)
    ensures line == RowLine(fields, p, u, dj, at)
    ensures |line| == |fields|
  {
    var record := ScrapeListing(p, u, dj, at);
    line := CsvLine(fields, record.AsDict());
  }

  /** Handling `u` writes a row: its key is new, `scrape_listing` returned and `append_csv`
      went through. */
  predicate Writes(seen: set<string>, u: string, v: CsvVisit) {
    SeenKey(u) !in seen && v.Scraped? && v.appended
  }

  /** The seen set after handling `u`: its key joins the set once its row is written. */
  function SeenAfter(seen: set<string>, u: string, v: CsvVisit): set<string> {
    if Writes(seen, u, v) then seen + {SeenKey(u)} else seen
  }

  /** The CSV file's lines after handling `u`. */
  function LinesAfter(fields: seq<string>, seen: set<string>, lines: seq<seq<string>>, u: string, v: CsvVisit): seq<seq<string>> {
    if Writes(seen, u, v) then lines + [RowLine(fields, v.page, u, v.detailsJson, v.scrapedAt)] else lines
  }

  /** A key already seen is skipped: nothing is scraped, written or marked. */
  lemma SeenKeySkipped(fields: seq<string>, seen: set<string>, lines: seq<seq<string>>, u: string, v: CsvVisit)
    requires SeenKey(u) in seen
    ensures SeenAfter(seen, u, v) == seen && LinesAfter(fields, seen, lines, u, v) == lines
  {
  }

  /** A failing scrape or append leaves the seen set and the file as they were, so the
      listing is tried again on a later pass. */
  lemma FailedVisitRetried(fields: seq<string>, seen: set<string>, lines: seq<seq<string>>, u: string, v: CsvVisit)
    requires v.ScrapeFailed? || !v.appended
    ensures SeenAfter(seen, u, v) == seen && LinesAfter(fields, seen, lines, u, v) == lines
    ensures SeenKey(u) !in seen ==> SeenKey(u) !in SeenAfter(seen, u, v)
  {
  }

  /** The seen set after handling `urls` in order. */
  function SeenAfterPage(seen: set<string>, urls: seq<string>, visits: seq<CsvVisit>): set<string>
    requires |visits| == |urls|
  {
    if urls == [] then seen
    else
      var n := |urls| - 1;
      SeenAfter(SeenAfterPage(seen, urls[..n], visits[..n]), urls[n], visits[n])
  }

  /** The CSV file's lines after handling `urls` in order. */
  function LinesAfterPage(fields: seq<string>, seen: set<string>, lines: seq<seq<string>>,
                          urls: seq<string>, visits: seq<CsvVisit>): seq<seq<string>>
    requires |visits| == |urls|
  {
    if urls == [] then lines
    else
      var n := |urls| - 1;
      LinesAfter(fields, SeenAfterPage(seen, urls[..n], visits[..n]),
                 LinesAfterPage(fields, seen, lines, urls[..n], visits[..n]), urls[n], visits[n])
  }

  lemma PagePrefix(fields: seq<string>, seen: set<string>, lines: seq<seq<string>>,
                   urls: seq<string>, visits: seq<CsvVisit>, i: nat)
    requires |visits| == |urls| && i < |urls|
    ensures SeenAfterPage(seen, urls[..i + 1], visits[..i + 1])
         == SeenAfter(SeenAfterPage(seen, urls[..i], visits[..i]), urls[i], visits[i])
    ensures LinesAfterPage(fields, seen, lines, urls[..i + 1], visits[..i + 1])
         == LinesAfter(fields, SeenAfterPage(seen, urls[..i], visits[..i]),
                       LinesAfterPage(fields, seen, lines, urls[..i], visits[..i]), urls[i], visits[i])
  {
    var us, vs := urls[..i + 1], visits[..i + 1];
    assert us != [] && |us| - 1 == i;
    assert us[..i] == urls[..i] && vs[..i] == visits[..i];
    assert us[i] == urls[i] && vs[i] == visits[i];
  }

  /** The seen set the last saving visit of `urls` wrote to the seen file, or `None` when no
      visit saved. */
  function LastSavedPage(seen: set<string>, urls: seq<string>, visits: seq<CsvVisit>): Option<set<string>>
    requires |visits| == |urls|
  {
    if urls == [] then None
    else
      var n := |urls| - 1;
      var mid := SeenAfterPage(seen, urls[..n], visits[..n]);
      if Saves(mid, urls[n], visits[n]) then Some(SeenAfter(mid, urls[n], visits[n]))
      else LastSavedPage(seen, urls[..n], visits[..n])
  }

  lemma SavedPrefix(seen: set<string>, urls: seq<string>, visits: seq<CsvVisit>, i: nat)
    requires |visits| == |urls| && i < |urls|
    ensures var mid := SeenAfterPage(seen, urls[..i], visits[..i]);
      LastSavedPage(seen, urls[..i + 1], visits[..i + 1])
      == if Saves(mid, urls[i], visits[i]) then Some(SeenAfter(mid, urls[i], visits[i]))
         else LastSavedPage(seen, urls[..i], visits[..i])
  {
    var us, vs := urls[..i + 1], visits[..i + 1];
    assert us != [] && |us| - 1 == i;
    assert us[..i] == urls[..i] && vs[..i] == visits[..i];
    assert us[i] == urls[i] && vs[i] == visits[i];
  }

  /** The set last saved during a page is one the crawler held: it contains the set the page
      started from and is contained in the set it ends with. */
  lemma {:induction false} LastSavedWithin(seen: set<string>, urls: seq<string>, visits: seq<CsvVisit>)
    requires |visits| == |urls|
    ensures var saved := LastSavedPage(seen, urls, visits);
      saved.Some? ==> seen <= saved.value <= SeenAfterPage(seen, urls, visits)
  {
    if urls != [] {
      var n := |urls| - 1;
      LastSavedWithin(seen, urls[..n], visits[..n]);
      CsvPageWritesOncePerKey([], seen, [], urls[..n], visits[..n]);
    }
  }

  /** Over a feed page the file only grows, and every written line has its own new key: no
      listing is written twice, and the seen set grows by exactly as many keys as lines
      were written. */
  lemma {:induction false} CsvPageWritesOncePerKey(fields: seq<string>, seen: set<string>, lines: seq<seq<string>>,
                                                   urls: seq<string>, visits: seq<CsvVisit>)
    requires |visits| == |urls|
    ensures seen <= SeenAfterPage(seen, urls, visits)
    ensures |lines| <= |LinesAfterPage(fields, seen, lines, urls, visits)|
    ensures LinesAfterPage(fields, seen, lines, urls, visits)[..|lines|] == lines
    ensures |LinesAfterPage(fields, seen, lines, urls, visits)| - |lines| == |SeenAfterPage(seen, urls, visits) - seen|
  {
    if urls != [] {
      var n := |urls| - 1;
      CsvPageWritesOncePerKey(fields, seen, lines, urls[..n], visits[..n]);
      var mid := SeenAfterPage(seen, urls[..n], visits[..n]);
      var midLines := LinesAfterPage(fields, seen, lines, urls[..n], visits[..n]);
      var w := Writes(mid, urls[n], visits[n]);
      CountStep(seen, mid, SeenAfter(mid, urls[n], visits[n]), SeenKey(urls[n]), w);
      LinesAfterGrows(fields, mid, midLines, urls[n], visits[n]);
      PrefixOfPrefix(lines, midLines, LinesAfter(fields, mid, midLines, urls[n], visits[n]));
    }
  }

  /** A step appends at most one line, exactly when it writes. */
  lemma LinesAfterGrows(fields: seq<string>, seen: set<string>, lines: seq<seq<string>>, u: string, v: CsvVisit)
    ensures |LinesAfter(fields, seen, lines, u, v)| == |lines| + if Writes(seen, u, v) then 1 else 0
    ensures LinesAfter(fields, seen, lines, u, v)[..|lines|] == lines
  {
  }

  lemma PrefixOfPrefix(a: seq<seq<string>>, b: seq<seq<string>>, c: seq<seq<string>>)
    requires |a| <= |b| <= |c| && b[..|a|] == a && c[..|b|] == b
    ensures c[..|a|] == a
  {
    assert c[..|a|] == c[..|b|][..|a|];
  }

  /** One step's bookkeeping: a key joins the set only with a written line. */
  lemma CountStep(seen: set<string>, mid: set<string>, next: set<string>, key: string, wrote: bool)
    requires seen <= mid
    requires wrote ==> key !in mid && next == mid + {key}
    requires !wrote ==> next == mid
    ensures seen <= next
    ensures |next - seen| == |mid - seen| + if wrote then 1 else 0
  {
    if wrote {
      assert next - seen == (mid - seen) + {key};
    }
  }

  /** Handling `u` ends with `save_seen` succeeding: the key was new, and the scrape, the
      append and the save all went through. */
  predicate Saves(seen: set<string>, u: string, v: CsvVisit) {
    Writes(seen, u, v) && v.saved
  }

  /** The file `save_seen` last wrote lists `seen` in ascending order. */
  ghost predicate SavedAs(file: Option<string>, seen: set<string>) {
    file.Some? && exists order :: SortedListing(order, seen) && file.value == SeenText(order)
  }

  ghost predicate SortedListing(order: seq<string>, seen: set<string>) {
    Ascending(order) && forall x :: x in order <==> x in seen
  }

  /** Once saved, the file reads back as the set that was saved, for keys `load_seen` keeps
      intact. */
  lemma SavedReadsBack(file: Option<string>, seen: set<string>)
    requires SavedAs(file, seen)
    requires forall x :: x in seen ==> PlainId(x)
    ensures LoadSeen(file) == seen
  {
    var order :| SortedListing(order, seen) && file.value == SeenText(order);
    SaveLoadRoundTrip(seen, order);
  }

  /** The CSV crawler's state: the column list `main` writes with, the seen set in memory,
      the lines of the CSV file and the text of the seen file (`None` while it does not
      exist). */
  class CsvCrawler {
    const fields: seq<string>
    var seen: set<string>
    var lines: seq<seq<string>>
    var seenFile: Option<string>

    /** Start-up: `ensure_csv` writes the header row into an empty or missing CSV file, and
        `load_seen` reads the seen file. */
    constructor (fields: seq<string>, csvLines: seq<seq<string>>, seenFile: Option<string>)
      ensures this.fields == fields
      ensures this.lines == if csvLines == [] then [fields] else csvLines
      ensures this.seen == LoadSeen(seenFile) && this.seenFile == seenFile
    {
      this.fields := fields;
      this.lines := if csvLines == [] then [fields] else csvLines;
      this.seen := LoadSeen(seenFile);
      this.seenFile := seenFile;
    }

    /** `main`'s body for one listing URL. */
    method Visit(u: string, v: CsvVisit)
      modifies this
      ensures seen == SeenAfter(old(seen), u, v)
      ensures lines == LinesAfter(fields, old(seen), old(lines), u, v)
      ensures Saves(old(seen), u, v) ==> SavedAs(seenFile, seen)
      ensures !Saves(old(seen), u, v) ==> seenFile == old(seenFile)
    {
      var key := SeenKey(u);
      if key in seen || v.ScrapeFailed? {
        return;
      }
      assert Writes(seen, u, v) == v.appended;
      var line := ScrapeRow(fields, v.page, u, v.detailsJson, v.scrapedAt);
      if v.appended {
        Record(key, line, v.saved);
      }
    }

    /** The success path: the row is written, the key marked seen, then the set saved. */
    method Record(key: string, line: seq<string>, saved: bool)
      modifies this
      ensures seen == old(seen) + {key} && lines == old(lines) + [line]
      ensures saved ==> SavedAs(seenFile, seen)
      ensures !saved ==> seenFile == old(seenFile)
    {
      lines := lines + [line];
      seen := seen + {key};
      if saved {
        Save();
      }
    }

    /** The loop over one feed page's URLs; STOP is first seen before URL `stopBefore`. */
    method VisitFeedPage(urls: seq<string>, visits: seq<CsvVisit>, stopBefore: nat)
      requires |visits| == |urls|
      modifies this
      ensures var k := if stopBefore < |urls| then stopBefore else |urls|;
        seen == SeenAfterPage(old(seen), urls[..k], visits[..k])
        && lines == LinesAfterPage(fields, old(seen), old(lines), urls[..k], visits[..k])
      ensures var k := if stopBefore < |urls| then stopBefore else |urls|;
        var saved := LastSavedPage(old(seen), urls[..k], visits[..k]);
        (saved.None? ==> seenFile == old(seenFile)) && (saved.Some? ==> SavedAs(seenFile, saved.value))
    {
      var k := if stopBefore < |urls| then stopBefore else |urls|;
      for i := 0 to k
        invariant seen == SeenAfterPage(old(seen), urls[..i], visits[..i])
        invariant lines == LinesAfterPage(fields, old(seen), old(lines), urls[..i], visits[..i])
        invariant LastSavedPage(old(seen), urls[..i], visits[..i]).None? ==> seenFile == old(seenFile)
        invariant LastSavedPage(old(seen), urls[..i], visits[..i]).Some? ==>
          SavedAs(seenFile, LastSavedPage(old(seen), urls[..i], visits[..i]).value)
      {
        Visit(urls[i], visits[i]);
        PagePrefix(fields, old(seen), old(lines), urls, visits, i);
        SavedPrefix(old(seen), urls, visits, i);
      }
    }

    /** `save_seen(args.seen, seen)`. */
    method Save()
      modifies this
      ensures SavedAs(seenFile, seen)
      ensures seen == old(seen) && lines == old(lines)
    {
      var text, order := SaveSeen(seen);
      assert SortedListing(order, seen);
      seenFile := Some(text);
    }
  }

  // ---------------------------------------------------------------------------
  // Stopping

  /** The `STOP` flag the SIGINT and SIGTERM handlers set. */
  class StopFlag {
    var stop: bool

    constructor ()
      ensures !stop
    {
      stop := false;
    }

    /** `handle_stop`: sets the flag; only the first call announces it. */
    method HandleStop() returns (announced: bool)
      modifies this
      ensures stop
      ensures announced <==> !old(stop)
    {
      announced := !stop;
      if !stop {
        stop := true;
      }
    }
  }
}
