/** Listing identifiers and feed addresses: `extract_listing_id`, the `-\d{6,}$` suffix test
    the URL collectors share, and `feed_page_url`. The two crawlers define these identically. */
module ListingIds {
  import opened Text

  // ---------------------------------------------------------------------------
  // The trailing `-<digits>` suffix

  /** The prefix of `u` where a `$` anchor can match: the end, or just before one final newline. */
  function LineBody(u: string): (b: string)
    ensures b == u || (u == b + "\n")
  {
    if u != [] && u[|u| - 1] == '\n' then u[..|u| - 1] else u
  }

  /** Length of the maximal run of `\d` characters at the end of `s`. */
  function TrailingDigitCount(s: string): (n: nat)
    ensures n <= |s|
    ensures AllDigits(s[|s| - n..])
    ensures n < |s| ==> !IsDigit(s[|s| - 1 - n])
  {
    if s != [] && IsDigit(s[|s| - 1]) then
      var t := s[..|s| - 1];
      var n := TrailingDigitCount(t);
      var suffix, shorter := s[|s| - (n + 1)..], t[|t| - n..];
      assert AllDigits(suffix) by {
        forall i | 0 <= i < |suffix| ensures IsDigit(suffix[i]) {
          if i < n {
            assert suffix[i] == shorter[i];
          }
        }
      }
      assert n < |t| ==> s[|s| - 1 - (n + 1)] == t[|t| - 1 - n];
      n + 1
    else 0
  }

  /** `re.search(r"-\d{6,}$", u)` succeeds. Because `-` is not a digit, the dash must sit
      right before the maximal trailing digit run. */
  predicate HasListingSuffix(u: string) {
    var b := LineBody(u);
    var n := TrailingDigitCount(b);
    6 <= n < |b| && b[|b| - 1 - n] == '-'
  }

  /** The group of `re.search(r"-(\d{6,})$", u)`. */
  function SuffixId(u: string): (id: string)
    requires HasListingSuffix(u)
    ensures |id| >= 6 && AllDigits(id)
    ensures EndsWith(LineBody(u), "-" + id)
  {
    var b := LineBody(u);
    var n := TrailingDigitCount(b);
    assert b[|b| - 1 - n..] == "-" + b[|b| - n..];
    b[|b| - n..]
  }

  // ---------------------------------------------------------------------------
  // The `/listings/<digits>` fallback

  const ListingsPath: string := "/listings/"

  /** `re.search(r"/listings/(\d+)", u)` can match starting at index `i`. */
  predicate PathMatchAt(u: string, i: int) {
    0 <= i && i + |ListingsPath| < |u| && u[i..i + |ListingsPath|] == ListingsPath
    && IsDigit(u[i + |ListingsPath|])
  }

  /** Index just past the maximal digit run that starts at `j`. */
  function DigitRunEnd(u: string, j: nat): (e: nat)
    requires j <= |u|
    ensures j <= e <= |u| && AllDigits(u[j..e])
    ensures e < |u| ==> !IsDigit(u[e])
    decreases |u| - j
  {
    if j < |u| && IsDigit(u[j]) then
      var e := DigitRunEnd(u, j + 1);
      assert u[j..e] == [u[j]] + u[j + 1..e];
      e
    else j
  }

  /** The leftmost match of `/listings/(\d+)` at or after `from`, or "" when there is none. */
  function ListingsPathIdFrom(u: string, from: nat): (r: string)
    requires from <= |u|
    ensures r == "" <==> forall i :: from <= i ==> !PathMatchAt(u, i)
    ensures r != "" ==>
      exists i :: (from <= i && PathMatchAt(u, i)
                   && (forall j :: from <= j < i ==> !PathMatchAt(u, j))
                   && r == u[i + |ListingsPath|..DigitRunEnd(u, i + |ListingsPath|)])
    ensures AllDigits(r)
    decreases |u| - from
  {
    if PathMatchAt(u, from) then
      u[from + |ListingsPath|..DigitRunEnd(u, from + |ListingsPath|)]
    else if from + |ListingsPath| >= |u| then
      assert forall i :: from <= i ==> !PathMatchAt(u, i);
      ""
    else
      ListingsPathIdFrom(u, from + 1)
  }

  /** `extract_listing_id`: the digits after the final `-` when the URL ends in `-` and six
      or more digits; otherwise the digits of the first `/listings/<digits>`; otherwise "". */
  function ExtractListingId(u: string): (r: string)
    ensures AllDigits(r)
    ensures HasListingSuffix(u) ==> |r| >= 6 && EndsWith(LineBody(u), "-" + r)
    ensures !HasListingSuffix(u) ==> (r == "" <==> forall i :: 0 <= i ==> !PathMatchAt(u, i))
  {
    if HasListingSuffix(u) then SuffixId(u) else ListingsPathIdFrom(u, 0)
  }

  lemma {:induction false} TrailingDigitsOfDigits(slug: string, id: string)
    requires AllDigits(id)
    requires slug == [] || !IsDigit(slug[|slug| - 1])
    ensures TrailingDigitCount(slug + id) == |id|
  {
    if id == [] {
      assert slug + id == slug;
    } else {
      var init := id[..|id| - 1];
      assert (slug + id)[..|slug + id| - 1] == slug + init;
      TrailingDigitsOfDigits(slug, init);
    }
  }

  /** Round trip: the identifier put at the end of a card URL as `-<id>` is the one
      `extract_listing_id` gives back, and such a URL passes the collectors' suffix test. */
  lemma ListingIdOfCardUrl(slug: string, id: string)
    requires |id| >= 6 && AllDigits(id)
    ensures HasListingSuffix(slug + "-" + id)
    ensures ExtractListingId(slug + "-" + id) == id
  {
    var u := slug + "-" + id;
    assert u[|u| - 1] == id[|id| - 1];
    assert LineBody(u) == u;
    TrailingDigitsOfDigits(slug + "-", id);
    assert u == (slug + "-") + id;
  }

  // ---------------------------------------------------------------------------
  // Feed page addresses

  /** `s.rstrip("/")`. */
  function RStripSlash(s: string): (r: string)
    ensures |r| <= |s| && r == s[..|r|] && (r == [] || r[|r| - 1] != '/')
    ensures forall i :: |r| <= i < |s| ==> s[i] == '/'
  {
    if s != [] && s[|s| - 1] == '/' then RStripSlash(s[..|s| - 1]) else s
  }

  function DigitChar(d: nat): (c: char)
    requires d < 10
    ensures IsAsciiDigit(c)
  {
    ('0' as int + d) as char
  }

  /** Python's `str(n)` for a natural number. */
  function NatToDecimal(n: nat): (r: string)
    ensures r != [] && forall i :: 0 <= i < |r| ==> IsAsciiDigit(r[i])
  {
    if n < 10 then [DigitChar(n)] else NatToDecimal(n / 10) + [DigitChar(n % 10)]
  }

  /** The value of a string of ASCII digits. */
  function DecimalValue(s: string): nat
    requires forall i :: 0 <= i < |s| ==> IsAsciiDigit(s[i])
  {
    if s == [] then 0 else 10 * DecimalValue(s[..|s| - 1]) + DigitValue(s[|s| - 1])
  }

  function DigitValue(c: char): (d: nat)
    requires IsAsciiDigit(c)
    ensures d < 10
  {
    c as int - '0' as int
  }

  lemma {:induction false} DecimalRoundTrip(n: nat)
    ensures DecimalValue(NatToDecimal(n)) == n
  {
    if n >= 10 {
      var r := NatToDecimal(n);
      assert r[..|r| - 1] == NatToDecimal(n / 10);
      DecimalRoundTrip(n / 10);
    }
  }

  /** Python's f"{page}" for any integer. */
  function IntToDecimal(n: int): string {
    if n < 0 then "-" + NatToDecimal(-n) else NatToDecimal(n)
  }

  /** Reads back what `IntToDecimal` writes. */
  function ParsePageNumber(s: string): int {
    if s != [] && s[0] == '-' && forall i :: 1 <= i < |s| ==> IsAsciiDigit(s[i]) then
      -(DecimalValue(s[1..]) as int)
    else if forall i :: 0 <= i < |s| ==> IsAsciiDigit(s[i]) then
      DecimalValue(s)
    else 0
  }

  /** `feed_page_url`: page 1 is the feed itself with trailing slashes removed; any other
      page is that address, a `/` and the page number, which can be read back from it. */
  function FeedPageUrl(feed: string, page: int): (r: string)
    ensures StartsWith(r, RStripSlash(feed))
    ensures r == RStripSlash(feed) <==> page == 1
    ensures r == [] || r[|r| - 1] != '/'
    ensures page != 1 ==>
      (|r| > |RStripSlash(feed)| && r[|RStripSlash(feed)|] == '/'
       && ParsePageNumber(r[|RStripSlash(feed)| + 1..]) == page)
  {
    var base := RStripSlash(feed);
    if page == 1 then base
    else
      var num := IntToDecimal(page);
      var r := base + "/" + num;
      assert r[..|base|] == base && r[|base| + 1..] == num;
      PageNumberRoundTrip(page);
      r
  }

  lemma PageNumberRoundTrip(page: int)
    ensures ParsePageNumber(IntToDecimal(page)) == page
  {
    if page < 0 {
      DecimalRoundTrip(-page);
      assert IntToDecimal(page)[1..] == NatToDecimal(-page);
    } else {
      DecimalRoundTrip(page);
    }
  }
}
