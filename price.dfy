/** `parse_price_dom` of the SQLite crawler: the price heading's full text, the amount it
    starts with, the period keyword, the parenthesised payment terms and the currency marker. */
module PriceDom {
  import opened Text
  import opened Opt

  const RiyalSign: string := "\U{FDFC}"
  const SarCode: string := "SAR"

  datatype Period = Yearly | Monthly | Weekly | Daily | Unknown {
    /** The stored column value: one of five lower-case ASCII words. */
    function Name(): (r: string)
      ensures r in {"yearly", "monthly", "weekly", "daily", "unknown"}
      ensures forall i :: 0 <= i < |r| ==> 'a' <= r[i] <= 'z'
    {
      match this
      case Yearly => "yearly"
      case Monthly => "monthly"
      case Weekly => "weekly"
      case Daily => "daily"
      case Unknown => "unknown"
    }
  }

  /** What the DOM price heading yields: the fields are stored under
      price_text_full, price_amount, price_currency, price_period and payment_terms.
      `amount` is the decimal text `float()` reads; the float itself is not modelled. */
  datatype PriceFields = PriceFields(textFull: string, amount: Option<string>, currency: string,
                                     period: Period, terms: string)

  /** `full.replace("﷼", "").replace("SAR", "").strip()` */
  function NormalizePrice(full: string): string {
    Strip(RemoveAll(RemoveAll(full, RiyalSign), SarCode))
  }

  // ---------------------------------------------------------------------------
  // Amount: the first `\d[\d,\.]*` run, commas removed, if `float()` accepts it

  predicate IsAmountChar(c: char) { IsDigit(c) || c == ',' || c == '.' }

  /** Index of the first `\d` at or after `from`, if any. */
  function FirstDigit(s: string, from: nat): (r: Option<nat>)
    requires from <= |s|
    ensures r.None? <==> forall k :: from <= k < |s| ==> !IsDigit(s[k])
    ensures r.Some? ==> (from <= r.value < |s| && IsDigit(s[r.value])
      && forall k :: from <= k < r.value ==> !IsDigit(s[k]))
    decreases |s| - from
  {
    if from == |s| then None
    else if IsDigit(s[from]) then Some(from)
    else FirstDigit(s, from + 1)
  }

  /** Where the greedy `[\d,\.]*` starting at `j` stops. */
  function AmountRunEnd(s: string, j: nat): (e: nat)
    requires j <= |s|
    ensures j <= e <= |s|
    ensures forall k :: j <= k < e ==> IsAmountChar(s[k])
    ensures e < |s| ==> !IsAmountChar(s[e])
    decreases |s| - j
  {
    if j < |s| && IsAmountChar(s[j]) then AmountRunEnd(s, j + 1) else j
  }

  function CountOf(s: string, c: char): nat {
    if s == [] then 0 else (if s[0] == c then 1 else 0) + CountOf(s[1..], c)
  }

  /** `float()` accepts a run of digits and dots exactly when it has at most one dot. */
  predicate FloatAccepts(num: string) { CountOf(num, '.') <= 1 }

  /** The amount: the first number-like run with its commas removed, when `float()` accepts
      it; no amount when the text has no digit at all. */
  function AmountOf(s: string): (r: Option<string>)
    ensures r.Some? ==> r.value != [] && IsDigit(r.value[0]) && ',' !in r.value
    ensures r.Some? ==> (forall c :: c in r.value ==> IsDigit(c) || c == '.') && FloatAccepts(r.value)
    ensures (forall k :: 0 <= k < |s| ==> !IsDigit(s[k])) ==> r.None?
  {
    match FirstDigit(s, 0)
    case None => None
    case Some(i) =>
      var run := s[i..AmountRunEnd(s, i)];
      RemoveCharFacts(run, ',');
      var num := RemoveAll(run, ",");
      if FloatAccepts(num) then Some(num) else None
  }

  /** Partner of `AmountOf`: a number written after text without digits, and followed by
      something that cannot continue it, is read back with its thousands separators dropped
      when `float()` takes it, and gives no amount when it does not (`float()` raised). */
  lemma AmountOfLeadingNumber(pre: string, run: string, post: string)
    requires forall k :: 0 <= k < |pre| ==> !IsDigit(pre[k])
    requires run != [] && IsDigit(run[0]) && forall k :: 0 <= k < |run| ==> IsAmountChar(run[k])
    requires post == [] || !IsAmountChar(post[0])
    ensures AmountOf(pre + run + post)
      == if FloatAccepts(RemoveAll(run, ",")) then Some(RemoveAll(run, ",")) else None
  {
    var s := pre + (run + post);
    assert pre + run + post == s;
    FirstDigitAfter(pre, run + post);
    assert s[|pre|..|pre| + |run|] == run;
    assert |pre| + |run| < |s| ==> s[|pre| + |run|] == post[0];
    AmountRunOver(s, |pre|, run);
    assert AmountRunEnd(s, |pre|) == |pre| + |run|;
    assert FirstDigit(s, 0) == Some(|pre|);
  }

  lemma FirstDigitAfter(pre: string, t: string)
    requires forall k :: 0 <= k < |pre| ==> !IsDigit(pre[k])
    requires t != [] && IsDigit(t[0])
    ensures FirstDigit(pre + t, 0) == Some(|pre|)
  {
    var s := pre + t;
    assert s[|pre|] == t[0];
    assert forall k :: 0 <= k < |pre| ==> s[k] == pre[k];
  }

  lemma {:induction false} AmountRunOver(s: string, j: nat, run: string)
    requires j + |run| <= |s| && s[j..j + |run|] == run
    requires forall k :: 0 <= k < |run| ==> IsAmountChar(run[k])
    requires j + |run| < |s| ==> !IsAmountChar(s[j + |run|])
    ensures AmountRunEnd(s, j) == j + |run|
    decreases |run|
  {
    if run != [] {
      assert s[j] == run[0];
      assert s[j + 1..j + 1 + |run[1..]|] == run[1..];
      AmountRunOver(s, j + 1, run[1..]);
    }
  }

  // ---------------------------------------------------------------------------
  // Period keywords

  const YearlyWord: string := "سنوي"
  const MonthlyWord: string := "شهري"
  const WeeklyWord: string := "أسبوعي"
  const WeeklyWordPlain: string := "اسبوعي"
  const DailyWord: string := "يومي"

  /** The period, checked in the order `parse_price_dom` checks them (yearly, monthly,
      weekly, daily). The `/`-prefixed keywords `parse_price_dom` also tests can only occur where the bare keyword does,
      so the first keyword present decides. */
  function PeriodOf(s: string): (r: Period)
    ensures r == Yearly <==> Contains(s, YearlyWord)
    ensures r == Monthly <==> !Contains(s, YearlyWord) && Contains(s, MonthlyWord)
    ensures r == Weekly <==> (!Contains(s, YearlyWord) && !Contains(s, MonthlyWord)
      && (Contains(s, WeeklyWordPlain) || Contains(s, WeeklyWord)))
    ensures r == Daily <==> (!Contains(s, YearlyWord) && !Contains(s, MonthlyWord)
      && !Contains(s, WeeklyWordPlain) && !Contains(s, WeeklyWord) && Contains(s, DailyWord))
  {
    SlashedKeyword(s, YearlyWord);
    SlashedKeyword(s, MonthlyWord);
    SlashedKeyword(s, WeeklyWord);
    SlashedKeyword(s, DailyWord);
    if Contains(s, "/" + YearlyWord) || Contains(s, YearlyWord) then Yearly
    else if Contains(s, "/" + MonthlyWord) || Contains(s, MonthlyWord) then Monthly
    else if Contains(s, "/" + WeeklyWord) || Contains(s, WeeklyWordPlain) || Contains(s, WeeklyWord) then Weekly
    else if Contains(s, "/" + DailyWord) || Contains(s, DailyWord) then Daily
    else Unknown
  }

  lemma SlashedKeyword(s: string, w: string)
    ensures Contains(s, "/" + w) ==> Contains(s, w)
  {
    if Contains(s, "/" + w) { ContainsParts(s, "/", w); }
  }

  // ---------------------------------------------------------------------------
  // Payment terms: the first `\(([^)]+)\)` group

  /** Index of the first `)` at or after `j`, or `|s|`. */
  function CloseParen(s: string, j: nat): (e: nat)
    requires j <= |s|
    ensures j <= e <= |s| && (e < |s| ==> s[e] == ')')
    ensures forall k :: j <= k < e ==> s[k] != ')'
    decreases |s| - j
  {
    if j == |s| || s[j] == ')' then j else CloseParen(s, j + 1)
  }

  /** The pattern matched at `i`: an opening parenthesis, a non-empty run without `)`, and
      the `)` that ends it. */
  function TermsAt(s: string, i: nat): (r: Option<string>)
    requires i <= |s|
    ensures r.Some? ==> r.value != [] && ')' !in r.value
  {
    if i < |s| && s[i] == '(' then
      var e := CloseParen(s, i + 1);
      if i + 1 < e < |s| then Some(s[i + 1..e]) else None
    else None
  }

  /** Where `re.search` finds the pattern: the leftmost position at or after `from` where it
      matches, or `|s| + 1` when it matches nowhere. */
  function TermsStart(s: string, from: nat): (i: nat)
    requires from <= |s|
    ensures from <= i <= |s| + 1
    ensures i <= |s| ==> TermsAt(s, i).Some?
    ensures forall k :: from <= k < i && k <= |s| ==> TermsAt(s, k).None?
    decreases |s| - from
  {
    if TermsAt(s, from).Some? then from
    else if from == |s| then |s| + 1
    else TermsStart(s, from + 1)
  }

  /** `re.search`: the group of the leftmost match at or after `from`. */
  function FirstTerms(s: string, from: nat): (r: Option<string>)
    requires from <= |s|
    ensures r.None? <==> forall i :: from <= i <= |s| ==> TermsAt(s, i).None?
    ensures r.Some? ==> (exists i :: (from <= i <= |s| && TermsAt(s, i) == r
      && forall k :: from <= k < i ==> TermsAt(s, k).None?))
  {
    var i := TermsStart(s, from);
    if i <= |s| then TermsAt(s, i) else None
  }

  /** The payment terms: the first parenthesised text, cleaned, or "". */
  function TermsOf(s: string): (r: string)
    ensures IsClean(r)
  {
    match FirstTerms(s, 0)
    case None => ""
    case Some(t) => CleanTextIsClean(t); CleanText(t)
  }

  /** Partner of `TermsOf`: text put in parentheses after text without any `(` is the
      payment terms read back. */
  lemma TermsOfParenthesized(pre: string, t: string, post: string)
    requires '(' !in pre && t != [] && ')' !in t
    ensures TermsOf(pre + "(" + t + ")" + post) == CleanText(t)
  {
    var rest := "(" + t + ")" + post;
    assert pre + "(" + t + ")" + post == pre + rest;
    TermsAtGroup(pre + rest, |pre|, t);
    FirstTermsAfter(pre, rest);
  }

  lemma TermsAtGroup(s: string, i: nat, t: string)
    requires t != [] && ')' !in t
    requires i + |t| + 2 <= |s| && s[i..i + |t| + 2] == "(" + t + ")"
    ensures TermsAt(s, i) == Some(t)
  {
    var g := "(" + t + ")";
    assert s[i] == g[0] == '(';
    forall k | 0 <= k < |t| ensures s[i + 1 + k] == t[k] {
      assert s[i + 1 + k] == g[k + 1] == t[k];
    }
    assert s[i + 1..i + 1 + |t|] == t;
    assert s[i + 1 + |t|] == g[|t| + 1];
    assert s[i + 1 + |t|] == ')';
    CloseParenOver(s, i + 1, t);
  }

  lemma {:induction false} CloseParenOver(s: string, j: nat, t: string)
    requires j + |t| < |s| && s[j..j + |t|] == t && ')' !in t && s[j + |t|] == ')'
    ensures CloseParen(s, j) == j + |t|
    decreases |t|
  {
    if t != [] {
      assert s[j] == t[0];
      assert s[j + 1..j + 1 + |t[1..]|] == t[1..];
      CloseParenOver(s, j + 1, t[1..]);
    }
  }

  lemma FirstTermsAfter(pre: string, rest: string)
    requires '(' !in pre && TermsAt(pre + rest, |pre|).Some?
    ensures FirstTerms(pre + rest, 0) == TermsAt(pre + rest, |pre|)
  {
    var s := pre + rest;
    forall k | 0 <= k < |pre| ensures TermsAt(s, k).None? {
      assert s[k] == pre[k];
    }
  }

  // ---------------------------------------------------------------------------
  // Currency marker and the whole heading

  const CurrencyMarker: string := "SaudiCurrency"
  const CurrencyIconMarker: string := "icon-NewSaudiCurrency"

  /** "SAR" exactly when the page carries the Saudi currency marker (the icon class
      `parse_price_dom` also tests contains that marker). */
  function CurrencyOf(html: string): (r: string)
    ensures r == "SAR" <==> Contains(html, CurrencyMarker)
    ensures r == "" <==> !Contains(html, CurrencyMarker)
  {
    if Contains(html, CurrencyMarker) || Contains(html, CurrencyIconMarker) then
      if !Contains(html, CurrencyMarker) then
        assert CurrencyIconMarker == "icon-New" + CurrencyMarker;
        ContainsParts(html, "icon-New", CurrencyMarker);
        "SAR"
      else "SAR"
    else ""
  }

  /** `parse_price_dom`: nothing without a price heading; otherwise the cleaned heading text
      and the amount, period and terms read from it with the currency signs removed. */
  function ParsePriceDom(heading: Option<string>, html: string): (r: Option<PriceFields>)
    ensures r.None? <==> heading.None?
    ensures r.Some? ==> r.value.textFull == CleanText(heading.value) && IsClean(r.value.textFull)
    ensures r.Some? ==> r.value.currency == (if Contains(html, CurrencyMarker) then "SAR" else "")
    ensures r.Some? ==> var norm := NormalizePrice(r.value.textFull);
      r.value.amount == AmountOf(norm) && r.value.period == PeriodOf(norm)
      && r.value.terms == TermsOf(norm)
  {
    match heading
    case None => None
    case Some(text) =>
      var full := CleanText(text);
      CleanTextIsClean(text);
      var norm := NormalizePrice(full);
      Some(PriceFields(full, AmountOf(norm), CurrencyOf(html), PeriodOf(norm), TermsOf(norm)))
  }
}
