/** `parse_main_listing_fields` of scraper_live.py: title, price and description of a listing
    page, its specs grid (four fixed labels) and the city / district fallback read from the
    title with `re.search(r"مدينة\s+([^,]+)", title)` and `re.search(r"حي\s+([^,]+)", title)`. */
module MainFields {
  import opened Text
  import opened Opt
  import opened Lists
  import opened DomExtract

  // ---------------------------------------------------------------------------
  // Specs grid

  const AreaLabel: string := "المساحة"
  const RoomsLabel: string := "غرف النوم"
  const HallsLabel: string := "الصالات"
  const BathsLabel: string := "دورات المياه"
  const SpecLabels: seq<string> := [AreaLabel, RoomsLabel, HallsLabel, BathsLabel]
  // slots of SpecLabels, named after the output keys
  const Area: nat := 0
  const Rooms: nat := 1
  const Halls: nat := 2
  const Baths: nat := 3

  /** One `div._item___4Sv8` of the specs card: the text of its `div._label___qjLO` and of its
      `div._value__yF2Fx`, each `None` when the element is missing. */
  datatype SpecItem = SpecItem(labelDiv: Option<string>, valueDiv: Option<string>)

  /** Items missing either element are skipped. */
  function SpecEntry(it: SpecItem): Option<(string, string)> {
    if it.labelDiv.Some? && it.valueDiv.Some? then
      Some((CleanText(it.labelDiv.value), CleanText(it.valueDiv.value)))
    else None
  }

  function SpecEntries(items: seq<SpecItem>): (r: seq<Option<(string, string)>>)
    ensures |r| == |items|
  {
    if items == [] then [] else SpecEntries(items[..|items| - 1]) + [SpecEntry(items[|items| - 1])]
  }

  lemma {:induction false} SpecEntriesAppend(a: seq<SpecItem>, b: seq<SpecItem>)
    ensures SpecEntries(a + b) == SpecEntries(a) + SpecEntries(b)
    decreases |b|
  {
    if b == [] {
      assert a + b == a;
    } else {
      var init := b[..|b| - 1];
      assert (a + b)[..|a + b| - 1] == a + init;
      SpecEntriesAppend(a, init);
    }
  }

  /** Area, rooms, halls and baths as the specs loop leaves them. */
  function SpecsOf(items: seq<SpecItem>): (r: seq<string>)
    ensures |r| == |SpecLabels|
  {
    Slots(SpecLabels, Collect(SpecEntries(items)))
  }

  lemma SpecLabelsDistinct()
    ensures NoDup(SpecLabels)
  {
  }

  /** The field a spec label's value goes to, checked in the order
      `parse_main_listing_fields`' `if`/`elif` chain checks them. */
  function AssignSpec(out: seq<string>, k: string, v: string): seq<string>
    requires |out| == |SpecLabels|
  {
    if k == AreaLabel then out[Area := v]
    else if k == RoomsLabel then out[Rooms := v]
    else if k == HallsLabel then out[Halls := v]
    else if k == BathsLabel then out[Baths := v]
    else out
  }

  /** The label chain stores the value under its label, as a dictionary would. */
  lemma AssignSpecStores(m: map<string, string>, k: string, v: string)
    ensures AssignSpec(Slots(SpecLabels, m), k, v) == Slots(SpecLabels, m[k := v])
  {
    SpecLabelsDistinct();
    if k == AreaLabel {
      SlotsStore(SpecLabels, m, k, v, Area);
    } else if k == RoomsLabel {
      SlotsStore(SpecLabels, m, k, v, Rooms);
    } else if k == HallsLabel {
      SlotsStore(SpecLabels, m, k, v, Halls);
    } else if k == BathsLabel {
      SlotsStore(SpecLabels, m, k, v, Baths);
    } else {
      SlotsSkip(SpecLabels, m, k, v);
    }
  }

  /** The body of the specs loop. */
  method StoreSpecItem(out: seq<string>, item: SpecItem, ghost m: map<string, string>)
    returns (r: seq<string>)
    requires out == Slots(SpecLabels, m)
    ensures r == Slots(SpecLabels, match SpecEntry(item)
                                   case None => m
                                   case Some(e) => m[e.0 := e.1])
  {
    r := out;
    if item.labelDiv.None? || item.valueDiv.None? {
      return;
    }
    var k := CleanText(item.labelDiv.value);
    var v := CleanText(item.valueDiv.value);
    if k == AreaLabel {
      r := r[Area := v];
    } else if k == RoomsLabel {
      r := r[Rooms := v];
    } else if k == HallsLabel {
      r := r[Halls := v];
    } else if k == BathsLabel {
      r := r[Baths := v];
    }
    assert r == AssignSpec(out, k, v);
    AssignSpecStores(m, k, v);
  }

  /** The specs loop, starting from four empty fields. */
  method ParseSpecs(items: seq<SpecItem>) returns (out: seq<string>)
    ensures out == SpecsOf(items)
  {
    out := ["", "", "", ""];
    var i := 0;
    ghost var seen := Collect(SpecEntries([]));
    while i < |items|
      invariant 0 <= i <= |items|
      invariant seen == Collect(SpecEntries(items[..i]))
      invariant out == Slots(SpecLabels, seen)
    {
      var item := items[i];
      assert items[..i + 1][..i] == items[..i];
      CollectSnoc(SpecEntries(items[..i]), SpecEntry(item));
      out := StoreSpecItem(out, item, seen);
      seen := Collect(SpecEntries(items[..i + 1]));
      i := i + 1;
    }
    assert items[..|items|] == items;
  }

  /** An item whose label is none of the four, or that lacks its label or value element,
      sets no spec field, wherever it appears. */
  lemma SpecsIgnores(before: seq<SpecItem>, it: SpecItem, after: seq<SpecItem>)
    requires SpecEntry(it).None? || SpecEntry(it).value.0 !in SpecLabels
    ensures SpecsOf(before + [it] + after) == SpecsOf(before + after)
  {
    SpecEntriesAppend(before + [it], after);
    SpecEntriesAppend(before, [it]);
    assert SpecEntries([it]) == [SpecEntry(it)] by {
      assert [it][..0] == [];
    }
    SpecEntriesAppend(before, after);
    SlotsIgnore(SpecLabels, SpecEntries(before), SpecEntry(it), SpecEntries(after));
  }

  /** The last item carrying one of the four labels decides that field: it holds that item's
      value text, cleaned. */
  lemma SpecsLastWins(before: seq<SpecItem>, it: SpecItem, after: seq<SpecItem>, j: nat)
    requires j < |SpecLabels|
    requires it.labelDiv.Some? && it.valueDiv.Some? && CleanText(it.labelDiv.value) == SpecLabels[j]
    requires forall i :: !HasLabel(SpecEntries(after), i, SpecLabels[j])
    ensures SpecsOf(before + [it] + after)[j] == CleanText(it.valueDiv.value)
  {
    SpecEntriesAppend(before + [it], after);
    SpecEntriesAppend(before, [it]);
    assert SpecEntries([it]) == [SpecEntry(it)] by {
      assert [it][..0] == [];
    }
    CollectLastEntry(SpecEntries(before), SpecEntry(it), SpecEntries(after));
  }

  // ---------------------------------------------------------------------------
  // `re.search(kw + r"\s+([^,]+)", title)`

  /** Index just past the maximal `\s` run that starts at `j`. */
  function SpaceRunEnd(s: string, j: nat): (e: nat)
    requires j <= |s|
    ensures j <= e <= |s| && forall i :: j <= i < e ==> IsSpace(s[i])
    ensures e < |s| ==> !IsSpace(s[e])
    decreases |s| - j
  {
    if j < |s| && IsSpace(s[j]) then SpaceRunEnd(s, j + 1) else j
  }

  /** Index just past the maximal `[^,]` run that starts at `j`. */
  function NonCommaEnd(s: string, j: nat): (e: nat)
    requires j <= |s|
    ensures j <= e <= |s| && ',' !in s[j..e]
    ensures e < |s| ==> s[e] == ','
    decreases |s| - j
  {
    if j < |s| && s[j] != ',' then
      var e := NonCommaEnd(s, j + 1);
      assert s[j..e] == [s[j]] + s[j + 1..e];
      e
    else j
  }

  /** The group the pattern captures when its match starts at `i`, if it matches there.
      The greedy `\s+` takes the whole whitespace run; when no non-comma character follows
      the run, it gives back its last character to `[^,]+`, which needs a run of two. */
  function KeywordGroupAt(s: string, kw: string, i: nat): (r: Option<string>)
    ensures r.Some? ==> (OccursAt(s, kw, i) && i + |kw| < |s| && IsSpace(s[i + |kw|])
                         && r.value != [] && ',' !in r.value)
  {
    if OccursAt(s, kw, i) then
      var w := i + |kw|;
      var e := SpaceRunEnd(s, w);
      if e == w then None
      else if e < |s| && s[e] != ',' then Some(s[e..NonCommaEnd(s, e)])
      else if e - w >= 2 then
        assert IsSpace(s[e - 1]) && s[e - 1] != ',';
        Some([s[e - 1]])
      else None
    else None
  }

  /** The leftmost match at or after `from`: `re.search`'s group 1, or `None`. */
  function FirstKeywordGroup(s: string, kw: string, from: nat): (r: Option<string>)
    requires from <= |s|
    ensures r.None? <==> forall i :: from <= i <= |s| ==> KeywordGroupAt(s, kw, i).None?
    ensures r.Some? ==> exists i :: from <= i <= |s| && KeywordGroupAt(s, kw, i) == r
    decreases |s| - from
  {
    var g := KeywordGroupAt(s, kw, from);
    if g.Some? then g
    else if from == |s| then None
    else FirstKeywordGroup(s, kw, from + 1)
  }

  /** A keyword, one space, then a name without commas up to the next comma or the end:
      the search captures exactly that name, provided the keyword does not occur earlier. */
  lemma TitleGroupOf(pre: string, kw: string, name: string, post: string)
    requires name != [] && !IsSpace(name[0]) && ',' !in name
    requires post == [] || post[0] == ','
    requires forall i :: 0 <= i < |pre| ==> !OccursAt(pre + kw + " " + name + post, kw, i)
    ensures FirstKeywordGroup(pre + kw + " " + name + post, kw, 0) == Some(name)
  {
    var s := pre + kw + " " + name + post;
    var w := |pre| + |kw|;
    assert s[|pre|..w] == kw;
    assert s[w] == ' ' && s[w + 1] == name[0];
    assert SpaceRunEnd(s, w + 1) == w + 1;
    assert SpaceRunEnd(s, w) == w + 1;
    NonCommaOver(s, w + 1, name, post);
    assert s[w + 1..w + 1 + |name|] == name;
    assert KeywordGroupAt(s, kw, |pre|) == Some(name);
    FirstKeywordGroupFrom(s, kw, 0, |pre|);
  }

  lemma {:induction false} NonCommaOver(s: string, j: nat, name: string, post: string)
    requires j + |name| + |post| == |s| && s[j..j + |name|] == name && s[j + |name|..] == post
    requires ',' !in name && (post == [] || post[0] == ',')
    ensures NonCommaEnd(s, j) == j + |name|
    decreases |name|
  {
    if name != [] {
      assert s[j] == name[0];
      assert s[j + 1..j + 1 + |name[1..]|] == name[1..];
      NonCommaOver(s, j + 1, name[1..], post);
    } else if post != [] {
      assert s[j] == post[0];
    }
  }

  /** The search returns the group at `i` when it matches there and nowhere before. */
  lemma {:induction false} FirstKeywordGroupFrom(s: string, kw: string, from: nat, i: nat)
    requires from <= i <= |s| && KeywordGroupAt(s, kw, i).Some?
    requires forall j :: from <= j < i ==> !OccursAt(s, kw, j)
    ensures FirstKeywordGroup(s, kw, from) == KeywordGroupAt(s, kw, i)
    decreases i - from
  {
    if from < i {
      FirstKeywordGroupFrom(s, kw, from + 1, i);
    }
  }

  // ---------------------------------------------------------------------------
  // The page's main fields

  const CityKeyword: string := "مدينة"
  const DistrictKeyword: string := "حي"

  /** What `parse_main_listing_fields` reads from a page: the text of the first `h1`, of the
      first `h2[class*='_price__']`, of the first `div[class*='_pricing__']`, the `content`
      of `meta[name='description']` (`None` without the tag or the attribute), and the items
      of the specs card. */
  datatype MainPage = MainPage(h1: Option<string>, priceHeading: Option<string>,
                               pricingDiv: Option<string>, metaDescription: Option<string>,
                               specs: seq<SpecItem>)

  datatype ListingFields = ListingFields(title: string, price: string, city: string,
                                         district: string, area: string, rooms: string,
                                         halls: string, baths: string, description: string)

  /** The fallback from the title: the cleaned group of the first match, "" without one. */
  function TitleField(title: string, kw: string): string {
    if title == "" then ""
    else match FirstKeywordGroup(title, kw, 0)
      case None => ""
      case Some(g) => CleanText(g)
  }

  function TitleOf(p: MainPage): string {
    if p.h1.Some? then CleanText(p.h1.value) else ""
  }

  /** `h2 or div`: a found element is truthy even when its text is empty. */
  function PriceTextOf(p: MainPage): string {
    if p.priceHeading.Some? then CleanText(p.priceHeading.value)
    else if p.pricingDiv.Some? then CleanText(p.pricingDiv.value)
    else ""
  }

  function DescriptionOf(p: MainPage): string {
    if p.metaDescription.Some? && p.metaDescription.value != "" then CleanText(p.metaDescription.value)
    else ""
  }

  /** What `parse_main_listing_fields` returns. */
  function MainFieldsOf(p: MainPage): ListingFields {
    var title := TitleOf(p);
    var specs := SpecsOf(p.specs);
    ListingFields(title, PriceTextOf(p), TitleField(title, CityKeyword), TitleField(title, DistrictKeyword),
                  specs[Area], specs[Rooms], specs[Halls], specs[Baths], DescriptionOf(p))
  }

  /** `parse_main_listing_fields`. */
  method ParseMainListingFields(p: MainPage) returns (out: ListingFields)
    ensures out == MainFieldsOf(p)
  {
    var title := "";
    if p.h1.Some? {
      title := CleanText(p.h1.value);
    }
    var price := "";
    var priceEl := if p.priceHeading.Some? then p.priceHeading else p.pricingDiv;
    if priceEl.Some? {
      price := CleanText(priceEl.value);
    }
    var description := "";
    if p.metaDescription.Some? && p.metaDescription.value != "" {
      description := CleanText(p.metaDescription.value);
    }
    var specs := ParseSpecs(p.specs);
    var city, district := "", "";
    if title != "" {
      var mCity := FirstKeywordGroup(title, CityKeyword, 0);
      if mCity.Some? {
        city := CleanText(mCity.value);
      }
      var mDist := FirstKeywordGroup(title, DistrictKeyword, 0);
      if mDist.Some? {
        district := CleanText(mDist.value);
      }
    }
    out := ListingFields(title, price, city, district, specs[Area], specs[Rooms], specs[Halls],
                         specs[Baths], description);
  }

  /** The title fallback sets a field only when the keyword occurs followed by whitespace,
      and then to a cleaned text taken from the title after it that holds no comma. */
  lemma TitleFieldSource(title: string, kw: string)
    requires TitleField(title, kw) != ""
    ensures exists i :: (OccursAt(title, kw, i) && i + |kw| < |title| && IsSpace(title[i + |kw|])
      && KeywordGroupAt(title, kw, i).Some? && TitleField(title, kw) == CleanText(KeywordGroupAt(title, kw, i).value)
      && ',' !in KeywordGroupAt(title, kw, i).value)
  {
    var i :| 0 <= i <= |title| && KeywordGroupAt(title, kw, i) == FirstKeywordGroup(title, kw, 0);
  }

  /** Without an `h1`, or when no keyword is followed by whitespace, city and district
      stay empty. */
  lemma TitleFallbackAbsent(p: MainPage, kw: string)
    requires TitleOf(p) == "" || forall i :: !(OccursAt(TitleOf(p), kw, i) && i + |kw| < |TitleOf(p)|
                                                && IsSpace(TitleOf(p)[i + |kw|]))
    ensures TitleField(TitleOf(p), kw) == ""
  {
  }

  /** A title "… مدينة <name>, …" yields city <name>, cleaned. */
  lemma CityFromTitle(p: MainPage, pre: string, name: string, post: string)
    requires TitleOf(p) == pre + CityKeyword + " " + name + post
    requires name != [] && !IsSpace(name[0]) && ',' !in name
    requires post == [] || post[0] == ','
    requires forall i :: 0 <= i < |pre| ==> !OccursAt(TitleOf(p), CityKeyword, i)
    ensures MainFieldsOf(p).city == CleanText(name)
  {
    TitleGroupOf(pre, CityKeyword, name, post);
  }

  /** The specs grid alone decides area, rooms, halls and baths, slot by slot. */
  lemma SpecFieldsOf(p: MainPage)
    ensures var f := MainFieldsOf(p);
      [f.area, f.rooms, f.halls, f.baths] == SpecsOf(p.specs)
  {
  }

  /** The price is the `h2` text when that element exists, even if empty; the `div` is read
      only without it. */
  lemma PricePrefersHeading(p: MainPage)
    ensures p.priceHeading.Some? ==> MainFieldsOf(p).price == CleanText(p.priceHeading.value)
    ensures p.priceHeading.None? && p.pricingDiv.Some? ==> MainFieldsOf(p).price == CleanText(p.pricingDiv.value)
    ensures p.priceHeading.None? && p.pricingDiv.None? ==> MainFieldsOf(p).price == ""
  {
  }
}
