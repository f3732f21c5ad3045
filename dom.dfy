/** The DOM field extractors, over pages already parsed into the items the CSS selectors
    pick out: the details grid (`parse_details_table` / `parse_details`), the address tab
    (`parse_address_tab3`), the specs grid and title fallbacks (`parse_main_listing_fields`)
    and the features list (`parse_features_dom` / `parse_features`). Each item carries the
    raw texts of the elements those functions read; `clean_text` is applied here, as there. */
module DomExtract {
  import opened Text
  import opened Opt
  import opened Lists

  // ---------------------------------------------------------------------------
  // Labelled entries: a loop that stores `out[label] = value` item after item

  /** The dictionary a sequence of optional (label, value) entries leaves behind. */
  function Collect(entries: seq<Option<(string, string)>>): (m: map<string, string>)
    ensures forall k :: k in m ==> exists j :: 0 <= j < |entries| && entries[j].Some? && entries[j].value.0 == k
  {
    if entries == [] then map[]
    else
      var m := Collect(entries[..|entries| - 1]);
      var last := entries[|entries| - 1];
      assert forall j :: 0 <= j < |entries| - 1 ==> entries[..|entries| - 1][j] == entries[j];
      if last.Some? then m[last.value.0 := last.value.1] else m
  }

  lemma CollectSnoc(entries: seq<Option<(string, string)>>, e: Option<(string, string)>)
    ensures Collect(entries + [e]) == if e.Some? then Collect(entries)[e.value.0 := e.value.1] else Collect(entries)
  {
    assert (entries + [e])[..|entries|] == entries;
  }

  /** The entry at `j` has label `k`. */
  predicate HasLabel(entries: seq<Option<(string, string)>>, j: int, k: string) {
    0 <= j < |entries| && entries[j].Some? && entries[j].value.0 == k
  }

  /** A later entry with the same label overwrites an earlier one: a label is stored exactly
      when some entry carries it, and its value is the one of the last such entry. */
  lemma {:induction false} CollectLastWins(entries: seq<Option<(string, string)>>, k: string)
    ensures k in Collect(entries) <==> exists j :: HasLabel(entries, j, k)
    ensures k in Collect(entries) ==> exists j :: (HasLabel(entries, j, k)
      && entries[j].value.1 == Collect(entries)[k]
      && forall j' :: j < j' < |entries| ==> !HasLabel(entries, j', k))
  {
    if entries != [] {
      var init := entries[..|entries| - 1];
      var n := |entries| - 1;
      CollectLastWins(init, k);
      assert forall j :: HasLabel(init, j, k) ==> HasLabel(entries, j, k);
      if HasLabel(entries, n, k) {
        assert Collect(entries)[k] == entries[n].value.1;
      } else {
        assert k in Collect(entries) ==> k in Collect(init) && Collect(entries)[k] == Collect(init)[k];
        assert forall j :: HasLabel(entries, j, k) ==> HasLabel(init, j, k);
      }
    }
  }

  // ---------------------------------------------------------------------------
  // Details grid

  const ViewsLabel: string := "المشاهدات"
  const ListingNumberLabel: string := "رقم الإعلان"

  /** Anchor texts that stand for "no text": the value is then the link target. */
  const LinkPlaceholders: set<string> := {"الرابط", "link", ""}

  /** The first `a[href]` of an item: its raw `href` attribute and its text. */
  datatype Anchor = Anchor(href: string, text: string)

  /** One `div[class*='_item__']` of the details grid: the text of its first `_label__` span,
      of its first `div span`, its first anchor with an `href`, and the texts of all its spans
      (the key span included: its text equals the key, which the value rule skips). */
  datatype DetailItem = DetailItem(labelSpan: Option<string>, viewsSpan: Option<string>,
                                   anchor: Option<Anchor>, spans: seq<string>)

  /** A cleaned span text the value rule keeps: not empty and not the label `key`. */
  predicate OtherText(key: string, t: string) {
    t != "" && t != key
  }

  /** `[t for t in texts if t and t != label]` over the cleaned span texts. */
  function OtherSpanTexts(spans: seq<string>, key: string): seq<string> {
    Filter(CleanAll(spans), KeepsOther(key))
  }

  function KeepsOther(key: string): string -> bool {
    t => OtherText(key, t)
  }

  /** The first span text that, cleaned, is neither empty nor the label `key`; "" if none. */
  function FirstOtherSpan(spans: seq<string>, key: string): (r: string)
    ensures r == "" <==> forall i :: 0 <= i < |spans| ==> !OtherText(key, CleanAll(spans)[i])
    ensures r != "" ==> (OtherText(key, r) && exists i :: (0 <= i < |spans| && CleanAll(spans)[i] == r
      && forall j :: 0 <= j < i ==> !OtherText(key, CleanAll(spans)[j])))
  {
    var cleaned := CleanAll(spans);
    var texts := OtherSpanTexts(spans, key);
    FilterFirst(cleaned, KeepsOther(key));
    assert forall t :: KeepsOther(key)(t) == OtherText(key, t);
    if texts != [] then
      assert exists i :: (0 <= i < |spans| && CleanAll(spans)[i] == texts[0] && OtherText(key, texts[0])
          && forall j :: 0 <= j < i ==> !OtherText(key, CleanAll(spans)[j])) by {
        var i :| 0 <= i < |cleaned| && cleaned[i] == texts[0] && KeepsOther(key)(cleaned[i])
          && forall j :: 0 <= j < i ==> !KeepsOther(key)(cleaned[j]);
        assert 0 <= i < |spans|;
      }
      texts[0]
    else ""
  }

  /** The value an anchor gives: its stripped target for a placeholder text, its text otherwise. */
  function AnchorValue(a: Anchor): string {
    var text := CleanText(a.text);
    if text in LinkPlaceholders then Strip(a.href) else text
  }

  /** The (label, value) an item stores, if any. */
  function DetailEntry(it: DetailItem): (r: Option<(string, string)>)
    ensures r.Some? ==> r.value.0 != "" && r.value.1 != ""
  {
    match it.labelSpan
    case None => None
    case Some(raw) =>
      var key := CleanText(raw);
      if key == "" then None
      else if key == ViewsLabel then
        var v := if it.viewsSpan.Some? then CleanText(it.viewsSpan.value) else "";
        if v != "" then Some((key, v)) else None
      else
        var fromAnchor := if it.anchor.Some? then AnchorValue(it.anchor.value) else "";
        var v := if fromAnchor != "" then fromAnchor else FirstOtherSpan(it.spans, key);
        if v != "" then Some((key, v)) else None
  }

  /** The details rules, item by item: the views counter takes its first `div span` and
      nothing else; any other label takes the anchor's value when it gives one (its target
      when its text is a placeholder), and otherwise the first span text other than the label. */
  lemma DetailEntryRules(it: DetailItem)
    requires it.labelSpan.Some?
    ensures var key := CleanText(it.labelSpan.value);
      var views := if it.viewsSpan.Some? then CleanText(it.viewsSpan.value) else "";
      var fromAnchor := if it.anchor.Some? then AnchorValue(it.anchor.value) else "";
      var fromSpans := FirstOtherSpan(it.spans, key);
      && (key == "" ==> DetailEntry(it).None?)
      && (key == ViewsLabel ==> DetailEntry(it) == if views != "" then Some((key, views)) else None)
      && (key != "" && key != ViewsLabel && fromAnchor != "" ==> DetailEntry(it) == Some((key, fromAnchor)))
      && (key != "" && key != ViewsLabel && fromAnchor == "" ==>
            DetailEntry(it) == if fromSpans != "" then Some((key, fromSpans)) else None)
      && (it.anchor.Some? && CleanText(it.anchor.value.text) in LinkPlaceholders ==>
            fromAnchor == Strip(it.anchor.value.href))
  {
  }

  /** The entries of the grid's items, in order. */
  function DetailEntries(items: seq<DetailItem>): (r: seq<Option<(string, string)>>)
    ensures |r| == |items|
  {
    if items == [] then [] else DetailEntries(items[..|items| - 1]) + [DetailEntry(items[|items| - 1])]
  }

  lemma {:induction false} DetailEntriesAt(items: seq<DetailItem>, j: nat)
    requires j < |items|
    ensures DetailEntries(items)[j] == DetailEntry(items[j])
  {
    if j < |items| - 1 {
      DetailEntriesAt(items[..|items| - 1], j);
    }
  }

  /** What `parse_details_table` returns. */
  function DetailsOf(items: seq<DetailItem>): map<string, string> {
    Collect(DetailEntries(items))
  }

  /** `parse_details_table` / `parse_details`: the loop over the grid's items. */
  method ParseDetails(items: seq<DetailItem>) returns (details: map<string, string>)
    ensures details == DetailsOf(items)
  {
    details := map[];
    var i := 0;
    while i < |items|
      invariant 0 <= i <= |items|
      invariant details == Collect(DetailEntries(items[..i]))
    {
      var it := items[i];
      assert items[..i + 1][..i] == items[..i];
      CollectSnoc(DetailEntries(items[..i]), DetailEntry(it));
      i := i + 1;
      if it.labelSpan.None? {
        continue;
      }
      var key := CleanText(it.labelSpan.value);
      if key == "" {
        continue;
      }
      if key == ViewsLabel {
        var val := if it.viewsSpan.Some? then CleanText(it.viewsSpan.value) else "";
        if val != "" {
          details := details[key := val];
        }
        continue;
      }
      var value := "";
      if it.anchor.Some? {
        var href := Strip(it.anchor.value.href);
        var aText := CleanText(it.anchor.value.text);
        value := if aText in LinkPlaceholders then href else aText;
      }
      if value == "" {
        var texts := OtherSpanTexts(it.spans, key);
        if texts != [] {
          value := texts[0];
        }
      }
      if value != "" {
        details := details[key := value];
      }
    }
    assert items[..|items|] == items;
  }

  /** The details grid never stores an empty label or an empty value, and each stored pair
      is the one the last item with that key gives. */
  lemma DetailsStored(items: seq<DetailItem>, k: string)
    requires k in DetailsOf(items)
    ensures k != "" && DetailsOf(items)[k] != ""
    ensures exists j :: (0 <= j < |items| && DetailEntry(items[j]) == Some((k, DetailsOf(items)[k]))
      && forall j' :: j < j' < |items| ==> !HasLabel(DetailEntries(items), j', k))
  {
    var es := DetailEntries(items);
    CollectLastWins(es, k);
    var j :| HasLabel(es, j, k) && es[j].value.1 == Collect(es)[k]
      && forall j' :: j < j' < |es| ==> !HasLabel(es, j', k);
    DetailEntriesAt(items, j);
    assert es[j] == Some((k, DetailsOf(items)[k]));
    assert DetailEntry(items[j]).value.0 != "" && DetailEntry(items[j]).value.1 != "";
  }

  // ---------------------------------------------------------------------------
  // Fixed label tables: the address tab and the specs grid

  /** The value stored under each of `labels`, "" where nothing was stored. */
  function Slots(labels: seq<string>, m: map<string, string>): (r: seq<string>)
    ensures |r| == |labels|
    ensures forall j :: 0 <= j < |labels| ==> r[j] == if labels[j] in m then m[labels[j]] else ""
  {
    seq(|labels|, j requires 0 <= j < |labels| => if labels[j] in m then m[labels[j]] else "")
  }

  /** Storing under the label of slot `j` sets that slot only. */
  lemma SlotsStore(labels: seq<string>, m: map<string, string>, k: string, v: string, j: nat)
    requires NoDup(labels) && j < |labels| && labels[j] == k
    ensures Slots(labels, m[k := v]) == Slots(labels, m)[j := v]
  {
  }

  /** Storing under a label outside the table changes no slot. */
  lemma SlotsSkip(labels: seq<string>, m: map<string, string>, k: string, v: string)
    requires k !in labels
    ensures Slots(labels, m[k := v]) == Slots(labels, m)
  {
  }

  const RegionLabel: string := "المنطقة"
  const CityLabel: string := "المدينة"
  const DistrictLabel: string := "الحي"
  const StreetLabel: string := "الشارع"
  const PostalCodeLabel: string := "الرمز البريدي"
  const BuildingNoLabel: string := "رقم المبنى"
  const AdditionalNoLabel: string := "الرقم الإضافي"
  const AddressLabels: seq<string> := [RegionLabel, CityLabel, DistrictLabel, StreetLabel,
                                       PostalCodeLabel, BuildingNoLabel, AdditionalNoLabel]
  // slots of AddressLabels, named after the output keys
  const Region: nat := 0
  const City: nat := 1
  const District: nat := 2
  const Street: nat := 3
  const PostalCode: nat := 4
  const BuildingNo: nat := 5
  const AdditionalNo: nat := 6

  /** One `div._item___4Sv8` of the address tab: the text of its `span._label___qjLO`, and the
      texts of all its spans in document order (the label span is usually the first). */
  datatype AddressItem = AddressItem(labelSpan: Option<string>, spans: seq<string>)

  /** Items without a label span or with fewer than two spans are skipped; the value is the
      second span, even when it is empty. */
  function AddressEntry(it: AddressItem): Option<(string, string)> {
    if it.labelSpan.Some? && |it.spans| >= 2 then
      Some((CleanText(it.labelSpan.value), CleanText(it.spans[1])))
    else None
  }

  /** The entries of the tab's items, in order. */
  function AddressEntries(items: seq<AddressItem>): (r: seq<Option<(string, string)>>)
    ensures |r| == |items|
  {
    if items == [] then [] else AddressEntries(items[..|items| - 1]) + [AddressEntry(items[|items| - 1])]
  }

  lemma {:induction false} AddressEntriesAppend(a: seq<AddressItem>, b: seq<AddressItem>)
    ensures AddressEntries(a + b) == AddressEntries(a) + AddressEntries(b)
    decreases |b|
  {
    if b == [] {
      assert a + b == a;
    } else {
      var init := b[..|b| - 1];
      assert (a + b)[..|a + b| - 1] == a + init;
      AddressEntriesAppend(a, init);
    }
  }

  /** What `parse_address_tab3` returns, slot by slot; `None` is a page without the tab. */
  function AddressOf(tab: Option<seq<AddressItem>>): (r: seq<string>)
    ensures |r| == |AddressLabels|
  {
    match tab
    case None => Slots(AddressLabels, map[])
    case Some(items) => Slots(AddressLabels, Collect(AddressEntries(items)))
  }

  lemma AddressLabelsDistinct()
    ensures NoDup(AddressLabels)
  {
  }

  /** `parse_address_tab3` (the same in both crawlers): the loop over the tab's items. */
  method ParseAddressTab(tab: Option<seq<AddressItem>>) returns (out: seq<string>)
    ensures out == AddressOf(tab)
  {
    out := ["", "", "", "", "", "", ""];
    if tab.None? {
      return;
    }
    var items := tab.value;
    var i := 0;
    ghost var seen := Collect(AddressEntries([]));
    while i < |items|
      invariant 0 <= i <= |items|
      invariant seen == Collect(AddressEntries(items[..i]))
      invariant out == Slots(AddressLabels, seen)
    {
      var item := items[i];
      assert items[..i + 1][..i] == items[..i];
      CollectSnoc(AddressEntries(items[..i]), AddressEntry(item));
      out := StoreAddressItem(out, item, seen);
      seen := Collect(AddressEntries(items[..i + 1]));
      i := i + 1;
    }
    assert items[..|items|] == items;
  }

  /** The field a label's value goes to, checked in the order `parse_address_tab3`'s
      `if`/`elif` chain checks them. */
  function AssignAddress(out: seq<string>, k: string, v: string): seq<string>
    requires |out| == |AddressLabels|
  {
    if k == RegionLabel then out[Region := v]
    else if k == CityLabel then out[City := v]
    else if k == DistrictLabel then out[District := v]
    else if k == StreetLabel then out[Street := v]
    else if k == PostalCodeLabel then out[PostalCode := v]
    else if k == BuildingNoLabel then out[BuildingNo := v]
    else if k == AdditionalNoLabel then out[AdditionalNo := v]
    else out
  }

  /** The label chain stores the value under its label, as a dictionary would. */
  lemma AssignAddressStores(m: map<string, string>, k: string, v: string)
    ensures AssignAddress(Slots(AddressLabels, m), k, v) == Slots(AddressLabels, m[k := v])
  {
    AddressLabelsDistinct();
    var ls := AddressLabels;
    if k == RegionLabel {
      SlotsStore(ls, m, k, v, Region);
    } else if k == CityLabel {
      SlotsStore(ls, m, k, v, City);
    } else if k == DistrictLabel {
      SlotsStore(ls, m, k, v, District);
    } else if k == StreetLabel {
      SlotsStore(ls, m, k, v, Street);
    } else if k == PostalCodeLabel {
      SlotsStore(ls, m, k, v, PostalCode);
    } else if k == BuildingNoLabel {
      SlotsStore(ls, m, k, v, BuildingNo);
    } else if k == AdditionalNoLabel {
      SlotsStore(ls, m, k, v, AdditionalNo);
    } else {
      SlotsSkip(ls, m, k, v);
    }
  }

  /** The body of the address loop: one item's label picks the field its value goes to. */
  method StoreAddressItem(out: seq<string>, item: AddressItem, ghost m: map<string, string>)
    returns (r: seq<string>)
    requires out == Slots(AddressLabels, m)
    ensures r == Slots(AddressLabels, match AddressEntry(item)
                                      case None => m
                                      case Some(e) => m[e.0 := e.1])
  {
    r := out;
    if item.labelSpan.None? || |item.spans| < 2 {
      return;
    }
    var k := CleanText(item.labelSpan.value);
    var v := CleanText(item.spans[1]);
    if k == RegionLabel {
      r := r[Region := v];
    } else if k == CityLabel {
      r := r[City := v];
    } else if k == DistrictLabel {
      r := r[District := v];
    } else if k == StreetLabel {
      r := r[Street := v];
    } else if k == PostalCodeLabel {
      r := r[PostalCode := v];
    } else if k == BuildingNoLabel {
      r := r[BuildingNo := v];
    } else if k == AdditionalNoLabel {
      r := r[AdditionalNo := v];
    }
    assert r == AssignAddress(out, k, v);
    AssignAddressStores(m, k, v);
  }

  /** Without the tab all seven address fields are empty. */
  lemma AddressAbsent()
    ensures forall j :: 0 <= j < |AddressLabels| ==> AddressOf(None)[j] == ""
  {
  }

  /** A slot whose label no item carries stays "". */
  lemma AddressUnnamedEmpty(items: seq<AddressItem>, j: nat)
    requires j < |AddressLabels|
    requires forall i :: !HasLabel(AddressEntries(items), i, AddressLabels[j])
    ensures AddressOf(Some(items))[j] == ""
  {
    SlotsLastWins(AddressLabels, AddressEntries(items), j);
  }

  /** The last item carrying a slot's label decides that slot: whatever came before it,
      the slot holds that item's second span, cleaned. */
  lemma AddressLastWins(before: seq<AddressItem>, it: AddressItem, after: seq<AddressItem>, j: nat)
    requires j < |AddressLabels|
    requires it.labelSpan.Some? && |it.spans| >= 2 && CleanText(it.labelSpan.value) == AddressLabels[j]
    requires forall i :: !HasLabel(AddressEntries(after), i, AddressLabels[j])
    ensures AddressOf(Some(before + [it] + after))[j] == CleanText(it.spans[1])
  {
    AddressEntriesAppend(before + [it], after);
    AddressEntriesAppend(before, [it]);
    assert AddressEntries([it]) == [AddressEntry(it)] by {
      assert [it][..0] == [];
    }
    CollectLastEntry(AddressEntries(before), AddressEntry(it), AddressEntries(after));
  }

  /** The value stored under an entry's label is that entry's when no later entry has the label. */
  lemma {:induction false} CollectLastEntry(before: seq<Option<(string, string)>>, e: Option<(string, string)>,
                                            after: seq<Option<(string, string)>>)
    requires e.Some? && forall i :: !HasLabel(after, i, e.value.0)
    ensures e.value.0 in Collect(before + [e] + after)
    ensures Collect(before + [e] + after)[e.value.0] == e.value.1
    decreases |after|
  {
    if after == [] {
      assert before + [e] + after == before + [e];
      CollectSnoc(before, e);
    } else {
      var init := after[..|after| - 1];
      var x := after[|after| - 1];
      assert before + [e] + after == (before + [e] + init) + [x];
      assert !HasLabel(after, |after| - 1, e.value.0);
      assert forall i :: HasLabel(init, i, e.value.0) ==> HasLabel(after, i, e.value.0);
      CollectLastEntry(before, e, init);
      CollectSnoc(before + [e] + init, x);
    }
  }

  /** A slot holds the value of the last entry carrying its label, or "" when none does. */
  lemma SlotsLastWins(labels: seq<string>, es: seq<Option<(string, string)>>, j: nat)
    requires j < |labels|
    ensures (forall i :: !HasLabel(es, i, labels[j])) ==> Slots(labels, Collect(es))[j] == ""
    ensures (exists i :: HasLabel(es, i, labels[j])) ==> exists i :: (HasLabel(es, i, labels[j])
      && Slots(labels, Collect(es))[j] == es[i].value.1
      && forall i' :: i < i' < |es| ==> !HasLabel(es, i', labels[j]))
  {
    CollectLastWins(es, labels[j]);
  }

  /** An entry under another label, or no entry, leaves what is stored under `k` as it is,
      wherever it appears. */
  lemma {:induction false} CollectSkip(before: seq<Option<(string, string)>>, e: Option<(string, string)>,
                                       after: seq<Option<(string, string)>>, k: string)
    requires e.None? || e.value.0 != k
    ensures (k in Collect(before + [e] + after)) == (k in Collect(before + after))
    ensures k in Collect(before + after) ==> Collect(before + [e] + after)[k] == Collect(before + after)[k]
    decreases |after|
  {
    if after == [] {
      assert before + [e] + after == before + [e];
      assert before + after == before;
      CollectSnoc(before, e);
    } else {
      var init := after[..|after| - 1];
      var x := after[|after| - 1];
      assert before + [e] + after == (before + [e] + init) + [x];
      assert before + after == (before + init) + [x];
      CollectSnoc(before + [e] + init, x);
      CollectSnoc(before + init, x);
      CollectSkip(before, e, init, k);
    }
  }

  /** An entry whose label is outside the table, or no entry, changes no slot, wherever
      it appears. */
  lemma SlotsIgnore(labels: seq<string>, before: seq<Option<(string, string)>>, e: Option<(string, string)>,
                    after: seq<Option<(string, string)>>)
    requires e.None? || e.value.0 !in labels
    ensures Slots(labels, Collect(before + [e] + after)) == Slots(labels, Collect(before + after))
  {
    forall j | 0 <= j < |labels|
      ensures Slots(labels, Collect(before + [e] + after))[j] == Slots(labels, Collect(before + after))[j]
    {
      CollectSkip(before, e, after, labels[j]);
    }
  }

  /** An item with an unknown label, without a label span or with fewer than two spans
      changes nothing, wherever it appears. */
  lemma AddressIgnores(before: seq<AddressItem>, it: AddressItem, after: seq<AddressItem>)
    requires AddressEntry(it).None? || AddressEntry(it).value.0 !in AddressLabels
    ensures AddressOf(Some(before + [it] + after)) == AddressOf(Some(before + after))
  {
    AddressEntriesAppend(before + [it], after);
    AddressEntriesAppend(before, [it]);
    assert AddressEntries([it]) == [AddressEntry(it)] by {
      assert [it][..0] == [];
    }
    AddressEntriesAppend(before, after);
    SlotsIgnore(AddressLabels, AddressEntries(before), AddressEntry(it), AddressEntries(after));
  }

  // ---------------------------------------------------------------------------
  // Features list

  const FeaturesHeading: string := "المميزات"

  /** An `h4` of the page: its text, and the texts of the `div._label___qjLO` elements inside
      the first `div` that follows it in document order (`None` when no `div` follows). */
  datatype Heading4 = Heading4(text: string, nextDiv: Option<seq<string>>)

  /** The cleaned texts of the headings, in document order. */
  function HeadingTitles(hs: seq<Heading4>): (r: seq<string>)
    ensures |r| == |hs|
  {
    if hs == [] then [] else HeadingTitles(hs[..|hs| - 1]) + [CleanText(hs[|hs| - 1].text)]
  }

  lemma {:induction false} HeadingTitlesAt(hs: seq<Heading4>, j: nat)
    requires j < |hs|
    ensures HeadingTitles(hs)[j] == CleanText(hs[j].text)
  {
    if j < |hs| - 1 {
      HeadingTitlesAt(hs[..|hs| - 1], j);
    }
  }

  /** The first heading whose cleaned text is "المميزات", if any. */
  function FeaturesHeadingIndex(hs: seq<Heading4>): (r: Option<nat>)
    ensures r.None? ==> FeaturesHeading !in HeadingTitles(hs)
    ensures r.Some? ==> (r.value < |hs| && HeadingTitles(hs)[r.value] == FeaturesHeading
      && FeaturesHeading !in HeadingTitles(hs)[..r.value])
  {
    FirstIndexFrom(HeadingTitles(hs), FeaturesHeading, 0)
  }

  predicate NonEmpty(t: string) { t != "" }

  /** The cleaned label texts that are not empty, in order. */
  function NonEmptyCleaned(labels: seq<string>): seq<string> {
    Filter(CleanAll(labels), NonEmpty)
  }

  lemma NonEmptyCleanedSnoc(labels: seq<string>, x: string)
    ensures NonEmptyCleaned(labels + [x])
         == if CleanText(x) != "" then NonEmptyCleaned(labels) + [CleanText(x)] else NonEmptyCleaned(labels)
  {
    assert (labels + [x])[..|labels|] == labels;
    assert CleanAll(labels + [x]) == CleanAll(labels) + [CleanText(x)];
    assert (CleanAll(labels) + [CleanText(x)])[..|labels|] == CleanAll(labels);
  }

  /** What `parse_features` returns. */
  function FeaturesOf(hs: seq<Heading4>): seq<string> {
    match FeaturesHeadingIndex(hs)
    case None => []
    case Some(i) =>
      match hs[i].nextDiv
      case None => []
      case Some(labels) => Dedup(NonEmptyCleaned(labels))
  }

  /** `parse_features`: find the features heading, read the labels of the div after it,
      then drop empty and repeated names. */
  method ParseFeatures(hs: seq<Heading4>) returns (out: seq<string>)
    ensures out == FeaturesOf(hs)
  {
    var target: Option<nat> := None;
    ghost var titles := HeadingTitles(hs);
    var i := 0;
    while i < |hs|
      invariant 0 <= i <= |hs|
      invariant FeaturesHeadingIndex(hs) == if target.Some? then target else FirstIndexFrom(titles, FeaturesHeading, i)
      invariant target.Some? ==> target.value < |hs|
    {
      HeadingTitlesAt(hs, i);
      if CleanText(hs[i].text) == FeaturesHeading {
        target := Some(i);
        break;
      }
      i := i + 1;
    }
    if target.None? {
      return [];
    }
    var container := hs[target.value].nextDiv;
    if container.None? {
      return [];
    }
    var feats := CollectFeatureLabels(container.value);
    out := DedupInOrder(feats);
  }

  /** The `feats` loop: the cleaned texts of the container's labels, empty ones dropped. */
  method CollectFeatureLabels(labels: seq<string>) returns (feats: seq<string>)
    ensures feats == NonEmptyCleaned(labels)
  {
    feats := [];
    var i := 0;
    while i < |labels|
      invariant 0 <= i <= |labels|
      invariant feats == NonEmptyCleaned(labels[..i])
    {
      assert labels[..i + 1] == labels[..i] + [labels[i]];
      NonEmptyCleanedSnoc(labels[..i], labels[i]);
      var t := CleanText(labels[i]);
      if t != "" {
        feats := feats + [t];
      }
      i := i + 1;
    }
    assert labels[..|labels|] == labels;
  }

  /** `parse_features_dom`: the same list, joined with `|`. */
  method ParseFeaturesDom(hs: seq<Heading4>) returns (joined: string)
    ensures joined == Join(FeaturesOf(hs), "|")
  {
    var out := ParseFeatures(hs);
    joined := Join(out, "|");
  }

  /** The features list holds distinct, non-empty names: exactly the non-empty cleaned label
      texts of the div after the first features heading, and nothing without that heading
      or that div. */
  lemma FeaturesFacts(hs: seq<Heading4>)
    ensures NoDup(FeaturesOf(hs)) && "" !in FeaturesOf(hs)
    ensures forall x :: x in FeaturesOf(hs) <==> (x != "" && FeaturesHeadingIndex(hs).Some?
      && hs[FeaturesHeadingIndex(hs).value].nextDiv.Some?
      && x in CleanAll(hs[FeaturesHeadingIndex(hs).value].nextDiv.value))
  {
  }

  /** Of two features, the one listed first is the one whose label appears first. */
  lemma FeaturesFirstSeenOrder(hs: seq<Heading4>, a: nat, b: nat)
    requires a < b < |FeaturesOf(hs)|
    ensures var labels := hs[FeaturesHeadingIndex(hs).value].nextDiv.value;
      var feats := NonEmptyCleaned(labels);
      FeaturesOf(hs)[a] in feats && FeaturesOf(hs)[b] in feats
      && IndexOf(feats, FeaturesOf(hs)[a]) < IndexOf(feats, FeaturesOf(hs)[b])
  {
    var labels := hs[FeaturesHeadingIndex(hs).value].nextDiv.value;
    DedupFirstSeenOrder(NonEmptyCleaned(labels), a, b);
  }
}
