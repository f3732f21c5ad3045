/** The per-listing merge of both crawlers: `scrape_listing_fast` (SQLite) combines the
    ld+json fragment, the DOM price, the details grid, the address tab, the map link and the
    features list field by field; `scrape_listing` (CSV) combines the details grid, the main
    fields, the address tab, the features list and the map link. The page is given already
    split into what each extractor reads, and the clock readings as parameters. */
module Reconcile {
  import opened Text
  import opened Opt
  import opened ListingIds
  import opened PriceDom
  import opened DomExtract
  import opened MainFields
  import opened LdJson
  import opened Coords

  // ---------------------------------------------------------------------------
  // The SQLite row

  /** One `listings` row. `details` is the map `details_json` serialises; the amount is the
      decimal text of the REAL column. */
  datatype Row = Row(listingId: string, listingUrl: string, title: string,
                     priceTextFull: string, priceAmount: Option<string>, priceCurrency: string,
                     pricePeriod: string, paymentTerms: string,
                     region: string, city: string, district: string, street: string,
                     postalCode: string, buildingNo: string, additionalNo: string,
                     area: string, rooms: string, halls: string, baths: string,
                     description: string, features: string,
                     lat: string, lon: string, googleMapsUrl: string,
                     ldJson: string, details: map<string, string>,
                     scrapedAt: string, lastSeenAt: string)

  /** A rendered listing page, as the SQLite crawler's extractors see it. */
  datatype ListingPage = ListingPage(html: string, ldScript: LdScript, priceHeading: Option<string>,
                                     detailItems: seq<DetailItem>,
                                     addressTab: Option<seq<AddressItem>>, headings: seq<Heading4>)

  /** `a or b` on strings. */
  function Or(a: string, b: string): string {
    if a != "" then a else b
  }

  /** `clean_text(details.get("رقم الإعلان", "")) or extract_listing_id(url)`. */
  function ListingIdOf(details: map<string, string>, url: string): string {
    Or(CleanText(if ListingNumberLabel in details then details[ListingNumberLabel] else ""),
       ExtractListingId(url))
  }

  /** The row `scrape_listing_fast` builds from what its extractors returned. `dom` is `None`
      when the page has no price heading (the empty dict
      `parse_price_dom` returns). */
  function MergeRow(url: string, ld: LdFields, dom: Option<PriceFields>, details: map<string, string>,
                    addr: seq<string>, coords: MapCoords, domFeatures: string,
                    scrapedAt: string, lastSeenAt: string): Row
    requires |addr| == |AddressLabels|
  {
    var domCurrency := if dom.Some? then dom.value.currency else "";
    var domAmount := if dom.Some? then dom.value.amount else None;
    Row(ListingIdOf(details, url), url, CleanText(ld.title),
        if dom.Some? then dom.value.textFull else "",
        if domAmount.Some? then domAmount else ld.priceAmount,
        CleanText(Or(domCurrency, Or(ld.priceCurrency, "SAR"))),
        CleanText((if dom.Some? then dom.value.period else Unknown).Name()),
        CleanText(if dom.Some? then dom.value.terms else ""),
        Or(addr[Region], CleanText(ld.region)), Or(addr[City], CleanText(ld.city)),
        Or(addr[District], CleanText(ld.district)), Or(addr[Street], CleanText(ld.street)),
        addr[PostalCode], addr[BuildingNo], addr[AdditionalNo],
        CleanText(ld.area), CleanText(ld.rooms), "", CleanText(ld.baths),
        CleanText(ld.description), Or(CleanText(ld.features), domFeatures),
        coords.lat, coords.lon, coords.mapsUrl,
        CleanText(ld.ldJson), details, scrapedAt, lastSeenAt)
  }

  /** `scrape_listing_fast` on a rendered page: raises when `parse_ld_json` does. */
  function ScrapeListingFastOf(p: ListingPage, url: string, scrapedAt: string, lastSeenAt: string): Outcome<Row> {
    match LdJsonOf(p.ldScript)
    case Raised => Raised
    case Returned(ld) =>
      Returned(MergeRow(url, ld, ParsePriceDom(p.priceHeading, p.html), DetailsOf(p.detailItems),
                        DomExtract.AddressOf(p.addressTab), ParseMapCoords(p.html),
                        Join(FeaturesOf(p.headings), "|"), scrapedAt, lastSeenAt))
  }

  /** `scrape_listing_fast`: runs the extractors, then merges. */
  method ScrapeListingFast(p: ListingPage, url: string, scrapedAt: string, lastSeenAt: string)
    returns (r: Outcome<Row>)
    ensures r == ScrapeListingFastOf(p, url, scrapedAt, lastSeenAt)
  {
    var ld := ParseLdJson(p.ldScript);
    if ld.Raised? {
      return Raised;
    }
    var dom := ParsePriceDom(p.priceHeading, p.html);
    var details := ParseDetails(p.detailItems);
    var addr := ParseAddressTab(p.addressTab);
    var coords := ParseMapCoords(p.html);
    var features := CleanText(ld.value.features);
    if features == "" {
      features := ParseFeaturesDom(p.headings);
    }
    var row := MergeRow(url, ld.value, dom, details, addr, coords, features, scrapedAt, lastSeenAt);
    assert row == MergeRow(url, ld.value, dom, details, addr, coords, Join(FeaturesOf(p.headings), "|"),
                           scrapedAt, lastSeenAt);
    r := Returned(row);
  }

  // ---------------------------------------------------------------------------
  // Properties of the merge

  /** The listing number of the details grid names the row when it gives one; otherwise the
      URL's id does, so a listing URL always yields a non-empty id. */
  lemma ListingIdPrecedence(details: map<string, string>, url: string)
    ensures ListingNumberLabel in details && CleanText(details[ListingNumberLabel]) != "" ==>
      ListingIdOf(details, url) == CleanText(details[ListingNumberLabel])
    ensures (ListingNumberLabel !in details || CleanText(details[ListingNumberLabel]) == "") ==>
      ListingIdOf(details, url) == ExtractListingId(url)
    ensures HasListingSuffix(url) ==> ListingIdOf(details, url) != ""
  {
  }

  /** Currency: the DOM marker, else the ld+json currency, else "SAR"; never empty. */
  lemma CurrencyPrecedence(url: string, ld: LdFields, dom: Option<PriceFields>, details: map<string, string>,
                           addr: seq<string>, coords: MapCoords, f: string, s: string, t: string)
    requires |addr| == |AddressLabels|
    requires ld.priceCurrency == "" || IsClean(ld.priceCurrency)
    requires dom.Some? ==> dom.value.currency in {"SAR", ""}
    ensures var row := MergeRow(url, ld, dom, details, addr, coords, f, s, t);
      && (dom.Some? && dom.value.currency == "SAR" ==> row.priceCurrency == "SAR")
      && ((dom.None? || dom.value.currency == "") && ld.priceCurrency != "" ==> row.priceCurrency == ld.priceCurrency)
      && ((dom.None? || dom.value.currency == "") && ld.priceCurrency == "" ==> row.priceCurrency == "SAR")
      && row.priceCurrency != ""
  {
    assert IsClean("SAR");
    CleanTextFixesClean("SAR");
    if ld.priceCurrency != "" {
      CleanTextFixesClean(ld.priceCurrency);
    }
  }

  /** The amount is the DOM's when it read one, and the ld+json amount otherwise. */
  lemma AmountPrecedence(url: string, ld: LdFields, dom: Option<PriceFields>, details: map<string, string>,
                         addr: seq<string>, coords: MapCoords, f: string, s: string, t: string)
    requires |addr| == |AddressLabels|
    ensures var row := MergeRow(url, ld, dom, details, addr, coords, f, s, t);
      && (dom.Some? && dom.value.amount.Some? ==> row.priceAmount == dom.value.amount)
      && (dom.None? || dom.value.amount.None? ==> row.priceAmount == ld.priceAmount)
  {
  }

  /** Region, city, district and street prefer the address tab and fall back on ld+json;
      postal code, building and additional numbers come from the tab alone. */
  lemma AddressPrecedence(url: string, ld: LdFields, ld': LdFields, dom: Option<PriceFields>,
                          details: map<string, string>, addr: seq<string>, coords: MapCoords,
                          f: string, s: string, t: string)
    requires |addr| == |AddressLabels|
    ensures var row := MergeRow(url, ld, dom, details, addr, coords, f, s, t);
      var row' := MergeRow(url, ld', dom, details, addr, coords, f, s, t);
      && (addr[City] != "" ==> row.city == addr[City])
      && (addr[City] == "" ==> row.city == CleanText(ld.city))
      && (addr[Region] != "" ==> row.region == addr[Region] == row'.region)
      && (addr[District] != "" ==> row.district == addr[District] == row'.district)
      && (addr[Street] != "" ==> row.street == addr[Street] == row'.street)
      && row.postalCode == addr[PostalCode] == row'.postalCode
      && row.buildingNo == addr[BuildingNo] == row'.buildingNo
      && row.additionalNo == addr[AdditionalNo] == row'.additionalNo
  {
  }

  /** Features come from ld+json when it lists any, and from the DOM list otherwise. */
  lemma FeaturesPrecedence(url: string, ld: LdFields, dom: Option<PriceFields>, details: map<string, string>,
                           addr: seq<string>, coords: MapCoords, f: string, f': string, s: string, t: string)
    requires |addr| == |AddressLabels|
    requires CleanText(ld.features) != ""
    ensures MergeRow(url, ld, dom, details, addr, coords, f, s, t).features
         == MergeRow(url, ld, dom, details, addr, coords, f', s, t).features
         == CleanText(ld.features)
  {
  }

  /** The fields read from ld+json keep their values: they are clean already, and cleaning
      a clean text changes nothing. */
  lemma LdFieldsKept(p: ListingPage, url: string, s: string, t: string)
    requires ScrapeListingFastOf(p, url, s, t).Returned?
    ensures var row := ScrapeListingFastOf(p, url, s, t).value;
      var ld := LdJsonOf(p.ldScript).value;
      row.title == ld.title && row.description == ld.description && row.rooms == ld.rooms
      && row.baths == ld.baths && row.halls == ""
  {
    LdJsonClean(p.ldScript);
  }

  /** The title, description, rooms and baths `parse_ld_json` returns are cleaned texts. */
  lemma LdJsonClean(script: LdScript)
    requires LdJsonOf(script).Returned?
    ensures var ld := LdJsonOf(script).value;
      CleanText(ld.title) == ld.title && CleanText(ld.description) == ld.description
      && CleanText(ld.rooms) == ld.rooms && CleanText(ld.baths) == ld.baths
  {
    match script
    case NoScript =>
    case Unparsable =>
    case Parsed(data, dumped) =>
      var ms := data.members;
      assert LdJsonOf(script).value == LdJson.FieldsOf(ms, dumped, OffersOf(ms).value);
      CleanTextIdempotent(PyStr(GetOr(ms, "name", JString(""))));
      CleanTextIdempotent(PyStr(GetOr(ms, "description", JString(""))));
      RoutedClean(AmenityItems(ms), RoomsName);
      RoutedClean(AmenityItems(ms), BathsName);
  }

  /** A routed amenity value is a cleaned text. */
  lemma {:induction false} RoutedClean(items: seq<Json>, name: string)
    ensures CleanText(RoutedValue(items, name)) == RoutedValue(items, name)
  {
    if items == [] {
    } else {
      var f := items[|items| - 1];
      match AmenityValue(f, name)
      case Some(v) =>
        CleanTextIdempotent(PyStr(Lookup(f.members, "value").value));
      case None =>
        RoutedClean(items[..|items| - 1], name);
    }
  }

  /** The period column always holds one of the five period names. */
  lemma PeriodColumn(url: string, ld: LdFields, dom: Option<PriceFields>, details: map<string, string>,
                     addr: seq<string>, coords: MapCoords, f: string, s: string, t: string)
    requires |addr| == |AddressLabels|
    ensures MergeRow(url, ld, dom, details, addr, coords, f, s, t).pricePeriod
            in {"yearly", "monthly", "weekly", "daily", "unknown"}
  {
    PeriodNameKept(if dom.Some? then dom.value.period else Unknown);
  }

  /** A period name is clean, so cleaning it changes nothing. */
  lemma PeriodNameKept(p: Period)
    ensures CleanText(p.Name()) == p.Name()
  {
    var n := p.Name();
    assert IsClean(n);
    CleanTextFixesClean(n);
  }

  // ---------------------------------------------------------------------------
  // The CSV record

  /** A rendered listing page, as the CSV crawler's extractors see it. */
  datatype CsvPage = CsvPage(html: string, detailItems: seq<DetailItem>, main: MainPage,
                             addressTab: Option<seq<AddressItem>>, headings: seq<Heading4>)

  /** The CSV file's columns, in order. */
  const CsvFields: seq<string> := [
    "listing_url", "listing_id", "title", "price", "region", "city", "district", "street",
    "postal_code", "building_no", "additional_no", "area", "rooms", "halls", "baths",
    "description", "features", "google_maps_url", "lat", "lon", "details_json", "scraped_at"]

  /** The dict `scrape_listing` returns, one field per key. */
  datatype CsvRecord = CsvRecord(listingUrl: string, listingId: string, title: string, price: string,
                                 region: string, city: string, district: string, street: string,
                                 postalCode: string, buildingNo: string, additionalNo: string,
                                 area: string, rooms: string, halls: string, baths: string,
                                 description: string, features: string, googleMapsUrl: string,
                                 lat: string, lon: string, detailsJson: string, scrapedAt: string)
  {
    /** The record as the dict handed to `append_csv`. */
    function AsDict(): map<string, string> {
      map["listing_url" := listingUrl, "listing_id" := listingId, "title" := title, "price" := price,
          "region" := region, "city" := city, "district" := district, "street" := street,
          "postal_code" := postalCode, "building_no" := buildingNo, "additional_no" := additionalNo,
          "area" := area, "rooms" := rooms, "halls" := halls, "baths" := baths,
          "description" := description, "features" := features, "google_maps_url" := googleMapsUrl,
          "lat" := lat, "lon" := lon, "details_json" := detailsJson, "scraped_at" := scrapedAt]
    }
  }

  /** The record `scrape_listing` builds from what its extractors returned. `detailsJson` is
      the `json.dumps` text of the details map. */
  function CsvRecordOf(url: string, details: map<string, string>, main: ListingFields,
                       addr: seq<string>, features: seq<string>, coords: MapCoords,
                       detailsJson: string, scrapedAt: string): CsvRecord
    requires |addr| == |AddressLabels|
  {
    CsvRecord(url, ListingIdOf(details, url), main.title, main.price,
              addr[Region], Or(addr[City], main.city), Or(addr[District], main.district), addr[Street],
              addr[PostalCode], addr[BuildingNo], addr[AdditionalNo],
              main.area, main.rooms, main.halls, main.baths, main.description, Join(features, "|"),
              coords.mapsUrl, coords.lat, coords.lon, detailsJson, scrapedAt)
  }

  /** `scrape_listing` on a rendered page. */
  function ScrapeListingOf(p: CsvPage, url: string, detailsJson: string, scrapedAt: string): CsvRecord {
    CsvRecordOf(url, DetailsOf(p.detailItems), MainFieldsOf(p.main), DomExtract.AddressOf(p.addressTab),
                FeaturesOf(p.headings), ParseMapCoords(p.html), detailsJson, scrapedAt)
  }

  /** `scrape_listing`: runs the extractors, then builds the record. */
  method ScrapeListing(p: CsvPage, url: string, detailsJson: string, scrapedAt: string)
    returns (record: CsvRecord)
    ensures record == ScrapeListingOf(p, url, detailsJson, scrapedAt)
  {
    var details := ParseDetails(p.detailItems);
    var main := ParseMainListingFields(p.main);
    var address := ParseAddressTab(p.addressTab);
    var features := ParseFeatures(p.headings);
    var coords := ParseMapCoords(p.html);
    record := CsvRecordOf(url, details, main, address, features, coords, detailsJson, scrapedAt);
  }

  /** The dict holds exactly the CSV columns, so `append_csv` never fills a default in. */
  lemma CsvRecordKeys(r: CsvRecord)
    ensures r.AsDict().Keys == set k | k in CsvFields
  {
  }

  /** City and district prefer the address tab, and fall back on the title; region, street,
      postal code, building and additional numbers come from the tab alone. */
  lemma CsvAddressPrecedence(url: string, details: map<string, string>, main: ListingFields,
                             addr: seq<string>, features: seq<string>, coords: MapCoords, dj: string, s: string)
    requires |addr| == |AddressLabels|
    ensures var r := CsvRecordOf(url, details, main, addr, features, coords, dj, s);
      && (addr[City] != "" ==> r.city == addr[City])
      && (addr[City] == "" ==> r.city == main.city)
      && (addr[District] != "" ==> r.district == addr[District])
      && (addr[District] == "" ==> r.district == main.district)
      && r.region == addr[Region] && r.street == addr[Street]
      && r.postalCode == addr[PostalCode] && r.buildingNo == addr[BuildingNo]
      && r.additionalNo == addr[AdditionalNo]
  {
  }

  /** `{k: row.get(k, "") for k in fieldnames}` in the column order `csv.DictWriter` writes. */
  function CsvLine(fieldnames: seq<string>, row: map<string, string>): (line: seq<string>)
    ensures |line| == |fieldnames|
  {
    if fieldnames == [] then []
    else
      var k := fieldnames[|fieldnames| - 1];
      CsvLine(fieldnames[..|fieldnames| - 1], row) + [if k in row then row[k] else ""]
  }

  /** Column `i` of the written line is the row's value for the `i`-th field name, or ""
      when the row lacks that key; keys outside the field names are dropped. */
  lemma {:induction false} CsvLineAt(fieldnames: seq<string>, row: map<string, string>, i: nat)
    requires i < |fieldnames|
    ensures CsvLine(fieldnames, row)[i] == if fieldnames[i] in row then row[fieldnames[i]] else ""
  {
    if i < |fieldnames| - 1 {
      CsvLineAt(fieldnames[..|fieldnames| - 1], row, i);
    }
  }

  /** Keys the field names do not mention do not reach the file. */
  lemma {:induction false} CsvLineIgnoresOtherKeys(fieldnames: seq<string>, row: map<string, string>, k: string, v: string)
    requires k !in fieldnames
    ensures CsvLine(fieldnames, row[k := v]) == CsvLine(fieldnames, row)
  {
    if fieldnames != [] {
      var init := fieldnames[..|fieldnames| - 1];
      assert k !in init by {
        assert forall x :: x in init ==> x in fieldnames;
      }
      CsvLineIgnoresOtherKeys(init, row, k, v);
    }
  }
}
