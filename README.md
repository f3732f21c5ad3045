# Listing crawlers: record pipeline model

Two near-duplicate crawlers read a real-estate feed and store one record per listing:

- `scraper_live_tosqlite.py` keeps the listings in an SQLite table.
- `scraper_live.py` appends them to a CSV file and remembers the ids it has already seen in a text file.

This project models the part between "the rendered page is available" and "the record is committed". That part is:

- the text and identifier helpers: `clean_text`, `extract_listing_id`, `feed_page_url` and `parse_map_coords`;
- the field extractors:
  - the details grid, the address tab, the specs grid and the features list;
  - the ld+json block;
  - the DOM price heading;
- the per-field reconciliation that builds a row;
- the feed URL filter and its fallbacks;
- the SQLite table as a map keyed by `listing_id`, with has, touch and upsert;
- the schema upgrade;
- the seen-ids file format;
- the per-URL steps of both crawl loops;
- the projection of a CSV row onto the header;
- the stop flag.

Modules, one per file:

| file | module | what it holds |
|---|---|---|
| option.dfy | Opt | `Option`, and `Outcome` (a value, or an exception that was raised) |
| text.dfy | Text | `clean_text` and its normal form; `strip`, substring search, `replace`, `join` |
| lists.dfy | Lists | order-preserving dedup (the `seen`/`out` loops) and filtering |
| ids.dfy | ListingIds | `extract_listing_id`, `feed_page_url` |
| coords.dfy | Coords | `parse_map_coords` |
| price.dfy | PriceDom | `parse_price_dom` |
| dom.dfy | DomExtract | the details grid, address tab and features list (both crawlers) |
| mainfields.dfy | MainFields | `parse_main_listing_fields` (CSV crawler) |
| ldjson.dfy | LdJson | `parse_ld_json` over an already decoded JSON tree |
| urls.dfy | FeedUrls | `extract_urls_from_html` and both `collect_listing_urls` |
| reconcile.dfy | Reconcile | `scrape_listing_fast` and `scrape_listing`; the `append_csv` projection |
| store.dfy | Store | the `listings` table; `ensure_schema_upgrades` |
| seen.dfy | SeenIds | `save_seen` / `load_seen` |
| crawl.dfy | Crawl | the per-URL steps of both `main` loops, the feed retry, `handle_stop` |

Pages are modelled as already-parsed inputs. Each extractor receives what its CSS selectors would have returned:

- the items of the details grid, each with its label span, its first anchor and its span texts;
- the items of the address tab and of the specs grid;
- the `h4` headings, each with the labels of the `div` after it;
- the price heading's text.

The ld+json block is either missing, not parseable, or a decoded JSON tree. Timestamps and the `json.dumps` text are parameters. Every loop of the crawlers that builds a dict or a list is a `method` with a `while`/`for` loop. Each such method is proved equal to a specification function. The properties are stated and proved about those functions. The SQLite table, the CSV crawler's state and the stop flag are classes whose methods update their fields.

## Model

| member | source | states |
|---|---|---|
| Text.CleanTextIsClean | scraper_live_tosqlite.py:54-59 | `CleanText` (`clean_text`): the result of `clean_text` is in normal form: the only whitespace is single ASCII spaces (no NBSP, no tab, no double space), nothing leading or trailing, and no Arabic-Indic digit; empty input gives "" (`clean_text` in scraper_live.py:68-73 is the same) |
| Text.CleanTextKeepsVisibleText | scraper_live_tosqlite.py:54-59 | `CleanText`: the non-whitespace characters are kept in order, with Arabic-Indic digits transliterated |
| Text.NonSpaceEmptyIff | scraper_live_tosqlite.py:54-59 | `s` has no visible (non-whitespace) character exactly when it is all whitespace, the fact behind `clean_text` returning "" |
| Text.CleanTextEmptyIff | scraper_live_tosqlite.py:54-59 | `CleanText`: the result is "" exactly when the input is all whitespace |
| Text.CleanTextFixesClean | scraper_live_tosqlite.py:54-59 | `CleanText`: a string already in normal form is returned unchanged |
| Text.CleanTextIdempotent | scraper_live_tosqlite.py:54-59 | `CleanText`: cleaning twice is cleaning once |
| Text.TranslateDigit | scraper_live_tosqlite.py:19 | the `AR_NUMBERS` table maps each Arabic-Indic digit to the ASCII digit of the same value and leaves every other character alone |
| Text.StripLeftFacts | scraper_live_tosqlite.py:58 | `lstrip` removes exactly the leading whitespace |
| Text.StripRightFacts | scraper_live_tosqlite.py:58 | `rstrip` removes exactly the trailing whitespace |
| Text.CollapseFacts | scraper_live_tosqlite.py:58 | `re.sub(r"\s+", " ")` leaves only single plain spaces and keeps the first character's class |
| Text.Contains | scraper_live_tosqlite.py:329-343 | the `in` test on strings holds exactly when the pattern occurs at some index |
| Text.RemoveCharFacts | scraper_live_tosqlite.py:322 | `replace(",", "")` removes every comma and keeps every other character |
| ListingIds.ExtractListingId | scraper_live_tosqlite.py:79-84 | the result is all digits. A URL ending in `-` and six or more digits (before an optional final newline, as `$` allows) gives those digits. Otherwise the result is "" exactly when no `/listings/<digit>` occurs (same in scraper_live.py:116-124) |
| ListingIds.ListingsPathIdFrom | scraper_live_tosqlite.py:83-84 | the digits after the leftmost `/listings/` followed by a digit, or "" when there is none |
| ListingIds.SuffixId | scraper_live_tosqlite.py:80-82 | the trailing id has at least six digits and the URL ends in `-` plus that id |
| ListingIds.ListingIdOfCardUrl | scraper_live_tosqlite.py:79-82 | for a card URL `slug-<id>` with an id of six or more digits, the extracted id is exactly `<id>` |
| ListingIds.FeedPageUrl | scraper_live_tosqlite.py:75-76 | the URL starts with the feed without its trailing slashes; it is that alone exactly for page 1; for any other page it continues with `/` and the page number, which reads back as that page |
| ListingIds.PageNumberRoundTrip | scraper_live_tosqlite.py:76 | the decimal text of a page number, negative ones included, parses back to it |
| ListingIds.DecimalRoundTrip | scraper_live_tosqlite.py:76 | the decimal digits of a natural number read back as that number |
| ListingIds.RStripSlash | scraper_live_tosqlite.py:76 | `rstrip("/")` removes exactly the trailing slashes |
| Coords.ParseMapCoords | scraper_live_tosqlite.py:461-467 | the maps URL is non-empty exactly when both lat and lon were captured, and is then `https://maps.google.com/?q=` + lat + `,` + lon. Lat and lon come from the leftmost match of the pattern, and are empty exactly when there is no match (same in scraper_live.py:263-274) |
| Coords.CoordsOfScript | scraper_live_tosqlite.py:463-467 | a page whose first quote opens `"lat" : <number> , "lng" : <number>`, with any whitespace, yields those two numbers and their maps URL |
| Coords.MatchCoordsOfText | scraper_live_tosqlite.py:463 | the pattern matches the text `"lat"\s*:\s*N\s*,\s*"lng"\s*:\s*M` and captures N and M |
| Coords.MatchCoords | scraper_live_tosqlite.py:463 | a match starts with `"lat"` and captures two non-empty runs of digits and dots |
| Coords.FirstMatchAfter | scraper_live_tosqlite.py:463-467 | text without a quote before the first match does not change the result |
| Coords.NoMatchWithoutQuote | scraper_live_tosqlite.py:463 | no match starts at a character other than `"` |
| Coords.FirstCoordsAt | scraper_live_tosqlite.py:463 | `re.search` finds the leftmost index where the pattern matches |
| Lists.Dedup | scraper_live_tosqlite.py:452-457 | the `seen`/`out` loop keeps each element once, loses none and has no repeats |
| Lists.DedupInOrder | scraper_live_tosqlite.py:452-457 | the loop over a `seen` set computes `Dedup` |
| Lists.DedupFirstSeenOrder | scraper_live_tosqlite.py:452-457 | deduplicated elements keep the order of their first occurrences |
| Lists.DedupSnoc | scraper_live_tosqlite.py:455-457 | one step of the loop appends the element exactly when it was not seen |
| Lists.Filter | scraper_live.py:416-417 | a filtered list holds exactly the kept elements |
| Lists.FilterFirst | scraper_live_tosqlite.py:438-441 | the first kept element is the one at the first index that passes the test |
| PriceDom.ParsePriceDom | scraper_live_tosqlite.py:310-350 | without a price heading the result is empty. Otherwise `price_text_full` is the cleaned heading text, the currency is "SAR" exactly when the page carries the Saudi currency marker, and the amount, period and terms are read from the heading with `﷼` and `SAR` removed |
| PriceDom.AmountOf | scraper_live_tosqlite.py:319-326 | an amount starts with a digit and holds only digits and at most one dot (what `float()` accepts), with no comma; a text without digits has none |
| PriceDom.AmountOfLeadingNumber | scraper_live_tosqlite.py:319-326 | a number written after text without digits is the amount with its commas removed when it has at most one dot (`1,500 ﷼ / شهري` gives `1500`), and gives no amount when `float()` would raise on it (`1.2.3`) |
| PriceDom.PeriodOf | scraper_live_tosqlite.py:328-336 | the period is yearly, monthly, weekly or daily by the first keyword present, in that order, and unknown when none is |
| PriceDom.SlashedKeyword | scraper_live_tosqlite.py:329-335 | the `/keyword` tests add nothing to the bare keyword tests |
| PriceDom.Period.Name | scraper_live_tosqlite.py:328-336 | the stored period is one of five lower-case ASCII words |
| PriceDom.TermsOf | scraper_live_tosqlite.py:338-341 | the payment terms are always in `clean_text` normal form |
| PriceDom.TermsOfParenthesized | scraper_live_tosqlite.py:338-341 | text in the first parentheses, after text without `(`, gives those terms cleaned |
| PriceDom.TermsStart | scraper_live_tosqlite.py:339 | where `re.search(r"\(([^)]+)\)")` matches: the pattern matches there and at no earlier position, or nowhere at all |
| PriceDom.FirstTerms | scraper_live_tosqlite.py:339 | `re.search(r"\(([^)]+)\)")` finds the leftmost parenthesised group |
| PriceDom.CurrencyOf | scraper_live_tosqlite.py:343 | "SAR" exactly when the page contains `SaudiCurrency`, "" otherwise |
| DomExtract.ParseDetails | scraper_live_tosqlite.py:353-390 | the loop over the grid's items computes `DetailsOf`: each item's entry stored in turn (same loop in scraper_live.py:182-226) |
| DomExtract.DetailEntryRules | scraper_live_tosqlite.py:362-388 | the views label takes its first `div span`; otherwise an anchor with a placeholder text (`الرابط`, `link`, empty) gives its stripped href and any other anchor gives its text; failing that, the first cleaned span text that is neither empty nor the label |
| DomExtract.DetailEntry | scraper_live_tosqlite.py:359-388 | a stored entry never has an empty label or value |
| DomExtract.DetailsStored | scraper_live_tosqlite.py:353-390 | every stored label and value is non-empty and comes from one item of the grid |
| DomExtract.CollectLastWins | scraper_live_tosqlite.py:387-388 | a label is stored exactly when some item has it, and holds the value of the last such item |
| DomExtract.FirstOtherSpan | scraper_live_tosqlite.py:380-385 | the first cleaned span text that is neither empty nor the label, or "" when there is none |
| DomExtract.ParseAddressTab | scraper_live_tosqlite.py:393-432 | the loop over the tab's items computes `AddressOf` (same in scraper_live.py:277-323) |
| DomExtract.StoreAddressItem | scraper_live_tosqlite.py:409-430 | one item's label chain stores its value under its label, as a dictionary would |
| DomExtract.AddressAbsent | scraper_live_tosqlite.py:405-407 | without the tab all seven address fields are "" |
| DomExtract.AddressIgnores | scraper_live_tosqlite.py:410-430 | an item without a label span, with fewer than two spans, or with a label outside the seven changes nothing, wherever it stands |
| DomExtract.AddressLastWins | scraper_live_tosqlite.py:417-430 | the last item carrying a field's label decides that field: its second span, cleaned |
| DomExtract.AddressUnnamedEmpty | scraper_live_tosqlite.py:395-403 | a field whose label no item carries stays "" |
| DomExtract.AddressOf | scraper_live_tosqlite.py:395-403 | the result has the seven address fields |
| DomExtract.AddressLabelsDistinct | scraper_live_tosqlite.py:417-429 | the seven labels are distinct, so the `elif` chain is a lookup |
| DomExtract.ParseFeatures | scraper_live.py:229-260 | finds the first `h4` whose cleaned text is the features heading, and returns the deduplicated non-empty cleaned labels of the `div` after it |
| DomExtract.CollectFeatureLabels | scraper_live_tosqlite.py:447-451 | the `feats` loop keeps the non-empty cleaned labels in order |
| DomExtract.ParseFeaturesDom | scraper_live_tosqlite.py:435-458 | the same list, joined with `|` |
| DomExtract.FeaturesFacts | scraper_live.py:248-260 | the features are distinct and non-empty. A name is listed exactly when it is a non-empty cleaned label under the features heading |
| DomExtract.FeaturesFirstSeenOrder | scraper_live.py:248-260 | of two features, the one listed first is the one whose label appears first |
| DomExtract.FeaturesHeadingIndex | scraper_live.py:236-240 | the index of the first heading whose cleaned text is `المميزات`, or none when no heading has it |
| MainFields.ParseMainListingFields | scraper_live.py:326-391 | the function computes title, price, description, the four spec fields and the title fallbacks as `MainFieldsOf` states |
| MainFields.ParseSpecs | scraper_live.py:361-377 | the specs loop computes `SpecsOf` |
| MainFields.SpecsIgnores | scraper_live.py:364-377 | an item without both divs, or with a label other than the four spec labels, sets no spec field |
| MainFields.SpecsLastWins | scraper_live.py:367-377 | the last item with a spec label sets that field to its cleaned value |
| MainFields.SpecFieldsOf | scraper_live.py:361-377 | area, rooms, halls and baths are exactly the four spec slots |
| MainFields.SpecLabelsDistinct | scraper_live.py:370-377 | the four spec labels are distinct |
| MainFields.PricePrefersHeading | scraper_live.py:350-353 | the price is the cleaned price heading, else the cleaned pricing `div`, else "" |
| MainFields.TitleFieldSource | scraper_live.py:379-386 | a city/district taken from the title comes from a keyword occurrence followed by whitespace, and is the cleaned text up to the next comma |
| MainFields.TitleFallbackAbsent | scraper_live.py:379-386 | without the keyword followed by whitespace in the title, the field stays "" |
| MainFields.CityFromTitle | scraper_live.py:380-383 | a title `… مدينة <name>, …` sets the city to the cleaned name |
| MainFields.FirstKeywordGroup | scraper_live.py:381 | `re.search(r"مدينة\s+([^,]+)")` takes the leftmost match |
| MainFields.KeywordGroupAt | scraper_live.py:381 | a match is the keyword, whitespace, then a non-empty run without commas |
| MainFields.TitleGroupOf | scraper_live.py:381 | the group of `pre + keyword + " " + name + post` is the name when `pre` holds no earlier match |
| LdJson.ParseLdJson | scraper_live_tosqlite.py:242-307 | the parser computes `LdJsonOf` |
| LdJson.LdJsonOf | scraper_live_tosqlite.py:244-263 | a missing or unparsable block gives the empty result. It raises exactly when the decoded top level is not an object (`data.get` on a non-dict) or when the offer's `price` is an `int` that `float()` rejects with `OverflowError` (magnitude at least 2^1024 - 2^970) |
| LdJson.IntPriceAmount | scraper_live_tosqlite.py:259-263 | `LdJsonOf`: an offer price that is an `int` makes `parse_ld_json` raise exactly when its magnitude is at least 2^1024 - 2^970, and otherwise becomes the amount as its decimal text |
| LdJson.OffersRaise | scraper_live_tosqlite.py:259-263 | reading `offers` raises exactly when it is a dict whose `price` is an `int` outside the range of a double |
| LdJson.ParseAmenities | scraper_live_tosqlite.py:273-291 | the amenity loop computes the feature names and the routed rooms, baths and area |
| LdJson.StoreAmenity | scraper_live_tosqlite.py:277-291 | one iteration of the amenity loop |
| LdJson.FeatureNamesFacts | scraper_live_tosqlite.py:280-284 | the feature names are distinct, non-empty and never one of the three spec labels. A name is listed exactly when some amenity carries it and it is not a spec label |
| LdJson.AmenityNamesMembers | scraper_live_tosqlite.py:277-280 | a name appears exactly when some amenity dict carries it |
| LdJson.SpecAmenityNotFeature | scraper_live_tosqlite.py:283 | an amenity named by a spec label is never listed as a feature |
| LdJson.RoutedLastWins | scraper_live_tosqlite.py:286-291 | the last amenity with a spec label and a `value` sets that field |
| LdJson.RoutedAbsent | scraper_live_tosqlite.py:275-291 | a spec field no amenity routes stays "" |
| LdJson.RoutedStep | scraper_live_tosqlite.py:286-291 | one amenity overwrites a spec field exactly when it carries that label and a `value` |
| LdJson.AreaOf | scraper_live_tosqlite.py:299-305 | a routed area gets the `م²` suffix only when it lacks it, and the result is "" or ends in `م²` |
| LdJson.FloorSizeOnlyWithoutArea | scraper_live_tosqlite.py:302-305 | `floorSize` is consulted only when no area was routed |
| LdJson.LookupLast | scraper_live_tosqlite.py:256 | a key of a JSON object gives the value of its last occurrence, as `json.loads` keeps it, and a key that does not occur gives nothing |
| FeedUrls.CollectCardUrls | scraper_live.py:410-421 | the card loop computes `KeptUrls` over the card hrefs |
| FeedUrls.KeepListingUrl | scraper_live.py:412-420 | one iteration keeps the de-fragmented URL when it is a listing URL not seen yet |
| FeedUrls.ExtractUrlsFromHtml | scraper_live_tosqlite.py:481-495 | the scan computes `findall` over the page's hrefs, then `KeptUrls` with root-relative hrefs prefixed by the site base |
| FeedUrls.KeepScannedUrls | scraper_live_tosqlite.py:486-494 | the loop over the found hrefs computes `KeptUrls` |
| FeedUrls.KeptUrlsFacts | scraper_live_tosqlite.py:481-495 | the kept URLs have no repeats. A URL is kept exactly when it ends in `-` and six or more digits and is the candidate of some href |
| FeedUrls.KeptUrlsHaveNoFragment | scraper_live_tosqlite.py:491-492 | a kept URL has no `#` and ends in the listing suffix |
| FeedUrls.KeptUrlsOrder | scraper_live_tosqlite.py:492-494 | kept URLs are in first-appearance order |
| FeedUrls.RootedHrefGetsBase | scraper_live_tosqlite.py:489-490 | a root-relative href is prefixed by the site base without its trailing slash |
| FeedUrls.BeforeHash | scraper_live_tosqlite.py:491 | `split("#", 1)[0]` is the longest prefix without `#` |
| FeedUrls.BeforeHashKeepsPrefix | scraper_live_tosqlite.py:489-491 | cutting the fragment keeps a prefix without `#`, such as the base |
| FeedUrls.FindAllHrefsMatch | scraper_live_tosqlite.py:483 | every value `findall` returns matches `[^"]+-\d{6,}` and holds no quote |
| FeedUrls.FindAllOfOneAnchor | scraper_live_tosqlite.py:483 | an anchor `href="slug-<id>"` yields exactly `slug-<id>` |
| FeedUrls.HrefAt | scraper_live_tosqlite.py:483 | a match at an index yields a value of the pattern's form without quotes and moves forward |
| FeedUrls.CollectedUrlHasId | scraper_live_tosqlite.py:514 | every collected URL has a non-empty listing id, its trailing digits |
| FeedUrls.SqliteFallbackOnlyWhenEmpty | scraper_live_tosqlite.py:498-529 | `SqliteCollectUrls` (`collect_listing_urls`): the page-scan fallback is used only when the card query kept no URL |
| FeedUrls.CsvAnchorsOnlyWhenNoCards | scraper_live.py:398-408 | `CsvCollectUrls` (`collect_listing_urls`): the all-anchors query is used only when the card query returned nothing |
| Reconcile.ScrapeListingFast | scraper_live_tosqlite.py:535-617 | the method computes `ScrapeListingFastOf`: ld+json, DOM price, details, address, coordinates and features merged into one row, or the exception `parse_ld_json` raised |
| Reconcile.ListingIdPrecedence | scraper_live_tosqlite.py:555 | `ListingIdOf`: `listing_id` is the cleaned `رقم الإعلان` detail when non-empty, else the id in the URL; a card URL always gives one (same in scraper_live.py:454) |
| Reconcile.FeaturesPrecedence | scraper_live_tosqlite.py:551-553 | `MergeRow`: non-empty ld features win, and the DOM features are then ignored |
| Reconcile.CurrencyPrecedence | scraper_live_tosqlite.py:562-583 | `MergeRow`: the currency is the DOM's "SAR", else the ld currency, else "SAR"; it is never empty |
| Reconcile.AmountPrecedence | scraper_live_tosqlite.py:561-567 | `MergeRow`: the amount is the DOM amount, else the ld amount |
| Reconcile.AddressPrecedence | scraper_live_tosqlite.py:587-593 | `MergeRow`: region, city, district and street come from the address tab when it has them, else from ld. Postal code, building number and additional number come from the tab only, whatever ld says |
| Reconcile.LdFieldsKept | scraper_live_tosqlite.py:557-600 | `ScrapeListingFastOf`: title, description, rooms and baths come from ld, and `halls` is always "" |
| Reconcile.LdJsonClean | scraper_live_tosqlite.py:255-291 | `LdJsonOf`: the title, description, rooms and baths `parse_ld_json` returns are already cleaned texts |
| Reconcile.RoutedClean | scraper_live_tosqlite.py:595-598 | a routed spec value is already clean, so cleaning it again changes nothing |
| Reconcile.PeriodColumn | scraper_live_tosqlite.py:563-584 | `MergeRow`: `price_period` is always one of the five period words |
| Reconcile.PeriodNameKept | scraper_live_tosqlite.py:584 | cleaning a period word changes nothing |
| Reconcile.ScrapeListing | scraper_live.py:431-494 | the method computes `ScrapeListingOf`: details, main fields, address, features and coordinates merged into one CSV record |
| Reconcile.CsvAddressPrecedence | scraper_live.py:454-478 | `CsvRecordOf`: city and district come from the address tab when non-empty, else from the title fallback. The other address fields come from the tab only |
| Reconcile.CsvRecordKeys | scraper_live.py:466-494 | `CsvRecordOf`: the record's dictionary has exactly the 22 header names as keys |
| Reconcile.CsvLine | scraper_live.py:93-96 | the row `append_csv` writes has one cell per header name |
| Reconcile.CsvLineAt | scraper_live.py:95 | cell `i` is the value under header name `i`, or "" when the record lacks it |
| Reconcile.CsvLineIgnoresOtherKeys | scraper_live.py:95 | keys outside the header never reach the file |
| Store.TouchOnlyLastSeen | scraper_live_tosqlite.py:170-172 | `Touched` (`db_touch_seen`): a touch changes only `last_seen_at`, and only of the row it names; it never adds a row |
| Store.UpsertOverwrites | scraper_live_tosqlite.py:175-236 | `Upserted` (`db_upsert`): an upsert stores the row under its `listing_id`, overwriting every column including `scraped_at`, and leaves the other rows alone |
| Store.UpsertIdempotent | scraper_live_tosqlite.py:175-236 | `Upserted`: upserting the same row twice is upserting it once |
| Store.UpgradeAddsMissing | scraper_live_tosqlite.py:146-162 | `Upgraded`: after the upgrade every wanted column exists and the old columns keep their places. A column is added only when it was wanted and missing |
| Store.UpgradeOfComplete | scraper_live_tosqlite.py:155-162 | `Upgraded`: a table that already has every wanted column is left as it is |
| Store.UpgradeIdempotent | scraper_live_tosqlite.py:146-162 | `Upgraded`: running the upgrade twice is running it once |
| Store.ListingStore.constructor | scraper_live_tosqlite.py:90-143 | `db_connect`: a file without the table gets an empty one with the `BASE_DDL` columns; an existing table keeps its rows and gets `ensure_schema_upgrades`' missing columns appended (`Upgraded`) |
| Store.BaseSchemaComplete | scraper_live_tosqlite.py:90-153 | a table `BASE_DDL` created already has every column `ensure_schema_upgrades` wants, so the upgrade changes nothing |
| Store.MissingColumnsMembers | scraper_live_tosqlite.py:155-159 | a column is added exactly when it is wanted and missing from the column list read before the loop |
| Store.NoneMissing | scraper_live_tosqlite.py:158-159 | when the table has every wanted column, the loop adds none |
| Store.MissingColumnsSnoc | scraper_live_tosqlite.py:158-159 | one more wanted column joins the missing ones exactly when the table lacks it |
| Store.ListingStore.Touch | scraper_live_tosqlite.py:170-172 | `db_touch_seen` updates the rows as `Touched` and keeps the columns |
| Store.ListingStore.Upsert | scraper_live_tosqlite.py:175-236 | `db_upsert` updates the rows as `Upserted` and keeps the columns |
| Store.ListingStore.EnsureSchemaUpgrades | scraper_live_tosqlite.py:146-162 | the columns become `Upgraded(old columns, the five price columns)` and the rows are kept |
| Store.ListingStore.AddMissingColumns | scraper_live_tosqlite.py:155-162 | the loop reads the column list once and appends each wanted column missing from it, in order |
| SeenIds.SaveSeen | scraper_live.py:108-113 | the file lists the ids of `seen`, strictly ascending in Python's string order, each followed by a newline |
| SeenIds.SortedIds | scraper_live.py:110 | `sorted(seen)` is ascending and holds exactly the members of `seen` |
| SeenIds.Least | scraper_live.py:110 | the least id of a non-empty set, below every other |
| SeenIds.AscendingUnique | scraper_live.py:110 | two ascending listings of the same set are equal, so the file is determined by `seen` |
| SeenIds.LessTotal | scraper_live.py:110 | Python's string `<` orders any two different strings |
| SeenIds.LessTransitive | scraper_live.py:110 | Python's string `<` is transitive |
| SeenIds.LessIrreflexive | scraper_live.py:110 | no string is below itself |
| SeenIds.LoadSeen | scraper_live.py:99-105 | a missing file gives the empty set, and "" is never loaded |
| SeenIds.SaveLoadRoundTrip | scraper_live.py:99-113 | loading the file saved for `seen` gives back `seen`, for ids that are non-empty and contain no whitespace or newline |
| SeenIds.SeenTextRoundTrip | scraper_live.py:99-113 | reading back the text written for a listing of such ids gives exactly its ids |
| SeenIds.LinesOfEntry | scraper_live.py:103 | a line `id\n` reads back as its own line |
| SeenIds.BreakIndex | scraper_live.py:103 | a line runs up to the first `\n` or `\r`, as universal-newline reading splits it |
| Crawl.CrawlListing | scraper_live_tosqlite.py:680-703 | one URL's step, testing the table with `ListingStore.Has` (`db_has_listing`), changes the table as `SqliteStep` says for the pass `PassOf` builds from the URL and what visiting it gave, and keeps the columns |
| Crawl.StoreScraped | scraper_live_tosqlite.py:692-700 | a scrape that returned a row with a non-empty `listing_id` upserts it; an empty id or a raised scrape leaves the table unchanged, and the columns stay |
| Crawl.KnownListingOnlyTouched | scraper_live_tosqlite.py:688-690 | `SqliteStep` (one pass of the `main` loop): a URL whose id is already in the table only touches that row, whatever scraping its page would give; nothing is upserted |
| Crawl.FailureLeavesTable | scraper_live_tosqlite.py:684-699 | `SqliteStep`: a URL without an id, a page that failed to load, or a scrape that raised leaves the table as it was |
| Crawl.SqliteStepKeeps | scraper_live_tosqlite.py:684-697 | `SqliteStep`: a step never removes a row, never adds a row with an empty `listing_id`, and adds at most one row |
| Crawl.SqlitePageKeeps | scraper_live_tosqlite.py:680-703 | `SqlitePageOf`: over a whole feed page, no row is lost and no empty `listing_id` is stored |
| Crawl.CrawlFeedPage | scraper_live_tosqlite.py:680-703 | the loop over a page's URLs, stopped before URL `stopBefore` when STOP is set there, gives `SqlitePageOf` of the passes of the URLs visited |
| Crawl.CollectWithRetry | scraper_live_tosqlite.py:670-677 | the collector is tried up to `feed_retry_times + 1` times. The result is that of the last try, every earlier try found nothing, and an empty result means every try was used |
| Crawl.CollectFeedUrls | scraper_live_tosqlite.py:670-677 | with `feed_retry_times = 2`, the feed page is collected at most three times, stopping at the first try that finds URLs; an empty result means all three tries found nothing |
| Crawl.SeenKey | scraper_live.py:593-594 | the dedup key is the listing id, or the URL when the id is empty |
| Crawl.SeenKeySkipped | scraper_live.py:596-598 | a URL whose key is already seen changes neither the seen set nor the CSV |
| Crawl.FailedVisitRetried | scraper_live.py:600-614 | a scrape or append that fails adds nothing to the seen set or the CSV, so a later feed page retries the URL |
| Crawl.CsvPageWritesOncePerKey | scraper_live.py:589-617 | over a feed page, the seen set only grows, the earlier CSV lines are kept, and exactly one line is appended per new key |
| Crawl.SavedReadsBack | scraper_live.py:99-113 | the saved seen file loads back as the seen set, for non-empty, whitespace-free keys (the keys `load_seen` keeps intact) |
| Crawl.ScrapeRow | scraper_live.py:600-601 | the CSV line for a scraped page is the record projected onto the header |
| Crawl.CsvCrawler.constructor | scraper_live.py:84-90 | the CSV gets the header line when it was empty, and `seen` is what `load_seen` returns for the seen file |
| Crawl.CsvCrawler.Visit | scraper_live.py:589-617 | one URL: the seen set and the lines change as `SeenAfter` and `LinesAfter` say. When the key was added and saved, the seen file holds the new set; otherwise it is unchanged |
| Crawl.CsvCrawler.Record | scraper_live.py:602-604 | the row is appended, then the key is added to `seen`, and `save_seen` runs when the visit reached it |
| Crawl.CsvCrawler.VisitFeedPage | scraper_live.py:589-617 | the loop over a page's URLs, stopped before URL `stopBefore`, gives `SeenAfterPage` and `LinesAfterPage` of the URLs visited; the seen file is unchanged when no visit saved, and otherwise holds the set the last saving visit wrote (`LastSavedPage`) |
| Crawl.LastSavedWithin | scraper_live.py:598-604 | `LastSavedPage`: the set last saved during a page contains the set the page started from and is contained in the set it ends with |
| Crawl.CsvCrawler.Save | scraper_live.py:108-113 | the seen file afterwards is the ascending listing of `seen`, one per line |
| Crawl.StopFlag.constructor | scraper_live.py:44 | STOP starts false |
| Crawl.StopFlag.HandleStop | scraper_live.py:54-58 | afterwards STOP is set. The stop is announced exactly when STOP was not already set, so repeated signals change nothing (same in scraper_live_tosqlite.py:43-47) |

## Left out

- Playwright is not modelled: navigation, waits, scrolling, the route handler, `page.content` and browser teardown. The pages they yield are inputs.
- BeautifulSoup selector semantics are not modelled. The extractors receive the elements the selectors would return, as lists, with their `get_text` already taken.
- `json.loads` and `json.dumps` are not modelled. The ld+json block arrives missing, unparsable or decoded, and the `details_json`/`ld_json` texts are parameters. `str()` of a JSON list or object is modelled as ""; Python would give the list's or dict's text.
- `float()` is left out, and floating point with it. A price amount is the decimal text `float()` would accept (digits, at most one dot), not a number. An ld+json price that is a JSON number is kept as its decimal text; only the `OverflowError` that `float()` raises on an `int` outside the range of a double is modelled. The `REAL` column type is not modelled.
- `now_iso`, `sleep_interruptible` and every delay and timeout are left out, as clock and timing. Timestamps are parameters.
- Signal registration is left out; only the flag update `handle_stop` performs is modelled. The loops read STOP as a parameter: the index of the first URL at which it was found set.
- The endless cycle loop and the loop over feed page numbers are not modelled; one feed page's URL loop is.
- Logging, `debug_dump`, argparse and `ensure_dir` are not modelled (I/O and CLI plumbing).
- `ensure_csv` is modelled only as "the header line when the CSV is empty".
- SQL text, PRAGMAs, commits and transactions are not modelled. The table is a map keyed by `listing_id`. The schema is its list of column names, without the column types. The `os.makedirs` of the database directory and the index on `last_seen_at` in `db_connect` are not modelled either.
- CSV quoting and the `utf-8-sig` encoding are not modelled. A CSV line is the list of its cells.
- `os.replace` atomicity is not modelled. Every file write is taken to happen whole or not at all.
- Text.IsDigit: Python's `\d` also matches decimal digits of scripts other than ASCII, Arabic-Indic and Extended Arabic-Indic; those other scripts are not modelled.
- Text.IsSpace: the whitespace class is the set of characters `str.isspace()` accepts. Unicode normalisation and case folding do not occur in the crawlers.
- Reconcile.ScrapeListingFast: an exception from a Playwright call is a failed page load (`SqliteVisit.fetched` is `None`), not a separate outcome.
- Reconcile.CsvLine: proved cell by cell for any header and record dictionary, not column by column against the literal 22-name header.
- SeenIds.SaveLoadRoundTrip: holds only for ids that are non-empty and free of whitespace. An id with surrounding whitespace would be read back stripped, and one containing a line break would be split.
- `test.py` is not part of this model: it is a separate image-URL script outside the record pipeline.
