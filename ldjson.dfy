/** `parse_ld_json` of the SQLite crawler: the fields read from the page's
    `script[type='application/ld+json']` block once `json.loads` has turned it into a value.
    Amenities are filtered into the features list, and the three spec amenities are routed
    to rooms, baths and area instead. */
module LdJson {
  import opened Text
  import opened Opt
  import opened Lists
  import ListingIds

  /** A value `json.loads` returns. An object keeps its members in document order, repeated
      keys included; a float carries the text `str()` prints for it. */
  datatype Json =
    | JNull
    | JBool(b: bool)
    | JInt(i: int)
    | JFloat(repr: string)
    | JString(s: string)
    | JArray(items: seq<Json>)
    | JObject(members: seq<(string, Json)>)

  /** The value of `key` in the dict `json.loads` builds: a repeated key keeps its last value. */
  function Lookup(members: seq<(string, Json)>, key: string): Option<Json> {
    if members == [] then None
    else
      var n := |members| - 1;
      if members[n].0 == key then Some(members[n].1) else Lookup(members[..n], key)
  }

  /** A key of a JSON object gives the value of its last occurrence, as `json.loads` keeps
      it, and a key that does not occur gives nothing. */
  lemma {:induction false} LookupLast(members: seq<(string, Json)>, key: string)
    ensures Lookup(members, key).None? <==> forall i :: 0 <= i < |members| ==> members[i].0 != key
    ensures Lookup(members, key).Some? ==> exists i :: (0 <= i < |members|
      && members[i] == (key, Lookup(members, key).value)
      && forall j :: i < j < |members| ==> members[j].0 != key)
  {
    if members != [] {
      var n := |members| - 1;
      LookupLast(members[..n], key);
      assert forall i :: 0 <= i < n ==> members[..n][i] == members[i];
    }
  }

  /** `d.get(key, default)`. */
  function GetOr(members: seq<(string, Json)>, key: string, default: Json): Json {
    Lookup(members, key).GetOr(default)
  }

  /** Python truthiness of a decoded value. */
  predicate Truthy(v: Json) {
    match v
    case JNull => false
    case JBool(b) => b
    case JInt(i) => i != 0
    case JFloat(r) => r != "0.0" && r != "-0.0"
    case JString(s) => s != ""
    case JArray(xs) => xs != []
    case JObject(ms) => ms != []
  }

  /** `x or default`. */
  function OrElse(v: Option<Json>, default: Json): Json {
    if v.Some? && Truthy(v.value) then v.value else default
  }

  /** Python's `str()` of a scalar; `str()` of a list or dict is not modelled and gives "". */
  function PyStr(v: Json): string {
    match v
    case JNull => "None"
    case JBool(b) => if b then "True" else "False"
    case JInt(i) => ListingIds.IntToDecimal(i)
    case JFloat(r) => r
    case JString(s) => s
    case JArray(_) => ""
    case JObject(_) => ""
  }

  /** `clean_text(str(d.get(key, "")))`. */
  function CleanField(members: seq<(string, Json)>, key: string): string {
    CleanText(PyStr(GetOr(members, key, JString(""))))
  }

  // ---------------------------------------------------------------------------
  // The fragment

  /** The script block as the page gives it: missing (or with no text), text `json.loads`
      rejects, or a decoded value together with its `json.dumps` text. */
  datatype LdScript = NoScript | Unparsable | Parsed(data: Json, dumped: string)

  /** The keys `parse_ld_json` can return. Every reader of the fragment uses
      `ld.get(key, "")` or `ld.get(key)`, so a missing key is stored here as "" (as `None`
      for the amount); the amount is the decimal text `float()` reads. */
  datatype LdFields = LdFields(ldJson: string, title: string, description: string,
                               priceAmount: Option<string>, priceCurrency: string,
                               street: string, district: string, region: string, city: string,
                               features: string, rooms: string, baths: string, area: string)

  const EmptyLd: LdFields := LdFields("", "", "", None, "", "", "", "", "", "", "", "", "")

  /** The least `int` that `float()` rejects with `OverflowError`: 2^1024 - 2^970, that is
      0xFF_FFFF_FFFF_FFFC followed by 242 hexadecimal zeros. It lies halfway between the
      largest double, (2^53 - 1) * 2^971, and 2^1024, and rounding to nearest even goes up
      to 2^1024. The same holds for the negated values. */
  const FloatOverflowBound: int := 0xFFFF_FFFF_FFFF_FC00_0000_0000_0000_0000_0000_0000_0000_0000_0000_0000_0000_0000_0000_0000_0000_0000_0000_0000_0000_0000_0000_0000_0000_0000_0000_0000_0000_0000_0000_0000_0000_0000_0000_0000_0000_0000_0000_0000_0000_0000_0000_0000_0000_0000_0000_0000_0000_0000_0000_0000_0000_0000_0000_0000_0000_0000_0000_0000_0000_0000

  /** `float(price) if isinstance(price, (int, float)) else None`; a bool is an int, and an
      `int` too large for a double makes `float()` raise. */
  function AmountOfPrice(price: Option<Json>): Outcome<Option<string>> {
    match price
    case Some(JInt(i)) =>
      if -FloatOverflowBound < i < FloatOverflowBound then Returned(Some(ListingIds.IntToDecimal(i)))
      else Raised
    case Some(JFloat(r)) => Returned(Some(r))
    case Some(JBool(b)) => Returned(Some(if b then "1" else "0"))
    case _ => Returned(None)
  }

  /** Amount and currency from `offers`, when it is a dict; raises when `float()` does. */
  function OffersOf(data: seq<(string, Json)>): Outcome<(Option<string>, string)> {
    match OrElse(Lookup(data, "offers"), JObject([]))
    case JObject(offers) =>
      (match AmountOfPrice(Lookup(offers, "price"))
       case Raised => Raised
       case Returned(amount) =>
         Returned((amount, CleanText(PyStr(OrElse(Lookup(offers, "priceCurrency"), JString("")))))))
    case _ => Returned((None, ""))
  }

  /** `offers` raises exactly when its price overflows. */
  lemma OffersRaise(data: seq<(string, Json)>)
    ensures OffersOf(data).Raised? <==> PriceOverflows(data)
  {
  }

  /** The object's `offers` is a dict whose `price` is an `int` outside the range of a
      double. */
  predicate PriceOverflows(data: seq<(string, Json)>) {
    var offers := OrElse(Lookup(data, "offers"), JObject([]));
    offers.JObject? && Lookup(offers.members, "price").Some?
    && var price := Lookup(offers.members, "price").value;
    price.JInt? && (price.i <= -FloatOverflowBound || FloatOverflowBound <= price.i)
  }

  /** Street, district and region from `address`, when it is a dict. */
  function AddressOf(data: seq<(string, Json)>): (string, string, string) {
    match OrElse(Lookup(data, "address"), JObject([]))
    case JObject(addr) =>
      (CleanField(addr, "streetAddress"), CleanField(addr, "addressLocality"), CleanField(addr, "addressRegion"))
    case _ => ("", "", "")
  }

  // ---------------------------------------------------------------------------
  // Amenities

  const RoomsName: string := "عدد الغرف"
  const BathsName: string := "عدد دورات المياه"
  const AreaName: string := "المساحة (متر مربع)"
  const SpecNames: set<string> := {RoomsName, BathsName, AreaName}
  const SquareMetres: string := "م²"

  /** The cleaned `name` of an amenity that is a dict; `None` for any other value. */
  function AmenityName(f: Json): Option<string> {
    if f.JObject? then Some(CleanField(f.members, "name")) else None
  }

  /** The names of the amenities that are dicts, in order. */
  function AmenityNames(items: seq<Json>): seq<string> {
    if items == [] then []
    else
      var rest := AmenityNames(items[..|items| - 1]);
      match AmenityName(items[|items| - 1])
      case None => rest
      case Some(n) => rest + [n]
  }

  /** A name that goes to the features list: not empty and not one of the spec amenities. */
  predicate IsFeatureName(n: string) {
    n != "" && n !in SpecNames
  }

  function KeepsFeature(): string -> bool {
    n => IsFeatureName(n)
  }

  /** The `feature_names` list the amenity loop builds. */
  function FeatureNamesOf(items: seq<Json>): seq<string> {
    Dedup(Filter(AmenityNames(items), KeepsFeature()))
  }

  /** The value an amenity gives the spec field `name`: the cleaned `value` of a dict whose
      name is `name` and that has a `value` key. */
  function AmenityValue(f: Json, name: string): Option<string> {
    if f.JObject? && CleanField(f.members, "name") == name && Lookup(f.members, "value").Some? then
      Some(CleanText(PyStr(Lookup(f.members, "value").value)))
    else None
  }

  /** The spec field `name` after the loop: the value of the last amenity that gives one. */
  function RoutedValue(items: seq<Json>, name: string): string {
    if items == [] then ""
    else match AmenityValue(items[|items| - 1], name)
      case Some(v) => v
      case None => RoutedValue(items[..|items| - 1], name)
  }

  /** What the amenity loop leaves: feature names, rooms, baths and area. */
  datatype Amenities = Amenities(names: seq<string>, rooms: string, baths: string, area: string)

  function AmenitiesOf(items: seq<Json>): Amenities {
    Amenities(FeatureNamesOf(items), RoutedValue(items, RoomsName), RoutedValue(items, BathsName),
              RoutedValue(items, AreaName))
  }

  lemma AmenitiesSnoc(items: seq<Json>, f: Json)
    ensures AmenityNames(items + [f]) == match AmenityName(f)
                                          case None => AmenityNames(items)
                                          case Some(n) => AmenityNames(items) + [n]
    ensures forall name :: RoutedValue(items + [f], name) == AmenityValue(f, name).GetOr(RoutedValue(items, name))
  {
    assert (items + [f])[..|items|] == items;
    forall name ensures RoutedValue(items + [f], name) == AmenityValue(f, name).GetOr(RoutedValue(items, name)) {
      RoutedStep(items, f, name);
    }
  }

  /** The body of the amenity loop for one dict. */
  method StoreAmenity(acc: Amenities, f: Json, ghost items: seq<Json>) returns (r: Amenities)
    requires acc == AmenitiesOf(items)
    ensures r == AmenitiesOf(items + [f])
  {
    AmenitiesSnoc(items, f);
    r := acc;
    if !f.JObject? {
      return;
    }
    var name := CleanText(PyStr(GetOr(f.members, "name", JString(""))));
    FilterSnoc(AmenityNames(items), name, KeepsFeature());
    DedupSnoc(Filter(AmenityNames(items), KeepsFeature()), name);
    if name != "" && name !in r.names {
      if name !in SpecNames {
        r := r.(names := r.names + [name]);
      }
    }
    var value := Lookup(f.members, "value");
    if name == RoomsName && value.Some? {
      r := r.(rooms := CleanText(PyStr(value.value)));
    }
    if name == BathsName && value.Some? {
      r := r.(baths := CleanText(PyStr(value.value)));
    }
    if name == AreaName && value.Some? {
      r := r.(area := CleanText(PyStr(value.value)));
    }
  }

  /** The loop over `amenityFeature`. */
  method ParseAmenities(items: seq<Json>) returns (r: Amenities)
    ensures r == AmenitiesOf(items)
  {
    r := Amenities([], "", "", "");
    var i := 0;
    while i < |items|
      invariant 0 <= i <= |items|
      invariant r == AmenitiesOf(items[..i])
    {
      assert items[..i + 1] == items[..i] + [items[i]];
      r := StoreAmenity(r, items[i], items[..i]);
      i := i + 1;
    }
    assert items[..|items|] == items;
  }

  /** The amenities of the block: the loop runs only when `amenityFeature` is a list. */
  function AmenityItems(data: seq<(string, Json)>): seq<Json> {
    match OrElse(Lookup(data, "amenityFeature"), JArray([]))
    case JArray(items) => items
    case _ => []
  }

  /** `area` after the amenity loop: the routed value with the square-metre suffix unless it
      already ends with it; failing that, the `floorSize` dict's `value` when it is not null. */
  function AreaOf(routed: string, data: seq<(string, Json)>): (r: string)
    ensures routed != "" && EndsWith(routed, SquareMetres) ==> r == routed
    ensures routed != "" && !EndsWith(routed, SquareMetres) ==> r == routed + SquareMetres
    ensures r == "" || EndsWith(r, SquareMetres)
  {
    if routed != "" then
      if EndsWith(routed, SquareMetres) then routed
      else
        assert (routed + SquareMetres)[|routed|..] == SquareMetres;
        routed + SquareMetres
    else match Lookup(data, "floorSize")
      case Some(JObject(fs)) =>
        var v := Lookup(fs, "value");
        if v.Some? && v.value != JNull then
          var t := CleanText(PyStr(v.value));
          assert (t + SquareMetres)[|t|..] == SquareMetres;
          t + SquareMetres
        else ""
      case _ => ""
  }

  /** The fragment a decoded object gives, once `offers` has given its amount and currency. */
  function FieldsOf(data: seq<(string, Json)>, dumped: string, offers: (Option<string>, string)): LdFields {
    var (street, district, region) := AddressOf(data);
    var am := AmenitiesOf(AmenityItems(data));
    LdFields(dumped, CleanField(data, "name"), CleanField(data, "description"), offers.0, offers.1,
             street, district, region, "", Join(am.names, "|"), am.rooms, am.baths,
             AreaOf(am.area, data))
  }

  /** What `parse_ld_json` gives: the empty fragment without a block or when the block does
      not decode; it raises when the block is not an object (`AttributeError`) and when the
      offer's price is an `int` `float()` cannot convert (`OverflowError`). */
  function LdJsonOf(script: LdScript): (r: Outcome<LdFields>)
    ensures script.NoScript? || script.Unparsable? ==> r == Returned(EmptyLd)
    ensures r.Raised? <==> script.Parsed? && (!script.data.JObject? || PriceOverflows(script.data.members))
  {
    match script
    case NoScript => Returned(EmptyLd)
    case Unparsable => Returned(EmptyLd)
    case Parsed(data, dumped) =>
      if !data.JObject? then Raised
      else
        OffersRaise(data.members);
        match OffersOf(data.members)
          case Raised => Raised
          case Returned(offers) => Returned(FieldsOf(data.members, dumped, offers))
  }

  /** An offer price that is an `int` makes `parse_ld_json` raise exactly when its magnitude
      reaches the overflow bound; otherwise it is the amount, as its decimal text. */
  lemma IntPriceAmount(members: seq<(string, Json)>, offers: seq<(string, Json)>, i: int, dumped: string)
    requires Lookup(members, "offers") == Some(JObject(offers))
    requires Lookup(offers, "price") == Some(JInt(i))
    ensures var r := LdJsonOf(Parsed(JObject(members), dumped));
      (r.Raised? <==> i <= -FloatOverflowBound || FloatOverflowBound <= i)
      && (r.Returned? ==> r.value.priceAmount == Some(ListingIds.IntToDecimal(i)))
  {
    assert offers != [];
    assert OrElse(Lookup(members, "offers"), JObject([])) == JObject(offers);
    var inRange := -FloatOverflowBound < i < FloatOverflowBound;
    assert AmountOfPrice(Lookup(offers, "price")) == if inRange then Returned(Some(ListingIds.IntToDecimal(i))) else Raised;
    assert OffersOf(members).Raised? <==> !inRange;
    assert OffersOf(members).Returned? ==> OffersOf(members).value.0 == Some(ListingIds.IntToDecimal(i));
  }

  /** `parse_ld_json`. */
  method ParseLdJson(script: LdScript) returns (r: Outcome<LdFields>)
    ensures r == LdJsonOf(script)
  {
    if script.NoScript? || script.Unparsable? {
      return Returned(EmptyLd);
    }
    if !script.data.JObject? {
      return Raised;
    }
    var data := script.data.members;
    var title, description := CleanField(data, "name"), CleanField(data, "description");
    var offers := OffersOf(data);
    if offers.Raised? {
      return Raised;
    }
    var (street, district, region) := AddressOf(data);
    var amenities := ParseAmenities(AmenityItems(data));
    var area := AreaOf(amenities.area, data);
    r := Returned(LdFields(script.dumped, title, description, offers.value.0, offers.value.1,
                           street, district, region, "", Join(amenities.names, "|"),
                           amenities.rooms, amenities.baths, area));
  }

  // ---------------------------------------------------------------------------
  // Properties

  /** Every amenity name comes from a dict in the list, and every dict contributes its name. */
  lemma {:induction false} AmenityNamesMembers(items: seq<Json>, n: string)
    ensures n in AmenityNames(items) <==> exists i :: 0 <= i < |items| && AmenityName(items[i]) == Some(n)
  {
    if items != [] {
      var init := items[..|items| - 1];
      AmenityNamesMembers(init, n);
      assert forall i :: 0 <= i < |init| ==> init[i] == items[i];
      assert items == init + [items[|items| - 1]];
    }
  }

  /** The features list holds distinct names, none empty and none of the three spec
      amenities, and exactly the other names of the dict amenities. */
  lemma FeatureNamesFacts(items: seq<Json>)
    ensures NoDup(FeatureNamesOf(items))
    ensures forall n :: n in FeatureNamesOf(items) ==> n != "" && n !in SpecNames
    ensures forall n :: n in FeatureNamesOf(items) <==>
      (IsFeatureName(n) && exists i :: 0 <= i < |items| && AmenityName(items[i]) == Some(n))
  {
    forall n ensures n in FeatureNamesOf(items) <==>
      (IsFeatureName(n) && exists i :: 0 <= i < |items| && AmenityName(items[i]) == Some(n))
    {
      AmenityNamesMembers(items, n);
    }
  }

  /** The last amenity that gives a spec field a value decides it, whatever came before. */
  lemma {:induction false} RoutedLastWins(before: seq<Json>, f: Json, after: seq<Json>, name: string)
    requires AmenityValue(f, name).Some?
    requires forall i :: 0 <= i < |after| ==> AmenityValue(after[i], name).None?
    ensures RoutedValue(before + [f] + after, name) == AmenityValue(f, name).value
    decreases |after|
  {
    var s := before + [f] + after;
    if after == [] {
      assert s == before + [f];
      RoutedStep(before, f, name);
    } else {
      var init, last := after[..|after| - 1], after[|after| - 1];
      assert s == (before + [f] + init) + [last];
      assert AmenityValue(last, name).None?;
      RoutedStep(before + [f] + init, last, name);
      assert forall i :: 0 <= i < |init| ==> init[i] == after[i];
      RoutedLastWins(before, f, init, name);
    }
  }

  /** One more amenity: its value if it gives one, the earlier result otherwise. */
  lemma RoutedStep(items: seq<Json>, f: Json, name: string)
    ensures RoutedValue(items + [f], name) == AmenityValue(f, name).GetOr(RoutedValue(items, name))
  {
    assert (items + [f])[..|items|] == items;
  }

  /** Without an amenity that gives it a value, a spec field stays "". */
  lemma {:induction false} RoutedAbsent(items: seq<Json>, name: string)
    requires forall i :: 0 <= i < |items| ==> AmenityValue(items[i], name).None?
    ensures RoutedValue(items, name) == ""
  {
    if items != [] {
      var init := items[..|items| - 1];
      assert forall i :: 0 <= i < |init| ==> init[i] == items[i];
      RoutedAbsent(init, name);
    }
  }

  /** An amenity named after a spec field never reaches the features list, even when it
      carries no value. */
  lemma SpecAmenityNotFeature(items: seq<Json>, i: nat)
    requires i < |items| && AmenityName(items[i]).Some? && AmenityName(items[i]).value in SpecNames
    ensures AmenityName(items[i]).value !in FeatureNamesOf(items)
  {
  }

  /** The `floorSize` fallback is read only when the amenities gave no area. */
  lemma FloorSizeOnlyWithoutArea(routed: string, data: seq<(string, Json)>, other: seq<(string, Json)>)
    requires routed != ""
    ensures AreaOf(routed, data) == AreaOf(routed, other)
  {
  }
}
