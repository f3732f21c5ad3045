/** `parse_map_coords` (identical in both crawlers): the first inline-script
    `"lat": <number>, "lng": <number>` pair and the Google Maps address built from it. */
module Coords {
  import opened Text
  import opened Opt

  const LatKey: string := "\"lat\""
  const LngKey: string := "\"lng\""
  const MapsPrefix: string := "https://maps.google.com/?q="

  /** The pattern's `[0-9.]`. */
  predicate IsCoordChar(c: char) { '0' <= c <= '9' || c == '.' }

  predicate AllCoordChars(s: string) { forall i :: 0 <= i < |s| ==> IsCoordChar(s[i]) }

  predicate AllSpaces(w: string) { forall i :: 0 <= i < |w| ==> IsSpace(w[i]) }

  /** The longest prefix of `s` made of `[0-9.]`: what a greedy `[0-9.]+` takes. */
  function CoordRun(s: string): (run: string)
    ensures |run| <= |s| && run == s[..|run|] && AllCoordChars(run)
    ensures |run| < |s| ==> !IsCoordChar(s[|run|])
  {
    if s != [] && IsCoordChar(s[0]) then
      var tail := CoordRun(s[1..]);
      assert [s[0]] + tail == s[..1 + |tail|];
      [s[0]] + tail
    else []
  }

  /** `\s*:\s*` at the start of `s`, and what follows it; a greedy `\s*` leaves what `lstrip` leaves. */
  function AfterColon(s: string): (r: Option<string>)
    ensures r.Some? ==> |r.value| < |s|
  {
    var s1 := StripLeft(s);
    if s1 == [] || s1[0] != ':' then None else Some(StripLeft(s1[1..]))
  }

  /** `"lng"\s*:\s*([0-9.]+)` at the start of `s`, and its group. */
  function MatchLng(s: string): (r: Option<string>)
    ensures r.Some? ==> r.value != "" && AllCoordChars(r.value)
  {
    if !StartsWith(s, LngKey) then None
    else
      match AfterColon(s[|LngKey|..])
      case None => None
      case Some(t) =>
        var lon := CoordRun(t);
        if lon == [] then None else Some(lon)
  }

  /** The pattern `"lat"\s*:\s*([0-9.]+)\s*,\s*"lng"\s*:\s*([0-9.]+)` matched at the start
      of `s`, with its two groups. None of the greedy parts can usefully give characters
      back (what must follow each is a character the part itself rejects), so the match at
      a given start is unique. */
  function MatchCoords(s: string): (r: Option<(string, string)>)
    ensures r.Some? ==> r.value.0 != "" && r.value.1 != ""
    ensures r.Some? ==> AllCoordChars(r.value.0) && AllCoordChars(r.value.1)
    ensures r.Some? ==> StartsWith(s, LatKey)
  {
    if !StartsWith(s, LatKey) then None
    else
      match AfterColon(s[|LatKey|..])
      case None => None
      case Some(t) =>
        var lat := CoordRun(t);
        var s3 := StripLeft(t[|lat|..]);
        if lat == [] || s3 == [] || s3[0] != ',' then None
        else
          match MatchLng(StripLeft(s3[1..]))
          case None => None
          case Some(lon) => Some((lat, lon))
  }

  /** The pattern matches at index `i` of `h`. */
  function CoordsAt(h: string, i: nat): Option<(string, string)>
    requires i <= |h|
  {
    MatchCoords(h[i..])
  }

  /** `re.search`: the smallest index at or after `i` where the pattern matches, if any. */
  function FirstCoordsAt(h: string, i: nat): (r: Option<nat>)
    requires i <= |h|
    ensures r.None? <==> forall j :: i <= j <= |h| ==> CoordsAt(h, j).None?
    ensures r.Some? ==> (i <= r.value <= |h| && CoordsAt(h, r.value).Some?
      && forall m :: i <= m < r.value ==> CoordsAt(h, m).None?)
    decreases |h| - i
  {
    if CoordsAt(h, i).Some? then Some(i)
    else if i == |h| then None
    else FirstCoordsAt(h, i + 1)
  }

  datatype MapCoords = MapCoords(mapsUrl: string, lat: string, lon: string)

  /** `parse_map_coords`: lat and lon of the first match, "" when there is none, and the
      maps address exactly when both were captured. */
  function ParseMapCoords(h: string): (r: MapCoords)
    ensures r.mapsUrl != "" <==> r.lat != "" && r.lon != ""
    ensures r.mapsUrl != "" ==> r.mapsUrl == MapsPrefix + r.lat + "," + r.lon
    ensures r.lat != "" <==> exists j :: 0 <= j <= |h| && CoordsAt(h, j).Some?
    ensures r.lat != "" ==> (exists j :: (0 <= j <= |h| && CoordsAt(h, j) == Some((r.lat, r.lon))
      && forall m :: 0 <= m < j ==> CoordsAt(h, m).None?))
    ensures AllCoordChars(r.lat) && AllCoordChars(r.lon)
  {
    var at := FirstCoordsAt(h, 0);
    var lat := if at.Some? then CoordsAt(h, at.value).value.0 else "";
    var lon := if at.Some? then CoordsAt(h, at.value).value.1 else "";
    var url := if lat != "" && lon != "" then MapsPrefix + lat + "," + lon else "";
    MapCoords(url, lat, lon)
  }

  // ---------------------------------------------------------------------------
  // Reading back a text written piece by piece

  lemma {:induction false} StripLeftOver(w: string, rest: string)
    requires AllSpaces(w) && (rest == [] || !IsSpace(rest[0]))
    ensures StripLeft(w + rest) == rest
    decreases |w|
  {
    if w == [] {
      assert w + rest == rest;
    } else {
      assert (w + rest)[1..] == w[1..] + rest;
      StripLeftOver(w[1..], rest);
    }
  }

  lemma {:induction false} CoordRunOver(w: string, rest: string)
    requires AllCoordChars(w) && (rest == [] || !IsCoordChar(rest[0]))
    ensures CoordRun(w + rest) == w
    decreases |w|
  {
    if w == [] {
      assert w + rest == rest;
    } else {
      assert (w + rest)[1..] == w[1..] + rest;
      CoordRunOver(w[1..], rest);
    }
  }

  lemma DropPrefix(p: string, rest: string)
    ensures StartsWith(p + rest, p) && (p + rest)[|p|..] == rest
  {
    assert (p + rest)[..|p|] == p;
  }

  lemma ReadColon(w: string, v: string, rest: string)
    requires AllSpaces(w) && AllSpaces(v) && (rest == [] || !IsSpace(rest[0]))
    ensures AfterColon(w + (":" + (v + rest))) == Some(rest)
  {
    StripLeftOver(w, ":" + (v + rest));
    DropPrefix(":", v + rest);
    StripLeftOver(v, rest);
  }

  /** `"lng"\s*:\s*([0-9.]+)` followed by `post` reads back `lon`. */
  lemma ReadLng(w5: string, w6: string, lon: string, post: string)
    requires AllSpaces(w5) && AllSpaces(w6) && lon != "" && AllCoordChars(lon)
    requires post == [] || !IsCoordChar(post[0])
    ensures MatchLng(LngKey + (w5 + (":" + (w6 + (lon + post))))) == Some(lon)
  {
    DropPrefix(LngKey, w5 + (":" + (w6 + (lon + post))));
    assert (lon + post)[0] == lon[0];
    ReadColon(w5, w6, lon + post);
    CoordRunOver(lon, post);
  }

  /** The text the pattern matches in full, written piece by piece. */
  function CoordsText(w1: string, w2: string, lat: string, w3: string, w4: string,
                      w5: string, w6: string, lon: string, post: string): string {
    LatKey + (w1 + (":" + (w2 + (lat + (w3 + ("," + (w4 + (LngKey + (w5 + (":" + (w6 + (lon + post))))))))))))
  }

  /** Round trip: coordinates written in the form the pattern expects (any whitespace
      around the colons and the comma) are read back by the match at the start of that text. */
  lemma MatchCoordsOfText(w1: string, w2: string, lat: string, w3: string, w4: string,
                          w5: string, w6: string, lon: string, post: string)
    requires AllSpaces(w1) && AllSpaces(w2) && AllSpaces(w3) && AllSpaces(w4)
    requires AllSpaces(w5) && AllSpaces(w6)
    requires lat != "" && AllCoordChars(lat) && lon != "" && AllCoordChars(lon)
    requires post == [] || !IsCoordChar(post[0])
    ensures MatchCoords(CoordsText(w1, w2, lat, w3, w4, w5, w6, lon, post)) == Some((lat, lon))
  {
    var s4 := LngKey + (w5 + (":" + (w6 + (lon + post))));
    var s3 := "," + (w4 + s4);
    var s2 := lat + (w3 + s3);
    DropPrefix(LatKey, w1 + (":" + (w2 + s2)));
    assert s2[0] == lat[0];
    ReadColon(w1, w2, s2);
    assert (w3 + s3)[0] == if w3 == [] then ',' else w3[0];
    CoordRunOver(lat, w3 + s3);
    DropPrefix(lat, w3 + s3);
    StripLeftOver(w3, s3);
    DropPrefix(",", w4 + s4);
    StripLeftOver(w4, s4);
    ReadLng(w5, w6, lon, post);
  }

  /** No match can start inside text free of double quotes, so a match right after it is
      the first one. */
  lemma FirstMatchAfter(pre: string, t: string)
    requires '"' !in pre && MatchCoords(t).Some?
    ensures var h := pre + t; var m := MatchCoords(t).value;
      ParseMapCoords(h) == MapCoords(MapsPrefix + m.0 + "," + m.1, m.0, m.1)
  {
    var h := pre + t;
    assert CoordsAt(h, |pre|) == MatchCoords(t) by { assert h[|pre|..] == t; }
    forall m | 0 <= m < |pre| ensures CoordsAt(h, m).None? {
      assert h[m..][0] == pre[m];
      NoMatchWithoutQuote(h[m..]);
    }
    assert FirstCoordsAt(h, 0) == Some(|pre|);
  }

  lemma NoMatchWithoutQuote(s: string)
    requires s != [] && s[0] != '"'
    ensures MatchCoords(s).None?
  {
    assert !StartsWith(s, LatKey) by { assert LatKey[0] == '"'; }
  }

  /** Round trip for a whole page: when nothing before the pair contains a double quote, the
      pair is the first match, and the maps address is built from exactly those two numbers. */
  lemma CoordsOfScript(pre: string, w1: string, w2: string, lat: string, w3: string,
                       w4: string, w5: string, w6: string, lon: string, post: string)
    requires '"' !in pre
    requires AllSpaces(w1) && AllSpaces(w2) && AllSpaces(w3) && AllSpaces(w4)
    requires AllSpaces(w5) && AllSpaces(w6)
    requires lat != "" && AllCoordChars(lat) && lon != "" && AllCoordChars(lon)
    requires post == [] || !IsCoordChar(post[0])
    ensures ParseMapCoords(pre + CoordsText(w1, w2, lat, w3, w4, w5, w6, lon, post))
         == MapCoords(MapsPrefix + lat + "," + lon, lat, lon)
  {
    MatchCoordsOfText(w1, w2, lat, w3, w4, w5, w6, lon, post);
    FirstMatchAfter(pre, CoordsText(w1, w2, lat, w3, w4, w5, w6, lon, post));
  }
}
