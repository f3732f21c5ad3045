/** Text normalisation shared by both crawlers (`clean_text`, defined identically in
    scraper_live.py and scraper_live_tosqlite.py) and the small string helpers the
    extractors need: Python's notion of whitespace and of `\d`, substring search,
    `str.replace(p, "")`, `str.strip()` and `"|".join(...)`. */
module Text {

  /** Python's `str.isspace()`; `\s` and argument-less `str.strip()` use the same set. */
  predicate IsSpace(c: char) {
    || c == ' ' || '\t' <= c <= '\r' || '\U{1C}' <= c <= '\U{1F}'
    || c == '\U{85}' || c == '\U{A0}' || c == '\U{1680}'
    || '\U{2000}' <= c <= '\U{200A}' || c == '\U{2028}' || c == '\U{2029}'
    || c == '\U{202F}' || c == '\U{205F}' || c == '\U{3000}'
  }

  const Nbsp: char := '\U{A0}'

  /** The digits `AR_NUMBERS` transliterates: U+0660 .. U+0669. */
  predicate IsArabicIndicDigit(c: char) { '\U{0660}' <= c <= '\U{0669}' }

  predicate IsAsciiDigit(c: char) { '0' <= c <= '9' }

  /** What a `\d` in the crawlers' `re` patterns accepts: ASCII digits and the two Arabic digit blocks. */
  predicate IsDigit(c: char) {
    IsAsciiDigit(c) || IsArabicIndicDigit(c) || '\U{06F0}' <= c <= '\U{06F9}'
  }

  predicate AllDigits(s: string) { forall i :: 0 <= i < |s| ==> IsDigit(s[i]) }

  function TranslateDigit(c: char): (d: char)
    ensures IsArabicIndicDigit(c) ==> IsAsciiDigit(d) && d as int - '0' as int == c as int - 0x660
    ensures !IsArabicIndicDigit(c) ==> d == c
  {
    if IsArabicIndicDigit(c) then (c as int - 0x660 + '0' as int) as char else c
  }

  /** `s.translate(AR_NUMBERS)`. */
  function Translate(s: string): (r: string)
    ensures |r| == |s|
  {
    if s == [] then [] else [TranslateDigit(s[0])] + Translate(s[1..])
  }

  lemma {:induction false} TranslateAt(s: string)
    ensures forall i :: 0 <= i < |s| ==> Translate(s)[i] == TranslateDigit(s[i])
  {
    if s != [] {
      TranslateAt(s[1..]);
    }
  }

  lemma {:induction false} TranslateAppend(a: string, b: string)
    ensures Translate(a + b) == Translate(a) + Translate(b)
  {
    if a == [] {
      assert a + b == b;
    } else {
      assert (a + b)[1..] == a[1..] + b;
      TranslateAppend(a[1..], b);
    }
  }

  /** `s.replace("\u00a0", " ")`. */
  function ReplaceNbsp(s: string): (r: string)
    ensures |r| == |s|
  {
    if s == [] then [] else [if s[0] == Nbsp then ' ' else s[0]] + ReplaceNbsp(s[1..])
  }

  lemma {:induction false} ReplaceNbspWithout(s: string)
    requires Nbsp !in s
    ensures ReplaceNbsp(s) == s
  {
    if s != [] {
      ReplaceNbspWithout(s[1..]);
    }
  }

  /** `s.lstrip()`: drops the leading whitespace run. */
  function StripLeft(s: string): (r: string)
    ensures |r| <= |s|
  {
    if s != [] && IsSpace(s[0]) then StripLeft(s[1..]) else s
  }

  lemma {:induction false} StripLeftFacts(s: string)
    ensures StripLeft(s) == s[|s| - |StripLeft(s)|..]
    ensures StripLeft(s) == [] || !IsSpace(StripLeft(s)[0])
    ensures forall i :: 0 <= i < |s| - |StripLeft(s)| ==> IsSpace(s[i])
  {
    if s != [] && IsSpace(s[0]) {
      StripLeftFacts(s[1..]);
    }
  }

  /** `s.rstrip()`: drops the trailing whitespace run. */
  function StripRight(s: string): (r: string)
    ensures |r| <= |s|
  {
    if s != [] && IsSpace(s[|s| - 1]) then StripRight(s[..|s| - 1]) else s
  }

  lemma {:induction false} StripRightFacts(s: string)
    ensures StripRight(s) == s[..|StripRight(s)|]
    ensures StripRight(s) == [] || !IsSpace(StripRight(s)[|StripRight(s)| - 1])
    ensures forall i :: |StripRight(s)| <= i < |s| ==> IsSpace(s[i])
  {
    if s != [] && IsSpace(s[|s| - 1]) {
      StripRightFacts(s[..|s| - 1]);
    }
  }

  /** `s.strip()`. */
  function Strip(s: string): string {
    StripRight(StripLeft(s))
  }

  predicate PlainSpacesOnly(s: string) {
    forall i :: 0 <= i < |s| && IsSpace(s[i]) ==> s[i] == ' '
  }

  predicate NoDoubleSpace(s: string) {
    forall i :: 0 <= i < |s| - 1 ==> !(s[i] == ' ' && s[i + 1] == ' ')
  }

  /** `re.sub(r"\s+", " ", s)`: every maximal whitespace run becomes one ASCII space. */
  function Collapse(s: string): string
    decreases |s|
  {
    if s == [] then []
    else if IsSpace(s[0]) then [' '] + Collapse(StripLeft(s[1..]))
    else [s[0]] + Collapse(s[1..])
  }

  lemma {:induction false} CollapseFacts(s: string)
    ensures PlainSpacesOnly(Collapse(s)) && NoDoubleSpace(Collapse(s))
    ensures s == [] <==> Collapse(s) == []
    ensures s != [] && IsSpace(s[0]) ==> Collapse(s)[0] == ' '
    ensures s != [] && !IsSpace(s[0]) ==> Collapse(s)[0] == s[0]
    decreases |s|
  {
    if s != [] {
      if IsSpace(s[0]) {
        var t := StripLeft(s[1..]);
        StripLeftFacts(s[1..]);
        CollapseFacts(t);
        assert t == [] || !IsSpace(t[0]);
      } else {
        CollapseFacts(s[1..]);
      }
    }
  }

  /** The normal form `clean_text` produces. */
  predicate IsClean(s: string) {
    && PlainSpacesOnly(s)
    && NoDoubleSpace(s)
    && (s != [] ==> !IsSpace(s[0]) && !IsSpace(s[|s| - 1]))
    && forall i :: 0 <= i < |s| ==> !IsArabicIndicDigit(s[i])
  }

  /** `clean_text`: whitespace runs (NBSP included) become one space, the ends are trimmed,
      and Arabic-Indic digits become ASCII digits. */
  function CleanText(s: string): string {
    if s == [] then "" else Translate(Strip(Collapse(ReplaceNbsp(s))))
  }

  /** `[clean_text(x) for x in xs]`. */
  function CleanAll(xs: seq<string>): (r: seq<string>)
    ensures |r| == |xs|
  {
    if xs == [] then [] else CleanAll(xs[..|xs| - 1]) + [CleanText(xs[|xs| - 1])]
  }

  lemma {:induction false} CleanAllAt(xs: seq<string>, j: nat)
    requires j < |xs|
    ensures CleanAll(xs)[j] == CleanText(xs[j])
  {
    if j < |xs| - 1 {
      CleanAllAt(xs[..|xs| - 1], j);
    }
  }

  /** The result of `clean_text` has no NBSP (it is not a plain space), no Arabic-Indic digit,
      no whitespace at either end and no two adjacent spaces; empty input gives "". */
  lemma CleanTextIsClean(s: string)
    ensures IsClean(CleanText(s))
    ensures s == [] ==> CleanText(s) == []
  {
    if s != [] {
      CollapseFacts(ReplaceNbsp(s));
      StripCollapsedIsClean(Collapse(ReplaceNbsp(s)));
    }
  }

  lemma StripCollapsedIsClean(c: string)
    requires PlainSpacesOnly(c) && NoDoubleSpace(c)
    ensures IsClean(Translate(Strip(c)))
  {
    var l := StripLeft(c);
    var t := Strip(c);
    StripLeftFacts(c);
    StripRightFacts(l);
    var k := |c| - |l|;
    assert t == l[..|t|] && l == c[k..];
    assert t == c[k..k + |t|];
    SliceKeepsForm(c, k, k + |t|);
    assert t != [] ==> t[0] == l[0];
    TranslateKeepsClean(t);
  }

  lemma SliceKeepsForm(c: string, lo: nat, hi: nat)
    requires lo <= hi <= |c| && PlainSpacesOnly(c) && NoDoubleSpace(c)
    ensures PlainSpacesOnly(c[lo..hi]) && NoDoubleSpace(c[lo..hi])
  {
    var t := c[lo..hi];
    assert forall i :: 0 <= i < |t| ==> t[i] == c[lo + i];
  }

  lemma TranslateKeepsClean(t: string)
    requires PlainSpacesOnly(t) && NoDoubleSpace(t)
    requires t != [] ==> !IsSpace(t[0]) && !IsSpace(t[|t| - 1])
    ensures IsClean(Translate(t))
  {
    var r := Translate(t);
    TranslateAt(t);
    assert forall i :: 0 <= i < |t| ==> (IsSpace(r[i]) <==> IsSpace(t[i]));
  }

  /** The characters of `s` that are not whitespace, in order. */
  function NonSpace(s: string): string {
    if s == [] then [] else (if IsSpace(s[0]) then [] else [s[0]]) + NonSpace(s[1..])
  }

  lemma {:induction false} NonSpaceAppend(a: string, b: string)
    ensures NonSpace(a + b) == NonSpace(a) + NonSpace(b)
  {
    if a == [] {
      assert a + b == b;
    } else {
      assert (a + b)[1..] == a[1..] + b;
      NonSpaceAppend(a[1..], b);
    }
  }

  /** `s` has no visible character exactly when it is all whitespace. */
  lemma {:induction false} NonSpaceEmptyIff(s: string)
    ensures NonSpace(s) == [] <==> forall i :: 0 <= i < |s| ==> IsSpace(s[i])
  {
    if s != [] {
      NonSpaceEmptyIff(s[1..]);
      assert forall i :: 1 <= i < |s| ==> s[1..][i - 1] == s[i];
    }
  }

  lemma {:induction false} NonSpaceStripLeft(s: string)
    ensures NonSpace(StripLeft(s)) == NonSpace(s)
  {
    if s != [] && IsSpace(s[0]) { NonSpaceStripLeft(s[1..]); }
  }

  lemma {:induction false} NonSpaceStripRight(s: string)
    ensures NonSpace(StripRight(s)) == NonSpace(s)
  {
    if s != [] && IsSpace(s[|s| - 1]) {
      NonSpaceStripRight(s[..|s| - 1]);
      assert s == s[..|s| - 1] + [s[|s| - 1]];
      NonSpaceAppend(s[..|s| - 1], [s[|s| - 1]]);
    }
  }

  lemma NonSpaceStrip(s: string)
    ensures NonSpace(Strip(s)) == NonSpace(s)
  {
    NonSpaceStripLeft(s);
    NonSpaceStripRight(StripLeft(s));
  }

  lemma {:induction false} NonSpaceCollapse(s: string)
    ensures NonSpace(Collapse(s)) == NonSpace(s)
    decreases |s|
  {
    if s == [] {
    } else if IsSpace(s[0]) {
      NonSpaceCollapse(StripLeft(s[1..]));
      NonSpaceStripLeft(s[1..]);
      NonSpaceAppend([' '], Collapse(StripLeft(s[1..])));
    } else {
      NonSpaceCollapse(s[1..]);
      NonSpaceAppend([s[0]], Collapse(s[1..]));
    }
  }

  lemma {:induction false} NonSpaceReplaceNbsp(s: string)
    ensures NonSpace(ReplaceNbsp(s)) == NonSpace(s)
  {
    if s != [] {
      NonSpaceReplaceNbsp(s[1..]);
    }
  }

  lemma {:induction false} NonSpaceTranslate(s: string)
    ensures NonSpace(Translate(s)) == Translate(NonSpace(s))
  {
    if s != [] {
      NonSpaceTranslate(s[1..]);
      var head := if IsSpace(s[0]) then [] else [s[0]];
      assert NonSpace(s) == head + NonSpace(s[1..]);
      assert NonSpace(Translate(s)) == (if IsSpace(s[0]) then [] else [TranslateDigit(s[0])]) + NonSpace(Translate(s[1..]));
      TranslateAppend(head, NonSpace(s[1..]));
    }
  }

  /** `clean_text` loses no visible character: the non-whitespace characters of the result
      are those of the input, in the same order, with Arabic-Indic digits transliterated. */
  lemma CleanTextKeepsVisibleText(s: string)
    ensures NonSpace(CleanText(s)) == Translate(NonSpace(s))
  {
    if s != [] {
      var c := Collapse(ReplaceNbsp(s));
      NonSpaceTranslate(Strip(c));
      NonSpaceStrip(c);
      NonSpaceCollapse(ReplaceNbsp(s));
      NonSpaceReplaceNbsp(s);
    }
  }

  /** A clean string is empty exactly when it has no visible character. */
  lemma {:induction false} CleanEmptyIff(s: string)
    requires IsClean(s)
    ensures s == [] <==> NonSpace(s) == []
  {
    if s != [] {
      assert NonSpace(s) == [s[0]] + NonSpace(s[1..]);
    }
  }

  /** `clean_text(s)` is "" exactly when `s` is empty or all whitespace. */
  lemma CleanTextEmptyIff(s: string)
    ensures CleanText(s) == [] <==> forall i :: 0 <= i < |s| ==> IsSpace(s[i])
  {
    CleanTextKeepsVisibleText(s);
    CleanTextIsClean(s);
    CleanEmptyIff(CleanText(s));
    assert |Translate(NonSpace(s))| == |NonSpace(s)|;
    NonSpaceEmptyIff(s);
  }

  lemma {:induction false} CollapseOfCollapsed(s: string)
    requires PlainSpacesOnly(s) && NoDoubleSpace(s)
    ensures Collapse(s) == s
    decreases |s|
  {
    if s != [] {
      if IsSpace(s[0]) {
        assert StripLeft(s[1..]) == s[1..] by {
          if |s| > 1 { assert !IsSpace(s[1]); }
        }
      }
      CollapseOfCollapsed(s[1..]);
    }
  }

  /** A clean string is left as it is, so `clean_text` is idempotent. */
  lemma CleanTextFixesClean(s: string)
    requires IsClean(s)
    ensures CleanText(s) == s
  {
    if s != [] {
      ReplaceNbspWithout(s);
      CollapseOfCollapsed(s);
      assert StripLeft(s) == s;
      assert StripRight(s) == s;
      assert Strip(Collapse(ReplaceNbsp(s))) == s;
      TranslateAt(s);
      assert forall i :: 0 <= i < |s| ==> Translate(s)[i] == s[i];
      assert Translate(s) == s;
    }
  }

  lemma CleanTextIdempotent(s: string)
    ensures CleanText(CleanText(s)) == CleanText(s)
  {
    CleanTextIsClean(s);
    CleanTextFixesClean(CleanText(s));
  }

  // ---------------------------------------------------------------------------
  // Substrings

  function StartsWith(s: string, p: string): bool {
    |p| <= |s| && s[..|p|] == p
  }

  function EndsWith(s: string, p: string): bool {
    |p| <= |s| && s[|s| - |p|..] == p
  }

  /** `p` occurs in `s` at index `i`. */
  predicate OccursAt(s: string, p: string, i: int) {
    0 <= i && i + |p| <= |s| && s[i..i + |p|] == p
  }

  /** Python's `p in s`. */
  function Contains(s: string, p: string): (b: bool)
    ensures b <==> exists i :: OccursAt(s, p, i)
    decreases |s|
  {
    if StartsWith(s, p) then
      assert OccursAt(s, p, 0);
      true
    else if |s| <= |p| then
      assert forall i :: !OccursAt(s, p, i) by {
        forall i | OccursAt(s, p, i) ensures false { }
      }
      false
    else
      var b := Contains(s[1..], p);
      assert b ==> exists i :: OccursAt(s, p, i) by {
        if b {
          var i :| OccursAt(s[1..], p, i);
          assert s[1..][i..i + |p|] == s[i + 1..i + 1 + |p|];
          assert OccursAt(s, p, i + 1);
        }
      }
      assert (exists i :: OccursAt(s, p, i)) ==> b by {
        if exists i :: OccursAt(s, p, i) {
          var i :| OccursAt(s, p, i);
          assert i != 0;
          assert s[1..][i - 1..i - 1 + |p|] == s[i..i + |p|];
          assert OccursAt(s[1..], p, i - 1);
        }
      }
      b
  }

  /** `s.replace(p, "")`: removes the non-overlapping occurrences of `p`, scanning left to right. */
  function RemoveAll(s: string, p: string): (r: string)
    requires p != []
    ensures |r| <= |s|
    ensures forall c :: c in r ==> c in s
    decreases |s|
  {
    if |s| < |p| then s
    else if StartsWith(s, p) then RemoveAll(s[|p|..], p)
    else [s[0]] + RemoveAll(s[1..], p)
  }

  /** `sep.join(parts)`. */
  function Join(parts: seq<string>, sep: string): string {
    if parts == [] then ""
    else if |parts| == 1 then parts[0]
    else parts[0] + sep + Join(parts[1..], sep)
  }

  /** An occurrence of `p + q` contains one of `p` and one of `q`. */
  lemma ContainsParts(s: string, p: string, q: string)
    requires Contains(s, p + q)
    ensures Contains(s, p) && Contains(s, q)
  {
    var i :| OccursAt(s, p + q, i);
    assert s[i..i + |p|] == (p + q)[..|p|] == p;
    assert s[i + |p|..i + |p| + |q|] == (p + q)[|p|..] == q;
    assert OccursAt(s, p, i) && OccursAt(s, q, i + |p|);
  }

  /** Removing a single character keeps every other character, in order. */
  lemma {:induction false} RemoveCharFacts(s: string, c: char)
    ensures c !in RemoveAll(s, [c])
    ensures forall x :: x in RemoveAll(s, [c]) <==> x in s && x != c
    ensures s != [] && s[0] != c ==> RemoveAll(s, [c]) != [] && RemoveAll(s, [c])[0] == s[0]
    decreases |s|
  {
    if s != [] {
      RemoveCharFacts(s[1..], c);
      assert forall x :: x in s <==> x == s[0] || x in s[1..] by {
        assert s == [s[0]] + s[1..];
      }
      if s[0] == c {
        assert StartsWith(s, [c]);
      } else {
        assert !StartsWith(s, [c]);
      }
    }
  }
}
