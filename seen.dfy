/** The CSV crawler's seen-ids file: `save_seen` writes the ids in ascending order, one per
    line; `load_seen` reads back every non-blank line, stripped. */
module SeenIds {
  import opened Text
  import opened Opt

  // ---------------------------------------------------------------------------
  // The order `sorted` puts strings in

  /** Python's `<` on `str`: code point by code point, a proper prefix first. */
  predicate Less(a: string, b: string) {
    if a == [] then b != []
    else if b == [] then false
    else if a[0] != b[0] then a[0] < b[0]
    else Less(a[1..], b[1..])
  }

  lemma {:induction false} LessIrreflexive(a: string)
    ensures !Less(a, a)
  {
    if a != [] {
      LessIrreflexive(a[1..]);
    }
  }

  lemma {:induction false} LessTotal(a: string, b: string)
    requires a != b
    ensures Less(a, b) || Less(b, a)
  {
    if a != [] && b != [] && a[0] == b[0] {
      assert a == [a[0]] + a[1..] && b == [b[0]] + b[1..];
      LessTotal(a[1..], b[1..]);
    }
  }

  lemma {:induction false} LessTransitive(a: string, b: string, c: string)
    requires Less(a, b) && Less(b, c)
    ensures Less(a, c)
  {
    if a != [] && b != [] && c != [] && a[0] == b[0] && b[0] == c[0] {
      LessTransitive(a[1..], b[1..], c[1..]);
    }
  }

  /** Strictly ascending: the order `sorted` yields for distinct strings. */
  predicate Ascending(order: seq<string>) {
    forall i, j :: 0 <= i < j < |order| ==> Less(order[i], order[j])
  }

  /** An ascending listing has no repeats. */
  lemma AscendingDistinct(order: seq<string>, i: nat, j: nat)
    requires Ascending(order) && i < j < |order|
    ensures order[i] != order[j]
  {
    LessIrreflexive(order[i]);
  }

  /** Two ascending listings of the same set are the same listing, so `sorted(seen)` is
      determined by `seen`. */
  lemma {:induction false} AscendingUnique(xs: seq<string>, ys: seq<string>)
    requires Ascending(xs) && Ascending(ys)
    requires forall x :: x in xs <==> x in ys
    ensures xs == ys
  {
    SameMembersBothEmpty(xs, ys);
    if xs != [] {
      assert xs[0] == ys[0] by {
        if xs[0] != ys[0] {
          assert xs[0] in xs && ys[0] in ys;
          var i :| 0 <= i < |ys| && ys[i] == xs[0];
          var j :| 0 <= j < |xs| && xs[j] == ys[0];
          assert i > 0 && j > 0;
          LessTransitive(xs[0], xs[j], ys[i]);
          LessIrreflexive(xs[0]);
        }
      }
      forall x
        ensures x in xs[1..] <==> x in ys[1..]
      {
        if x in xs[1..] {
          var k :| 1 <= k < |xs| && xs[k] == x;
          AscendingDistinct(xs, 0, k);
          assert x in ys;
        }
        if x in ys[1..] {
          var k :| 1 <= k < |ys| && ys[k] == x;
          AscendingDistinct(ys, 0, k);
          assert x in xs;
        }
      }
      AscendingUnique(xs[1..], ys[1..]);
      assert xs == [xs[0]] + xs[1..] && ys == [ys[0]] + ys[1..];
    }
  }

  lemma SameMembersBothEmpty(xs: seq<string>, ys: seq<string>)
    requires forall x :: x in xs <==> x in ys
    ensures xs == [] <==> ys == []
  {
    if xs != [] {
      assert xs[0] in xs;
    }
    if ys != [] {
      assert ys[0] in ys;
    }
  }

  /** The least element of a non-empty set. */
  method Least(s: set<string>) returns (m: string)
    requires s != {}
    ensures m in s && forall y :: y in s && y != m ==> Less(m, y)
  {
    m :| m in s;
    var rest := s - {m};
    ghost var done := {m};
    while rest != {}
      invariant rest + done == s && rest !! done && m in done
      invariant forall y :: y in done && y != m ==> Less(m, y)
      decreases |rest|
    {
      var y :| y in rest;
      if Less(y, m) {
        forall z | z in done && z != y
          ensures Less(y, z)
        {
          if z != m {
            LessTransitive(y, m, z);
          }
        }
        m := y;
      } else {
        LessTotal(m, y);
      }
      rest := rest - {y};
      done := done + {y};
    }
  }

  /** `sorted(seen)`: the ids in ascending order. */
  method SortedIds(seen: set<string>) returns (order: seq<string>)
    ensures Ascending(order)
    ensures forall x :: x in order <==> x in seen
  {
    order := [];
    var rest := seen;
    while rest != {}
      invariant Ascending(order)
      invariant forall x :: x in seen <==> x in order || x in rest
      invariant forall x :: x in order ==> x !in rest
      invariant forall i, y :: 0 <= i < |order| && y in rest ==> Less(order[i], y)
      decreases |rest|
    {
      var m := Least(rest);
      order := order + [m];
      rest := rest - {m};
    }
  }

  // ---------------------------------------------------------------------------
  // The file's text

  /** The file `save_seen` writes for the ids in `order`: each followed by a newline. */
  function SeenText(order: seq<string>): (text: string)
    ensures order == [] <==> text == []
  {
    if order == [] then "" else order[0] + "\n" + SeenText(order[1..])
  }

  lemma {:induction false} SeenTextSnoc(order: seq<string>, x: string)
    ensures SeenText(order + [x]) == SeenText(order) + x + "\n"
  {
    if order == [] {
      assert SeenText([x]) == x + "\n" + SeenText([]);
    } else {
      assert (order + [x])[1..] == order[1..] + [x];
      SeenTextSnoc(order[1..], x);
    }
  }

  /** `save_seen`: the text written to the file for `seen`, and the order it lists the
      ids in. */
  method SaveSeen(seen: set<string>) returns (text: string, order: seq<string>)
    ensures Ascending(order) && (forall x :: x in order <==> x in seen)
    ensures text == SeenText(order)
  {
    order := SortedIds(seen);
    text := "";
    for i := 0 to |order|
      invariant text == SeenText(order[..i])
    {
      SeenTextSnoc(order[..i], order[i]);
      assert order[..i + 1] == order[..i] + [order[i]];
      text := text + order[i] + "\n";
    }
    assert order[..|order|] == order;
  }

  /** Python reads a text file in universal-newline mode: "\r\n", "\r" and "\n" all end
      a line. */
  predicate IsLineBreak(c: char) {
    c == '\n' || c == '\r'
  }

  /** The index of the first line break in `s`, or `|s|`. */
  function BreakIndex(s: string): (k: nat)
    ensures k <= |s|
    ensures k < |s| ==> IsLineBreak(s[k])
    ensures forall i :: 0 <= i < k ==> !IsLineBreak(s[i])
  {
    if s == [] || IsLineBreak(s[0]) then 0 else 1 + BreakIndex(s[1..])
  }

  /** The lines of `s` without their breaks; "\r\n" leaves an empty piece between its two
      characters, which `load_seen` drops as blank. */
  function Lines(s: string): seq<string>
    decreases |s|
  {
    var k := BreakIndex(s);
    if k == |s| then [s] else [s[..k]] + Lines(s[k + 1..])
  }

  /** `load_seen`: every non-blank line, stripped; a missing file gives the empty set. */
  function LoadSeen(file: Option<string>): (seen: set<string>)
    ensures file.None? ==> seen == {}
    ensures "" !in seen
  {
    match file
    case None => {}
    case Some(text) => LoadLines(Lines(text))
  }

  function LoadLines(lines: seq<string>): set<string> {
    set i | 0 <= i < |lines| && Strip(lines[i]) != "" :: Strip(lines[i])
  }

  // ---------------------------------------------------------------------------
  // The round trip

  /** An id `load_seen` reads back unchanged: non-empty and free of whitespace, line breaks
      included. */
  predicate PlainId(x: string) {
    x != "" && forall i :: 0 <= i < |x| ==> !IsSpace(x[i])
  }

  lemma StripPlain(x: string)
    requires PlainId(x)
    ensures Strip(x) == x
  {
    assert StripLeft(x) == x;
  }

  lemma LinesOfEntry(x: string, rest: string)
    requires PlainId(x)
    ensures Lines(x + "\n" + rest) == [x] + Lines(rest)
  {
    var s := x + "\n" + rest;
    assert forall i :: 0 <= i < |x| ==> s[i] == x[i];
    assert s[|x|] == '\n';
    assert BreakIndex(s) == |x| by {
      if BreakIndex(s) < |x| {
        assert IsSpace(x[BreakIndex(s)]);
      }
    }
    assert s[..|x|] == x;
    assert s[|x| + 1..] == rest;
  }

  lemma {:induction false} LoadLinesCons(x: string, lines: seq<string>)
    requires PlainId(x)
    ensures LoadLines([x] + lines) == {x} + LoadLines(lines)
  {
    StripPlain(x);
    var all := [x] + lines;
    forall y | y in LoadLines(all)
      ensures y in {x} + LoadLines(lines)
    {
      var i :| 0 <= i < |all| && Strip(all[i]) != "" && Strip(all[i]) == y;
      if i > 0 {
        assert all[i] == lines[i - 1];
      }
    }
    forall y | y in LoadLines(lines)
      ensures y in LoadLines(all)
    {
      var i :| 0 <= i < |lines| && Strip(lines[i]) != "" && Strip(lines[i]) == y;
      assert all[i + 1] == lines[i];
    }
    assert Strip(all[0]) == x;
  }

  /** Reading back the file written for `order` gives exactly its ids, as long as each is
      non-empty and free of whitespace. */
  lemma {:induction false} SeenTextRoundTrip(order: seq<string>)
    requires forall i :: 0 <= i < |order| ==> PlainId(order[i])
    ensures LoadSeen(Some(SeenText(order))) == set x | x in order
  {
    if order == [] {
      assert Lines("") == [""];
      assert Strip("") == "";
    } else {
      SeenTextRoundTrip(order[1..]);
      LinesOfEntry(order[0], SeenText(order[1..]));
      LoadLinesCons(order[0], Lines(SeenText(order[1..])));
      assert order == [order[0]] + order[1..];
    }
  }

  /** `load_seen` after `save_seen` returns the saved set. */
  lemma SaveLoadRoundTrip(seen: set<string>, order: seq<string>)
    requires forall x :: x in seen ==> PlainId(x)
    requires Ascending(order) && (forall x :: x in order <==> x in seen)
    ensures LoadSeen(Some(SeenText(order))) == seen
  {
    SeenTextRoundTrip(order);
  }
}
