/** Order-preserving de-duplication, the `seen`-set idiom both crawlers use for URLs,
    feature names and amenity names, plus the filters and lookups the extractors share. */
module Lists {
  import opened Opt

  predicate NoDup<T(==)>(s: seq<T>) {
    forall i, j :: 0 <= i < j < |s| ==> s[i] != s[j]
  }

  /** Keeps each element at its first occurrence and drops the later ones; the loop
      `if x not in seen: seen.add(x); out.append(x)` computes `Dedup(s[..i])` after `i` steps. */
  function Dedup<T(==,!new)>(s: seq<T>): (r: seq<T>)
    ensures NoDup(r)
    ensures forall x :: x in r <==> x in s
    ensures |r| <= |s|
  {
    if s == [] then []
    else
      var d := Dedup(s[..|s| - 1]);
      assert forall x :: x in s <==> x in s[..|s| - 1] || x == s[|s| - 1] by {
        assert s == s[..|s| - 1] + [s[|s| - 1]];
      }
      if s[|s| - 1] in s[..|s| - 1] then d else d + [s[|s| - 1]]
  }

  /** One step of the `seen`-set loop: a new element is appended, a repeated one dropped. */
  lemma DedupSnoc<T(!new)>(s: seq<T>, x: T)
    ensures Dedup(s + [x]) == if x in s then Dedup(s) else Dedup(s) + [x]
  {
    assert (s + [x])[..|s|] == s;
  }

  /** The loop `for x in xs: if x not in seen: seen.add(x); out.append(x)`. */
  method DedupInOrder<T(==,!new)>(xs: seq<T>) returns (out: seq<T>)
    ensures out == Dedup(xs)
  {
    var seen: set<T> := {};
    out := [];
    var i := 0;
    while i < |xs|
      invariant 0 <= i <= |xs|
      invariant out == Dedup(xs[..i])
      invariant forall x :: x in seen <==> x in xs[..i]
    {
      var x := xs[i];
      assert xs[..i + 1] == xs[..i] + [x];
      DedupSnoc(xs[..i], x);
      if x !in seen {
        seen := seen + {x};
        out := out + [x];
      }
      i := i + 1;
    }
    assert xs[..|xs|] == xs;
  }

  /** Position of the first occurrence of `x`. */
  function IndexOf<T(==)>(s: seq<T>, x: T): (i: nat)
    requires x in s
    ensures i < |s| && s[i] == x && x !in s[..i]
  {
    if s[0] == x then 0
    else
      var k := IndexOf(s[1..], x);
      assert s[..k + 1] == [s[0]] + s[1..][..k];
      1 + k
  }

  /** Position of the first occurrence of `x` at or after `from`, if any. */
  function FirstIndexFrom<T(==)>(s: seq<T>, x: T, from: nat): (r: Option<nat>)
    requires from <= |s|
    ensures r.None? ==> forall i :: from <= i < |s| ==> s[i] != x
    ensures r.Some? ==> (from <= r.value < |s| && s[r.value] == x
                         && forall i :: from <= i < r.value ==> s[i] != x)
    decreases |s| - from
  {
    if from == |s| then None
    else if s[from] == x then Some(from)
    else FirstIndexFrom(s, x, from + 1)
  }

  lemma IndexOfUnique<T>(s: seq<T>, x: T, i: nat)
    requires i < |s| && s[i] == x && x !in s[..i]
    ensures IndexOf(s, x) == i
  {
    var k := IndexOf(s, x);
    assert forall m :: 0 <= m < i ==> s[m] != x by {
      forall m | 0 <= m < i ensures s[m] != x { assert s[..i][m] == s[m]; }
    }
    assert forall m :: 0 <= m < k ==> s[m] != x by {
      forall m | 0 <= m < k ensures s[m] != x { assert s[..k][m] == s[m]; }
    }
  }

  /** `Dedup` keeps first-seen order: of two kept elements, the one that appears first
      in the output is also the one whose first occurrence in the input comes first. */
  lemma {:induction false} DedupFirstSeenOrder<T(!new)>(s: seq<T>, i: int, j: int)
    requires 0 <= i < j < |Dedup(s)|
    ensures Dedup(s)[i] in s && Dedup(s)[j] in s
    ensures IndexOf(s, Dedup(s)[i]) < IndexOf(s, Dedup(s)[j])
  {
    var p := s[..|s| - 1];
    var last := s[|s| - 1];
    var d := Dedup(p);
    assert s == p + [last];
    assert Dedup(s) == if last in p then d else d + [last];
    var x, y := Dedup(s)[i], Dedup(s)[j];
    assert x == d[i] && x in p;
    IndexOfSnocOld(p, last, x);
    if j < |d| {
      assert y == d[j] && y in p;
      DedupFirstSeenOrder(p, i, j);
      IndexOfSnocOld(p, last, y);
    } else {
      assert last !in p && y == last;
      IndexOfSnocNew(p, last);
    }
  }

  /** Appending an element does not move the first occurrence of one already present. */
  lemma IndexOfSnocOld<T>(p: seq<T>, last: T, x: T)
    requires x in p
    ensures IndexOf(p + [last], x) == IndexOf(p, x)
  {
    var a := IndexOf(p, x);
    assert (p + [last])[..a] == p[..a];
    IndexOfUnique(p + [last], x, a);
  }

  /** An element appended to a sequence that lacks it first occurs at the end. */
  lemma IndexOfSnocNew<T>(p: seq<T>, last: T)
    requires last !in p
    ensures IndexOf(p + [last], last) == |p|
  {
    assert (p + [last])[..|p|] == p;
    IndexOfUnique(p + [last], last, |p|);
  }

  /** The elements of `s` that satisfy `keep`, in order. */
  function Filter<T(!new)>(s: seq<T>, keep: T -> bool): (r: seq<T>)
    ensures forall x :: x in r <==> x in s && keep(x)
    ensures |r| <= |s|
  {
    if s == [] then []
    else
      var rest := Filter(s[..|s| - 1], keep);
      assert forall x :: x in s <==> x in s[..|s| - 1] || x == s[|s| - 1] by {
        assert s == s[..|s| - 1] + [s[|s| - 1]];
      }
      if keep(s[|s| - 1]) then rest + [s[|s| - 1]] else rest
  }

  /** One step of a filtering loop: an accepted element is appended, another dropped. */
  lemma FilterSnoc<T(!new)>(s: seq<T>, x: T, keep: T -> bool)
    ensures Filter(s + [x], keep) == if keep(x) then Filter(s, keep) + [x] else Filter(s, keep)
  {
    assert (s + [x])[..|s|] == s;
  }

  /** The head of `Filter(s, keep)` is the first element of `s` that `keep` accepts, and the
      filter is empty exactly when `keep` accepts none. */
  lemma {:induction false} FilterFirst<T(!new)>(s: seq<T>, keep: T -> bool)
    ensures Filter(s, keep) == [] <==> forall i :: 0 <= i < |s| ==> !keep(s[i])
    ensures Filter(s, keep) != [] ==>
      exists i :: (0 <= i < |s| && s[i] == Filter(s, keep)[0] && keep(s[i])
                   && forall j :: 0 <= j < i ==> !keep(s[j]))
  {
    if s != [] {
      var init := s[..|s| - 1];
      FilterFirst(init, keep);
      assert forall i :: 0 <= i < |init| ==> init[i] == s[i];
      if Filter(init, keep) != [] {
        var i :| 0 <= i < |init| && init[i] == Filter(init, keep)[0] && keep(init[i])
          && forall j :: 0 <= j < i ==> !keep(init[j]);
        assert s[i] == Filter(s, keep)[0];
      } else if keep(s[|s| - 1]) {
        assert s[|s| - 1] == Filter(s, keep)[0];
      }
    }
  }
}
