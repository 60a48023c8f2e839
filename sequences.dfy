/** Sequence operations the engine relies on: the stable split of a sequence by a
    per-position flag (the shape of both the `WaitForAny` partition and the registry's
    `erase(remove_if(...))`), and the ascending lexicographic order `std::sort` gives
    a list of names. */
module Sequences {

  /** The elements of `xs` whose flag equals `want`, in their original order. */
  function Select<X>(xs: seq<X>, flags: seq<bool>, want: bool): (r: seq<X>)
    requires |flags| == |xs|
    ensures |r| <= |xs|
  {
    if xs == [] then []
    else (if flags[0] == want then [xs[0]] else []) + Select(xs[1..], flags[1..], want)
  }

  /** Selecting from a concatenation selects from each part, in order: the split
      never reorders what it keeps. */
  lemma {:induction false} SelectAppend<X>(xs: seq<X>, ys: seq<X>, fx: seq<bool>, fy: seq<bool>, want: bool)
    requires |fx| == |xs| && |fy| == |ys|
    ensures Select(xs + ys, fx + fy, want) == Select(xs, fx, want) + Select(ys, fy, want)
  {
    if xs != [] {
      var head := if fx[0] == want then [xs[0]] else [];
      assert (xs + ys)[0] == xs[0] && (fx + fy)[0] == fx[0];
      assert (xs + ys)[1..] == xs[1..] + ys;
      assert (fx + fy)[1..] == fx[1..] + fy;
      calc {
        Select(xs + ys, fx + fy, want);
        head + Select(xs[1..] + ys, fx[1..] + fy, want);
        { SelectAppend(xs[1..], ys, fx[1..], fy, want); }
        head + (Select(xs[1..], fx[1..], want) + Select(ys, fy, want));
        (head + Select(xs[1..], fx[1..], want)) + Select(ys, fy, want);
      }
    } else {
      assert xs + ys == ys && fx + fy == fy;
    }
  }

  /** One more position examined: what a left-to-right split loop keeps after step `i`. */
  lemma SelectExtend<X>(xs: seq<X>, flags: seq<bool>, want: bool, i: nat)
    requires |flags| == |xs| && i < |xs|
    ensures Select(xs[..i + 1], flags[..i + 1], want)
         == Select(xs[..i], flags[..i], want) + (if flags[i] == want then [xs[i]] else [])
  {
    assert xs[..i + 1] == xs[..i] + [xs[i]];
    assert flags[..i + 1] == flags[..i] + [flags[i]];
    SelectAppend(xs[..i], [xs[i]], flags[..i], [flags[i]], want);
  }

  /** An element is kept exactly when some position holding it carries the wanted flag. */
  lemma {:induction false} SelectMembership<X>(xs: seq<X>, flags: seq<bool>, want: bool, x: X)
    requires |flags| == |xs|
    ensures x in Select(xs, flags, want) <==> exists i :: 0 <= i < |xs| && xs[i] == x && flags[i] == want
  {
    if xs != [] {
      SelectMembership(xs[1..], flags[1..], want, x);
      if x in Select(xs[1..], flags[1..], want) {
        var i :| 0 <= i < |xs[1..]| && xs[1..][i] == x && flags[1..][i] == want;
        assert xs[i + 1] == x && flags[i + 1] == want;
      }
      if exists i :: 0 <= i < |xs| && xs[i] == x && flags[i] == want {
        var i :| 0 <= i < |xs| && xs[i] == x && flags[i] == want;
        if i > 0 {
          assert xs[1..][i - 1] == x && flags[1..][i - 1] == want;
        }
      }
    }
  }

  /** When every flag is the wanted one, nothing is dropped. */
  lemma {:induction false} SelectKeepsAll<X>(xs: seq<X>, flags: seq<bool>, want: bool)
    requires |flags| == |xs|
    requires forall i :: 0 <= i < |flags| ==> flags[i] == want
    ensures Select(xs, flags, want) == xs
  {
    if xs != [] {
      SelectKeepsAll(xs[1..], flags[1..], want);
    }
  }

  /** The two halves of a split together hold every input element exactly once. */
  lemma {:induction false} SelectPartitions<X>(xs: seq<X>, flags: seq<bool>)
    requires |flags| == |xs|
    ensures |Select(xs, flags, false)| + |Select(xs, flags, true)| == |xs|
    ensures multiset(Select(xs, flags, false)) + multiset(Select(xs, flags, true)) == multiset(xs)
  {
    if xs != [] {
      SelectPartitions(xs[1..], flags[1..]);
      assert xs == [xs[0]] + xs[1..];
    }
  }

  /** The split of a two-element sequence, written out. */
  lemma SelectPair<X>(x: X, y: X, fx: bool, fy: bool, want: bool)
    ensures Select([x, y], [fx, fy], want) == (if fx == want then [x] else []) + (if fy == want then [y] else [])
  {
    assert [x, y][1..] == [y] && [fx, fy][1..] == [fy];
    assert [y][1..] == [] && [fy][1..] == [];
  }

  /** `xs` is an order-preserving merge of `a` and `b`: each element of `xs` comes from
      exactly one of them, and each keeps the order it had in `xs`. */
  ghost predicate Interleaving<X>(xs: seq<X>, a: seq<X>, b: seq<X>)
    decreases |xs|
  {
    if xs == [] then a == [] && b == []
    else
      || (a != [] && a[0] == xs[0] && Interleaving(xs[1..], a[1..], b))
      || (b != [] && b[0] == xs[0] && Interleaving(xs[1..], a, b[1..]))
  }

  /** A merge holds exactly the elements of its two parts. */
  lemma {:induction false} InterleavingMultiset<X>(xs: seq<X>, a: seq<X>, b: seq<X>)
    requires Interleaving(xs, a, b)
    ensures multiset(xs) == multiset(a) + multiset(b)
    decreases |xs|
  {
    if xs != [] {
      assert xs == [xs[0]] + xs[1..];
      if a != [] && a[0] == xs[0] && Interleaving(xs[1..], a[1..], b) {
        InterleavingMultiset(xs[1..], a[1..], b);
        assert a == [a[0]] + a[1..];
      } else {
        InterleavingMultiset(xs[1..], a, b[1..]);
        assert b == [b[0]] + b[1..];
      }
    }
  }

  /** The two halves of a split are an interleaving of the input. */
  lemma {:induction false} SelectInterleaves<X>(xs: seq<X>, flags: seq<bool>)
    requires |flags| == |xs|
    ensures Interleaving(xs, Select(xs, flags, false), Select(xs, flags, true))
  {
    if xs != [] {
      SelectInterleaves(xs[1..], flags[1..]);
      var a, b := Select(xs, flags, false), Select(xs, flags, true);
      if flags[0] {
        assert a == Select(xs[1..], flags[1..], false);
        assert b[0] == xs[0] && b[1..] == Select(xs[1..], flags[1..], true);
      } else {
        assert b == Select(xs[1..], flags[1..], true);
        assert a[0] == xs[0] && a[1..] == Select(xs[1..], flags[1..], false);
      }
    }
  }

  // ---------------------------------------------------------------------------
  // Lexicographic order on names, and sorting

  /** `a` sorts at or before `b`: the byte-wise comparison of `std::string`, with a
      proper prefix before the longer string. */
  predicate LexLe(a: string, b: string)
  {
    if a == [] then true
    else if b == [] then false
    else if a[0] != b[0] then a[0] < b[0]
    else LexLe(a[1..], b[1..])
  }

  lemma {:induction false} LexLeTotal(a: string, b: string)
    ensures LexLe(a, b) || LexLe(b, a)
  {
    if a != [] && b != [] && a[0] == b[0] {
      LexLeTotal(a[1..], b[1..]);
    }
  }

  lemma {:induction false} LexLeTransitive(a: string, b: string, c: string)
    requires LexLe(a, b) && LexLe(b, c)
    ensures LexLe(a, c)
  {
    if a != [] && b != [] && c != [] && a[0] == b[0] && b[0] == c[0] {
      LexLeTransitive(a[1..], b[1..], c[1..]);
    }
  }

  lemma {:induction false} LexLeAntisymmetric(a: string, b: string)
    requires LexLe(a, b) && LexLe(b, a)
    ensures a == b
  {
    if a != [] && b != [] {
      LexLeAntisymmetric(a[1..], b[1..]);
      assert a == [a[0]] + a[1..] && b == [b[0]] + b[1..];
    }
  }

  ghost predicate Sorted(s: seq<string>)
  {
    forall i, j :: 0 <= i < j < |s| ==> LexLe(s[i], s[j])
  }

  /** Prepending a name that sorts at or before every element keeps a list sorted. */
  lemma SortedCons(y: string, s: seq<string>)
    requires Sorted(s)
    requires forall j :: 0 <= j < |s| ==> LexLe(y, s[j])
    ensures Sorted([y] + s)
  {
    var r := [y] + s;
    forall i, j | 0 <= i < j < |r| ensures LexLe(r[i], r[j]) {
      assert r[j] == s[j - 1];
      if i > 0 {
        assert r[i] == s[i - 1];
      }
    }
  }

  /** A name at or before the head of a sorted list sorts at or before all of it. */
  lemma LeHeadLeAll(x: string, s: seq<string>)
    requires Sorted(s) && s != [] && LexLe(x, s[0])
    ensures forall j :: 0 <= j < |s| ==> LexLe(x, s[j])
  {
    forall j | 0 <= j < |s| ensures LexLe(x, s[j]) {
      if j > 0 {
        LexLeTransitive(x, s[0], s[j]);
      }
    }
  }

  /** The head of a sorted list sorts at or before every element of its tail. */
  lemma HeadLeTail(s: seq<string>)
    requires Sorted(s) && s != []
    ensures forall j :: 0 <= j < |s[1..]| ==> LexLe(s[0], s[1..][j])
  {
    forall j | 0 <= j < |s[1..]| ensures LexLe(s[0], s[1..][j]) {
      assert s[1..][j] == s[j + 1];
    }
  }

  /** A lower bound of `s` and of `x` bounds every element of `s` with `x` added. */
  lemma BoundCarries(y: string, s: seq<string>, x: string, r: seq<string>)
    requires multiset(r) == multiset(s) + multiset{x}
    requires LexLe(y, x)
    requires forall j :: 0 <= j < |s| ==> LexLe(y, s[j])
    ensures forall j :: 0 <= j < |r| ==> LexLe(y, r[j])
  {
    forall j | 0 <= j < |r| ensures LexLe(y, r[j]) {
      assert r[j] in multiset(r);
      if r[j] != x {
        assert r[j] in multiset(s);
        var k :| 0 <= k < |s| && s[k] == r[j];
      }
    }
  }

  /** `x` placed into a sorted list at its position. */
  function Insert(x: string, s: seq<string>): (r: seq<string>)
    requires Sorted(s)
    ensures Sorted(r)
    ensures multiset(r) == multiset(s) + multiset{x}
  {
    if s == [] then [x]
    else if LexLe(x, s[0]) then
      LeHeadLeAll(x, s);
      SortedCons(x, s);
      [x] + s
    else
      SortedTail(s);
      var rest := Insert(x, s[1..]);
      LexLeTotal(x, s[0]);
      HeadLeTail(s);
      BoundCarries(s[0], s[1..], x, rest);
      SortedCons(s[0], rest);
      assert s == [s[0]] + s[1..];
      [s[0]] + rest
  }

  /** The names in ascending order: what `std::sort` leaves in a vector of names. */
  function SortNames(s: seq<string>): (r: seq<string>)
    ensures Sorted(r)
    ensures multiset(r) == multiset(s)
  {
    if s == [] then []
    else
      assert s == [s[0]] + s[1..];
      Insert(s[0], SortNames(s[1..]))
  }

  /** The first name of a sorted list sorts at or before every name in it. */
  lemma SortedHeadIsLeast(a: seq<string>, x: string)
    requires Sorted(a) && x in multiset(a)
    ensures LexLe(a[0], x)
  {
    var i :| 0 <= i < |a| && a[i] == x;
    if i == 0 {
      LexLeTotal(x, x);
    }
  }

  lemma SortedTail(a: seq<string>)
    requires Sorted(a) && a != []
    ensures Sorted(a[1..])
  {
    forall i, j | 0 <= i < j < |a[1..]| ensures LexLe(a[1..][i], a[1..][j]) {
      assert a[1..][i] == a[i + 1] && a[1..][j] == a[j + 1];
    }
  }

  /** Two sorted arrangements of the same names start with the same name. */
  lemma SortedHeadsAgree(a: seq<string>, b: seq<string>)
    requires Sorted(a) && Sorted(b) && multiset(a) == multiset(b) && a != []
    ensures b != [] && a[0] == b[0]
  {
    assert a[0] in multiset(b);
    assert b[0] in multiset(a);
    SortedHeadIsLeast(a, b[0]);
    SortedHeadIsLeast(b, a[0]);
    LexLeAntisymmetric(a[0], b[0]);
  }

  /** Removing equal heads from equal multisets leaves equal multisets. */
  lemma TailsSameMultiset(a: seq<string>, b: seq<string>)
    requires a != [] && b != [] && a[0] == b[0] && multiset(a) == multiset(b)
    ensures multiset(a[1..]) == multiset(b[1..])
  {
    assert a == [a[0]] + a[1..];
    assert b == [b[0]] + b[1..];
    assert multiset(a[1..]) == multiset(a) - multiset{a[0]};
    assert multiset(b[1..]) == multiset(b) - multiset{b[0]};
  }

  /** Sorting determines its result: any two sorted arrangements of the same names are
      equal, so the unstable `std::sort` cannot give a different order than `SortNames`. */
  lemma {:induction false} SortedPermutationUnique(a: seq<string>, b: seq<string>)
    requires Sorted(a) && Sorted(b) && multiset(a) == multiset(b)
    ensures a == b
  {
    if a != [] {
      SortedHeadsAgree(a, b);
      TailsSameMultiset(a, b);
      SortedTail(a);
      SortedTail(b);
      SortedPermutationUnique(a[1..], b[1..]);
      assert a == [a[0]] + a[1..] && b == [b[0]] + b[1..];
    }
  }
}
