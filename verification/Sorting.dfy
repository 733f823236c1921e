/** Sorting by a text key, as sort.Strings and sort.Slice are used. */
module Sorting {
  import opened Basics

  /** The order of Go strings: by code points, a prefix first. */
  predicate Before(a: string, b: string) {
    if a == "" then b != ""
    else if b == "" then false
    else if a[0] != b[0] then a[0] < b[0]
    else Before(a[1..], b[1..])
  }

  lemma {:induction false} BeforeIsTransitive(a: string, b: string, c: string)
    requires Before(a, b) && Before(b, c)
    ensures Before(a, c)
  {
    if a != "" && a[0] == b[0] && b[0] == c[0] {
      BeforeIsTransitive(a[1..], b[1..], c[1..]);
    }
  }

  lemma {:induction false} BeforeIsStrict(a: string, b: string)
    ensures Before(a, b) ==> !Before(b, a) && a != b
    ensures Before(a, b) || Before(b, a) || a == b
  {
    if a != "" && b != "" && a[0] == b[0] {
      BeforeIsStrict(a[1..], b[1..]);
      assert a == [a[0]] + a[1..] && b == [b[0]] + b[1..];
    }
  }

  ghost predicate SortedBy<T(!new)>(xs: seq<T>, key: T -> string) {
    forall i, j :: 0 <= i < j < |xs| ==> !Before(key(xs[j]), key(xs[i]))
  }

  function InsertBy<T>(xs: seq<T>, x: T, key: T -> string): (r: seq<T>)
    ensures multiset(r) == multiset(xs) + multiset{x}
  {
    if xs == [] then [x]
    else if Before(key(xs[0]), key(x)) then
      assert xs == [xs[0]] + xs[1..];
      [xs[0]] + InsertBy(xs[1..], x, key)
    else [x] + xs
  }

  function SortBy<T>(xs: seq<T>, key: T -> string): (r: seq<T>)
    ensures multiset(r) == multiset(xs)
  {
    if xs == [] then []
    else
      assert xs == Init(xs) + [Last(xs)];
      InsertBy(SortBy(Init(xs), key), Last(xs), key)
  }

  lemma {:induction false} InsertKeepsSorted<T(!new)>(xs: seq<T>, x: T, key: T -> string)
    requires SortedBy(xs, key)
    ensures SortedBy(InsertBy(xs, x, key), key)
  {
    if xs != [] {
      var first, rest := xs[0], xs[1..];
      if Before(key(first), key(x)) {
        InsertKeepsSorted(rest, x, key);
        var inserted := InsertBy(rest, x, key);
        forall j | 0 <= j < |inserted|
          ensures !Before(key(inserted[j]), key(first))
        {
          assert inserted[j] in multiset(inserted);
          assert inserted[j] == x || inserted[j] in rest;
          BeforeIsStrict(key(first), key(x));
        }
      } else {
        forall j | 0 <= j < |xs|
          ensures !Before(key(xs[j]), key(x))
        {
          if Before(key(xs[j]), key(x)) {
            BeforeIsStrict(key(first), key(xs[j]));
            if Before(key(first), key(xs[j])) {
              BeforeIsTransitive(key(first), key(xs[j]), key(x));
            }
          }
        }
      }
    }
  }

  lemma {:induction false} SortBySorts<T(!new)>(xs: seq<T>, key: T -> string)
    ensures SortedBy(SortBy(xs, key), key)
    ensures forall x :: x in SortBy(xs, key) <==> x in xs
  {
    if xs != [] {
      SortBySorts(Init(xs), key);
      InsertKeepsSorted(SortBy(Init(xs), key), Last(xs), key);
    }
    assert forall x :: x in SortBy(xs, key) <==> x in multiset(SortBy(xs, key));
    assert forall x :: x in xs <==> x in multiset(xs);
  }

  /** Keys that differ are strictly sorted. */
  lemma SortedDistinctIsStrict<T(!new)>(xs: seq<T>, key: T -> string)
    requires SortedBy(xs, key)
    requires forall i, j :: 0 <= i < j < |xs| ==> key(xs[i]) != key(xs[j])
    ensures forall i, j :: 0 <= i < j < |xs| ==> Before(key(xs[i]), key(xs[j]))
  {
    forall i, j | 0 <= i < j < |xs|
      ensures Before(key(xs[i]), key(xs[j]))
    {
      BeforeIsStrict(key(xs[i]), key(xs[j]));
    }
  }

  /** A sequence with the same members the same number of times repeats none either. */
  lemma DistinctIsKept<T(!new)>(xs: seq<T>, ys: seq<T>)
    requires multiset(xs) == multiset(ys) && Distinct(xs)
    ensures Distinct(ys)
  {
    forall i, j | 0 <= i < j < |ys|
      ensures ys[i] != ys[j]
    {
      if ys[i] == ys[j] {
        assert ys == ys[..i] + [ys[i]] + ys[i + 1..j] + [ys[j]] + ys[j + 1..];
        assert multiset(ys)[ys[i]] >= 2;
        OnceEach(xs, ys[i]);
      }
    }
  }

  lemma {:induction false} OnceEach<T(!new)>(xs: seq<T>, x: T)
    requires Distinct(xs)
    ensures multiset(xs)[x] <= 1
  {
    if xs != [] {
      OnceEach(Init(xs), x);
      assert xs == Init(xs) + [Last(xs)];
      if Last(xs) == x {
        assert x !in Init(xs);
        assert x !in multiset(Init(xs));
      }
    }
  }

  ghost predicate StrictBy<T(!new)>(xs: seq<T>, key: T -> string) {
    forall i, j :: 0 <= i < j < |xs| ==> Before(key(xs[i]), key(xs[j]))
  }

  /** Two strictly sorted sequences with the same members are one. */
  lemma {:induction false} StrictIsUnique<T(!new)>(xs: seq<T>, ys: seq<T>, key: T -> string)
    requires StrictBy(xs, key) && StrictBy(ys, key)
    requires forall x :: x in xs <==> x in ys
    ensures xs == ys
  {
    assert ys == [] || ys[0] in ys;
    if xs != [] {
      assert xs[0] in ys && ys[0] in xs;
      FirstIsSmallest(xs, ys[0], key);
      FirstIsSmallest(ys, xs[0], key);
      BeforeIsStrict(key(xs[0]), key(ys[0]));
      forall x
        ensures x in xs[1..] <==> x in ys[1..]
      {
        FirstIsNotLater(xs, x, key);
        FirstIsNotLater(ys, x, key);
      }
      StrictIsUnique(xs[1..], ys[1..], key);
      assert xs == [xs[0]] + xs[1..] && ys == [ys[0]] + ys[1..];
    }
  }

  lemma FirstIsSmallest<T(!new)>(xs: seq<T>, x: T, key: T -> string)
    requires StrictBy(xs, key) && x in xs
    ensures xs[0] == x || Before(key(xs[0]), key(x))
  {
  }

  lemma FirstIsNotLater<T(!new)>(xs: seq<T>, x: T, key: T -> string)
    requires StrictBy(xs, key) && xs != []
    ensures x in xs[1..] <==> x in xs && x != xs[0]
  {
    BeforeIsStrict(key(xs[0]), key(xs[0]));
    assert xs == [xs[0]] + xs[1..];
    assert forall i :: 0 <= i < |xs[1..]| ==> Before(key(xs[0]), key(xs[1..][i]));
  }

  /** The texts share k characters, and then the first ends or has the smaller one. */
  ghost predicate PartsAt(a: string, b: string, k: int) {
    && 0 <= k <= |a| && k < |b| && a[..k] == b[..k]
    && (k < |a| ==> a[k] < b[k])
  }

  lemma {:induction false} BeforeMeansSmallerAtTheFirstDifference(a: string, b: string)
    ensures Before(a, b) <==> exists k :: PartsAt(a, b, k)
  {
    if b != "" && (a == "" || a[0] != b[0]) {
      assert PartsAt(a, b, 0) <==> Before(a, b);
      assert forall k :: PartsAt(a, b, k) && k > 0 ==> a[..k][0] == b[..k][0];
    } else if a != "" && b != "" {
      BeforeMeansSmallerAtTheFirstDifference(a[1..], b[1..]);
      if k :| PartsAt(a, b, k) {
        assert k != 0;
        PartsOneLater(a, b, k - 1);
      }
      if k :| PartsAt(a[1..], b[1..], k) {
        PartsOneLater(a, b, k);
      }
    }
  }

  lemma PartsOneLater(a: string, b: string, k: nat)
    requires a != "" && b != "" && a[0] == b[0]
    ensures PartsAt(a, b, k + 1) <==> PartsAt(a[1..], b[1..], k)
  {
    if k < |a| && k + 1 < |b| {
      assert a[..k + 1] == [a[0]] + a[1..][..k] && b[..k + 1] == [b[0]] + b[1..][..k];
      if a[..k + 1] == b[..k + 1] {
        assert a[1..][..k] == a[..k + 1][1..] && b[1..][..k] == b[..k + 1][1..];
      }
    }
  }
}
