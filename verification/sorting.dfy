/** Python's `sorted(set(values))` on strings: the distinct values in
    ascending `str` order. */
module Sorting {
  import opened Strings

  /** Every earlier element is strictly below every later one, so there are
      no duplicates. */
  predicate StrictlyAscending(xs: seq<string>) {
    forall i, j :: 0 <= i < j < |xs| ==> Below(xs[i], xs[j])
  }

  lemma AscendingCons(x: string, xs: seq<string>)
    requires StrictlyAscending(xs)
    requires forall j :: 0 <= j < |xs| ==> Below(x, xs[j])
    ensures StrictlyAscending([x] + xs)
  {
  }

  /** Places `x` into the ascending list `xs` unless it is already there. */
  function Insert(xs: seq<string>, x: string): (r: seq<string>)
    requires StrictlyAscending(xs)
    ensures StrictlyAscending(r)
    ensures forall y :: y in r <==> y in xs || y == x
    ensures |r| <= |xs| + 1
    decreases |xs|
  {
    if |xs| == 0 then [x]
    else if x == xs[0] then xs
    else if Below(x, xs[0]) then
      assert forall j :: 0 <= j < |xs| ==> Below(x, xs[j]) by {
        forall j | 0 < j < |xs| {
          BelowTransitive(x, xs[0], xs[j]);
        }
      }
      AscendingCons(x, xs);
      [x] + xs
    else
      var rest := Insert(xs[1..], x);
      BelowTotal(x, xs[0]);
      forall j | 0 <= j < |rest|
        ensures Below(xs[0], rest[j])
      {
        assert rest[j] in rest;
        if rest[j] != x {
          var i :| 1 <= i < |xs| && xs[i] == rest[j];
        }
      }
      AscendingCons(xs[0], rest);
      [xs[0]] + rest
  }

  /** The distinct elements of `xs` in ascending order. */
  function SortedSet(xs: seq<string>): (r: seq<string>)
    ensures StrictlyAscending(r)
    ensures forall y :: y in r <==> y in xs
    ensures |r| <= |xs|
  {
    if |xs| == 0 then [] else Insert(SortedSet(xs[1..]), xs[0])
  }

  /** There is only one strictly ascending listing of a set of strings, so
      `SortedSet` is what `sorted(set(xs))` returns whichever way it is
      computed. */
  lemma {:induction false} AscendingUnique(a: seq<string>, b: seq<string>)
    requires StrictlyAscending(a) && StrictlyAscending(b)
    requires forall y :: y in a <==> y in b
    ensures a == b
    decreases |a|
  {
    if |a| > 0 || |b| > 0 {
      assert (|a| > 0 ==> a[0] in b) && (|b| > 0 ==> b[0] in a);
      var k :| 0 <= k < |b| && b[k] == a[0];
      var m :| 0 <= m < |a| && a[m] == b[0];
      if k > 0 && m > 0 {
        BelowAsymmetric(b[0], a[0]);
      } else if k > 0 {
        BelowIrreflexive(b[0]);
      } else if m > 0 {
        BelowIrreflexive(a[0]);
      }
      assert a[0] == b[0];
      forall y
        ensures y in a[1..] <==> y in b[1..]
      {
        if y in a[1..] {
          var i :| 1 <= i < |a| && a[i] == y;
          BelowIrreflexive(a[0]);
          assert y in b;
        }
        if y in b[1..] {
          var i :| 1 <= i < |b| && b[i] == y;
          BelowIrreflexive(b[0]);
          assert y in a;
        }
      }
      AscendingUnique(a[1..], b[1..]);
      assert a == [a[0]] + a[1..] && b == [b[0]] + b[1..];
    }
  }
}
