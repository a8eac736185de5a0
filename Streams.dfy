/** The `java.util.stream` and `List` operations the reconcilers are built from,
    on sequences. Each is defined from the back, the way a collector appends. */
module Streams {
  import opened Values

  /** `sub` is `xs` with some elements left out and the rest kept in order. */
  ghost predicate IsSubsequence<T>(sub: seq<T>, xs: seq<T>)
    decreases |xs|
  {
    || sub == []
    || (&& xs != []
        && (|| (sub[|sub| - 1] == xs[|xs| - 1] && IsSubsequence(sub[..|sub| - 1], xs[..|xs| - 1]))
            || IsSubsequence(sub, xs[..|xs| - 1])))
  }

  ghost predicate NoDuplicates<T>(xs: seq<T>)
  {
    forall i, j :: 0 <= i < j < |xs| ==> xs[i] != xs[j]
  }

  /** `xs.stream().filter(p).collect(toList())` */
  function Filter<T(!new)>(xs: seq<T>, p: T -> bool): (r: seq<T>)
    ensures forall x :: x in r <==> x in xs && p(x)
    ensures forall x :: multiset(r)[x] == if p(x) then multiset(xs)[x] else 0
    ensures IsSubsequence(r, xs)
    ensures (forall x :: x in xs ==> p(x)) ==> r == xs
    ensures (forall x :: x in xs ==> !p(x)) ==> r == []
    decreases |xs|
  {
    if xs == [] then []
    else
      var init, last := xs[..|xs| - 1], xs[|xs| - 1];
      assert xs == init + [last];
      var f := Filter(init, p);
      if p(last) then
        assert (f + [last])[..|f|] == f;
        f + [last]
      else f
  }

  /** `list.removeAll(ys)`: every element that occurs in `ys` goes, every other one stays. */
  function RemoveAll<T(==,!new)>(xs: seq<T>, ys: seq<T>): (r: seq<T>)
    ensures forall x :: x in r <==> x in xs && x !in ys
    ensures forall x :: multiset(r)[x] == if x in ys then 0 else multiset(xs)[x]
    ensures IsSubsequence(r, xs)
  {
    Filter(xs, x => x !in ys)
  }

  /** `list.stream().distinct()`: the first occurrence of every element, in order. */
  function Distinct<T(==,!new)>(xs: seq<T>): (r: seq<T>)
    ensures forall x :: x in r <==> x in xs
    ensures NoDuplicates(r)
    ensures IsSubsequence(r, xs)
    ensures forall i, j :: 0 <= i < j < |r| ==> exists a :: 0 <= a < |xs| && xs[a] == r[i] && r[j] !in xs[..a]
    decreases |xs|
  {
    if xs == [] then []
    else
      var init, last := xs[..|xs| - 1], xs[|xs| - 1];
      assert xs == init + [last];
      var d := Distinct(init);
      forall a | 0 <= a <= |init| ensures xs[..a] == init[..a] {
      }
      if last in d then d
      else
        var r := d + [last];
        assert r[..|d|] == d;
        forall i, j | 0 <= i < j < |r|
          ensures exists a :: 0 <= a < |xs| && xs[a] == r[i] && r[j] !in xs[..a]
        {
          if j < |d| {
            var a :| 0 <= a < |init| && init[a] == d[i] && d[j] !in init[..a];
            assert xs[a] == r[i];
          } else {
            assert r[i] in init;
            var a :| 0 <= a < |init| && init[a] == r[i];
            assert xs[a] == r[i];
            assert last !in init[..a] by {
              assert forall y :: y in init[..a] ==> y in init;
            }
          }
        }
        r
  }

  /** `list.removeAll(Collections.singleton(null))` */
  function NonNull<T(!new)>(xs: seq<Option<T>>): (r: seq<T>)
    ensures |r| <= |xs|
    ensures forall x :: x in r <==> Some(x) in xs
    ensures IsSubsequence(Wrapped(r), xs)
    ensures (forall i :: 0 <= i < |xs| ==> xs[i].Some?) ==>
              |r| == |xs| && forall i :: 0 <= i < |xs| ==> Some(r[i]) == xs[i]
    decreases |xs|
  {
    if xs == [] then []
    else
      var init, last := xs[..|xs| - 1], xs[|xs| - 1];
      assert xs == init + [last];
      var n := NonNull(init);
      if last.Some? then
        var r := n + [last.value];
        assert Wrapped(r)[..|n|] == Wrapped(n);
        r
      else n
  }

  /** Dropping nulls keeps every non-null value exactly as often as it occurs. */
  lemma {:induction false} NonNullCounts<T(!new)>(xs: seq<Option<T>>)
    ensures forall x :: multiset(NonNull(xs))[x] == multiset(xs)[Some(x)]
    decreases |xs|
  {
    if xs != [] {
      var init, last := xs[..|xs| - 1], xs[|xs| - 1];
      assert xs == init + [last];
      NonNullCounts(init);
      assert multiset(xs) == multiset(init) + multiset{last};
      if last.Some? {
        assert NonNull(xs) == NonNull(init) + [last.value];
        assert multiset(NonNull(xs)) == multiset(NonNull(init)) + multiset{last.value};
      } else {
        assert NonNull(xs) == NonNull(init);
      }
    }
  }

  /** Every element as a non-null value: `Some` applied position by position. */
  function Wrapped<T>(xs: seq<T>): (r: seq<Option<T>>)
    ensures |r| == |xs|
    ensures forall i :: 0 <= i < |xs| ==> r[i] == Some(xs[i])
  {
    seq(|xs|, i requires 0 <= i < |xs| => Some(xs[i]))
  }

  /** `xs.stream().collect(toMap(key, y -> y, (k1, k2) -> k2))`: one entry per key,
      holding the LAST element with that key. */
  function ToMapLastWins<T(!new)>(xs: seq<T>, key: T -> string): (r: map<string, T>)
    ensures r.Keys == set x | x in xs :: key(x)
    ensures forall k :: k in r ==> r[k] in xs && key(r[k]) == k
    ensures forall i :: 0 <= i < |xs| && (forall j :: i < j < |xs| ==> key(xs[j]) != key(xs[i])) ==>
              r[key(xs[i])] == xs[i]
    decreases |xs|
  {
    if xs == [] then map[]
    else
      var init, last := xs[..|xs| - 1], xs[|xs| - 1];
      assert xs == init + [last];
      ToMapLastWins(init, key)[key(last) := last]
  }
}
