/** Kotlin's `distinct()` and `mapNotNull` on lists. */
module Collections {
  import opened Wrappers

  predicate NoDuplicates<T(==)>(xs: seq<T>) {
    forall i, j :: 0 <= i < j < |xs| ==> xs[i] != xs[j]
  }

  /**
   * `xs.distinct()`: keeps the first occurrence of each element, in order
   * (the order is `DistinctPrefix`).
   */
  function Distinct<T(==)>(xs: seq<T>): (r: seq<T>)
    ensures forall i :: 0 <= i < |r| ==> r[i] in xs
    ensures forall i :: 0 <= i < |xs| ==> xs[i] in r
    ensures NoDuplicates(r)
    ensures |r| <= |xs|
    ensures |xs| > 0 ==> |r| > 0 && r[0] == xs[0]
  {
    if |xs| == 0 then []
    else
      var init := xs[..|xs| - 1];
      var last := xs[|xs| - 1];
      var d := Distinct(init);
      assert forall i :: 0 <= i < |xs| - 1 ==> xs[i] == init[i];
      if last in d then d else d + [last]
  }

  /**
   * What `distinct()` makes of any prefix of `xs` is a prefix of what it makes
   * of `xs`: with no duplicates and the same members, this fixes the result as
   * the first occurrences, in the order they are met.
   */
  lemma {:induction false} DistinctPrefix<T>(xs: seq<T>, n: nat)
    requires n <= |xs|
    ensures Distinct(xs[..n]) <= Distinct(xs)
  {
    if n < |xs| {
      var init := xs[..|xs| - 1];
      assert xs[..n] == init[..n];
      DistinctPrefix(init, n);
    } else {
      assert xs[..n] == xs;
    }
  }

  /** `distinct()` keeps exactly the elements of the list. */
  lemma DistinctMembership<T>(xs: seq<T>)
    ensures forall x :: x in Distinct(xs) <==> x in xs
  {
    var r := Distinct(xs);
    forall x | x in r ensures x in xs {
      var i :| 0 <= i < |r| && r[i] == x;
    }
    forall x | x in xs ensures x in r {
      var i :| 0 <= i < |xs| && xs[i] == x;
    }
  }

  /** An element already present adds nothing to `distinct()`. */
  lemma DistinctRepeat<T>(xs: seq<T>, x: T)
    requires x in xs
    ensures Distinct(xs + [x]) == Distinct(xs)
  {
    assert (xs + [x])[..|xs|] == xs;
    DistinctMembership(xs);
  }

  /** `xs.mapNotNull(f)`: the results of `f` that are present, in the order of `xs`. */
  function MapNotNull<A, B>(xs: seq<A>, f: A -> Option<B>): (r: seq<B>)
    ensures |r| <= |xs|
    ensures |xs| == 1 ==> r == (if f(xs[0]).Some? then [f(xs[0]).value] else [])
    ensures forall k :: 0 <= k < |xs| && f(xs[k]).Some? ==> f(xs[k]).value in r
    ensures forall i :: 0 <= i < |r| ==> exists k :: 0 <= k < |xs| && f(xs[k]) == Some(r[i])
  {
    if |xs| == 0 then []
    else
      var rest := MapNotNull(xs[1..], f);
      assert forall k :: 1 <= k < |xs| ==> xs[k] == xs[1..][k - 1];
      match f(xs[0])
      case Some(y) => [y] + rest
      case None => rest
  }

  /**
   * `mapNotNull` distributes over concatenation; with the one-element case this
   * says each present result appears exactly once, in the order of `xs`.
   */
  lemma {:induction false} MapNotNullAppend<A, B>(xs: seq<A>, ys: seq<A>, f: A -> Option<B>)
    ensures MapNotNull(xs + ys, f) == MapNotNull(xs, f) + MapNotNull(ys, f)
  {
    if |xs| > 0 {
      assert (xs + ys)[1..] == xs[1..] + ys;
      MapNotNullAppend(xs[1..], ys, f);
    } else {
      assert xs + ys == ys;
    }
  }

  /** Extending a prefix of `s` by one element of `s`. */
  lemma PrefixSnoc<T>(s: seq<T>, i: nat)
    requires i < |s|
    ensures s[..i + 1] == s[..i] + [s[i]]
  {
  }

  /** Two sequences that agree from `i` on, glued behind the first `i` elements of `s`. */
  lemma SpliceSuffix<T>(s: seq<T>, t: seq<T>, i: nat)
    requires i <= |s| == |t|
    requires forall k :: i <= k < |s| ==> s[k] == t[k]
    ensures s == s[..i] + t[i..]
  {
    assert s[i..] == t[i..];
  }
}
