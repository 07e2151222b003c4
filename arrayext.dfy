/**
 * The two host extensions of JavaScript arrays that the data store relies on,
 * `Array.prototype.remove` and `Array.prototype.contains`, over the index
 * lists (queues) the store keeps, together with the filter that describes
 * what a run of removals leaves behind.
 */
module ArrayExt {

  /** No value occurs twice. */
  ghost predicate Distinct(s: seq<int>)
  {
    forall i, j :: 0 <= i < j < |s| ==> s[i] != s[j]
  }

  /** Every element of `s` is a position in a list of length `n`. */
  ghost predicate InRange(s: seq<int>, n: int)
  {
    forall i :: 0 <= i < |s| ==> 0 <= s[i] < n
  }

  /** `Array.prototype.contains`: membership. */
  predicate Contains<T(==)>(s: seq<T>, x: T): (r: bool)
    ensures r <==> exists i :: 0 <= i < |s| && s[i] == x
  {
    x in s
  }

  /** The position of the first occurrence of `x`, or -1 when there is none. */
  function IndexOf(s: seq<int>, x: int): (i: int)
    ensures i == -1 <==> x !in s
    ensures 0 <= i ==> i < |s| && s[i] == x && x !in s[..i]
    ensures -1 <= i
  {
    if s == [] then -1
    else if s[0] == x then 0
    else
      var j := IndexOf(s[1..], x);
      assert s == [s[0]] + s[1..];
      if j == -1 then -1
      else
        assert s[..j + 1] == [s[0]] + s[1..][..j];
        j + 1
  }

  /** `Array.prototype.remove`: deletes the first occurrence of `x`, if there is one. */
  function Remove(s: seq<int>, x: int): (r: seq<int>)
    ensures x !in s ==> r == s
    ensures x in s ==> r == s[..IndexOf(s, x)] + s[IndexOf(s, x) + 1..]
  {
    var i := IndexOf(s, x);
    if i < 0 then s else s[..i] + s[i + 1..]
  }

  /** `remove` takes away exactly one copy of `x` when there is one, and nothing else. */
  lemma RemoveOneCopy(s: seq<int>, x: int)
    ensures multiset(Remove(s, x)) == multiset(s) - multiset{x}
  {
    var i := IndexOf(s, x);
    if 0 <= i {
      assert s == s[..i] + [s[i]] + s[i + 1..];
    }
  }

  /** The elements of `s` that are not in `xs`, in their original order. */
  function Without(s: seq<int>, xs: set<int>): (r: seq<int>)
    ensures forall x :: x in r <==> x in s && x !in xs
    ensures |r| <= |s|
  {
    if s == [] then []
    else if s[0] in xs then Without(s[1..], xs)
    else [s[0]] + Without(s[1..], xs)
  }

  /** On a list without duplicates, removing the first occurrence removes every occurrence. */
  lemma {:induction false} RemoveDistinct(s: seq<int>, x: int)
    requires Distinct(s)
    ensures Remove(s, x) == Without(s, {x})
    ensures Distinct(Remove(s, x))
  {
    var i := IndexOf(s, x);
    WithoutDistinct(s, {x});
    if i < 0 {
      WithoutAbsent(s, {x});
    } else {
      NotLater(s, i);
      RemoveOnly(s, x, i);
    }
  }

  /** Cutting out the only occurrence of `x` is filtering `x` out. */
  lemma {:induction false} RemoveOnly(s: seq<int>, x: int, i: int)
    requires 0 <= i < |s| && s[i] == x
    requires x !in s[..i] && x !in s[i + 1..]
    ensures s[..i] + s[i + 1..] == Without(s, {x})
  {
    if i == 0 {
      WithoutAbsent(s[1..], {x});
    } else {
      var t := s[1..];
      assert t[..i - 1] == s[1..i] && t[i..] == s[i + 1..];
      assert x !in t[..i - 1] by {
        assert s[..i] == [s[0]] + t[..i - 1];
      }
      RemoveOnly(t, x, i - 1);
      assert s[0] != x by {
        assert s[0] == s[..i][0];
      }
      assert s[..i] == [s[0]] + t[..i - 1];
    }
  }

  /** In a list without duplicates, an element does not occur again later. */
  lemma NotLater(s: seq<int>, i: int)
    requires Distinct(s) && 0 <= i < |s|
    ensures s[i] !in s[i + 1..]
  {
    var b := s[i + 1..];
    forall k | 0 <= k < |b| ensures b[k] != s[i] {
      assert b[k] == s[i + 1 + k];
    }
  }

  /** Filtering out values that do not occur changes nothing. */
  lemma {:induction false} WithoutAbsent(s: seq<int>, xs: set<int>)
    requires forall i :: 0 <= i < |s| ==> s[i] !in xs
    ensures Without(s, xs) == s
  {
    if s != [] {
      WithoutAbsent(s[1..], xs);
      assert s == [s[0]] + s[1..];
    }
  }

  /** Filtering twice filters by the union. */
  lemma {:induction false} WithoutWithout(s: seq<int>, xs: set<int>, ys: set<int>)
    ensures Without(Without(s, xs), ys) == Without(s, xs + ys)
  {
    if s != [] {
      WithoutWithout(s[1..], xs, ys);
    }
  }

  /** Filtering keeps a list free of duplicates. */
  lemma {:induction false} WithoutDistinct(s: seq<int>, xs: set<int>)
    requires Distinct(s)
    ensures Distinct(Without(s, xs))
  {
    if s != [] {
      assert Distinct(s[1..]);
      WithoutDistinct(s[1..], xs);
      assert s[0] !in s[1..];
    }
  }

  /** Appending a value that is not yet present keeps a list free of duplicates. */
  lemma AppendDistinct(s: seq<int>, x: int)
    requires Distinct(s) && x !in s
    ensures Distinct(s + [x])
  {
  }
}
