/**
  * LINQ `Where` and JavaScript `filter` over sequences, and the order-preserving
  * subsequence relation every such filter establishes.
  */
module Queries {

  /** `a` is obtained from `b` by deleting elements, keeping the order of the rest. */
  predicate IsSubsequence<T(==)>(a: seq<T>, b: seq<T>)
    decreases |b|
  {
    if |a| == 0 then true
    else if |b| == 0 then false
    else if a[0] == b[0] then IsSubsequence(a[1..], b[1..])
    else IsSubsequence(a, b[1..])
  }

  /** Dropping the first element of a subsequence keeps it a subsequence. */
  lemma {:induction false} SubsequenceTail<T>(a: seq<T>, b: seq<T>)
    requires |a| > 0 && IsSubsequence(a, b)
    ensures IsSubsequence(a[1..], b)
    decreases |b|
  {
    if a[0] != b[0] {
      SubsequenceTail(a, b[1..]);
    }
    if |a[1..]| > 0 && a[1..][0] == b[0] {
      SubsequenceTail(a[1..], b[1..]);
    }
  }

  /** A subsequence of `b` is a subsequence of `b` with anything put in front. */
  lemma {:induction false} SubsequenceCons<T>(a: seq<T>, x: T, b: seq<T>)
    requires IsSubsequence(a, b)
    ensures IsSubsequence(a, [x] + b)
  {
    assert ([x] + b)[1..] == b;
    if |a| > 0 && a[0] == x {
      SubsequenceTail(a, b);
    }
  }

  /** Every sequence is a subsequence of itself. */
  lemma {:induction false} SubsequenceRefl<T>(a: seq<T>)
    ensures IsSubsequence(a, a)
    decreases |a|
  {
    if |a| > 0 {
      SubsequenceRefl(a[1..]);
    }
  }

  /** Subsequences compose: filtering a filtered sequence is filtering the original. */
  lemma {:induction false} SubsequenceTrans<T>(a: seq<T>, b: seq<T>, c: seq<T>)
    requires IsSubsequence(a, b) && IsSubsequence(b, c)
    ensures IsSubsequence(a, c)
    decreases |c|
  {
    if |a| > 0 {
      if b[0] == c[0] {
        if a[0] == b[0] {
          SubsequenceTrans(a[1..], b[1..], c[1..]);
        } else {
          SubsequenceTrans(a, b[1..], c[1..]);
        }
      } else {
        SubsequenceTrans(a, b, c[1..]);
        if a[0] == c[0] {
          SubsequenceTail(a, c[1..]);
        }
      }
    }
  }

  /** `Where(f)` / `filter(f)`: the elements satisfying `f`, in their original order. */
  function Where<T(!new)>(s: seq<T>, f: T -> bool): (r: seq<T>)
    ensures |r| <= |s|
    ensures IsSubsequence(r, s)
    ensures forall x :: x in r <==> x in s && f(x)
    ensures multiset(r) <= multiset(s)
    decreases |s|
  {
    if |s| == 0 then []
    else
      var rest := Where(s[1..], f);
      assert s == [s[0]] + s[1..];
      if f(s[0]) then
        [s[0]] + rest
      else
        SubsequenceCons(rest, s[0], s[1..]);
        rest
  }

  /** A filter whose condition holds everywhere returns its input. */
  lemma {:induction false} WhereAll<T(!new)>(s: seq<T>, f: T -> bool)
    requires forall i :: 0 <= i < |s| ==> f(s[i])
    ensures Where(s, f) == s
    decreases |s|
  {
    if |s| > 0 {
      WhereAll(s[1..], f);
    }
  }

  /** Two filters in a row are one filter by the conjunction. */
  lemma {:induction false} WhereWhere<T(!new)>(s: seq<T>, f: T -> bool, g: T -> bool)
    ensures Where(Where(s, f), g) == Where(s, x => f(x) && g(x))
    decreases |s|
  {
    if |s| > 0 {
      WhereWhere(s[1..], f, g);
      if f(s[0]) {
        assert Where(s, f) == [s[0]] + Where(s[1..], f);
        assert Where(s, f)[1..] == Where(s[1..], f);
      }
    }
  }

  /** Concatenation is associative. */
  lemma AppendAssoc<T>(a: seq<T>, b: seq<T>, c: seq<T>)
    ensures a + (b + c) == (a + b) + c
  {
  }

  /** A non-empty sequence is its front followed by its last element. */
  lemma SplitLast<T>(s: seq<T>)
    requires |s| > 0
    ensures s[..|s| - 1] + [s[|s| - 1]] == s
  {
  }

  /** Dropping the element at `i > 0` keeps the head and drops position `i - 1` of the tail. */
  lemma DropAtTail<T>(s: seq<T>, i: nat)
    requires 0 < i < |s|
    ensures (s[..i] + s[i + 1..])[0] == s[0]
    ensures (s[..i] + s[i + 1..])[1..] == s[1..][..i - 1] + s[1..][i..]
  {
  }

  /** Dropping the element at 0 leaves the tail. */
  lemma DropAtHead<T>(s: seq<T>)
    requires 0 < |s|
    ensures s[..0] + s[1..] == s[1..]
  {
  }

  /** The front and last element of `a + b`, for non-empty `b`. */
  lemma FrontOfAppend<T>(a: seq<T>, b: seq<T>)
    requires |b| > 0
    ensures (a + b)[..|a + b| - 1] == a + b[..|b| - 1]
    ensures (a + b)[|a + b| - 1] == b[|b| - 1]
  {
  }

  /** A sequence is what comes before position `i`, the element there, and what comes after. */
  lemma SplitAt<T>(s: seq<T>, i: nat)
    requires i < |s|
    ensures s == s[..i] + [s[i]] + s[i + 1..]
  {
  }

  /** Filtering one more element at the end. */
  lemma {:induction false} WhereSnoc<T(!new)>(xs: seq<T>, x: T, f: T -> bool)
    ensures Where(xs + [x], f) == Where(xs, f) + (if f(x) then [x] else [])
    decreases |xs|
  {
    if |xs| > 0 {
      var ys := xs + [x];
      assert ys[0] == xs[0];
      assert ys[1..] == xs[1..] + [x];
      WhereSnoc(xs[1..], x, f);
      if f(xs[0]) {
        assert Where(ys, f) == [xs[0]] + Where(ys[1..], f);
        assert Where(xs, f) == [xs[0]] + Where(xs[1..], f);
        AppendAssoc([xs[0]], Where(xs[1..], f), if f(x) then [x] else []);
      } else {
        assert Where(ys, f) == Where(ys[1..], f);
        assert Where(xs, f) == Where(xs[1..], f);
      }
    } else {
      assert xs + [x] == [x];
      assert Where([x], f) == (if f(x) then [x] else []) + Where([x][1..], f);
    }
  }

  /** `Select(f)` / `map(f)`: `f` of each element, in order. */
  function Select<T, U>(s: seq<T>, f: T -> U): (r: seq<U>)
    ensures |r| == |s|
    ensures forall i :: 0 <= i < |s| ==> r[i] == f(s[i])
  {
    seq(|s|, i requires 0 <= i < |s| => f(s[i]))
  }

  /** Mapping a list with one more element in front. */
  lemma SelectCons<T, U>(x: T, s: seq<T>, f: T -> U)
    ensures Select([x] + s, f) == [f(x)] + Select(s, f)
  {
  }

  /** The number of elements satisfying `f`. */
  function Count<T(!new)>(s: seq<T>, f: T -> bool): (n: nat)
    ensures n == |Where(s, f)|
    decreases |s|
  {
    if |s| == 0 then 0 else (if f(s[0]) then 1 else 0) + Count(s[1..], f)
  }
}
