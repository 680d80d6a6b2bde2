/**
 * `all_posts.sort(key=lambda x: x['created_at'], reverse=True)`: newest
 * first by the ISO-8601 `created_at` string, stable for equal timestamps.
 */
module Sorting {
  import opened Text
  import opened Records

  /** Post `p` is strictly older than post `q`. */
  predicate Older(p: Post, q: Post) {
    Less(p.createdAt, q.createdAt)
  }

  predicate NewestFirst(s: seq<Post>) {
    forall i, j :: 0 <= i < j < |s| ==> !Older(s[i], s[j])
  }

  /**
   * `x` placed into `s` just after the last element that is not older than
   * it; the step of a stable insertion sort.
   */
  function Insert<T>(s: seq<T>, x: T, older: (T, T) -> bool): (r: seq<T>)
    ensures |r| == |s| + 1
    decreases |s|
  {
    if s == [] || !older(s[|s| - 1], x) then s + [x]
    else Insert(s[..|s| - 1], x, older) + [s[|s| - 1]]
  }

  /** The stable newest-first ordering of `s`. */
  function SortNewestFirst(s: seq<Post>): (r: seq<Post>)
    ensures |r| == |s|
    decreases |s|
  {
    if s == [] then [] else Insert(SortNewestFirst(s[..|s| - 1]), s[|s| - 1], Older)
  }

  /** The posts of `s` created at `t`, in their order in `s`. */
  function CreatedAt(s: seq<Post>, t: string): seq<Post>
    decreases |s|
  {
    if s == [] then []
    else CreatedAt(s[..|s| - 1], t) + (if s[|s| - 1].createdAt == t then [s[|s| - 1]] else [])
  }

  lemma {:induction false} InsertPermutes(s: seq<Post>, x: Post)
    ensures multiset(Insert(s, x, Older)) == multiset(s) + multiset{x}
    decreases |s|
  {
    if s != [] && Older(s[|s| - 1], x) {
      InsertPermutes(s[..|s| - 1], x);
      assert s == s[..|s| - 1] + [s[|s| - 1]];
    }
  }

  lemma {:induction false} InsertSorted(s: seq<Post>, x: Post)
    requires NewestFirst(s)
    ensures NewestFirst(Insert(s, x, Older))
    decreases |s|
  {
    if s == [] {
    } else if !Older(s[|s| - 1], x) {
      var r := s + [x];
      forall i, j | 0 <= i < j < |r| ensures !Older(r[i], r[j]) {
        if j == |s| && i < |s| - 1 {
          NotLessTransitive(s[i].createdAt, s[|s| - 1].createdAt, x.createdAt);
        }
      }
    } else {
      var p := s[..|s| - 1];
      var y := s[|s| - 1];
      InsertSorted(p, x);
      InsertPermutes(p, x);
      var q := Insert(p, x, Older);
      var r := q + [y];
      forall i, j | 0 <= i < j < |r| ensures !Older(r[i], r[j]) {
        if j == |q| {
          assert r[i] in multiset(q);
          assert r[i] == x || r[i] in p;
          if r[i] == x {
            LessAsymmetric(y.createdAt, x.createdAt);
          }
        }
      }
    }
  }

  lemma {:induction false} InsertKeepsTimestampOrder(s: seq<Post>, x: Post, t: string)
    ensures CreatedAt(Insert(s, x, Older), t) == CreatedAt(s, t) + (if x.createdAt == t then [x] else [])
    decreases |s|
  {
    if s == [] || !Older(s[|s| - 1], x) {
      assert (s + [x])[..|s|] == s;
    } else {
      var p := s[..|s| - 1];
      var y := s[|s| - 1];
      var q := Insert(p, x, Older);
      InsertKeepsTimestampOrder(p, x, t);
      assert (q + [y])[..|q|] == q;
      // y is strictly older than x, so at most one of them carries timestamp t
      LessIrreflexive(x.createdAt);
    }
  }

  /**
   * The sort puts the posts newest first, keeps exactly the same posts, and
   * is stable: for every timestamp, the posts created then keep their order.
   */
  lemma {:induction false} SortNewestFirstCorrect(s: seq<Post>)
    ensures NewestFirst(SortNewestFirst(s))
    ensures multiset(SortNewestFirst(s)) == multiset(s)
    ensures forall t :: CreatedAt(SortNewestFirst(s), t) == CreatedAt(s, t)
    decreases |s|
  {
    if s != [] {
      var p := s[..|s| - 1];
      var x := s[|s| - 1];
      SortNewestFirstCorrect(p);
      InsertSorted(SortNewestFirst(p), x);
      InsertPermutes(SortNewestFirst(p), x);
      assert s == p + [x];
      forall t ensures CreatedAt(SortNewestFirst(s), t) == CreatedAt(s, t) {
        InsertKeepsTimestampOrder(SortNewestFirst(p), x, t);
      }
    }
  }

  /**
   * Where Insert puts `x`: after the prefix `s[..j]`, when `s[j-1]` is not
   * older than `x` and every element from `j` on is.
   */
  lemma {:induction false} InsertAt<T>(s: seq<T>, x: T, older: (T, T) -> bool, j: nat)
    requires j <= |s|
    requires j == 0 || !older(s[j - 1], x)
    requires forall k :: j <= k < |s| ==> older(s[k], x)
    ensures Insert(s, x, older) == s[..j] + [x] + s[j..]
    decreases |s|
  {
    if j < |s| {
      var p := s[..|s| - 1];
      InsertAt(p, x, older, j);
      assert p[..j] == s[..j] && p[j..] + [s[|s| - 1]] == s[j..];
    } else {
      assert s[..j] == s;
    }
  }

  /** A sequence that agrees with `s[..j] + [x] + s[j..]` at every position is that sequence. */
  lemma Assemble<T>(b: seq<T>, s: seq<T>, x: T, j: nat)
    requires |b| == |s| + 1 && j <= |s|
    requires forall k :: 0 <= k < j ==> b[k] == s[k]
    requires b[j] == x
    requires forall k :: j < k < |b| ==> b[k] == s[k - 1]
    ensures b == s[..j] + [x] + s[j..]
  {
  }

  /**
   * One insertion step: with `a[..i]` already in order, move `a[i]` left past
   * the elements older than it.
   */
  method InsertInPlace<T>(a: array<T>, i: nat, older: (T, T) -> bool)
    requires i < a.Length
    modifies a
    ensures a[..i + 1] == Insert(old(a[..i]), old(a[i]), older)
    ensures a[i + 1..] == old(a[i + 1..])
  {
    ghost var sorted := a[..i];
    var x := a[i];
    var j := i;
    while j > 0 && older(a[j - 1], x)
      invariant 0 <= j <= i
      invariant forall k :: 0 <= k < j ==> a[k] == sorted[k]
      invariant forall k :: j < k <= i ==> a[k] == sorted[k - 1]
      invariant forall k :: i < k < a.Length ==> a[k] == old(a[k])
      invariant forall k :: j <= k < i ==> older(sorted[k], x)
    {
      a[j] := a[j - 1];
      j := j - 1;
    }
    a[j] := x;
    InsertAt(sorted, x, older, j);
    Assemble(a[..i + 1], sorted, x, j);
  }

  /** `list.sort` in place: an insertion sort, stable because it only moves a post past strictly older ones. */
  method SortInPlace(a: array<Post>)
    modifies a
    ensures a[..] == SortNewestFirst(old(a[..]))
  {
    ghost var orig := a[..];
    for i := 0 to a.Length
      invariant a[..i] == SortNewestFirst(orig[..i])
      invariant a[i..] == orig[i..]
    {
      assert a[i + 1..] == orig[i + 1..] && a[i] == orig[i];
      ghost var before := a[..i];
      InsertInPlace(a, i, Older);
      assert a[..i + 1] == Insert(before, orig[i], Older);
      assert orig[..i + 1][..i] == orig[..i];
      assert a[..i + 1] == SortNewestFirst(orig[..i + 1]);
    }
    assert orig[..a.Length] == orig;
  }
}
