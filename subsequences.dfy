/** Subsequences: what is left of a sequence after deleting some of its elements. */
module Subsequences {

  /** True when `a` can be obtained from `b` by deleting elements, keeping the order of the rest. */
  ghost predicate IsSubsequence<T>(a: seq<T>, b: seq<T>)
    decreases |b|
  {
    if |b| == 0 then |a| == 0
    else IsSubsequence(a, b[1..]) || (|a| > 0 && a[0] == b[0] && IsSubsequence(a[1..], b[1..]))
  }

  /** Deleting elements never makes a sequence longer. */
  lemma {:induction false} SubsequenceLength<T>(a: seq<T>, b: seq<T>)
    requires IsSubsequence(a, b)
    ensures |a| <= |b|
    decreases |b|
  {
    if |b| > 0 {
      if IsSubsequence(a, b[1..]) {
        SubsequenceLength(a, b[1..]);
      } else {
        SubsequenceLength(a[1..], b[1..]);
      }
    }
  }

  /** Deleting everything is allowed. */
  lemma {:induction false} EmptyIsSubsequence<T>(b: seq<T>)
    ensures IsSubsequence([], b)
    decreases |b|
  {
    if |b| > 0 {
      EmptyIsSubsequence(b[1..]);
    }
  }

  /** Keeping one more leading element on both sides preserves the relation. */
  lemma ConsSubsequence<T>(x: T, a: seq<T>, b: seq<T>)
    requires IsSubsequence(a, b)
    ensures IsSubsequence([x] + a, [x] + b)
  {
    assert ([x] + a)[1..] == a;
    assert ([x] + b)[1..] == b;
  }

  /** A subsequence of a suffix is a subsequence of the whole. */
  lemma {:induction false} DropSubsequence<T>(a: seq<T>, b: seq<T>, k: nat)
    requires k <= |b|
    requires IsSubsequence(a, b[k..])
    ensures IsSubsequence(a, b)
    decreases k
  {
    if k > 0 {
      assert b[1..][k - 1..] == b[k..];
      DropSubsequence(a, b[1..], k - 1);
    }
  }

  /** Every prefix is a subsequence. */
  lemma {:induction false} PrefixSubsequence<T>(b: seq<T>, j: nat)
    requires j <= |b|
    ensures IsSubsequence(b[..j], b)
    decreases j
  {
    if j == 0 {
      EmptyIsSubsequence(b);
    } else {
      PrefixSubsequence(b[1..], j - 1);
      assert b[1..][..j - 1] == b[..j][1..];
    }
  }

  /** Every slice is a subsequence. */
  lemma SliceSubsequence<T>(b: seq<T>, i: nat, j: nat)
    requires i <= j <= |b|
    ensures IsSubsequence(b[i..j], b)
  {
    PrefixSubsequence(b[i..], j - i);
    assert b[i..][..j - i] == b[i..j];
    DropSubsequence(b[i..j], b, i);
  }

  /** Deleting twice is deleting once. */
  lemma {:induction false} TransitiveSubsequence<T>(a: seq<T>, b: seq<T>, c: seq<T>)
    requires IsSubsequence(a, b) && IsSubsequence(b, c)
    ensures IsSubsequence(a, c)
    decreases |c|
  {
    if |c| > 0 {
      if IsSubsequence(b, c[1..]) {
        TransitiveSubsequence(a, b, c[1..]);
      } else if IsSubsequence(a, b[1..]) {
        TransitiveSubsequence(a, b[1..], c[1..]);
      } else {
        TransitiveSubsequence(a[1..], b[1..], c[1..]);
      }
    }
  }
}
