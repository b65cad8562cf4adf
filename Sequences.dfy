/**
 Order-preserving removal on sequences: the subsequence relation and the
 filter that the per-tick update applies to its entity lists.
 */
module Sequences {

  /**
   `a` is obtained from `b` by deleting elements, without reordering the
   ones that remain.
   */
  predicate IsSubseq<T(==)>(a: seq<T>, b: seq<T>)
    decreases |b|
  {
    |a| <= |b| &&
    (a == [] ||
     (b != [] &&
      (IsSubseq(a, b[..|b| - 1]) ||
       (a[|a| - 1] == b[|b| - 1] && IsSubseq(a[..|a| - 1], b[..|b| - 1])))))
  }

  lemma {:induction false} SubseqRefl<T>(a: seq<T>)
    ensures IsSubseq(a, a)
    decreases |a|
  {
    if a != [] {
      SubseqRefl(a[..|a| - 1]);
    }
  }

  lemma {:induction false} SubseqTrans<T>(a: seq<T>, b: seq<T>, c: seq<T>)
    requires IsSubseq(a, b) && IsSubseq(b, c)
    ensures IsSubseq(a, c)
    decreases |c|
  {
    if a != [] {
      var c' := c[..|c| - 1];
      if IsSubseq(b, c') {
        SubseqTrans(a, b, c');
      } else {
        var b' := b[..|b| - 1];
        assert b[|b| - 1] == c[|c| - 1] && IsSubseq(b', c');
        if IsSubseq(a, b') {
          SubseqTrans(a, b', c');
        } else {
          SubseqTrans(a[..|a| - 1], b', c');
        }
      }
    }
  }

  /** Deleting one element leaves a subsequence. */
  lemma {:induction false} SubseqDelete<T>(b: seq<T>, j: nat)
    requires j < |b|
    ensures IsSubseq(b[..j] + b[j + 1..], b)
    decreases |b|
  {
    var a := b[..j] + b[j + 1..];
    var b' := b[..|b| - 1];
    if j == |b| - 1 {
      assert a == b';
      SubseqRefl(b');
    } else {
      SubseqDelete(b', j);
      assert a[..|a| - 1] == b'[..j] + b'[j + 1..];
      assert a[|a| - 1] == b[|b| - 1];
    }
  }

  /** Everything in a subsequence is in the sequence it came from. */
  lemma {:induction false} SubseqMembers<T>(a: seq<T>, b: seq<T>)
    requires IsSubseq(a, b)
    ensures forall x :: x in a ==> x in b
    decreases |b|
  {
    if a != [] {
      var b' := b[..|b| - 1];
      if IsSubseq(a, b') {
        SubseqMembers(a, b');
      } else {
        var a' := a[..|a| - 1];
        SubseqMembers(a', b');
        assert a == a' + [a[|a| - 1]];
        assert b == b' + [b[|b| - 1]];
      }
    }
  }

  /** The elements of `s` that satisfy `keep`, in their original order. */
  function Filter<T>(s: seq<T>, keep: T -> bool): seq<T>
    decreases |s|
  {
    if s == [] then []
    else Filter(s[..|s| - 1], keep) + (if keep(s[|s| - 1]) then [s[|s| - 1]] else [])
  }

  /**
   The filter keeps exactly the elements that satisfy the predicate, and
   deletes the others without reordering what remains.
   */
  lemma {:induction false} FilterSpec<T>(s: seq<T>, keep: T -> bool)
    ensures forall x :: x in Filter(s, keep) <==> x in s && keep(x)
    ensures IsSubseq(Filter(s, keep), s)
    decreases |s|
  {
    if s != [] {
      var s' := s[..|s| - 1];
      var last := s[|s| - 1];
      FilterSpec(s', keep);
      assert s == s' + [last];
      var r := Filter(s, keep);
      if keep(last) {
        assert r[..|r| - 1] == Filter(s', keep);
      } else {
        assert r == Filter(s', keep);
      }
    }
  }

  /**
   The filter keeps every element that satisfies the predicate as many
   times as it occurs, and no other element.
   */
  lemma {:induction false} FilterCounts<T>(s: seq<T>, keep: T -> bool)
    ensures forall x :: multiset(Filter(s, keep))[x] == if keep(x) then multiset(s)[x] else 0
    decreases |s|
  {
    if s != [] {
      var s' := s[..|s| - 1];
      var last := s[|s| - 1];
      FilterCounts(s', keep);
      assert s == s' + [last];
      assert multiset(s) == multiset(s') + multiset{last};
      if keep(last) {
        assert multiset(Filter(s, keep)) == multiset(Filter(s', keep)) + multiset{last};
      } else {
        assert Filter(s, keep) == Filter(s', keep);
      }
    }
  }
}
