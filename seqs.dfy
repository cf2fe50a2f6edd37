/** Order-preserving selection from a list, the shape of every
    `[c for c in companies if ...]` and of every loop that appends the records
    it keeps, and the subsequence relation that states such selections. */
module Seqs {

  /** The elements of `s` that satisfy `p`, in their original order. */
  function Filter<T>(s: seq<T>, p: T -> bool): (r: seq<T>)
    ensures |r| <= |s|
    decreases |s|
  {
    if |s| == 0 then []
    else Filter(s[..|s| - 1], p) + (if p(s[|s| - 1]) then [s[|s| - 1]] else [])
  }

  /** `a` is `b` with some elements left out: same order, nothing new. */
  predicate Subseq<T(==)>(a: seq<T>, b: seq<T>)
    decreases |b|
  {
    if |a| == 0 then true
    else if |b| == 0 then false
    else (a[|a| - 1] == b[|b| - 1] && Subseq(a[..|a| - 1], b[..|b| - 1]))
         || Subseq(a, b[..|b| - 1])
  }

  lemma {:induction false} FilterAppend<T>(a: seq<T>, b: seq<T>, p: T -> bool)
    ensures Filter(a + b, p) == Filter(a, p) + Filter(b, p)
    decreases |b|
  {
    if |b| == 0 {
      assert a + b == a;
    } else {
      var b' := b[..|b| - 1];
      assert (a + b)[..|a + b| - 1] == a + b';
      assert (a + b)[|a + b| - 1] == b[|b| - 1];
      FilterAppend(a, b', p);
    }
  }

  /** Selecting from one more element of `s` adds that element when it
      satisfies `p`. */
  lemma FilterStep<T>(s: seq<T>, i: nat, p: T -> bool)
    requires i < |s|
    ensures Filter(s[..i + 1], p) == Filter(s[..i], p) + (if p(s[i]) then [s[i]] else [])
  {
    assert s[..i + 1][..i] == s[..i];
  }

  /** An element is in the selection exactly when it is in the list and satisfies `p`. */
  lemma {:induction false} FilterMembership<T>(s: seq<T>, p: T -> bool, x: T)
    ensures x in Filter(s, p) <==> x in s && p(x)
    decreases |s|
  {
    if |s| > 0 {
      var s' := s[..|s| - 1];
      FilterMembership(s', p, x);
      assert s == s' + [s[|s| - 1]];
    }
  }

  /** The selection keeps every copy of a selected element and no copy of another. */
  lemma {:induction false} FilterCount<T>(s: seq<T>, p: T -> bool, x: T)
    ensures multiset(Filter(s, p))[x] == if p(x) then multiset(s)[x] else 0
    decreases |s|
  {
    if |s| > 0 {
      var s' := s[..|s| - 1];
      FilterCount(s', p, x);
      assert s == s' + [s[|s| - 1]];
    }
  }

  /** Selecting from a list in which every element qualifies changes nothing. */
  lemma {:induction false} FilterAll<T>(s: seq<T>, p: T -> bool)
    requires forall i :: 0 <= i < |s| ==> p(s[i])
    ensures Filter(s, p) == s
    decreases |s|
  {
    if |s| > 0 {
      FilterAll(s[..|s| - 1], p);
    }
  }

  /** Every element of a selection satisfies the predicate. */
  lemma {:induction false} FilterSatisfies<T>(s: seq<T>, p: T -> bool)
    ensures forall i :: 0 <= i < |Filter(s, p)| ==> p(Filter(s, p)[i])
    decreases |s|
  {
    if |s| > 0 {
      FilterSatisfies(s[..|s| - 1], p);
    }
  }

  lemma {:induction false} SubseqEmpty<T>(b: seq<T>)
    ensures Subseq([], b)
  {
  }

  lemma {:induction false} SubseqRefl<T>(a: seq<T>)
    ensures Subseq(a, a)
    decreases |a|
  {
    if |a| > 0 {
      SubseqRefl(a[..|a| - 1]);
    }
  }

  /** A subsequence followed by one more element is a subsequence of the list
      followed by that element. */
  lemma SubseqSnoc<T>(a: seq<T>, b: seq<T>, x: T)
    requires Subseq(a, b)
    ensures Subseq(a + [x], b + [x]) && Subseq(a, b + [x])
  {
    assert (a + [x])[..|a + [x]| - 1] == a;
    assert (b + [x])[..|b + [x]| - 1] == b;
  }

  lemma {:induction false} SubseqTransitive<T>(a: seq<T>, b: seq<T>, c: seq<T>)
    requires Subseq(a, b) && Subseq(b, c)
    ensures Subseq(a, c)
    decreases |c|
  {
    if |a| > 0 {
      var c' := c[..|c| - 1];
      if Subseq(b, c') {
        SubseqTransitive(a, b, c');
      } else {
        var b' := b[..|b| - 1];
        var a' := a[..|a| - 1];
        assert b[|b| - 1] == c[|c| - 1] && Subseq(b', c');
        if a[|a| - 1] == b[|b| - 1] && Subseq(a', b') {
          SubseqTransitive(a', b', c');
        } else {
          SubseqTransitive(a, b', c');
        }
      }
    }
  }

  /** Everything in a subsequence is in the list. */
  lemma {:induction false} SubseqMembership<T>(a: seq<T>, b: seq<T>)
    requires Subseq(a, b)
    ensures |a| <= |b|
    ensures forall x :: x in a ==> x in b
    decreases |b|
  {
    if |a| > 0 {
      var b' := b[..|b| - 1];
      var a' := a[..|a| - 1];
      if a[|a| - 1] == b[|b| - 1] && Subseq(a', b') {
        SubseqMembership(a', b');
        assert a == a' + [a[|a| - 1]] && b == b' + [b[|b| - 1]];
      } else {
        SubseqMembership(a, b');
        assert b == b' + [b[|b| - 1]];
      }
    }
  }

  /** A selection is a subsequence of what it selects from. */
  lemma {:induction false} FilterSubseq<T>(s: seq<T>, p: T -> bool)
    ensures Subseq(Filter(s, p), s)
    decreases |s|
  {
    if |s| > 0 {
      var s' := s[..|s| - 1];
      var x := s[|s| - 1];
      FilterSubseq(s', p);
      assert s == s' + [x];
      SubseqSnoc(Filter(s', p), s', x);
      if p(x) {
        assert Filter(s, p) == Filter(s', p) + [x];
      } else {
        assert Filter(s, p) == Filter(s', p);
      }
    }
  }

  /** Concatenation of a list of lists, `[x for part in parts for x in part]`. */
  function Flatten<T>(parts: seq<seq<T>>): (r: seq<T>)
    decreases |parts|
  {
    if |parts| == 0 then [] else Flatten(parts[..|parts| - 1]) + parts[|parts| - 1]
  }

  /** Flattening is compatible with concatenation of the outer list. */
  lemma {:induction false} FlattenAppend<T>(a: seq<seq<T>>, b: seq<seq<T>>)
    ensures Flatten(a + b) == Flatten(a) + Flatten(b)
    decreases |b|
  {
    if |b| == 0 {
      assert a + b == a;
    } else {
      assert (a + b)[..|a + b| - 1] == a + b[..|b| - 1];
      assert (a + b)[|a + b| - 1] == b[|b| - 1];
      FlattenAppend(a, b[..|b| - 1]);
    }
  }
}
