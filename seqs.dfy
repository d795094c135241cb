/** Generic facts about sequences used by both request handlers: the set of
    elements of a sequence, pairwise distinctness, and the order-preserving
    filter that list comprehensions with an `if` and boolean masks compute. */
module Seqs {

  /** The elements of `xs`, forgetting order and multiplicity (Python's `set(xs)`). */
  function ElemSet<T>(xs: seq<T>): (s: set<T>)
    ensures forall i :: 0 <= i < |xs| ==> xs[i] in s
    ensures forall x :: x in s ==> x in xs
  {
    set x | x in xs
  }

  /** No value occurs twice in `xs`. */
  predicate Distinct<T(==)>(xs: seq<T>)
  {
    forall i, j :: 0 <= i < j < |xs| ==> xs[i] != xs[j]
  }

  /** `len(set(xs)) <= len(xs)`, with equality exactly when `xs` has no repeats. */
  lemma {:induction false} ElemSetCard<T>(xs: seq<T>)
    ensures |ElemSet(xs)| <= |xs|
    ensures |ElemSet(xs)| == |xs| <==> Distinct(xs)
  {
    if xs != [] {
      var rest := xs[1..];
      ElemSetCard(rest);
      assert ElemSet(xs) == {xs[0]} + ElemSet(rest) by {
        forall x ensures x in ElemSet(xs) <==> x == xs[0] || x in ElemSet(rest) {
          if x in ElemSet(xs) && x != xs[0] {
            var i :| 0 <= i < |xs| && xs[i] == x;
            assert rest[i - 1] == x;
          }
        }
      }
      if xs[0] in ElemSet(rest) {
        var i :| 0 <= i < |rest| && rest[i] == xs[0];
        assert xs[0] == xs[i + 1];
        assert !Distinct(xs);
      } else {
        assert |ElemSet(xs)| == 1 + |ElemSet(rest)|;
        if Distinct(rest) {
          forall i, j | 0 <= i < j < |xs| ensures xs[i] != xs[j] {
            if i == 0 {
              assert xs[j] == rest[j - 1];
            } else {
              assert xs[i] == rest[i - 1] && xs[j] == rest[j - 1];
            }
          }
        } else {
          var i, j :| 0 <= i < j < |rest| && rest[i] == rest[j];
          assert xs[i + 1] == xs[j + 1];
        }
      }
    }
  }

  /** The elements of `xs` that satisfy `p`, in their original order. */
  function Keep<T>(xs: seq<T>, p: T -> bool): (r: seq<T>)
    ensures |r| <= |xs|
    ensures forall i :: 0 <= i < |r| ==> r[i] in xs && p(r[i])
    ensures forall i :: 0 <= i < |xs| && p(xs[i]) ==> xs[i] in r
  {
    if xs == [] then []
    else (if p(xs[0]) then [xs[0]] else []) + Keep(xs[1..], p)
  }

  /** `a` can be obtained from `b` by deleting elements, without reordering. */
  ghost predicate IsSubsequence<T>(a: seq<T>, b: seq<T>)
    decreases |b|
  {
    a == [] || (b != [] && ((a[0] == b[0] && IsSubsequence(a[1..], b[1..])) || IsSubsequence(a, b[1..])))
  }

  /** What `Keep` returns keeps the order of its input. */
  lemma {:induction false} KeepIsSubsequence<T>(xs: seq<T>, p: T -> bool)
    ensures IsSubsequence(Keep(xs, p), xs)
  {
    if xs != [] {
      KeepIsSubsequence(xs[1..], p);
      var a := Keep(xs, p);
      if p(xs[0]) {
        assert a == [xs[0]] + Keep(xs[1..], p);
        assert a[0] == xs[0] && a[1..] == Keep(xs[1..], p);
      } else {
        assert a == Keep(xs[1..], p);
      }
    }
  }

  /** Filtering a concatenation filters each part. */
  lemma {:induction false} KeepAppend<T>(xs: seq<T>, ys: seq<T>, p: T -> bool)
    ensures Keep(xs + ys, p) == Keep(xs, p) + Keep(ys, p)
  {
    if xs == [] {
      assert xs + ys == ys;
    } else {
      assert (xs + ys)[1..] == xs[1..] + ys;
      KeepAppend(xs[1..], ys, p);
    }
  }

  /** Every kept value keeps all its occurrences; every other value has none. */
  lemma {:induction false} KeepCount<T>(xs: seq<T>, p: T -> bool, x: T)
    ensures multiset(Keep(xs, p))[x] == if p(x) then multiset(xs)[x] else 0
  {
    if xs != [] {
      KeepCount(xs[1..], p, x);
      assert xs == [xs[0]] + xs[1..];
      assert multiset(xs) == multiset([xs[0]]) + multiset(xs[1..]);
    }
  }

  /** Two tests that agree on every element of `xs` keep the same elements. */
  lemma {:induction false} KeepCongruent<T>(xs: seq<T>, p: T -> bool, q: T -> bool)
    requires forall i :: 0 <= i < |xs| ==> p(xs[i]) == q(xs[i])
    ensures Keep(xs, p) == Keep(xs, q)
  {
    if xs != [] {
      assert p(xs[0]) == q(xs[0]);
      KeepCongruent(xs[1..], p, q);
    }
  }

  /** Filtering twice by the same test filters once. */
  lemma {:induction false} KeepIdempotent<T>(xs: seq<T>, p: T -> bool)
    ensures Keep(Keep(xs, p), p) == Keep(xs, p)
  {
    if xs != [] {
      KeepIdempotent(xs[1..], p);
      var head := if p(xs[0]) then [xs[0]] else [];
      KeepAppend(head, Keep(xs[1..], p), p);
      if p(xs[0]) {
        assert Keep(head, p) == head by {
          assert head[1..] == [];
        }
      }
    }
  }

  /** The keys of a Python dict built by inserting `xs` in order: each value
      once, where it first occurs. Re-inserting a key does not move it. */
  function InsertionOrder<T(==)>(xs: seq<T>): (keys: seq<T>)
    ensures ElemSet(keys) == ElemSet(xs)
    ensures Distinct(keys)
    decreases |xs|
  {
    if xs == [] then []
    else
      var init := xs[..|xs| - 1];
      var last := xs[|xs| - 1];
      var prev := InsertionOrder(init);
      assert ElemSet(xs) == ElemSet(init) + {last} by {
        assert xs == init + [last];
      }
      if last in prev then prev else prev + [last]
  }

  /** Inserting more values only appends keys: the keys after the first `n`
      insertions are a prefix of the final keys. */
  lemma {:induction false} InsertionOrderExtends<T>(xs: seq<T>, n: int)
    requires 0 <= n <= |xs|
    ensures InsertionOrder(xs[..n]) <= InsertionOrder(xs)
    decreases |xs|
  {
    if n == |xs| {
      assert xs[..n] == xs;
    } else {
      var init := xs[..|xs| - 1];
      assert xs[..n] == init[..n];
      InsertionOrderExtends(init, n);
    }
  }

  /** A value first seen at position `k` is the key that follows the keys of
      the values before it. */
  lemma InsertionOrderFirstOccurrence<T>(xs: seq<T>, k: int)
    requires 0 <= k < |xs| && xs[k] !in xs[..k]
    ensures |InsertionOrder(xs[..k])| < |InsertionOrder(xs)|
    ensures InsertionOrder(xs)[|InsertionOrder(xs[..k])|] == xs[k]
  {
    var before := InsertionOrder(xs[..k]);
    assert xs[..k + 1][..k] == xs[..k];
    assert xs[k] !in before by {
      assert xs[k] !in ElemSet(xs[..k]);
    }
    assert InsertionOrder(xs[..k + 1]) == before + [xs[k]];
    InsertionOrderExtends(xs, k + 1);
  }
}
