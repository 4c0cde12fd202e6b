/** Sequence helpers shared by the folds and list edits. */
module Seqs {

  /** Number of occurrences of `x` in `s`. */
  function Occurrences<T(==)>(s: seq<T>, x: T): (n: nat)
    ensures n <= |s|
    ensures n == 0 <==> x !in s
  {
    if |s| == 0 then 0
    else (if s[0] == x then 1 else 0) + Occurrences(s[1..], x)
  }

  lemma OccurrencesAppend<T>(a: seq<T>, b: seq<T>, x: T)
    ensures Occurrences(a + b, x) == Occurrences(a, x) + Occurrences(b, x)
  {
    if |a| == 0 {
      assert a + b == b;
    } else {
      assert (a + b)[1..] == a[1..] + b;
      OccurrencesAppend(a[1..], b, x);
    }
  }

  /** The elements of `s` satisfying `p`, in their original order
      (JavaScript's `Array.prototype.filter`). */
  function Filter<T>(s: seq<T>, p: T -> bool): (r: seq<T>)
    ensures |r| <= |s|
    ensures forall i :: 0 <= i < |r| ==> p(r[i])
    ensures forall i :: 0 <= i < |r| ==> r[i] in s
    ensures forall i :: 0 <= i < |s| && p(s[i]) ==> s[i] in r
  {
    if |s| == 0 then []
    else (if p(s[0]) then [s[0]] else []) + Filter(s[1..], p)
  }

  lemma FilterAppend<T>(a: seq<T>, b: seq<T>, p: T -> bool)
    ensures Filter(a + b, p) == Filter(a, p) + Filter(b, p)
  {
    if |a| == 0 {
      assert a + b == b;
    } else {
      assert (a + b)[1..] == a[1..] + b;
      FilterAppend(a[1..], b, p);
    }
  }

  /** The indices below `k` whose elements satisfy `p`. */
  ghost function Passing<T>(s: seq<T>, p: T -> bool, k: int): set<int>
  {
    set i | 0 <= i < k && i < |s| && p(s[i])
  }

  lemma {:induction false} FilterPrefixCount<T>(s: seq<T>, p: T -> bool, k: nat)
    requires k <= |s|
    ensures |Filter(s[..k], p)| == |Passing(s, p, k)|
  {
    if k > 0 {
      FilterPrefixCount(s, p, k - 1);
      assert s[..k] == s[..k - 1] + [s[k - 1]];
      FilterAppend(s[..k - 1], [s[k - 1]], p);
      if p(s[k - 1]) {
        assert Passing(s, p, k) == Passing(s, p, k - 1) + {k - 1};
      } else {
        assert Passing(s, p, k) == Passing(s, p, k - 1);
      }
    }
  }

  lemma FilterAt<T>(s: seq<T>, p: T -> bool, k: nat)
    requires k < |s| && p(s[k])
    ensures |Filter(s[..k], p)| < |Filter(s, p)| && Filter(s, p)[|Filter(s[..k], p)|] == s[k]
  {
    var rest := Filter(s[k + 1..], p);
    assert s == s[..k] + ([s[k]] + s[k + 1..]);
    FilterAppend(s[..k], [s[k]] + s[k + 1..], p);
    FilterAppend([s[k]], s[k + 1..], p);
    assert Filter([s[k]], p) == [s[k]] by {
      assert [s[k]][1..] == [];
    }
    assert Filter(s, p) == Filter(s[..k], p) + ([s[k]] + rest);
  }

  /** The filter keeps every passing element, once, in its original place
      among the passing ones: its length is the number of passing indices,
      and the element at passing index `k` lands right after the passing
      elements before it. Together these fix order and multiplicity. */
  lemma FilterPlaces<T>(s: seq<T>, p: T -> bool)
    ensures |Filter(s, p)| == |Passing(s, p, |s|)|
    ensures forall k :: 0 <= k < |s| && p(s[k]) ==>
              |Passing(s, p, k)| < |Filter(s, p)| && Filter(s, p)[|Passing(s, p, k)|] == s[k]
  {
    assert s[..|s|] == s;
    FilterPrefixCount(s, p, |s|);
    forall k | 0 <= k < |s| && p(s[k])
      ensures |Passing(s, p, k)| < |Filter(s, p)| && Filter(s, p)[|Passing(s, p, k)|] == s[k]
    {
      FilterPrefixCount(s, p, k);
      FilterAt(s, p, k);
    }
  }

  /** The filter keeps each passing value exactly as often as the input
      holds it, and no other value. */
  lemma {:induction false} FilterMultiset<T>(s: seq<T>, p: T -> bool)
    ensures forall x :: multiset(Filter(s, p))[x] == if p(x) then multiset(s)[x] else 0
  {
    if |s| > 0 {
      FilterMultiset(s[1..], p);
      assert s == [s[0]] + s[1..];
      assert multiset(s) == multiset([s[0]]) + multiset(s[1..]);
      assert multiset(Filter(s, p)) == multiset(if p(s[0]) then [s[0]] else []) + multiset(Filter(s[1..], p));
    }
  }

  /** Filtering by a predicate and by its negation splits the input. */
  lemma {:induction false} FilterSplit<T>(s: seq<T>, p: T -> bool, q: T -> bool)
    requires forall x :: q(x) == !p(x)
    ensures multiset(Filter(s, p)) + multiset(Filter(s, q)) == multiset(s)
  {
    if |s| > 0 {
      FilterSplit(s[1..], p, q);
      assert s == [s[0]] + s[1..];
      assert multiset(s) == multiset([s[0]]) + multiset(s[1..]);
    }
  }

  /** Filtering keeps everything exactly when every element passes. */
  lemma {:induction false} FilterAllPass<T>(s: seq<T>, p: T -> bool)
    ensures Filter(s, p) == s <==> forall i :: 0 <= i < |s| ==> p(s[i])
  {
    if |s| == 0 {
    } else {
      FilterAllPass(s[1..], p);
      if !p(s[0]) {
        assert |Filter(s, p)| <= |s[1..]| < |s|;
      } else {
        assert Filter(s, p) == [s[0]] + Filter(s[1..], p);
        if Filter(s, p) == s {
          assert Filter(s[1..], p) == s[1..];
        }
        if forall i :: 0 <= i < |s| ==> p(s[i]) {
          assert forall i :: 0 <= i < |s[1..]| ==> p(s[1..][i]) by {
            forall i | 0 <= i < |s[1..]| ensures p(s[1..][i]) {
              assert s[1..][i] == s[i + 1];
            }
          }
          assert s == [s[0]] + s[1..];
        }
      }
    }
  }

  /** `s.slice(0, n)` (and `substring(0, n)` on a string): the first `n`
      elements, or all of them. */
  function Take<T>(s: seq<T>, n: nat): (r: seq<T>)
    ensures |r| == if n < |s| then n else |s|
    ensures r <= s
  {
    if n < |s| then s[..n] else s
  }

  /** Sum of a sequence of naturals. */
  function Sum(s: seq<nat>): nat
  {
    if |s| == 0 then 0 else s[0] + Sum(s[1..])
  }

  lemma SumAppend(a: seq<nat>, b: seq<nat>)
    ensures Sum(a + b) == Sum(a) + Sum(b)
  {
    if |a| == 0 {
      assert a + b == b;
    } else {
      assert (a + b)[1..] == a[1..] + b;
      SumAppend(a[1..], b);
    }
  }
}
