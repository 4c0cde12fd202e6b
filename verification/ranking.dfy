/** A stable sort into non-increasing order of an integer key, the
    behaviour of `Array.prototype.sort((a, b) => key(b) - key(a))` (stable
    since ECMAScript 2019), and the "top k" prefix taken after it. The
    sort is written as insertion sort: each element is placed after every
    earlier element whose key is at least its own. */
module Ranking {
  import opened Seqs

  function Insert<T>(x: T, s: seq<T>, key: T -> int): (r: seq<T>)
    ensures |r| == |s| + 1
  {
    if |s| == 0 then [x]
    else if key(s[0]) >= key(x) then [s[0]] + Insert(x, s[1..], key)
    else [x] + s
  }

  function SortDesc<T>(s: seq<T>, key: T -> int): (r: seq<T>)
    ensures |r| == |s|
  {
    if |s| == 0 then [] else Insert(s[|s| - 1], SortDesc(s[..|s| - 1], key), key)
  }

  ghost predicate Descending<T>(s: seq<T>, key: T -> int)
  {
    forall i, j :: 0 <= i < j < |s| ==> key(s[i]) >= key(s[j])
  }

  /** Non-increasing in `key`, and strictly increasing in `key2` among
      equal keys. */
  ghost predicate DescendingThenAscending<T>(s: seq<T>, key: T -> int, key2: T -> int)
  {
    forall i, j :: 0 <= i < j < |s| ==>
      key(s[i]) > key(s[j]) || (key(s[i]) == key(s[j]) && key2(s[i]) < key2(s[j]))
  }

  ghost predicate StrictlyAscending<T>(s: seq<T>, key2: T -> int)
  {
    forall i, j :: 0 <= i < j < |s| ==> key2(s[i]) < key2(s[j])
  }

  lemma {:induction false} InsertPermutes<T>(x: T, s: seq<T>, key: T -> int)
    ensures multiset(Insert(x, s, key)) == multiset(s) + multiset{x}
  {
    if |s| == 0 {
    } else if key(s[0]) >= key(x) {
      InsertPermutes(x, s[1..], key);
      assert s == [s[0]] + s[1..];
    } else {
    }
  }

  /** A property of the inserted element and of every list element holds
      of every element of the insertion. */
  lemma {:induction false} InsertAll<T>(x: T, s: seq<T>, key: T -> int, p: T -> bool)
    requires p(x)
    requires forall j :: 0 <= j < |s| ==> p(s[j])
    ensures forall j :: 0 <= j < |Insert(x, s, key)| ==> p(Insert(x, s, key)[j])
  {
    if |s| > 0 && key(s[0]) >= key(x) {
      InsertAll(x, s[1..], key, p);
      assert Insert(x, s, key) == [s[0]] + Insert(x, s[1..], key);
    }
  }

  lemma ConsDescending<T>(y: T, t: seq<T>, key: T -> int)
    requires Descending(t, key)
    requires forall j :: 0 <= j < |t| ==> key(t[j]) <= key(y)
    ensures Descending([y] + t, key)
  {
    var r := [y] + t;
    forall i, j | 0 <= i < j < |r| ensures key(r[i]) >= key(r[j]) {
      assert r[j] == t[j - 1];
      if i > 0 {
        assert r[i] == t[i - 1];
      }
    }
  }

  lemma {:induction false} InsertSorted<T>(x: T, s: seq<T>, key: T -> int)
    requires Descending(s, key)
    ensures Descending(Insert(x, s, key), key)
  {
    if |s| == 0 {
    } else if key(s[0]) >= key(x) {
      var tail := s[1..];
      assert Descending(tail, key) by {
        forall i, j | 0 <= i < j < |tail| ensures key(tail[i]) >= key(tail[j]) {
          assert tail[i] == s[i + 1] && tail[j] == s[j + 1];
        }
      }
      forall j | 0 <= j < |tail| ensures key(tail[j]) <= key(s[0]) {
        assert tail[j] == s[j + 1];
      }
      InsertSorted(x, tail, key);
      InsertAll(x, tail, key, (e: T) => key(e) <= key(s[0]));
      ConsDescending(s[0], Insert(x, tail, key), key);
    } else {
      ConsDescending(x, s, key);
    }
  }

  /** The sort returns a rearrangement of its input in non-increasing key
      order. */
  lemma {:induction false} SortDescSpec<T>(s: seq<T>, key: T -> int)
    ensures multiset(SortDesc(s, key)) == multiset(s)
    ensures Descending(SortDesc(s, key), key)
  {
    if |s| > 0 {
      var p := s[..|s| - 1];
      assert s == p + [s[|s| - 1]];
      SortDescSpec(p, key);
      InsertPermutes(s[|s| - 1], SortDesc(p, key), key);
      InsertSorted(s[|s| - 1], SortDesc(p, key), key);
    }
  }

  /** `y` before `z` in key-descending, `key2`-ascending order. */
  predicate Precedes<T>(y: T, z: T, key: T -> int, key2: T -> int)
  {
    key(y) > key(z) || (key(y) == key(z) && key2(y) < key2(z))
  }

  lemma ConsStable<T>(y: T, t: seq<T>, key: T -> int, key2: T -> int)
    requires DescendingThenAscending(t, key, key2)
    requires forall j :: 0 <= j < |t| ==> Precedes(y, t[j], key, key2)
    ensures DescendingThenAscending([y] + t, key, key2)
  {
    var r := [y] + t;
    forall i, j | 0 <= i < j < |r|
      ensures key(r[i]) > key(r[j]) || (key(r[i]) == key(r[j]) && key2(r[i]) < key2(r[j]))
    {
      assert r[j] == t[j - 1];
      if i > 0 {
        assert r[i] == t[i - 1];
      }
    }
  }

  lemma {:induction false} InsertStable<T>(x: T, s: seq<T>, key: T -> int, key2: T -> int)
    requires DescendingThenAscending(s, key, key2)
    requires forall i :: 0 <= i < |s| ==> key2(s[i]) < key2(x)
    ensures DescendingThenAscending(Insert(x, s, key), key, key2)
  {
    if |s| == 0 {
    } else if key(s[0]) >= key(x) {
      var tail := s[1..];
      assert DescendingThenAscending(tail, key, key2) by {
        forall i, j | 0 <= i < j < |tail|
          ensures key(tail[i]) > key(tail[j]) || (key(tail[i]) == key(tail[j]) && key2(tail[i]) < key2(tail[j]))
        {
          assert tail[i] == s[i + 1] && tail[j] == s[j + 1];
        }
      }
      forall j | 0 <= j < |tail| ensures Precedes(s[0], tail[j], key, key2) && key2(tail[j]) < key2(x) {
        assert tail[j] == s[j + 1];
      }
      InsertStable(x, tail, key, key2);
      InsertAll(x, tail, key, (e: T) => Precedes(s[0], e, key, key2));
      ConsStable(s[0], Insert(x, tail, key), key, key2);
    } else {
      forall j | 0 <= j < |s| ensures Precedes(x, s[j], key, key2) {
        if j > 0 {
          assert key(s[0]) >= key(s[j]);
        }
      }
      ConsStable(x, s, key, key2);
    }
  }

  /** Stability: when the input is strictly ascending in a second key, equal
      primary keys keep that ascending order in the output. */
  lemma {:induction false} SortDescStable<T>(s: seq<T>, key: T -> int, key2: T -> int)
    requires StrictlyAscending(s, key2)
    ensures DescendingThenAscending(SortDesc(s, key), key, key2)
  {
    if |s| > 0 {
      var p := s[..|s| - 1];
      var x := s[|s| - 1];
      SortDescStable(p, key, key2);
      SortDescSpec(p, key);
      var t := SortDesc(p, key);
      forall i | 0 <= i < |t| ensures key2(t[i]) < key2(x) {
        assert t[i] in multiset(p);
        var m :| 0 <= m < |p| && p[m] == t[i];
        assert s[m] == t[i];
      }
      InsertStable(x, t, key, key2);
    }
  }

  /** The first `k` elements after sorting: sorted, drawn from the input,
      and no element left out ranks above the last one kept. */
  lemma TopSpec<T>(s: seq<T>, key: T -> int, k: nat)
    ensures |Take(SortDesc(s, key), k)| == if k < |s| then k else |s|
    ensures multiset(Take(SortDesc(s, key), k)) <= multiset(s)
    ensures Descending(Take(SortDesc(s, key), k), key)
    ensures forall j :: 0 < k <= j < |s| ==> key(SortDesc(s, key)[j]) <= key(SortDesc(s, key)[k - 1])
  {
    var r := SortDesc(s, key);
    SortDescSpec(s, key);
    var t := Take(r, k);
    if k < |r| {
      assert r == t + r[k..];
      assert multiset(r) == multiset(t) + multiset(r[k..]);
    }
  }

  /** An element left out of the top `k` ranks no higher than the last
      element kept, and the top is then full. */
  lemma TopOmitted<T>(s: seq<T>, key: T -> int, k: nat, x: T)
    requires k > 0 && x in s && x !in Take(SortDesc(s, key), k)
    ensures |Take(SortDesc(s, key), k)| == k
    ensures key(x) <= key(Take(SortDesc(s, key), k)[k - 1])
  {
    var r := SortDesc(s, key);
    var t := Take(r, k);
    SortDescSpec(s, key);
    TopSpec(s, key, k);
    assert x in multiset(r);
    var j :| 0 <= j < |r| && r[j] == x;
    assert forall i :: 0 <= i < |t| ==> t[i] == r[i];
    assert k <= j;
    assert t[k - 1] == r[k - 1];
  }
}
