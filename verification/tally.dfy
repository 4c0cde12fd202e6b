/** The "count by key, in order of first appearance" fold that the analytics
    screen writes as `reduce` over a record or an array of buckets: each
    element either increments the entry already holding its key or appends
    a new entry with count 1. */
module Tally {
  import opened Seqs

  datatype Entry<K> = Entry(key: K, count: nat)

  /** `acc.find(d => d.key === k)` then `++`, or `acc.push({k, 1})`. */
  function Bump<K(==)>(acc: seq<Entry<K>>, k: K): (r: seq<Entry<K>>)
  {
    if |acc| == 0 then [Entry(k, 1)]
    else if acc[0].key == k then [Entry(k, acc[0].count + 1)] + acc[1..]
    else [acc[0]] + Bump(acc[1..], k)
  }

  /** The left fold of `Bump` over `keys`. */
  function TallyOf<K(==)>(keys: seq<K>): seq<Entry<K>>
  {
    if |keys| == 0 then [] else Bump(TallyOf(keys[..|keys| - 1]), keys[|keys| - 1])
  }

  predicate HasKey<K(==)>(es: seq<Entry<K>>, k: K)
  {
    exists i :: 0 <= i < |es| && es[i].key == k
  }

  function Counts<K>(es: seq<Entry<K>>): seq<nat>
  {
    if |es| == 0 then [] else [es[0].count] + Counts(es[1..])
  }

  /** Index of the first occurrence of `x` in `s`. */
  function FirstIndex<T(==)>(s: seq<T>, x: T): (i: nat)
    requires x in s
    ensures i < |s| && s[i] == x
    ensures forall j :: 0 <= j < i ==> s[j] != x
  {
    if s[0] == x then 0 else 1 + FirstIndex(s[1..], x)
  }

  lemma FirstIndexExtend<T>(s: seq<T>, y: T, x: T)
    requires x in s
    ensures x in s + [y] && FirstIndex(s + [y], x) == FirstIndex(s, x)
  {
    var i := FirstIndex(s, x);
    var j := FirstIndex(s + [y], x);
    assert (s + [y])[i] == x;
  }

  lemma FirstIndexNew<T>(s: seq<T>, x: T)
    requires x !in s
    ensures FirstIndex(s + [x], x) == |s|
  {
    var j := FirstIndex(s + [x], x);
  }

  ghost predicate DistinctKeys<K>(es: seq<Entry<K>>)
  {
    forall i, j :: 0 <= i < j < |es| ==> es[i].key != es[j].key
  }

  ghost predicate CountsMatch<K>(keys: seq<K>, es: seq<Entry<K>>)
  {
    forall i :: 0 <= i < |es| ==> es[i].key in keys && es[i].count == Occurrences(keys, es[i].key)
  }

  ghost predicate Covers<K>(keys: seq<K>, es: seq<Entry<K>>)
  {
    forall x :: x in keys ==> HasKey(es, x)
  }

  ghost predicate FirstAppearanceOrder<K>(keys: seq<K>, es: seq<Entry<K>>)
    requires forall i :: 0 <= i < |es| ==> es[i].key in keys
  {
    forall i, j :: 0 <= i < j < |es| ==> FirstIndex(keys, es[i].key) < FirstIndex(keys, es[j].key)
  }

  /** What the fold maintains about the keys it has seen. */
  ghost predicate Tallies<K>(keys: seq<K>, es: seq<Entry<K>>)
  {
    && DistinctKeys(es)
    && CountsMatch(keys, es)
    && Covers(keys, es)
    && FirstAppearanceOrder(keys, es)
    && Sum(Counts(es)) == |keys|
  }

  lemma {:induction false} BumpHit<K>(acc: seq<Entry<K>>, k: K, i: nat)
    requires i < |acc| && acc[i].key == k
    requires DistinctKeys(acc)
    ensures Bump(acc, k) == acc[i := Entry(k, acc[i].count + 1)]
    ensures forall j :: 0 <= j < |acc| ==> Bump(acc, k)[j].key == acc[j].key
    ensures forall j :: 0 <= j < |acc| && j != i ==> Bump(acc, k)[j] == acc[j]
    ensures Sum(Counts(Bump(acc, k))) == Sum(Counts(acc)) + 1
  {
    if acc[0].key == k {
      assert i == 0;
      assert Counts(Bump(acc, k)) == [acc[0].count + 1] + Counts(acc[1..]);
    } else {
      BumpHit(acc[1..], k, i - 1);
      assert Bump(acc, k) == [acc[0]] + Bump(acc[1..], k);
      assert Counts(Bump(acc, k)) == [acc[0].count] + Counts(Bump(acc[1..], k));
    }
  }

  lemma {:induction false} BumpMiss<K>(acc: seq<Entry<K>>, k: K)
    requires forall i :: 0 <= i < |acc| ==> acc[i].key != k
    ensures Bump(acc, k) == acc + [Entry(k, 1)]
    ensures Sum(Counts(Bump(acc, k))) == Sum(Counts(acc)) + 1
  {
    if |acc| == 0 {
    } else {
      BumpMiss(acc[1..], k);
      assert acc + [Entry(k, 1)] == [acc[0]] + (acc[1..] + [Entry(k, 1)]);
      assert Counts(Bump(acc, k)) == [acc[0].count] + Counts(Bump(acc[1..], k));
    }
  }

  lemma OccurrencesSnoc<K>(s: seq<K>, k: K)
    ensures forall x :: Occurrences(s + [k], x) == Occurrences(s, x) + (if x == k then 1 else 0)
  {
    forall x ensures Occurrences(s + [k], x) == Occurrences(s, x) + (if x == k then 1 else 0) {
      OccurrencesAppend(s, [k], x);
    }
  }

  lemma FirstIndexSnoc<K>(s: seq<K>, k: K)
    ensures forall x :: x in s ==> FirstIndex(s + [k], x) == FirstIndex(s, x)
  {
    forall x | x in s ensures FirstIndex(s + [k], x) == FirstIndex(s, x) {
      FirstIndexExtend(s, k, x);
    }
  }

  lemma CountsAfterBump<K>(s: seq<K>, k: K, acc: seq<Entry<K>>, r: seq<Entry<K>>)
    requires CountsMatch(s, acc)
    requires |r| == |acc| || |r| == |acc| + 1
    requires forall j :: 0 <= j < |acc| ==> r[j].key == acc[j].key
    requires forall j :: 0 <= j < |acc| && acc[j].key != k ==> r[j] == acc[j]
    requires forall j :: 0 <= j < |r| ==> r[j].key in s + [k]
    requires forall j :: 0 <= j < |r| && r[j].key == k ==> r[j].count == Occurrences(s, k) + 1
    requires |r| == |acc| + 1 ==> r[|acc|].key == k
    ensures CountsMatch(s + [k], r)
  {
    OccurrencesSnoc(s, k);
  }

  lemma OrderAfterBump<K>(s: seq<K>, k: K, acc: seq<Entry<K>>, r: seq<Entry<K>>)
    requires forall j :: 0 <= j < |acc| ==> acc[j].key in s
    requires FirstAppearanceOrder(s, acc)
    requires |r| == |acc| || (|r| == |acc| + 1 && k !in s && r[|acc|].key == k)
    requires forall j :: 0 <= j < |acc| ==> r[j].key == acc[j].key
    ensures forall j :: 0 <= j < |r| ==> r[j].key in s + [k]
    ensures FirstAppearanceOrder(s + [k], r)
  {
    FirstIndexSnoc(s, k);
    if |r| == |acc| + 1 {
      FirstIndexNew(s, k);
    }
  }

  lemma HitFacts<K>(s: seq<K>, k: K, acc: seq<Entry<K>>, i: nat)
    requires DistinctKeys(acc) && CountsMatch(s, acc)
    requires i < |acc| && acc[i].key == k
    ensures |Bump(acc, k)| == |acc|
    ensures DistinctKeys(Bump(acc, k))
    ensures forall j :: 0 <= j < |acc| ==> Bump(acc, k)[j].key == acc[j].key
    ensures CountsMatch(s + [k], Bump(acc, k))
    ensures Sum(Counts(Bump(acc, k))) == Sum(Counts(acc)) + 1
  {
    BumpHit(acc, k, i);
    var r := Bump(acc, k);
    assert acc[i].count == Occurrences(s, k);
    assert r[i] == Entry(k, Occurrences(s, k) + 1);
    assert forall j :: 0 <= j < |r| && r[j].key == k ==> j == i;
    assert forall j :: 0 <= j < |r| ==> r[j].key in s + [k];
    CountsAfterBump(s, k, acc, r);
  }

  lemma HitCovers<K>(s: seq<K>, k: K, acc: seq<Entry<K>>, r: seq<Entry<K>>)
    requires Covers(s, acc) && HasKey(acc, k)
    requires |r| == |acc| && forall j :: 0 <= j < |acc| ==> r[j].key == acc[j].key
    ensures Covers(s + [k], r)
  {
    forall x | x in s + [k] ensures HasKey(r, x) {
      var j :| 0 <= j < |acc| && acc[j].key == x;
      assert r[j].key == x;
    }
  }

  lemma BumpHitPreserves<K>(s: seq<K>, k: K, acc: seq<Entry<K>>, i: nat)
    requires Tallies(s, acc)
    requires i < |acc| && acc[i].key == k
    ensures Tallies(s + [k], Bump(acc, k))
  {
    HitFacts(s, k, acc, i);
    var r := Bump(acc, k);
    OrderAfterBump(s, k, acc, r);
    HitCovers(s, k, acc, r);
  }

  lemma MissFacts<K>(s: seq<K>, k: K, acc: seq<Entry<K>>)
    requires DistinctKeys(acc) && CountsMatch(s, acc) && Covers(s, acc)
    requires !HasKey(acc, k)
    ensures k !in s
    ensures Bump(acc, k) == acc + [Entry(k, 1)]
    ensures DistinctKeys(Bump(acc, k))
    ensures CountsMatch(s + [k], Bump(acc, k))
    ensures Sum(Counts(Bump(acc, k))) == Sum(Counts(acc)) + 1
  {
    BumpMiss(acc, k);
    var r := Bump(acc, k);
    assert Occurrences(s, k) == 0;
    CountsAfterBump(s, k, acc, r);
  }

  lemma MissCovers<K>(s: seq<K>, k: K, acc: seq<Entry<K>>, r: seq<Entry<K>>)
    requires Covers(s, acc)
    requires r == acc + [Entry(k, 1)]
    ensures Covers(s + [k], r)
  {
    forall x | x in s + [k] ensures HasKey(r, x) {
      if x in s {
        var j :| 0 <= j < |acc| && acc[j].key == x;
        assert r[j].key == x;
      } else {
        assert r[|acc|].key == x;
      }
    }
  }

  lemma BumpMissPreserves<K>(s: seq<K>, k: K, acc: seq<Entry<K>>)
    requires Tallies(s, acc)
    requires !HasKey(acc, k)
    ensures Tallies(s + [k], Bump(acc, k))
  {
    MissFacts(s, k, acc);
    var r := Bump(acc, k);
    OrderAfterBump(s, k, acc, r);
    MissCovers(s, k, acc, r);
  }

  lemma {:induction false} TallyOfTallies<K>(keys: seq<K>)
    ensures Tallies(keys, TallyOf(keys))
  {
    if |keys| == 0 {
    } else {
      var s := keys[..|keys| - 1];
      var k := keys[|keys| - 1];
      assert keys == s + [k];
      TallyOfTallies(s);
      var acc := TallyOf(s);
      if HasKey(acc, k) {
        var i :| 0 <= i < |acc| && acc[i].key == k;
        BumpHitPreserves(s, k, acc, i);
      } else {
        BumpMissPreserves(s, k, acc);
      }
    }
  }

  /** The tally has one entry per distinct key, in order of first appearance;
      each entry's count is the number of occurrences of its key, hence at
      least 1; the counts add up to the number of keys folded. */
  lemma TallyOfSpec<K>(keys: seq<K>)
    ensures forall i, j :: 0 <= i < j < |TallyOf(keys)| ==> TallyOf(keys)[i].key != TallyOf(keys)[j].key
    ensures forall i :: 0 <= i < |TallyOf(keys)| ==>
              TallyOf(keys)[i].key in keys && TallyOf(keys)[i].count == Occurrences(keys, TallyOf(keys)[i].key) >= 1
    ensures forall x :: x in keys ==> HasKey(TallyOf(keys), x)
    ensures forall i, j :: 0 <= i < j < |TallyOf(keys)| ==>
              FirstIndex(keys, TallyOf(keys)[i].key) < FirstIndex(keys, TallyOf(keys)[j].key)
    ensures Sum(Counts(TallyOf(keys))) == |keys|
  {
    TallyOfTallies(keys);
  }
}
