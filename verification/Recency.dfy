// The reference an LRU map is measured against: key-value pairs with distinct
// keys, most recently used first.
module Recency {
  import opened Options

  type List<K, V> = seq<(K, V)>

  ghost predicate Distinct<K, V>(s: List<K, V>) {
    forall i, j | 0 <= i < j < |s| :: s[i].0 != s[j].0
  }

  predicate Has<K(==), V>(s: List<K, V>, k: K) {
    exists i | 0 <= i < |s| :: s[i].0 == k
  }

  function Lookup<K(==), V>(s: List<K, V>, k: K): Option<V> {
    if s == [] then None else if s[0].0 == k then Some(s[0].1) else Lookup(s[1..], k)
  }

  function Without<K(==), V>(s: List<K, V>, k: K): List<K, V> {
    if s == [] then [] else if s[0].0 == k then s[1..] else [s[0]] + Without(s[1..], k)
  }

  // A hit moves the pair to the front; a miss changes nothing.
  function Touch<K(==), V>(s: List<K, V>, k: K): List<K, V> {
    match Lookup(s, k)
    case Some(v) => [(k, v)] + Without(s, k)
    case None => s
  }

  // A known key is replaced and moved to the front; a new key is put in front
  // once a full list has given up its least recently used pair.
  function Put<K(==), V>(s: List<K, V>, cap: nat, k: K, v: V): List<K, V> {
    if Has(s, k) then [(k, v)] + Without(s, k)
    else if |s| >= cap && s != [] then [(k, v)] + s[..|s| - 1]
    else [(k, v)] + s
  }

  // The pairs `keep` holds of, in order.
  function Filter<K, V>(s: List<K, V>, keep: (K, V) -> bool): List<K, V> {
    if s == [] then []
    else if keep(s[0].0, s[0].1) then [s[0]] + Filter(s[1..], keep)
    else Filter(s[1..], keep)
  }

  lemma {:induction false} LookupAt<K, V>(s: List<K, V>, p: nat)
    requires Distinct(s) && p < |s|
    ensures Lookup(s, s[p].0) == Some(s[p].1)
    ensures Without(s, s[p].0) == s[..p] + s[p + 1..]
  {
    if p > 0 {
      LookupAt(s[1..], p - 1);
      assert s[1..][..p - 1] == s[1..p];
      assert s[1..][p..] == s[p + 1..];
      assert s[..p] == [s[0]] + s[1..p];
    }
  }

  lemma {:induction false} LookupAbsent<K, V>(s: List<K, V>, k: K)
    requires !Has(s, k)
    ensures Lookup(s, k) == None && Without(s, k) == s
  {
    if s != [] {
      assert forall i | 0 <= i < |s| - 1 :: s[1..][i] == s[i + 1];
      LookupAbsent(s[1..], k);
    }
  }

  // `Lookup` finds exactly the pair filed under the key.
  lemma {:induction false} LookupIff<K, V>(s: List<K, V>, k: K, v: V)
    requires Distinct(s)
    ensures Lookup(s, k) == Some(v) <==> (k, v) in s
    ensures Lookup(s, k).None? <==> !Has(s, k)
  {
    if Has(s, k) {
      var p :| 0 <= p < |s| && s[p].0 == k;
      LookupAt(s, p);
      if (k, v) in s {
        var q :| 0 <= q < |s| && s[q] == (k, v);
        assert p == q;
      }
    } else {
      LookupAbsent(s, k);
    }
  }

  lemma CutMembers<K, V>(s: List<K, V>, w: List<K, V>, p: nat)
    requires Distinct(s) && p < |s| && w == s[..p] + s[p + 1..]
    ensures Distinct(w)
    ensures forall x | x in w :: x in s && x.0 != s[p].0
    ensures forall x | x in s && x.0 != s[p].0 :: x in w
  {
    assert forall i | 0 <= i < |w| :: w[i] == s[if i < p then i else i + 1];
    forall x | x in s && x.0 != s[p].0 ensures x in w {
      var q :| 0 <= q < |s| && s[q] == x;
      assert w[if q < p then q else q - 1] == x;
    }
  }

  lemma {:induction false} WithoutMembers<K, V>(s: List<K, V>, k: K)
    requires Distinct(s)
    ensures Distinct(Without(s, k)) && !Has(Without(s, k), k)
    ensures forall x | x in Without(s, k) :: x in s && x.0 != k
    ensures forall x | x in s && x.0 != k :: x in Without(s, k)
    ensures |Without(s, k)| == |s| - (if Has(s, k) then 1 else 0)
  {
    if Has(s, k) {
      var p :| 0 <= p < |s| && s[p].0 == k;
      LookupAt(s, p);
      CutMembers(s, Without(s, k), p);
      assert forall i | 0 <= i < |Without(s, k)| :: Without(s, k)[i] in Without(s, k);
    } else {
      LookupAbsent(s, k);
    }
  }

  lemma {:induction false} FilterMembers<K, V>(s: List<K, V>, keep: (K, V) -> bool)
    requires Distinct(s)
    ensures Distinct(Filter(s, keep)) && |Filter(s, keep)| <= |s|
    ensures forall x | x in Filter(s, keep) :: x in s && keep(x.0, x.1)
    ensures forall x | x in s && keep(x.0, x.1) :: x in Filter(s, keep)
  {
    if s != [] {
      var rest := Filter(s[1..], keep);
      FilterMembers(s[1..], keep);
      assert s == [s[0]] + s[1..];
      forall i | 0 <= i < |rest| ensures rest[i].0 != s[0].0 {
        var x := rest[i];
        assert x in rest;
        assert x in s[1..];
        var q :| 0 <= q < |s[1..]| && s[1..][q] == rest[i];
        assert s[q + 1] == rest[i];
      }
    }
  }

  // What every operation keeps: distinct keys and the capacity; and where a
  // pair of the result can come from.
  lemma TouchKeeps<K, V>(s: List<K, V>, k: K)
    requires Distinct(s)
    ensures Distinct(Touch(s, k)) && |Touch(s, k)| == |s|
    ensures forall x | x in Touch(s, k) :: x in s
    ensures forall x | x in s :: x in Touch(s, k)
  {
    match Lookup(s, k)
    case Some(v) => {
      LookupIff(s, k, v);
      WithoutMembers(s, k);
      forall x | x in s ensures x in Touch(s, k) {
        if x.0 == k { LookupIff(s, k, x.1); }
      }
    }
    case None =>
  }

  lemma PutKeeps<K, V>(s: List<K, V>, cap: nat, k: K, v: V)
    requires Distinct(s) && 0 < cap && |s| <= cap
    ensures Distinct(Put(s, cap, k, v)) && |Put(s, cap, k, v)| <= cap
    ensures forall x | x in Put(s, cap, k, v) :: x == (k, v) || (x in s && x.0 != k)
    ensures Put(s, cap, k, v)[0] == (k, v)
  {
    if Has(s, k) {
      WithoutMembers(s, k);
      var w := Without(s, k);
      assert forall i | 0 <= i < |w| :: w[i] in w && w[i].0 != k;
    }
  }

  // The keys used more recently than `k`.
  ghost function Ahead<K(!new), V>(s: List<K, V>, k: K): set<K> {
    if s == [] || s[0].0 == k then {} else {s[0].0} + Ahead(s[1..], k)
  }

  lemma {:induction false} AheadKeys<K(!new), V>(s: List<K, V>, k: K)
    requires Distinct(s)
    ensures forall x | x in Ahead(s, k) :: x != k && Has(s, x)
    ensures s != [] && s[|s| - 1].0 == k ==> |Ahead(s, k)| == |s| - 1
  {
    if s != [] && s[0].0 != k {
      AheadKeys(s[1..], k);
      forall x | x in Ahead(s[1..], k) ensures x != s[0].0 && Has(s, x) {
        var i :| 0 <= i < |s[1..]| && s[1..][i].0 == x;
        assert s[i + 1].0 == x;
      }
    }
  }

  lemma {:induction false} AheadWithout<K(!new), V>(s: List<K, V>, k: K, k2: K)
    requires Distinct(s) && k2 != k
    ensures Ahead(Without(s, k2), k) <= Ahead(s, k)
  {
    if s != [] && s[0].0 != k && s[0].0 != k2 {
      AheadWithout(s[1..], k, k2);
      assert Without(s, k2)[1..] == Without(s[1..], k2);
    }
  }

  lemma {:induction false} AheadFilter<K(!new), V>(s: List<K, V>, k: K, keep: (K, V) -> bool)
    requires forall x | x in s && x.0 == k :: keep(x.0, x.1)
    ensures Ahead(Filter(s, keep), k) <= Ahead(s, k)
  {
    if s != [] {
      assert s[0] in s && forall x | x in s[1..] :: x in s;
      AheadFilter(s[1..], k, keep);
      if keep(s[0].0, s[0].1) {
        assert Filter(s, keep)[1..] == Filter(s[1..], keep);
      }
    }
  }

  lemma {:induction false} AheadShort<K(!new), V>(s: List<K, V>, k: K)
    requires s != []
    ensures Ahead(s[..|s| - 1], k) <= Ahead(s, k)
  {
    if s[0].0 != k && |s| > 1 {
      AheadShort(s[1..], k);
      assert s[..|s| - 1][1..] == s[1..][..|s| - 2];
    }
  }

  lemma SubsetSize<T>(a: set<T>, b: set<T>)
    requires a <= b
    ensures |a| <= |b|
    ensures |a| == |b| ==> a == b
  {
    assert b == a + (b - a) && |b - a| == |b| - |a|;
  }
}
