// The TTL cache as an object over the slab-backed map, one method per critical
// section. Clock readings are parameters; an in-flight cell is an identity.
module TtlCache {
  import opened Options
  import opened CacheSpec
  import R = Recency
  import L = LruMap

  // The keys of the entries not to keep, in order, and the list left
  // once they have been popped one by one.
  function Matching<K, V>(s: R.List<K, V>, keep: (K, V) -> bool): seq<K> {
    if s == [] then []
    else if !keep(s[0].0, s[0].1) then [s[0].0] + Matching(s[1..], keep)
    else Matching(s[1..], keep)
  }

  function PopAll<K(==), V>(s: R.List<K, V>, keys: seq<K>): R.List<K, V>
    decreases keys
  {
    if keys == [] then s else PopAll(R.Without(s, keys[0]), keys[1..])
  }

  lemma {:induction false} PopAllBehind<K, V>(x: (K, V), s: R.List<K, V>, keys: seq<K>)
    requires x.0 !in keys
    ensures PopAll([x] + s, keys) == [x] + PopAll(s, keys)
    decreases keys
  {
    if keys != [] {
      assert ([x] + s)[1..] == s;
      PopAllBehind(x, R.Without(s, keys[0]), keys[1..]);
    }
  }

  lemma {:induction false} MatchingKeys<K, V>(s: R.List<K, V>, keep: (K, V) -> bool)
    ensures forall k | k in Matching(s, keep) :: R.Has(s, k)
    ensures |Matching(s, keep)| + |R.Filter(s, keep)| == |s|
  {
    if s != [] {
      MatchingKeys(s[1..], keep);
      forall k | k in Matching(s[1..], keep) ensures R.Has(s, k) {
        var i :| 0 <= i < |s[1..]| && s[1..][i].0 == k;
        assert s[i + 1].0 == k;
      }
    }
  }

  // Collect the matching keys, then pop each: exactly the rest is left, in order.
  lemma {:induction false} PopAllMatching<K, V>(s: R.List<K, V>, keep: (K, V) -> bool)
    requires R.Distinct(s)
    ensures PopAll(s, Matching(s, keep)) == R.Filter(s, keep)
  {
    if s != [] {
      PopAllMatching(s[1..], keep);
      if keep(s[0].0, s[0].1) {
        MatchingKeys(s[1..], keep);
        assert s == [s[0]] + s[1..];
        PopAllBehind(s[0], s[1..], Matching(s[1..], keep));
      }
    }
  }

  lemma {:induction false} PopAllLast<K, V>(s: R.List<K, V>, keys: seq<K>)
    requires keys != []
    ensures PopAll(s, keys) == R.Without(PopAll(s, keys[..|keys| - 1]), keys[|keys| - 1])
    decreases keys
  {
    if |keys| > 1 {
      assert keys[1..][..|keys| - 2] == keys[..|keys| - 1][1..];
      PopAllLast(R.Without(s, keys[0]), keys[1..]);
    }
  }

  lemma WithoutTouched<K, V>(s: R.List<K, V>, k: K)
    ensures R.Without(R.Touch(s, k), k) == R.Without(s, k)
  {
  }

  method Collect<K, V>(entries: R.List<K, V>, keep: (K, V) -> bool) returns (keys: seq<K>)
    ensures keys == Matching(entries, keep)
  {
    keys := [];
    for i := 0 to |entries|
      invariant keys + Matching(entries[i..], keep) == Matching(entries, keep)
    {
      assert entries[i..][1..] == entries[i + 1..];
      if !keep(entries[i].0, entries[i].1) {
        keys := keys + [entries[i].0];
      }
    }
  }

  class ClockTtlCache<K(==), V, C(==)> {
    const inner: L.LruMap<K, Entry<V>>
    var inflight: map<K, C>
    const ttlMicros: nat

    ghost predicate Valid()
      reads this, inner
    {
      inner.Valid()
    }

    ghost function View(): Cache<K, V, C>
      requires Valid()
      reads this, inner
    {
      Cache(inner.Contents(), inflight)
    }

    constructor (capacity: nat, ttl: nat)
      requires 0 < capacity <= L.NIL
      ensures Valid() && fresh(inner) && View() == Cache([], map[])
      ensures inner.cap == capacity && ttlMicros == ttl
    {
      inner := new L.LruMap(capacity);
      inflight := map[];
      ttlMicros := ttl;
    }

    method Get(key: K, now: Micros) returns (r: Option<V>)
      requires Valid()
      modifies inner
      ensures Valid() && r == Answer(old(View()).lru, key, now)
      ensures View() == old(View()).(lru := AfterGet(old(View()).lru, key, now))
    {
      WithoutTouched(View().lru, key);
      var found := inner.Get(key);
      if found.Some? && found.value.expires > now {
        return Some(found.value.value);
      }
      var _ := inner.Pop(key);
      r := None;
    }

    method Insert(key: K, value: V, now: Micros)
      requires Valid()
      modifies inner
      ensures Valid()
      ensures View() == old(View()).(lru := AfterInsert(old(View()).lru, inner.cap, ttlMicros, key, value, now))
      ensures forall later ::
                Answer(View().lru, key, later) == if Within(now, ttlMicros, later) then Some(value) else None
    {
      forall later {
        InsertAnswers(View().lru, inner.cap, ttlMicros, key, value, now, later);
      }
      var ttl := if ttlMicros <= I64_MAX then ttlMicros else I64_MAX;
      var expires := if now + ttl <= I64_MAX then now + ttl else I64_MAX;
      assert expires == Expiry(now, ttlMicros);
      inner.Put(key, Entry(value, expires));
    }

    // The two critical sections of `invalidate`, in-flight first.
    method InvalidateInflight(key: K) returns (removed: bool)
      requires Valid()
      modifies `inflight
      ensures Valid() && removed == (key in old(inflight))
      ensures View() == old(View()).(inflight := UnmatchedCells(old(inflight), k => k == key))
    {
      removed := key in inflight;
      inflight := inflight - {key};
    }

    method InvalidateEntry(key: K) returns (removed: bool)
      requires Valid()
      modifies inner
      ensures Valid() && removed == R.Lookup(old(View()).lru, key).Some?
      ensures View() == old(View()).(lru := R.Without(old(View()).lru, key))
    {
      var popped := inner.Pop(key);
      removed := popped.Some?;
    }

    method Invalidate(key: K) returns (removed: bool)
      requires Valid()
      modifies this, inner
      ensures Valid()
      ensures removed == (key in old(inflight) || R.Lookup(old(View()).lru, key).Some?)
      ensures View() == Cache(R.Without(old(View()).lru, key), UnmatchedCells(old(inflight), k => k == key))
    {
      var inflightRemoved := InvalidateInflight(key);
      var entryRemoved := InvalidateEntry(key);
      removed := inflightRemoved || entryRemoved;
    }

    method InvalidateBy(matches: K -> bool) returns (count: nat)
      requires Valid()
      modifies this, inner
      ensures Valid()
      ensures View() == Cache(Unmatched(old(View()).lru, matches), UnmatchedCells(old(inflight), matches))
      ensures count == |old(View()).lru| - |View().lru|
    {
      inflight := inflight - (set k | k in inflight && matches(k));
      count := PopUnless((k, e) => !matches(k));
    }

    method InvalidateEntriesBy(matches: (K, V) -> bool) returns (count: nat)
      requires Valid()
      modifies inner
      ensures Valid()
      ensures View() == old(View()).(lru := R.Filter(old(View()).lru, (k, e: Entry<V>) => !matches(k, e.value)))
      ensures count == |old(View()).lru| - |View().lru|
    {
      count := PopUnless((k, e: Entry<V>) => !matches(k, e.value));
    }

    method InvalidateAll() returns (count: nat)
      requires Valid()
      modifies this, inner
      ensures Valid() && View() == Cache([], map[]) && count == |old(View()).lru|
    {
      inflight := map[];
      count := inner.Len();
      inner.Clear();
    }

    method CleanupExpired(now: Micros) returns (count: nat)
      requires Valid()
      modifies inner
      ensures Valid()
      ensures View() == old(View()).(lru := Unexpired(old(View()).lru, now))
      ensures count == |old(View()).lru| - |View().lru|
    {
      count := PopUnless((k, e: Entry<V>) => e.expires > now);
    }

    // The collect-then-pop loop of the three sweeping operations.
    method PopUnless(keep: (K, Entry<V>) -> bool) returns (count: nat)
      requires Valid()
      modifies inner
      ensures Valid()
      ensures View() == old(View()).(lru := R.Filter(old(View()).lru, keep))
      ensures count == |old(View()).lru| - |View().lru|
    {
      var entries := inner.Entries();
      var toRemove := Collect(entries, keep);
      count := |toRemove|;
      inner.KeysDistinct();
      PopAllMatching(entries, keep);
      MatchingKeys(entries, keep);
      PopKeys(toRemove);
    }

    method PopKeys(keys: seq<K>)
      requires Valid()
      modifies inner
      ensures Valid() && inner.Contents() == PopAll(old(inner.Contents()), keys)
    {
      for i := 0 to |keys|
        invariant inner.Valid() && inner.Contents() == PopAll(old(inner.Contents()), keys[..i])
      {
        PopAllLast(old(inner.Contents()), keys[..i + 1]);
        assert keys[..i + 1][..i] == keys[..i];
        var _ := inner.Pop(keys[i]);
      }
      assert keys[..|keys|] == keys;
    }

    // The critical sections of a load.
    // Afterwards the key's slot holds the cell returned, the one that was
    // there if there was one; no other slot and no entry changes.
    method ClaimOrJoin(key: K, blank: C) returns (cell: C, joined: bool)
      requires Valid()
      modifies `inflight
      ensures Valid() && joined == (key in old(inflight))
      ensures (View(), cell) == Claim(old(View()), key, blank)
      ensures key in inflight && inflight[key] == cell && View().lru == old(View()).lru
      ensures joined ==> inflight == old(inflight)
      ensures inflight - {key} == old(inflight) - {key}
    {
      joined := key in inflight;
      if joined {
        cell := inflight[key];
      } else {
        cell := blank;
        inflight := inflight[key := cell];
      }
    }

    method PublishLoaded(key: K, cell: C, value: V, now: Micros)
      requires Valid()
      modifies this, inner
      ensures Valid()
      ensures View() == Publish(old(View()), inner.cap, ttlMicros, key, cell, value, now)
    {
      if key in inflight && inflight[key] == cell {
        Insert(key, value, now);
        inflight := inflight - {key};
      }
    }

    // The slot is empty afterwards if it held this cell and nobody else counts
    // on it; a slot that holds another cell, every other slot and the entries
    // stay.
    method DropGuard(key: K, cell: C, strongCount: nat)
      requires Valid()
      modifies `inflight
      ensures Valid() && View() == GuardDrop(old(View()), key, cell, strongCount)
      ensures View().lru == old(View()).lru && inflight - {key} == old(inflight) - {key}
      ensures key in inflight <==> key in old(inflight) && (old(inflight)[key] != cell || strongCount > IDLE_CELL_REFS)
      ensures key in inflight ==> inflight[key] == old(inflight)[key]
    {
      if key in inflight && inflight[key] == cell && strongCount <= IDLE_CELL_REFS {
        inflight := inflight - {key};
      }
    }
  }
}
