// What the TTL cache's critical sections do to its two maps, on values: the
// recency list of entries and the in-flight cells. The class of module
// TtlCache is proved against these functions and the concurrent protocol of
// module SingleFlight is made of them.
module CacheSpec {
  import opened Options
  import R = Recency

  const I64_MAX: int := 0x7FFF_FFFF_FFFF_FFFF

  // A timestamp in microseconds since the epoch.
  type Micros = x: int | -0x8000_0000_0000_0000 <= x <= 0x7FFF_FFFF_FFFF_FFFF

  datatype Entry<V> = Entry(value: V, expires: Micros)

  datatype Cache<K, V, C> = Cache(lru: R.List<K, Entry<V>>, inflight: map<K, C>)

  // `now + ttl`, saturating: a TTL past i64 microseconds never expires.
  function Expiry(now: Micros, ttl: nat): Micros {
    var micros := if ttl <= I64_MAX then ttl else I64_MAX;
    if now + micros <= I64_MAX then now + micros else I64_MAX
  }

  // The value a lookup answers: present and not yet expired, the expiry
  // instant itself excluded.
  function Answer<K(==), V>(s: R.List<K, Entry<V>>, k: K, now: Micros): Option<V> {
    match R.Lookup(s, k)
    case Some(e) => if e.expires > now then Some(e.value) else None
    case None => None
  }

  // A hit becomes most recently used, a stale entry is removed.
  function AfterGet<K(==), V>(s: R.List<K, Entry<V>>, k: K, now: Micros): R.List<K, Entry<V>> {
    if Answer(s, k, now).Some? then R.Touch(s, k) else R.Without(s, k)
  }

  function AfterInsert<K(==), V>(s: R.List<K, Entry<V>>, cap: nat, ttl: nat, k: K, v: V, now: Micros)
    : R.List<K, Entry<V>>
  {
    R.Put(s, cap, k, Entry(v, Expiry(now, ttl)))
  }

  function Unexpired<K, V>(s: R.List<K, Entry<V>>, now: Micros): R.List<K, Entry<V>> {
    R.Filter(s, (k, e: Entry<V>) => e.expires > now)
  }

  function Unmatched<K, V>(s: R.List<K, Entry<V>>, matches: K -> bool): R.List<K, Entry<V>> {
    R.Filter(s, (k, e) => !matches(k))
  }

  function UnmatchedCells<K, C>(inflight: map<K, C>, matches: K -> bool): map<K, C> {
    map k | k in inflight && !matches(k) :: inflight[k]
  }

  // Invalidating one key, or everything, is the predicate form of it.
  lemma {:induction false} KeyIsPredicate<K, V>(s: R.List<K, Entry<V>>, k: K, one: K -> bool, all: K -> bool)
    requires R.Distinct(s) && (forall x | x in s :: one(x.0) == (x.0 == k) && all(x.0))
    ensures R.Without(s, k) == Unmatched(s, one)
    ensures Unmatched(s, all) == []
  {
    if s != [] {
      assert s[0] in s;
      KeyIsPredicate(s[1..], k, one, all);
      if s[0].0 == k {
        assert !R.Has(s[1..], k);
        R.LookupAbsent(s[1..], k);
      }
    }
  }

  // Under the in-flight lock: join the cell filed under the key, or file `blank`.
  function Claim<K, V, C>(c: Cache<K, V, C>, k: K, blank: C): (Cache<K, V, C>, C) {
    if k in c.inflight then (c, c.inflight[k]) else (c.(inflight := c.inflight[k := blank]), blank)
  }

  // Under the in-flight lock: promote the value and free the slot, but only
  // while the slot still holds this very cell.
  function Publish<K, V, C(==)>(c: Cache<K, V, C>, cap: nat, ttl: nat, k: K, cell: C, v: V, now: Micros)
    : Cache<K, V, C>
  {
    if k in c.inflight && c.inflight[k] == cell
    then Cache(AfterInsert(c.lru, cap, ttl, k, v, now), c.inflight - {k})
    else c
  }

  // The map's reference, the caller's own and its guard's.
  const IDLE_CELL_REFS: nat := 3

  // Under the in-flight lock: free the slot if it holds this cell and the
  // reference count shows no other participant.
  function GuardDrop<K, V, C(==)>(c: Cache<K, V, C>, k: K, cell: C, strongCount: nat): Cache<K, V, C> {
    if k in c.inflight && c.inflight[k] == cell && strongCount <= IDLE_CELL_REFS
    then c.(inflight := c.inflight - {k})
    else c
  }

  // A load from claim to leaving. Whoever claims next joins the same cell; the
  // first publication files the value and frees the slot, and a second one
  // does nothing; a load that publishes nothing and is alone leaves the cache
  // as it found it.
  lemma LoadRoundTrip<K, V, C>(c: Cache<K, V, C>, cap: nat, ttl: nat, k: K, blank: C, other: C, v: V, now: Micros,
                               count: nat)
    ensures var (held, cell) := Claim(c, k, blank);
            && k in held.inflight && held.inflight[k] == cell && held.lru == c.lru
            && Claim(held, k, other) == (held, cell)
            && var done := Publish(held, cap, ttl, k, cell, v, now);
            && k !in done.inflight && done.lru == AfterInsert(c.lru, cap, ttl, k, v, now)
            && Publish(done, cap, ttl, k, cell, v, now) == done && GuardDrop(done, k, cell, count) == done
            && (k !in c.inflight ==>
                  && done.inflight == c.inflight
                  && GuardDrop(held, k, cell, count) == if count <= IDLE_CELL_REFS then c else held)
  {
    assert k !in c.inflight ==> c.inflight[k := blank] - {k} == c.inflight;
  }

  // An invalidation in between wins: the slot no longer holds the cell, so
  // neither publishing nor leaving touches the cache, whoever claimed the slot
  // anew.
  lemma InvalidatedLoad<K, V, C>(c: Cache<K, V, C>, cap: nat, ttl: nat, k: K, cell: C, anew: C, matches: K -> bool,
                                 v: V, now: Micros, count: nat)
    requires matches(k) && anew != cell
    ensures var gone := c.(inflight := UnmatchedCells(c.inflight, matches));
            var next := Claim(gone, k, anew).0;
            && Publish(gone, cap, ttl, k, cell, v, now) == gone && GuardDrop(gone, k, cell, count) == gone
            && Publish(next, cap, ttl, k, cell, v, now) == next && GuardDrop(next, k, cell, count) == next
  {
  }

  // ---- Runs of the time-dependent operations ----

  datatype Op<!K, !V> =
    | Get(key: K, now: Micros)
    | Insert(key: K, value: V, now: Micros)
    | Invalidate(key: K)
    | InvalidateBy(matches: K -> bool)
    | InvalidateEntriesBy(matchesEntry: (K, V) -> bool)
    | InvalidateAll
    | CleanupExpired(now: Micros)

  function Apply<K(==), V>(s: R.List<K, Entry<V>>, cap: nat, ttl: nat, op: Op<K, V>): R.List<K, Entry<V>> {
    match op
    case Get(k, now) => AfterGet(s, k, now)
    case Insert(k, v, now) => AfterInsert(s, cap, ttl, k, v, now)
    case Invalidate(k) => R.Without(s, k)
    case InvalidateBy(m) => Unmatched(s, m)
    case InvalidateEntriesBy(m) => R.Filter(s, (k, e: Entry<V>) => !m(k, e.value))
    case InvalidateAll => []
    case CleanupExpired(now) => Unexpired(s, now)
  }

  function Exec<K(==), V>(cap: nat, ttl: nat, ops: seq<Op<K, V>>): R.List<K, Entry<V>> {
    if ops == [] then [] else Apply(Exec(cap, ttl, ops[..|ops| - 1]), cap, ttl, ops[|ops| - 1])
  }

  // The operation ends the life of the entry under `k`: overwrites it,
  // invalidates it, or looks at it at or past its expiry.
  predicate Ends<K(==), V>(op: Op<K, V>, k: K, e: Entry<V>) {
    match op
    case Get(k2, now) => k2 == k && e.expires <= now
    case Insert(k2, _, _) => k2 == k
    case Invalidate(k2) => k2 == k
    case InvalidateBy(m) => m(k)
    case InvalidateEntriesBy(m) => m(k, e.value)
    case InvalidateAll => true
    case CleanupExpired(now) => e.expires <= now
  }

  lemma ApplyKeeps<K, V>(s: R.List<K, Entry<V>>, cap: nat, ttl: nat, op: Op<K, V>)
    requires R.Distinct(s) && 0 < cap && |s| <= cap
    ensures R.Distinct(Apply(s, cap, ttl, op)) && |Apply(s, cap, ttl, op)| <= cap
    ensures forall x | x in Apply(s, cap, ttl, op) ::
              || (x in s && !Ends(op, x.0, x.1))
              || (op.Insert? && x == (op.key, Entry(op.value, Expiry(op.now, ttl))))
  {
    match op
    case Get(k, now) =>
      R.TouchKeeps(s, k);
      R.WithoutMembers(s, k);
      forall x | x in Apply(s, cap, ttl, op) ensures x in s && !Ends(op, x.0, x.1) {
        R.LookupIff(s, x.0, x.1);
      }
    case Insert(k, v, now) => R.PutKeeps(s, cap, k, Entry(v, Expiry(now, ttl)));
    case Invalidate(k) => R.WithoutMembers(s, k);
    case InvalidateBy(m) => R.FilterMembers(s, (k, e) => !m(k));
    case InvalidateEntriesBy(m) => R.FilterMembers(s, (k, e: Entry<V>) => !m(k, e.value));
    case InvalidateAll =>
    case CleanupExpired(now) => R.FilterMembers(s, (k, e: Entry<V>) => e.expires > now);
  }

  // The run inserted this entry at step `i` and nothing since has ended it.
  ghost predicate LiveSince<K, V>(ops: seq<Op<K, V>>, ttl: nat, k: K, e: Entry<V>, i: nat) {
    && i < |ops|
    && ops[i].Insert? && ops[i].key == k && e == Entry(ops[i].value, Expiry(ops[i].now, ttl))
    && forall j | i < j < |ops| :: !Ends(ops[j], k, e)
  }

  lemma {:induction false} ExecInv<K, V>(cap: nat, ttl: nat, ops: seq<Op<K, V>>)
    requires 0 < cap
    ensures R.Distinct(Exec(cap, ttl, ops)) && |Exec(cap, ttl, ops)| <= cap
    ensures forall x | x in Exec(cap, ttl, ops) :: exists i :: LiveSince(ops, ttl, x.0, x.1, i)
  {
    if ops != [] {
      var n := |ops| - 1;
      var before := Exec(cap, ttl, ops[..n]);
      ExecInv(cap, ttl, ops[..n]);
      ApplyKeeps(before, cap, ttl, ops[n]);
      forall x | x in Exec(cap, ttl, ops) ensures exists i :: LiveSince(ops, ttl, x.0, x.1, i) {
        if x in before && !Ends(ops[n], x.0, x.1) {
          var i :| LiveSince(ops[..n], ttl, x.0, x.1, i);
          assert forall j | 0 <= j < n :: ops[..n][j] == ops[j];
          assert LiveSince(ops, ttl, x.0, x.1, i);
        } else {
          assert LiveSince(ops, ttl, x.0, x.1, n);
        }
      }
    }
  }

  // However the clock jumps between calls: a lookup after any run answers only
  // a value that was inserted under the key, strictly before the saturated
  // insert time plus TTL, and that no later operation overwrote, invalidated
  // or found expired.
  lemma AnswersAreLive<K, V>(cap: nat, ttl: nat, ops: seq<Op<K, V>>, k: K, now: Micros)
    requires 0 < cap && Answer(Exec(cap, ttl, ops), k, now).Some?
    ensures exists i, e: Entry<V> ::
              && LiveSince(ops, ttl, k, e, i)
              && Answer(Exec(cap, ttl, ops), k, now) == Some(e.value)
              && now < e.expires
  {
    var s := Exec(cap, ttl, ops);
    ExecInv(cap, ttl, ops);
    var e := R.Lookup(s, k).value;
    R.LookupIff(s, k, e);
    var x := (k, e);
    var i :| LiveSince(ops, ttl, x.0, x.1, i);
  }

  // Besides `k`, the run looks up or inserts only keys of `used` after `u`.
  ghost predicate UsesOnly<K(!new), V>(ops: seq<Op<K, V>>, u: nat, k: K, used: set<K>) {
    forall j | u < j < |ops| && (ops[j].Get? || ops[j].Insert?) && ops[j].key != k :: ops[j].key in used
  }

  // `k` still has its entry, with only keys of `used` more recent.
  ghost predicate Kept<K(!new), V>(s: R.List<K, Entry<V>>, k: K, e: Entry<V>, used: set<K>) {
    (k, e) in s && R.Ahead(s, k) <= used
  }

  lemma GetRetains<K(!new), V>(s: R.List<K, Entry<V>>, k2: K, now: Micros, k: K, e: Entry<V>, used: set<K>)
    requires R.Distinct(s) && Kept(s, k, e, used) && (if k2 == k then now < e.expires else k2 in used)
    ensures Kept(AfterGet(s, k2, now), k, e, used)
  {
    R.LookupIff(s, k, e);
    R.TouchKeeps(s, k2);
    R.WithoutMembers(s, k2);
    if k2 != k {
      R.AheadWithout(s, k, k2);
      var front := R.Touch(s, k2);
      if R.Lookup(s, k2).Some? { assert front[1..] == R.Without(s, k2); }
    }
  }

  lemma InsertRetains<K(!new), V>(s: R.List<K, Entry<V>>, cap: nat, k2: K, e2: Entry<V>, k: K, e: Entry<V>,
                                  used: set<K>)
    requires R.Distinct(s) && 0 < cap && |s| <= cap && Kept(s, k, e, used) && k2 != k && k2 in used && |used| < cap
    ensures Kept(R.Put(s, cap, k2, e2), k, e, used)
  {
    R.WithoutMembers(s, k2);
    R.AheadWithout(s, k, k2);
    var after := R.Put(s, cap, k2, e2);
    if R.Has(s, k2) {
      assert after[1..] == R.Without(s, k2);
    } else if |s| >= cap {
      EvictsAnother(s, cap, k2, k, e, used);
      R.AheadShort(s, k);
      assert after[1..] == s[..|s| - 1];
    } else {
      assert after[1..] == s;
    }
  }

  lemma FilterRetains<K(!new), V>(s: R.List<K, Entry<V>>, keep: (K, Entry<V>) -> bool, k: K, e: Entry<V>, used: set<K>)
    requires R.Distinct(s) && Kept(s, k, e, used) && keep(k, e)
    ensures Kept(R.Filter(s, keep), k, e, used)
  {
    OnlyEntry(s, k, e);
    R.FilterMembers(s, keep);
    R.AheadFilter(s, k, keep);
  }

  lemma ApplyRetains<K(!new), V>(s: R.List<K, Entry<V>>, cap: nat, ttl: nat, op: Op<K, V>, k: K, e: Entry<V>,
                                 used: set<K>)
    requires R.Distinct(s) && 0 < cap && |s| <= cap && Kept(s, k, e, used) && !Ends(op, k, e)
    requires ((op.Get? || op.Insert?) && op.key != k ==> op.key in used) && |used| < cap
    ensures Kept(Apply(s, cap, ttl, op), k, e, used)
  {
    match op
    case Get(k2, now) => GetRetains(s, k2, now, k, e, used);
    case Insert(k2, v, now) => InsertRetains(s, cap, k2, Entry(v, Expiry(now, ttl)), k, e, used);
    case Invalidate(k2) =>
      R.WithoutMembers(s, k2);
      R.AheadWithout(s, k, k2);
    case InvalidateBy(m) => FilterRetains(s, (k, e) => !m(k), k, e, used);
    case InvalidateEntriesBy(m) => FilterRetains(s, (k, e: Entry<V>) => !m(k, e.value), k, e, used);
    case CleanupExpired(now) => FilterRetains(s, (k, e: Entry<V>) => e.expires > now, k, e, used);
  }

  lemma OnlyEntry<K, V>(s: R.List<K, Entry<V>>, k: K, e: Entry<V>)
    requires R.Distinct(s) && (k, e) in s
    ensures forall x | x in s && x.0 == k :: x == (k, e)
  {
  }

  // A full list gives up some other entry while fewer than `cap` keys were
  // used since `k` was.
  lemma EvictsAnother<K(!new), V>(s: R.List<K, Entry<V>>, cap: nat, k2: K, k: K, e: Entry<V>, used: set<K>)
    requires R.Distinct(s) && 0 < cap == |s| && (k, e) in s && !R.Has(s, k2) && k2 in used
    requires R.Ahead(s, k) <= used && |used| < cap
    ensures (k, e) in s[..|s| - 1]
  {
    R.AheadKeys(s, k);
    var last := |s| - 1;
    if s[last].0 == k {
      var used2 := R.Ahead(s, k) + {k2};
      assert used2 <= used && |used2| == |s|;
      R.SubsetSize(used2, used);
    } else {
      var p :| 0 <= p < |s| && s[p] == (k, e);
      assert s[..last][p] == (k, e);
    }
  }

  // The operation at `u` used the entry: inserted it, or looked it up while it
  // was there and live.
  ghost predicate UsedAt<K(!new), V>(cap: nat, ttl: nat, ops: seq<Op<K, V>>, k: K, e: Entry<V>, u: nat) {
    && u < |ops|
    && (|| (ops[u].Insert? && ops[u].key == k && e == Entry(ops[u].value, Expiry(ops[u].now, ttl)))
        || (ops[u].Get? && ops[u].key == k && ops[u].now < e.expires && (k, e) in Exec(cap, ttl, ops[..u])))
  }

  // An entry just inserted or hit is in front.
  lemma JustUsed<K(!new), V>(s: R.List<K, Entry<V>>, cap: nat, ttl: nat, op: Op<K, V>, k: K, e: Entry<V>)
    requires R.Distinct(s) && 0 < cap && |s| <= cap
    requires || (op.Insert? && op.key == k && e == Entry(op.value, Expiry(op.now, ttl)))
             || (op.Get? && op.key == k && op.now < e.expires && (k, e) in s)
    ensures (k, e) in Apply(s, cap, ttl, op) && R.Ahead(Apply(s, cap, ttl, op), k) == {}
  {
    if op.Get? { R.LookupIff(s, k, e); }
    assert Apply(s, cap, ttl, op)[0] == (k, e);
  }

  // Nothing after `u` ends the entry.
  ghost predicate SparedSince<K, V>(ops: seq<Op<K, V>>, k: K, e: Entry<V>, u: nat) {
    forall j | u < j < |ops| :: !Ends(ops[j], k, e)
  }

  lemma ExecShape<K, V>(cap: nat, ttl: nat, ops: seq<Op<K, V>>)
    requires 0 < cap
    ensures R.Distinct(Exec(cap, ttl, ops)) && |Exec(cap, ttl, ops)| <= cap
  {
    ExecInv(cap, ttl, ops);
  }

  // What a run without its last operation inherits.
  lemma UsedBefore<K(!new), V>(cap: nat, ttl: nat, ops: seq<Op<K, V>>, k: K, e: Entry<V>, u: nat, used: set<K>, n: nat)
    requires UsedAt(cap, ttl, ops, k, e, u) && SparedSince(ops, k, e, u) && UsesOnly(ops, u, k, used)
    requires u < n == |ops| - 1
    ensures UsedAt(cap, ttl, ops[..n], k, e, u) && SparedSince(ops[..n], k, e, u) && UsesOnly(ops[..n], u, k, used)
    ensures !Ends(ops[n], k, e) && ((ops[n].Get? || ops[n].Insert?) && ops[n].key != k ==> ops[n].key in used)
  {
    assert ops[..n][..u] == ops[..u];
  }

  lemma {:induction false} RetainedInv<K(!new), V>(
      cap: nat, ttl: nat, ops: seq<Op<K, V>>, k: K, e: Entry<V>, u: nat, used: set<K>)
    requires 0 < cap && UsedAt(cap, ttl, ops, k, e, u) && SparedSince(ops, k, e, u)
    requires UsesOnly(ops, u, k, used) && |used| < cap
    ensures Kept(Exec(cap, ttl, ops), k, e, used)
  {
    var n := |ops| - 1;
    ExecShape(cap, ttl, ops[..n]);
    if u == n {
      JustUsed(Exec(cap, ttl, ops[..n]), cap, ttl, ops[n], k, e);
    } else {
      UsedBefore(cap, ttl, ops, k, e, u, used, n);
      RetainedInv(cap, ttl, ops[..n], k, e, u, used);
      ApplyRetains(Exec(cap, ttl, ops[..n]), cap, ttl, ops[n], k, e, used);
    }
  }

  // No early eviction: counted from the last insert or hit, while no operation
  // ends the entry and fewer keys than the capacity have been looked up or
  // inserted since, it answers at exactly the instants before its expiry.
  lemma RetainedWhileRecent<K(!new), V>(
      cap: nat, ttl: nat, ops: seq<Op<K, V>>, k: K, e: Entry<V>, u: nat, used: set<K>, now: Micros)
    requires 0 < cap && UsedAt(cap, ttl, ops, k, e, u) && SparedSince(ops, k, e, u)
    requires UsesOnly(ops, u, k, used) && |used| < cap
    ensures Answer(Exec(cap, ttl, ops), k, now) == if now < e.expires then Some(e.value) else None
  {
    RetainedInv(cap, ttl, ops, k, e, u, used);
    ExecShape(cap, ttl, ops);
    R.LookupIff(Exec(cap, ttl, ops), k, e);
  }

  // ---- The TTL in terms of the instants ----

  // The instant `later` is less than the TTL after `start`, and not the last
  // one the clock can show.
  predicate Within(start: Micros, ttl: nat, later: Micros) {
    later - start < ttl && later - start < I64_MAX && later < I64_MAX
  }

  // Straight after an insert the key answers exactly within the TTL.
  lemma InsertAnswers<K, V>(s: R.List<K, Entry<V>>, cap: nat, ttl: nat, k: K, v: V, now: Micros, later: Micros)
    ensures Answer(AfterInsert(s, cap, ttl, k, v, now), k, later) ==
            if Within(now, ttl, later) then Some(v) else None
  {
    assert AfterInsert(s, cap, ttl, k, v, now)[0] == (k, Entry(v, Expiry(now, ttl)));
  }

  // A value answered was inserted under the key less than the TTL ago, however
  // the clock jumped in between.
  lemma AnswersAreYoung<K, V>(cap: nat, ttl: nat, ops: seq<Op<K, V>>, k: K, now: Micros)
    requires 0 < cap && Answer(Exec(cap, ttl, ops), k, now).Some?
    ensures exists i | 0 <= i < |ops| ::
              && ops[i].Insert? && ops[i].key == k
              && Answer(Exec(cap, ttl, ops), k, now) == Some(ops[i].value)
              && Within(ops[i].now, ttl, now)
  {
    AnswersAreLive(cap, ttl, ops, k, now);
    var i: nat, e: Entry<V> :| LiveSince(ops, ttl, k, e, i)
                          && Answer(Exec(cap, ttl, ops), k, now) == Some(e.value) && now < e.expires;
    assert 0 <= i < |ops| && Within(ops[i].now, ttl, now);
  }

  // The operation neither overwrites nor invalidates what was inserted under
  // `k` at `start`, and does not come across it outside its TTL.
  predicate Spares<K(==), V>(op: Op<K, V>, k: K, v: V, start: Micros, ttl: nat) {
    match op
    case Get(k2, now) => k2 == k ==> Within(start, ttl, now)
    case Insert(k2, _, _) => k2 != k
    case Invalidate(k2) => k2 != k
    case InvalidateBy(m) => !m(k)
    case InvalidateEntriesBy(m) => !m(k, v)
    case InvalidateAll => false
    case CleanupExpired(now) => Within(start, ttl, now)
  }

  // And one that was spared since, with fewer keys than the capacity used
  // since, answers exactly less than the TTL after its insert.
  lemma AnswersWithinTtl<K(!new), V>(cap: nat, ttl: nat, ops: seq<Op<K, V>>, i: nat, used: set<K>, now: Micros)
    requires 0 < cap && i < |ops| && ops[i].Insert? && UsesOnly(ops, i, ops[i].key, used) && |used| < cap
    requires forall j | i < j < |ops| :: Spares(ops[j], ops[i].key, ops[i].value, ops[i].now, ttl)
    ensures Answer(Exec(cap, ttl, ops), ops[i].key, now) ==
            if Within(ops[i].now, ttl, now) then Some(ops[i].value) else None
  {
    var e := Entry(ops[i].value, Expiry(ops[i].now, ttl));
    assert forall j | i < j < |ops| :: Spares(ops[j], ops[i].key, ops[i].value, ops[i].now, ttl);
    RetainedWhileRecent(cap, ttl, ops, ops[i].key, e, i, used, now);
  }
}
