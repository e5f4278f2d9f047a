// The slab-backed LRU map: a map from key to slot, list links that are slab
// indices, and freed slots chained for reuse. Every operation is proved
// against the recency list of module Recency.
module LruMap {
  import opened Options
  import R = Recency

  // The end of the list in either direction, and of the free chain.
  const NIL: nat := 0xFFFF_FFFF_FFFF_FFFF

  datatype Node<K, V> = Node(key: K, value: V, prev: nat, next: nat)

  datatype Slot<K, V> = Live(node: Node<K, V>) | Free(nextFree: nat)

  // What a slot holds apart from its list links.
  datatype Payload<K, V> = Entry(key: K, value: V) | Hole(nextFree: nat)

  function PayloadOf<K, V>(slot: Slot<K, V>): Payload<K, V> {
    match slot
    case Live(n) => Entry(n.key, n.value)
    case Free(f) => Hole(f)
  }

  ghost predicate AllLive<K, V>(slab: seq<Slot<K, V>>, order: seq<nat>) {
    forall i | 0 <= i < |order| :: order[i] < |slab| && slab[order[i]].Live?
  }

  ghost predicate NoRepeats(s: seq<nat>) {
    forall i, j | 0 <= i < j < |s| :: s[i] != s[j]
  }

  // Head, tail and the links of both directions visit exactly `order`.
  ghost predicate Linked<K, V>(slab: seq<Slot<K, V>>, order: seq<nat>, head: nat, tail: nat) {
    && AllLive(slab, order)
    && NoRepeats(order)
    && (forall i, j | 0 <= i < j < |order| && j == i + 1 ::
          slab[order[i]].node.next == order[j] && slab[order[j]].node.prev == order[i])
    && (if order == [] then head == NIL && tail == NIL else
          && head == order[0] && slab[head].node.prev == NIL
          && tail == order[|order| - 1] && slab[tail].node.next == NIL)
  }

  // The free chain visits exactly `holes`.
  ghost predicate Chained<K, V>(slab: seq<Slot<K, V>>, holes: seq<nat>, free: nat) {
    && (forall i | 0 <= i < |holes| :: holes[i] < |slab| && slab[holes[i]].Free?)
    && NoRepeats(holes)
    && (forall i, j | 0 <= i < j < |holes| && j == i + 1 :: slab[holes[i]].nextFree == holes[j])
    && (if holes == [] then free == NIL else
          free == holes[0] && slab[holes[|holes| - 1]].nextFree == NIL)
  }

  // The index maps each listed slot's own key to it, and by count nothing else.
  ghost predicate Indexed<K, V>(slab: seq<Slot<K, V>>, order: seq<nat>, index: map<K, nat>)
    requires AllLive(slab, order)
  {
    && (forall i | 0 <= i < |order| ::
          slab[order[i]].node.key in index && index[slab[order[i]].node.key] == order[i])
    && |index| == |order|
  }

  ghost function Listed<K, V>(slab: seq<Slot<K, V>>, order: seq<nat>): (s: R.List<K, V>)
    requires AllLive(slab, order)
    ensures |s| == |order|
  {
    seq(|order|, i requires 0 <= i < |order| => (slab[order[i]].node.key, slab[order[i]].node.value))
  }

  ghost predicate SamePayloads<K, V>(a: seq<Slot<K, V>>, b: seq<Slot<K, V>>) {
    |a| == |b| && forall i | 0 <= i < |a| :: PayloadOf(a[i]) == PayloadOf(b[i])
  }

  // Listing, index and free chain depend on the payloads only, not on the links.
  lemma LinksDoNotMatter<K, V>(a: seq<Slot<K, V>>, b: seq<Slot<K, V>>, order: seq<nat>, index: map<K, nat>)
    requires AllLive(a, order) && Indexed(a, order, index) && SamePayloads(a, b)
    ensures AllLive(b, order) && Indexed(b, order, index) && Listed(a, order) == Listed(b, order)
  {
    forall i | 0 <= i < |order| ensures b[order[i]].Live? && b[order[i]].node.key == a[order[i]].node.key {
      assert PayloadOf(a[order[i]]) == PayloadOf(b[order[i]]);
    }
    forall i | 0 <= i < |order| ensures Listed(a, order)[i] == Listed(b, order)[i] {
      assert PayloadOf(a[order[i]]) == PayloadOf(b[order[i]]);
    }
  }

  lemma ChainStays<K, V>(a: seq<Slot<K, V>>, b: seq<Slot<K, V>>, holes: seq<nat>, free: nat)
    requires Chained(a, holes, free) && SamePayloads(a, b)
    ensures Chained(b, holes, free)
  {
    forall i | 0 <= i < |holes| ensures b[holes[i]] == a[holes[i]] {
      assert PayloadOf(a[holes[i]]) == PayloadOf(b[holes[i]]);
    }
  }

  // The index has as many keys as the list has slots, so each of its keys is
  // the key of some listed slot.
  lemma Located<K, V>(slab: seq<Slot<K, V>>, order: seq<nat>, index: map<K, nat>, k: K) returns (p: nat)
    requires AllLive(slab, order) && NoRepeats(order) && Indexed(slab, order, index) && k in index
    ensures p < |order| && order[p] == index[k] && slab[order[p]].node.key == k
  {
    var keys := KeysOf(slab, order, index, |order|);
    assert keys == index.Keys by { R.SubsetSize(keys, index.Keys); }
    p :| 0 <= p < |order| && slab[order[p]].node.key == k;
  }

  lemma {:induction false} KeysOf<K, V>(slab: seq<Slot<K, V>>, order: seq<nat>, index: map<K, nat>, n: nat)
    returns (keys: set<K>)
    requires AllLive(slab, order) && NoRepeats(order) && Indexed(slab, order, index) && n <= |order|
    ensures |keys| == n && keys <= index.Keys
    ensures forall k | k in keys :: exists i :: 0 <= i < n && slab[order[i]].node.key == k
  {
    if n == 0 {
      keys := {};
    } else {
      var fewer := KeysOf(slab, order, index, n - 1);
      keys := fewer + {slab[order[n - 1]].node.key};
    }
  }

  lemma ListedDistinct<K, V>(slab: seq<Slot<K, V>>, order: seq<nat>, index: map<K, nat>)
    requires AllLive(slab, order) && NoRepeats(order) && Indexed(slab, order, index)
    ensures R.Distinct(Listed(slab, order))
    ensures forall k | R.Has(Listed(slab, order), k) :: k in index
  {
  }

  function Removed<T>(s: seq<T>, p: nat): (r: seq<T>)
    requires p < |s|
    ensures |r| == |s| - 1
    ensures forall i | 0 <= i < p :: r[i] == s[i]
    ensures forall i | p <= i < |r| :: r[i] == s[i + 1]
  {
    s[..p] + s[p + 1..]
  }

  // Taking one slot out of the order and putting it in front keeps the index
  // and moves its pair to the front of the listing.
  lemma Reindexed<K, V>(slab: seq<Slot<K, V>>, order: seq<nat>, index: map<K, nat>, p: nat)
    requires AllLive(slab, order) && NoRepeats(order) && Indexed(slab, order, index) && p < |order|
    ensures var moved := [order[p]] + Removed(order, p);
            AllLive(slab, moved) && Indexed(slab, moved, index)
  {
    var rest := Removed(order, p);
    var moved := [order[p]] + rest;
    assert AllLive(slab, moved);
  }

  lemma Relisted<K, V>(slab: seq<Slot<K, V>>, order: seq<nat>, p: nat)
    requires AllLive(slab, order) && p < |order|
    ensures AllLive(slab, Removed(order, p)) && AllLive(slab, [order[p]] + Removed(order, p))
    ensures Listed(slab, Removed(order, p)) == Removed(Listed(slab, order), p)
    ensures Listed(slab, [order[p]] + Removed(order, p)) ==
            [Listed(slab, order)[p]] + Removed(Listed(slab, order), p)
  {
  }

  // Filling an unlisted slot under a new key adds that key in front.
  lemma Added<K, V>(a: seq<Slot<K, V>>, b: seq<Slot<K, V>>, order: seq<nat>, index: map<K, nat>, k: K, idx: nat)
    requires AllLive(a, order) && Indexed(a, order, index) && k !in index
    requires idx < |b| && b[idx].Live? && b[idx].node.key == k && idx !in order
    requires forall i | 0 <= i < |order| :: order[i] < |b| && b[order[i]] == a[order[i]]
    ensures AllLive(b, [idx] + order) && Indexed(b, [idx] + order, index[k := idx])
    ensures Listed(b, [idx] + order) == [(k, b[idx].node.value)] + Listed(a, order)
  {
  }

  // Replacing the value at position `p` and moving the pair to the front.
  lemma PutKnown<K, V>(s: R.List<K, V>, p: nat, cap: nat, v: V)
    requires R.Distinct(s) && p < |s|
    ensures [(s[p].0, v)] + Removed(s[p := (s[p].0, v)], p) == R.Put(s, cap, s[p].0, v)
  {
    R.LookupAt(s, p);
    assert Removed(s[p := (s[p].0, v)], p) == s[..p] + s[p + 1..];
  }

  // Listing and index of slots whose payloads did not change.
  lemma SameListed<K, V>(a: seq<Slot<K, V>>, b: seq<Slot<K, V>>, order: seq<nat>, index: map<K, nat>)
    requires AllLive(a, order) && |a| == |b|
    requires forall i | 0 <= i < |order| :: PayloadOf(b[order[i]]) == PayloadOf(a[order[i]])
    ensures AllLive(b, order) && Listed(b, order) == Listed(a, order)
    ensures Indexed(a, order, index) ==> Indexed(b, order, index)
  {
    forall i | 0 <= i < |order|
      ensures b[order[i]].Live? && b[order[i]].node.key == a[order[i]].node.key
      ensures b[order[i]].node.value == a[order[i]].node.value
    {
      assert PayloadOf(b[order[i]]) == PayloadOf(a[order[i]]);
    }
  }

  lemma Unindexed<K, V>(a: seq<Slot<K, V>>, order: seq<nat>, index: map<K, nat>, p: nat)
    requires AllLive(a, order) && NoRepeats(order) && Indexed(a, order, index) && p < |order|
    ensures AllLive(a, Removed(order, p)) && Indexed(a, Removed(order, p), index - {a[order[p]].node.key})
  {
    assert (index - {a[order[p]].node.key}).Keys == index.Keys - {a[order[p]].node.key};
  }

  // Emptying the slot at position `p` takes its key out of the index.
  lemma Dropped<K, V>(a: seq<Slot<K, V>>, b: seq<Slot<K, V>>, order: seq<nat>, index: map<K, nat>, p: nat)
    requires AllLive(a, order) && NoRepeats(order) && Indexed(a, order, index) && p < |order| && |a| == |b|
    requires forall i | 0 <= i < |a| && i != order[p] :: PayloadOf(b[i]) == PayloadOf(a[i])
    ensures AllLive(b, Removed(order, p))
    ensures Indexed(b, Removed(order, p), index - {a[order[p]].node.key})
    ensures Listed(b, Removed(order, p)) == Removed(Listed(a, order), p)
  {
    Unindexed(a, order, index, p);
    Relisted(a, order, p);
    SameListed(a, b, Removed(order, p), index - {a[order[p]].node.key});
  }

  // A slot outside the list may change without the list noticing.
  lemma LinkedElsewhere<K, V>(a: seq<Slot<K, V>>, order: seq<nat>, head: nat, tail: nat, idx: nat, slot: Slot<K, V>)
    requires Linked(a, order, head, tail) && idx < |a| && idx !in order
    ensures Linked(a[idx := slot], order, head, tail)
  {
    assert forall i | 0 <= i < |order| :: order[i] in order && a[idx := slot][order[i]] == a[order[i]];
  }

  lemma RemovedNot(order: seq<nat>, p: nat)
    requires NoRepeats(order) && p < |order|
    ensures order[p] !in Removed(order, p)
  {
  }

  // Position `p` unlinked in `cut`, and its slot freed after that.
  lemma Detached<K, V>(a: seq<Slot<K, V>>, cut: seq<Slot<K, V>>, order: seq<nat>, index: map<K, nat>, p: nat,
                       head: nat, tail: nat, free: nat)
    requires AllLive(a, order) && NoRepeats(order) && Indexed(a, order, index) && p < |order|
    requires SamePayloads(a, cut) && Linked(cut, Removed(order, p), head, tail)
    ensures order[p] < |cut| && cut[order[p]].Live? && order[p] !in Removed(order, p)
    ensures cut[order[p]].node.key == a[order[p]].node.key && cut[order[p]].node.value == a[order[p]].node.value
    ensures var b := cut[order[p] := Free(free)];
            && Linked(b, Removed(order, p), head, tail)
            && Indexed(b, Removed(order, p), index - {a[order[p]].node.key})
            && Listed(b, Removed(order, p)) == Removed(Listed(a, order), p)
  {
    assert PayloadOf(cut[order[p]]) == PayloadOf(a[order[p]]);
    RemovedNot(order, p);
    LinkedElsewhere(cut, Removed(order, p), head, tail, order[p], Free(free));
    Dropped(a, cut[order[p] := Free(free)], order, index, p);
  }

  function WithNext<K, V>(a: seq<Slot<K, V>>, at: nat, next: nat): seq<Slot<K, V>>
    requires at != NIL ==> at < |a| && a[at].Live?
  {
    if at == NIL then a else a[at := Live(a[at].node.(next := next))]
  }

  function WithPrev<K, V>(a: seq<Slot<K, V>>, at: nat, prev: nat): seq<Slot<K, V>>
    requires at != NIL ==> at < |a| && a[at].Live?
  {
    if at == NIL then a else a[at := Live(a[at].node.(prev := prev))]
  }

  lemma Neighbours<K, V>(a: seq<Slot<K, V>>, order: seq<nat>, head: nat, tail: nat, p: nat)
    requires |a| <= NIL && Linked(a, order, head, tail) && p < |order|
    ensures a[order[p]].node.prev == if p == 0 then NIL else order[p - 1]
    ensures a[order[p]].node.next == if p == |order| - 1 then NIL else order[p + 1]
  {
  }

  // Pointing the neighbours of position `p` at each other takes it out.
  lemma Spliced<K, V>(a: seq<Slot<K, V>>, order: seq<nat>, head: nat, tail: nat, p: nat, prev: nat, next: nat)
    requires |a| <= NIL && Linked(a, order, head, tail) && p < |order|
    requires prev == a[order[p]].node.prev && next == a[order[p]].node.next
    ensures prev != NIL ==> prev < |a| && a[prev].Live?
    ensures next != NIL ==> next < |a| && a[next].Live? && WithNext(a, prev, next)[next].Live?
    ensures var b := WithPrev(WithNext(a, prev, next), next, prev);
            && SamePayloads(a, b)
            && Linked(b, Removed(order, p), if prev == NIL then next else head, if next == NIL then prev else tail)
  {
    Neighbours(a, order, head, tail, p);
    Bridged(a, WithPrev(WithNext(a, prev, next), next, prev), order, head, tail, p);
  }

  // The links after the neighbours of position `p` were pointed at each other.
  lemma Bridged<K, V>(a: seq<Slot<K, V>>, b: seq<Slot<K, V>>, order: seq<nat>, head: nat, tail: nat, p: nat)
    requires Linked(a, order, head, tail) && SamePayloads(a, b) && p < |order|
    requires forall i | 0 <= i < |order| && i != p - 1 ::
               b[order[i]].Live? && b[order[i]].node.next == a[order[i]].node.next
    requires forall i | 0 <= i < |order| && i != p + 1 ::
               b[order[i]].Live? && b[order[i]].node.prev == a[order[i]].node.prev
    requires 0 < p ==> b[order[p - 1]].node.next == a[order[p]].node.next
    requires p + 1 < |order| ==> b[order[p + 1]].node.prev == a[order[p]].node.prev
    ensures Linked(b, Removed(order, p), if p == 0 then a[order[p]].node.next else head,
                   if p == |order| - 1 then a[order[p]].node.prev else tail)
  {
    var rest := Removed(order, p);
    forall i, j | 0 <= i < j < |rest| && j == i + 1
      ensures b[rest[i]].node.next == rest[j] && b[rest[j]].node.prev == rest[i]
    {
      if j < p {
        assert a[order[i]].node.next == order[j];
      } else if i >= p {
        assert a[order[i + 1]].node.next == order[j + 1];
      } else {
        assert a[order[p]].node.next == order[p + 1] && a[order[p]].node.prev == order[p - 1];
      }
    }
  }

  class LruMap<K(==), V> {
    var index: map<K, nat>
    var slab: seq<Slot<K, V>>
    var head: nat
    var tail: nat
    var free: nat
    const cap: nat

    // The slots in list order, and the freed slots in chain order.
    ghost var order: seq<nat>
    ghost var holes: seq<nat>

    ghost predicate Valid()
      reads this
    {
      Shaped() && Indexed(slab, order, index)
    }

    // Every slot is in the list or in the free chain, and in one of them only.
    ghost predicate Shaped()
      reads this
    {
      && Sized()
      && Linked(slab, order, head, tail)
      && Chained(slab, holes, free)
      && |order| + |holes| == |slab|
    }

    // Slot indices stay below NIL because the slab stays within the capacity.
    ghost predicate Sized()
      reads this
    {
      0 < cap <= NIL && |slab| <= cap
    }

    ghost function Contents(): R.List<K, V>
      requires Valid()
      reads this
    {
      Listed(slab, order)
    }

    lemma KeysDistinct()
      requires Valid()
      ensures R.Distinct(Contents())
    {
      ListedDistinct(slab, order, index);
    }

    constructor (capacity: nat)
      requires 0 < capacity <= NIL
      ensures Valid() && cap == capacity && Contents() == []
    {
      cap := capacity;
      index, slab := map[], [];
      head, tail, free := NIL, NIL, NIL;
      order, holes := [], [];
    }

    method Len() returns (n: nat)
      requires Valid()
      ensures n == |Contents()| <= cap
    {
      n := |index|;
    }

    method Get(key: K) returns (r: Option<V>)
      requires Valid()
      modifies this
      ensures Valid()
      ensures r == R.Lookup(old(Contents()), key)
      ensures Contents() == R.Touch(old(Contents()), key)
    {
      ListedDistinct(slab, order, index);
      if key !in index {
        R.LookupAbsent(Contents(), key);
        return None;
      }
      var idx := index[key];
      ghost var p := Located(slab, order, index, key);
      R.LookupAt(Contents(), p);
      Promote(idx, p);
      assert Contents()[0] == (slab[idx].node.key, slab[idx].node.value);
      r := Some(slab[idx].node.value);
    }

    method Put(key: K, value: V)
      requires Valid()
      modifies this
      ensures Valid()
      ensures Contents() == R.Put(old(Contents()), cap, key, value)
    {
      if key in index {
        Replace(key, value);
      } else {
        PutNew(key, value);
      }
    }

    method Replace(key: K, value: V)
      requires Valid() && key in index
      modifies this
      ensures Valid()
      ensures Contents() == R.Put(old(Contents()), cap, key, value)
    {
      ListedDistinct(slab, order, index);
      var idx := index[key];
      ghost var p := Located(slab, order, index, key);
      PutKnown(Contents(), p, cap, value);
      SetValue(idx, value, p);
      Promote(idx, p);
    }

    method PutNew(key: K, value: V)
      requires Valid() && key !in index
      modifies this
      ensures Valid()
      ensures Contents() == R.Put(old(Contents()), cap, key, value)
    {
      ListedDistinct(slab, order, index);
      assert !R.Has(Contents(), key);
      if |index| >= cap {
        EvictTail();
      }
      Append(key, value);
    }

    method SetValue(idx: nat, value: V, ghost p: nat)
      requires Valid() && p < |order| && order[p] == idx
      modifies `slab
      ensures Valid() && Contents() == old(Contents())[p := (old(Contents())[p].0, value)]
    {
      slab := slab[idx := Live(slab[idx].node.(value := value))];
      assert forall i | 0 <= i < |order| && i != p :: slab[order[i]] == old(slab[order[i]]);
    }

    // A new key: allocate its slot, link it in front, index it.
    method Append(key: K, value: V)
      requires Valid() && key !in index && |index| < cap
      modifies this
      ensures Valid()
      ensures Contents() == [(key, value)] + old(Contents())
    {
      var idx := Alloc(Node(key, value, NIL, NIL));
      ghost var filled := slab;
      PushFront(idx);
      index := index[key := idx];
      Added(old(slab), filled, old(order), old(index), key, idx);
      LinksDoNotMatter(filled, slab, order, index);
      ChainStays(filled, slab, holes, free);
    }

    // Moves the slot at position `p` to the front: unlink, then push.
    method Promote(idx: nat, ghost p: nat)
      requires Valid() && p < |order| && order[p] == idx
      modifies this`slab, this`head, this`tail, this`order
      ensures Valid() && idx < |slab| && slab[idx].Live?
      ensures Contents() == [old(Contents())[p]] + Removed(old(Contents()), p)
      ensures order == [idx] + Removed(old(order), p)
    {
      Reindexed(slab, order, index, p);
      Relisted(slab, order, p);
      Unlink(idx, p);
      assert PayloadOf(slab[idx]) == PayloadOf(old(slab[idx]));
      PushFront(idx);
      LinksDoNotMatter(old(slab), slab, order, index);
      ChainStays(old(slab), slab, holes, free);
    }

    method Pop(key: K) returns (r: Option<V>)
      requires Valid()
      modifies this
      ensures Valid()
      ensures r == R.Lookup(old(Contents()), key)
      ensures Contents() == R.Without(old(Contents()), key)
    {
      ListedDistinct(slab, order, index);
      if key !in index {
        R.LookupAbsent(Contents(), key);
        return None;
      }
      ghost var p := Located(slab, order, index, key);
      R.LookupAt(Contents(), p);
      var idx := index[key];
      index := index - {key};
      var node := Detach(idx, p, old(index));
      r := Some(node.value);
    }

    // Unlinks the slot at position `p` and frees it. `was` is an index of the
    // list before; without the node's key it is one of the list after.
    method Detach(idx: nat, ghost p: nat, ghost was: map<K, nat>) returns (node: Node<K, V>)
      requires Shaped() && Indexed(slab, order, was) && p < |order| && order[p] == idx
      modifies `slab, `head, `tail, `free, `order, `holes
      ensures Shaped() && node.key == old(slab[idx].node.key) && node.value == old(slab[idx].node.value)
      ensures Indexed(slab, order, was - {node.key})
      ensures Listed(slab, order) == Removed(old(Listed(slab, order)), p)
    {
      Unlink(idx, p);
      ChainStays(old(slab), slab, holes, free);
      Detached(old(slab), slab, old(order), was, p, head, tail, free);
      node := Release(idx);
    }

    method Clear()
      requires Valid()
      modifies this
      ensures Valid() && Contents() == []
    {
      index, slab := map[], [];
      head, tail, free := NIL, NIL, NIL;
      order, holes := [], [];
    }

    // The walk an iterator makes: from the head along `next`.
    method Entries() returns (out: seq<(K, V)>)
      requires Valid()
      ensures out == Contents()
    {
      out := [];
      var at := head;
      while at != NIL
        invariant |out| <= |order| && at == if |out| < |order| then order[|out|] else NIL
        invariant out == Contents()[..|out|]
        decreases |order| - |out|
      {
        var node := slab[at].node;
        at := node.next;
        out := out + [(node.key, node.value)];
      }
    }

    method Alloc(node: Node<K, V>) returns (idx: nat)
      requires Sized() && AllLive(slab, order) && Chained(slab, holes, free)
      requires |order| + |holes| == |slab| && |order| < cap
      modifies `slab, `free, `holes
      ensures Sized() && Chained(slab, holes, free) && |order| + 1 + |holes| == |slab|
      ensures idx < |slab| && slab[idx] == Live(node) && idx !in order
      ensures forall i | 0 <= i < old(|slab|) && i != idx :: i < |slab| && slab[i] == old(slab[i])
    {
      if free == NIL {
        slab := slab + [Live(node)];
        return |slab| - 1;
      }
      idx := free;
      free := slab[idx].nextFree;
      holes := holes[1..];
      slab := slab[idx := Live(node)];
    }

    // Frees an already unlinked slot and hands back its node.
    method Release(idx: nat) returns (node: Node<K, V>)
      requires Sized() && AllLive(slab, order) && Chained(slab, holes, free)
      requires idx < |slab| && slab[idx].Live? && idx !in order
      modifies `slab, `free, `holes
      ensures node == old(slab[idx].node)
      ensures slab == old(slab)[idx := Free(old(free))]
      ensures holes == [idx] + old(holes) && Chained(slab, holes, free)
    {
      node := slab[idx].node;
      slab := slab[idx := Free(free)];
      free := idx;
      holes := [idx] + holes;
    }

    method EvictTail()
      requires Valid()
      modifies this
      ensures Valid()
      ensures Contents() == if old(Contents()) == [] then [] else old(Contents())[..|old(Contents())| - 1]
      ensures forall k | k in index :: k in old(index)
    {
      var idx := tail;
      if idx == NIL {
        return;
      }
      var node := Detach(idx, |order| - 1, index);
      index := index - {node.key};
    }

    // Detaches the slot at position `p` of the list.
    method Unlink(idx: nat, ghost p: nat)
      requires Sized() && Linked(slab, order, head, tail) && p < |order| && order[p] == idx
      modifies `slab, `head, `tail, `order
      ensures Linked(slab, order, head, tail) && SamePayloads(old(slab), slab)
      ensures order == Removed(old(order), p)
    {
      var prev, next := slab[idx].node.prev, slab[idx].node.next;
      Spliced(slab, order, head, tail, p, prev, next);
      if prev == NIL {
        head := next;
      } else {
        slab := slab[prev := Live(slab[prev].node.(next := next))];
      }
      if next == NIL {
        tail := prev;
      } else {
        slab := slab[next := Live(slab[next].node.(prev := prev))];
      }
      order := Removed(order, p);
    }

    // Links a detached slot in as the most recently used.
    method PushFront(idx: nat)
      requires Sized() && Linked(slab, order, head, tail)
      requires idx < |slab| && slab[idx].Live? && idx !in order
      modifies `slab, `head, `tail, `order
      ensures Linked(slab, order, head, tail) && SamePayloads(old(slab), slab)
      ensures order == [idx] + old(order)
    {
      var oldHead := head;
      slab := slab[idx := Live(slab[idx].node.(prev := NIL, next := oldHead))];
      if oldHead == NIL {
        tail := idx;
      } else {
        slab := slab[oldHead := Live(slab[oldHead].node.(prev := idx))];
      }
      head := idx;
      order := [idx] + order;
    }
  }
}
