// Any number of IdP replicas over one key store, with any interleaving and any
// store failures. A rotation or retirement is two steps, the store's change
// and the re-read, and other replicas may act in between; the replica itself
// holds its write lock throughout.
module Replicas {
  import opened Options
  import opened LocalIdp

  type Id(==, !new)

  datatype Pending = Idle | Rotating(newKey: SigningKey) | Retiring(kid: string)

  datatype Node = Node(replica: Replica, pending: Pending)

  // `signed` are the keys that signed a token on some replica, `retired` those
  // the store has removed.
  datatype State = State(store: LoadedKeys, nodes: map<Id, Node>, signed: set<SigningKey>, retired: set<SigningKey>)

  // How a store call ended: done, refused, failed, or failed after it had
  // become durable.
  datatype Outcome = Applied | NotApplied | AppliedButFailed

  datatype Step =
    | Construct(id: Id)
    | Mint(id: Id)
    | RotateStore(id: Id, newKey: SigningKey, outcome: Outcome)
    | RetireStore(id: Id, kid: string, outcome: Outcome)
    | Reread(id: Id, ok: bool)
    | Reload(id: Id, ok: bool)

  ghost predicate InStore(l: LoadedKeys, k: SigningKey) {
    k in AllKeys(l)
  }

  ghost predicate KidInStore(l: LoadedKeys, kid: string) {
    exists k :: k in AllKeys(l) && k.kid == kid
  }

  ghost predicate Free(s: State, id: Id) {
    id in s.nodes && s.nodes[id].pending.Idle?
  }

  // The store's contract: it never takes a key whose id it already holds.
  ghost predicate Enabled(s: State, step: Step) {
    match step
    case Construct(id) => id !in s.nodes
    case Mint(id) => Free(s, id)
    case RotateStore(id, k, o) =>
      && Free(s, id) && RotateFault<()>(s.nodes[id].replica, k).None?
      && (!o.NotApplied? ==> !KidInStore(s.store, k.kid))
    case RetireStore(id, kid, _) => Free(s, id) && s.nodes[id].replica.signing.kid != kid
    case Reread(id, _) => id in s.nodes && !s.nodes[id].pending.Idle?
    case Reload(id, _) => Free(s, id)
  }

  ghost function Put(s: State, id: Id, r: Replica, p: Pending): State {
    s.(nodes := s.nodes[id := Node(r, p)])
  }

  ghost function Rotate(s: State, k: SigningKey): State {
    s.(store := LoadedKeys(k, s.store.historical + [s.store.current]))
  }

  // Removes the historical keys under the id; the current key is never removed.
  ghost function Retire(s: State, kid: string): State {
    s.(store := s.store.(historical := Without(s.store.historical, kid)),
       retired := s.retired + set k | k in s.store.historical && k.kid == kid)
  }

  ghost function Next(s: State, step: Step): State
    requires Enabled(s, step)
  {
    match step
    case Construct(id) => Put(s, id, Constructed(s.store), Idle)
    case Mint(id) => s.(signed := s.signed + {s.nodes[id].replica.signing})
    case RotateStore(id, k, o) =>
      (match o
       case Applied => Put(Rotate(s, k), id, s.nodes[id].replica, Rotating(k))
       case NotApplied => s
       case AppliedButFailed => Rotate(s, k))
    case RetireStore(id, kid, o) =>
      (match o
       case Applied => Put(Retire(s, kid), id, s.nodes[id].replica, Retiring(kid))
       case NotApplied => s
       case AppliedButFailed => Retire(s, kid))
    case Reread(id, ok) =>
      var load := if ok then Some(s.store) else None;
      var r := s.nodes[id].replica;
      Put(s, id,
          (match s.nodes[id].pending
           case Rotating(k) => AfterRotate(r, k, load)
           case Retiring(kid) => AfterRetire(r, kid, load)
           case Idle => r), Idle)
    case Reload(id, ok) =>
      if ok then Put(s, id, Adopted(s.nodes[id].replica, s.store), Idle) else s
  }

  ghost predicate Known(s: State, k: SigningKey) {
    InStore(s.store, k) || k in s.retired
  }

  // No longer the store's current key, if it is there at all.
  ghost predicate Archived(s: State, k: SigningKey) {
    k in s.store.historical || k in s.retired
  }

  // Every key that signed, signs or is about to sign is in the store unless it
  // was retired; every replica and the store have usable key ids.
  ghost predicate Inv(s: State) {
    && Unambiguous(AllKeys(s.store))
    && (forall k | k in s.signed :: Known(s, k))
    && (forall id | id in s.nodes :: NodeOk(s, s.nodes[id]))
  }

  ghost predicate NodeOk(s: State, n: Node) {
    && Sound(n.replica)
    && Known(s, n.replica.signing)
    && (n.pending.Rotating? ==> Known(s, n.pending.newKey) && RotateFault<()>(n.replica, n.pending.newKey).None?)
    && (n.pending.Retiring? ==> n.replica.signing.kid != n.pending.kid)
    && HistoryOk(s, n)
  }

  // What a replica lists as historical is so in the store or was retired, and
  // so are the keys a pending change is about to demote or drop.
  ghost predicate HistoryOk(s: State, n: Node) {
    && (forall k | k in n.replica.historical :: Archived(s, k))
    && (n.pending.Rotating? ==> Archived(s, n.replica.signing))
    && (n.pending.Retiring? ==> forall k | k in n.replica.historical && k.kid == n.pending.kid :: k in s.retired)
  }

  // The store's own changes forget no key they do not retire.
  lemma RotateForgetsNothing(s: State, k: SigningKey)
    requires Unambiguous(AllKeys(s.store)) && !KidInStore(s.store, k.kid) && k.kid != ""
    ensures Unambiguous(AllKeys(Rotate(s, k).store))
    ensures forall x | Known(s, x) :: Known(Rotate(s, k), x)
    ensures Known(Rotate(s, k), k)
    ensures forall x | Known(s, x) || Archived(s, x) :: Archived(Rotate(s, k), x)
  {
    var keys, after := AllKeys(s.store), AllKeys(Rotate(s, k).store);
    assert after == [k] + s.store.historical + [s.store.current];
    assert forall i | 0 <= i < |keys| :: keys[i] in keys;
    assert forall i | 0 < i < |keys| :: after[i] == keys[i];
    assert after[|keys|] == keys[0];
  }

  lemma RetireForgetsNothing(s: State, kid: string)
    requires Unambiguous(AllKeys(s.store))
    ensures Unambiguous(AllKeys(Retire(s, kid).store))
    ensures forall x | Known(s, x) :: Known(Retire(s, kid), x)
    ensures forall x | Archived(s, x) :: Archived(Retire(s, kid), x) && (x.kid == kid ==> x in Retire(s, kid).retired)
  {
    WithoutKeys(s.store.historical, kid);
    WithoutUnambiguous(s.store.current, s.store.historical, kid);
  }

  lemma RereadKeepsNode(s: State, n: Node, load: Option<LoadedKeys>)
    requires Unambiguous(AllKeys(s.store)) && NodeOk(s, n) && (load.Some? ==> load == Some(s.store))
    ensures n.pending.Rotating? ==> NodeOk(s, Node(AfterRotate(n.replica, n.pending.newKey, load), Idle))
    ensures n.pending.Retiring? ==> NodeOk(s, Node(AfterRetire(n.replica, n.pending.kid, load), Idle))
  {
    AdoptedIsSound(n.replica, s.store);
    if n.pending.Rotating? { RotateIsSound<()>(n.replica, n.pending.newKey, load); }
    if n.pending.Retiring? {
      RetireIsSound(n.replica, n.pending.kid, load);
      WithoutKeys(n.replica.historical, n.pending.kid);
    }
  }

  // The store forgets nothing from `s` to `s'`.
  ghost predicate Remembers(s: State, s': State) {
    && (forall x | Known(s, x) :: Known(s', x))
    && (forall x | Archived(s, x) :: Archived(s', x))
    && s.retired <= s'.retired
  }

  lemma NodeCarries(s: State, s': State, n: Node)
    requires NodeOk(s, n) && Remembers(s, s')
    ensures NodeOk(s', n)
  {
  }

  // A step that changes at most one replica.
  lemma OneNodeKeepsInv(s: State, s': State, id: Id, n: Node)
    requires Inv(s) && Remembers(s, s') && Unambiguous(AllKeys(s'.store)) && s'.signed == s.signed
    requires s'.nodes == s.nodes[id := n] && NodeOk(s', n)
    ensures Inv(s')
  {
    forall i | i in s.nodes ensures NodeOk(s', s.nodes[i]) {
      NodeCarries(s, s', s.nodes[i]);
    }
  }

  lemma RotateKeepsInv(s: State, id: Id, k: SigningKey, o: Outcome)
    requires Inv(s) && Enabled(s, RotateStore(id, k, o))
    ensures Inv(Next(s, RotateStore(id, k, o)))
  {
    if !o.NotApplied? {
      RotateForgetsNothing(s, k);
      var s', n := Next(s, RotateStore(id, k, o)), s.nodes[id];
      NodeCarries(s, s', n);
      OneNodeKeepsInv(s, s', id, if o.Applied? then Node(n.replica, Rotating(k)) else n);
    }
  }

  lemma RetireKeepsInv(s: State, id: Id, kid: string, o: Outcome)
    requires Inv(s) && Enabled(s, RetireStore(id, kid, o))
    ensures Inv(Next(s, RetireStore(id, kid, o)))
  {
    if !o.NotApplied? {
      RetireForgetsNothing(s, kid);
      var s', n := Next(s, RetireStore(id, kid, o)), s.nodes[id];
      NodeCarries(s, s', n);
      OneNodeKeepsInv(s, s', id, if o.Applied? then Node(n.replica, Retiring(kid)) else n);
    }
  }

  lemma RereadKeepsInv(s: State, step: Step)
    requires Inv(s) && Enabled(s, step) && step.Reread?
    ensures Inv(Next(s, step))
  {
    var s', n := Next(s, step), s.nodes[step.id];
    RereadKeepsNode(s, n, if step.ok then Some(s.store) else None);
    NodeCarries(s, s', s'.nodes[step.id]);
    OneNodeKeepsInv(s, s', step.id, s'.nodes[step.id]);
  }

  lemma AdoptKeepsInv(s: State, step: Step)
    requires Inv(s) && Enabled(s, step) && (step.Construct? || step.Reload?)
    ensures Inv(Next(s, step))
  {
    if step.Construct? || step.ok {
      var s' := Next(s, step);
      AdoptedIsSound(if step.Construct? then Constructed(s.store) else s.nodes[step.id].replica, s.store);
      OneNodeKeepsInv(s, s', step.id, s'.nodes[step.id]);
    }
  }

  lemma StepKeepsInv(s: State, step: Step)
    requires Inv(s) && Enabled(s, step)
    ensures Inv(Next(s, step))
  {
    match step
    case RotateStore(id, k, o) => RotateKeepsInv(s, id, k, o);
    case RetireStore(id, kid, o) => RetireKeepsInv(s, id, kid, o);
    case Construct(_) => AdoptKeepsInv(s, step);
    case Reread(_, _) => RereadKeepsInv(s, step);
    case Reload(_, _) => AdoptKeepsInv(s, step);
    case Mint(_) =>
  }

  // ---- Runs ----

  ghost predicate Feasible(s: State, steps: seq<Step>)
    decreases |steps|
  {
    steps == [] || (Enabled(s, steps[0]) && Feasible(Next(s, steps[0]), steps[1..]))
  }

  ghost function Run(s: State, steps: seq<Step>): State
    requires Feasible(s, steps)
    decreases |steps|
  {
    if steps == [] then s else Run(Next(s, steps[0]), steps[1..])
  }

  ghost predicate Reachable(s: State) {
    exists store, steps ::
      && Unambiguous(AllKeys(store))
      && Feasible(State(store, map[], {}, {}), steps)
      && Run(State(store, map[], {}, {}), steps) == s
  }

  lemma {:induction false} RunKeepsInv(s: State, steps: seq<Step>)
    requires Inv(s) && Feasible(s, steps)
    ensures Inv(Run(s, steps))
    decreases |steps|
  {
    if steps != [] {
      StepKeepsInv(s, steps[0]);
      RunKeepsInv(Next(s, steps[0]), steps[1..]);
    }
  }

  lemma ReachableInv(s: State)
    requires Reachable(s)
    ensures Inv(s)
  {
    var store, steps :| Unambiguous(AllKeys(store)) && Feasible(State(store, map[], {}, {}), steps)
                        && Run(State(store, map[], {}, {}), steps) == s;
    RunKeepsInv(State(store, map[], {}, {}), steps);
  }

  // A key that has signed a token on any replica is in the store until it is
  // retired.
  lemma SignersStayInStore(s: State, k: SigningKey)
    requires Reachable(s) && k in s.signed && k !in s.retired
    ensures k in AllKeys(s.store)
  {
    ReachableInv(s);
  }

  ghost predicate Reads(s: State, step: Step) {
    step.Construct? || ((step.Reread? || step.Reload?) && step.ok)
  }

  // So a replica that reads the store serves it: the one JWKS entry under the
  // key's id is the key's own.
  lemma ReadersServeSigners(s: State, step: Step, k: SigningKey)
    requires Reachable(s) && Enabled(s, step) && Reads(s, step) && k in s.signed && k !in s.retired
    ensures Verifies(Next(s, step).nodes[step.id].replica.jwks, k)
  {
    SignersStayInStore(s, k);
    ReachableInv(s);
    StepKeepsInv(s, step);
    var r := Next(s, step).nodes[step.id].replica;
    assert Keys(r) == AllKeys(s.store);
    SoundServes(r, k);
  }

  lemma SoundServes(r: Replica, k: SigningKey)
    requires Sound(r) && k in Keys(r)
    ensures Verifies(r.jwks, k)
  {
    var p :| 0 <= p < |Keys(r)| && Keys(r)[p] == k;
    assert r.jwks[p] == JwkOf(k);
    assert forall i | 0 <= i < |r.jwks| :: r.jwks[i] == JwkOf(Keys(r)[i]);
  }

  // A step of any replica leaves a key a replica holds with it, unless the
  // store has retired it: a re-read brings it back, a local fallback keeps it.
  lemma StepKeepsHeld(s: State, step: Step, id: Id, k: SigningKey)
    requires Inv(s) && Enabled(s, step) && id in s.nodes && k in Keys(s.nodes[id].replica)
    requires k !in Next(s, step).retired
    ensures id in Next(s, step).nodes && k in Keys(Next(s, step).nodes[id].replica)
  {
    if step.id == id && (step.Reread? || step.Reload?) {
      var r, p := s.nodes[id].replica, s.nodes[id].pending;
      assert Keys(r)[0] == r.signing && Keys(r)[1..] == r.historical;
      if step.ok {
        assert Known(s, k);
        assert Keys(Next(s, step).nodes[id].replica) == AllKeys(s.store);
      } else if p.Rotating? {
        var after := Next(s, step).nodes[id].replica;
        assert after.historical == r.historical + [r.signing];
        assert Keys(after)[1..] == after.historical;
      } else if p.Retiring? {
        var after := Next(s, step).nodes[id].replica;
        WithoutKeys(r.historical, p.kid);
        assert Keys(after)[0] == r.signing && Keys(after)[1..] == after.historical;
      }
    }
  }

  lemma {:induction false} RetiredGrows(s: State, steps: seq<Step>)
    requires Feasible(s, steps)
    ensures s.retired <= Run(s, steps).retired
    decreases |steps|
  {
    if steps != [] {
      RetiredGrows(Next(s, steps[0]), steps[1..]);
    }
  }

  lemma {:induction false} RunKeepsHeld(s: State, steps: seq<Step>, id: Id, k: SigningKey)
    requires Inv(s) && Feasible(s, steps) && id in s.nodes && k in Keys(s.nodes[id].replica)
    requires k !in Run(s, steps).retired
    ensures id in Run(s, steps).nodes && k in Keys(Run(s, steps).nodes[id].replica)
    decreases |steps|
  {
    if steps != [] {
      RetiredGrows(Next(s, steps[0]), steps[1..]);
      StepKeepsInv(s, steps[0]);
      StepKeepsHeld(s, steps[0], id, k);
      RunKeepsHeld(Next(s, steps[0]), steps[1..], id, k);
    }
  }

  // Once a replica holds a key, as it does every key it signs with and every
  // key it reads, it serves it through every continuation, whatever replicas
  // act and whichever re-reads fail, until the store retires it.
  lemma ServedUntilRetired(s: State, later: seq<Step>, id: Id, k: SigningKey)
    requires Reachable(s) && Feasible(s, later) && id in s.nodes && k in Keys(s.nodes[id].replica)
    requires k !in Run(s, later).retired
    ensures id in Run(s, later).nodes
    ensures Verifies(Run(s, later).nodes[id].replica.jwks, k)
  {
    ReachableInv(s);
    RunKeepsInv(s, later);
    RunKeepsHeld(s, later, id, k);
    SoundServes(Run(s, later).nodes[id].replica, k);
  }

  // So a token signed on one replica stays verifiable on every replica that
  // reads the store at any time after, until its key is retired.
  lemma SignedStaysVerifiable(s: State, step: Step, later: seq<Step>, k: SigningKey)
    requires Reachable(s) && Enabled(s, step) && Reads(s, step) && k in s.signed
    requires Feasible(Next(s, step), later) && k !in Run(Next(s, step), later).retired
    ensures step.id in Run(Next(s, step), later).nodes
    ensures Verifies(Run(Next(s, step), later).nodes[step.id].replica.jwks, k)
  {
    var t := Next(s, step);
    RetiredGrows(t, later);
    ReachableInv(s);
    StepKeepsInv(s, step);
    RunKeepsInv(t, later);
    assert k in AllKeys(s.store) && Keys(t.nodes[step.id].replica) == AllKeys(s.store);
    RunKeepsHeld(t, later, step.id, k);
    SoundServes(Run(t, later).nodes[step.id].replica, k);
  }

  // The same told from the minting: the key a replica signs with now is
  // served by itself, and by every replica from the time it next reads the
  // store, until the key is retired.
  lemma MintedStaysVerifiable(s: State, id: Id, before: seq<Step>, read: Step, after: seq<Step>)
    requires Reachable(s) && Enabled(s, Mint(id)) && Feasible(Next(s, Mint(id)), before)
    requires var t := Run(Next(s, Mint(id)), before);
             Enabled(t, read) && Reads(t, read) && Feasible(Next(t, read), after)
    requires s.nodes[id].replica.signing !in Run(Next(Run(Next(s, Mint(id)), before), read), after).retired
    ensures var u := Run(Next(Run(Next(s, Mint(id)), before), read), after);
            && read.id in u.nodes && Verifies(u.nodes[read.id].replica.jwks, s.nodes[id].replica.signing)
            && id in u.nodes && Verifies(u.nodes[id].replica.jwks, s.nodes[id].replica.signing)
  {
    var k, s1 := s.nodes[id].replica.signing, Next(s, Mint(id));
    var t := Run(s1, before);
    StepReachable(s, Mint(id));
    RunReachable(s1, before);
    SignedGrows(s1, before);
    SignedStaysVerifiable(t, read, after, k);
    StepReachable(t, read);
    RetiredGrows(Next(t, read), after);
    RetiredGrows(s1, before);
    assert Keys(s1.nodes[id].replica)[0] == k;
    ReachableInv(s1);
    RunKeepsHeld(s1, before, id, k);
    ReachableInv(t);
    StepKeepsHeld(t, read, id, k);
    ServedUntilRetired(Next(t, read), after, id, k);
  }

  lemma {:induction false} SignedGrows(s: State, steps: seq<Step>)
    requires Feasible(s, steps)
    ensures s.signed <= Run(s, steps).signed
    decreases |steps|
  {
    if steps != [] {
      SignedGrows(Next(s, steps[0]), steps[1..]);
    }
  }

  lemma StepReachable(s: State, step: Step)
    requires Reachable(s) && Enabled(s, step)
    ensures Reachable(Next(s, step))
  {
    var store, steps :| Unambiguous(AllKeys(store)) && Feasible(State(store, map[], {}, {}), steps)
                        && Run(State(store, map[], {}, {}), steps) == s;
    RunExtends(State(store, map[], {}, {}), steps, step);
  }

  lemma {:induction false} RunReachable(s: State, steps: seq<Step>)
    requires Reachable(s) && Feasible(s, steps)
    ensures Reachable(Run(s, steps))
    decreases |steps|
  {
    if steps != [] {
      StepReachable(s, steps[0]);
      RunReachable(Next(s, steps[0]), steps[1..]);
    }
  }

  lemma {:induction false} RunExtends(s: State, steps: seq<Step>, last: Step)
    requires Feasible(s, steps) && Enabled(Run(s, steps), last)
    ensures Feasible(s, steps + [last]) && Run(s, steps + [last]) == Next(Run(s, steps), last)
    decreases |steps|
  {
    if steps != [] {
      assert (steps + [last])[1..] == steps[1..] + [last];
      RunExtends(Next(s, steps[0]), steps[1..], last);
    } else {
      assert (steps + [last])[1..] == [];
    }
  }

  // Only the store's own retirement of a historical key under its id retires
  // it, and what is retired is no longer among the store's historical keys.
  lemma RetiredExactly(s: State, step: Step, k: SigningKey)
    requires Reachable(s) && Enabled(s, step) && k !in s.retired
    ensures k in Next(s, step).retired <==>
              step.RetireStore? && !step.outcome.NotApplied? && step.kid == k.kid && k in s.store.historical
    ensures k in Next(s, step).retired ==> k !in AllKeys(Next(s, step).store)
  {
    if k in Next(s, step).retired {
      ReachableInv(s);
      WithoutKeys(s.store.historical, step.kid);
      var keys := AllKeys(s.store);
      var i :| 0 <= i < |s.store.historical| && s.store.historical[i] == k;
      assert keys[i + 1] == k && keys[0].kid != keys[i + 1].kid;
    }
  }

  // A rotation takes effect: its re-read leaves the replica signing with the
  // store's current key, or with the new key when the re-read fails.
  lemma RotationTakesEffect(s: State, id: Id, ok: bool)
    requires Reachable(s) && Enabled(s, Reread(id, ok)) && s.nodes[id].pending.Rotating?
    ensures var r := Next(s, Reread(id, ok)).nodes[id].replica;
            && r.signing == (if ok then s.store.current else s.nodes[id].pending.newKey)
            && Verifies(r.jwks, r.signing)
            && (!ok ==> forall k | k in Keys(s.nodes[id].replica) :: Verifies(r.jwks, k))
  {
    ReachableInv(s);
    StepKeepsInv(s, Reread(id, ok));
    var before, r := s.nodes[id].replica, Next(s, Reread(id, ok)).nodes[id].replica;
    assert Keys(r)[0] == r.signing;
    SoundServes(r, r.signing);
    if !ok {
      assert r.historical == before.historical + [before.signing] && Keys(r)[1..] == r.historical;
      forall k | k in Keys(before) ensures Verifies(r.jwks, k) {
        SoundServes(r, k);
      }
    }
  }

  // Undisturbed, the replica signs with the new key whether or not the re-read
  // succeeds.
  lemma UndisturbedRotation(s: State, id: Id, k: SigningKey, ok: bool)
    requires Reachable(s) && Enabled(s, RotateStore(id, k, Applied))
    ensures var t := Next(s, RotateStore(id, k, Applied));
            && Enabled(t, Reread(id, ok))
            && Next(t, Reread(id, ok)).nodes[id].replica.signing == k
            && Next(t, Reread(id, ok)).store == LoadedKeys(k, s.store.historical + [s.store.current])
  {
    StepReachable(s, RotateStore(id, k, Applied));
    RotationTakesEffect(Next(s, RotateStore(id, k, Applied)), id, ok);
  }

  // Every replica always has usable key ids, serves current then historical
  // keys, and lists the key it signs with exactly once.
  lemma ReplicasStaySound(s: State, id: Id, i: nat)
    requires Reachable(s) && id in s.nodes && i < |s.nodes[id].replica.jwks|
    ensures Sound(s.nodes[id].replica)
    ensures s.nodes[id].replica.jwks[i].kid == Some(s.nodes[id].replica.signing.kid) <==> i == 0
  {
    ReachableInv(s);
    MintKidOccursOnce(s.nodes[id].replica, i);
  }
}
