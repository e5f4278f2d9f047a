// The single-flight load protocol of the TTL cache under arbitrary
// interleaving: one step per critical section, per transition of a load's
// cell, and per release of a reference. A fetch may start on a cell only while
// the cell is empty and no other fetch runs on it; one that fails, panics or
// is cancelled leaves the cell empty.
module SingleFlight {
  import opened Options
  import opened CacheSpec
  import R = Recency

  type Key(==, !new)
  type Value(==, !new)
  type Caller(==, !new)

  // A cached value, with the step that put it there and whether a load did.
  datatype Origin = Inserted | Loaded(cell: nat)
  datatype Stamped = Stamped(value: Value, origin: Origin, step: nat)

  // A reference a caller holds to a cell: its local handle, its guard's.
  datatype Handle = Local(who: Caller) | Guard(who: Caller)

  // `promotions` and `invalidated` record what happened to the cell's slot.
  datatype Cell = Cell(key: Key, value: Option<Value>, running: Option<Caller>, refs: set<Handle>,
                       promotions: nat, invalidated: bool)

  datatype Outcome = Answered(value: Value) | Failed | Aborted

  // How far a call to `get_or_try_insert_with` has come.
  datatype Call =
    | Starting(key: Key)
    | Missed(key: Key)
    | Claimed(key: Key, cell: nat)
    | Waiting(key: Key, cell: nat)
    | Fetching(key: Key, cell: nat)
    | Resolved(key: Key, cell: nat, value: Value)
    | Leaving(key: Key, cell: nat, outcome: Outcome)
    | Dropped(key: Key, cell: nat, outcome: Outcome)
    | Freed(key: Key, cell: nat, outcome: Outcome)
    | Done(outcome: Outcome)

  // An invalidation: which keys, how many cells had been claimed when its
  // in-flight half ran, and the step at which its other half ran.
  datatype Invalidation = Invalidation(matches: Key -> bool, before: nat, swept: Option<nat>)

  datatype State = State(cap: nat, ttl: nat, cache: Cache<Key, Stamped, nat>, cells: seq<Cell>,
                         calls: map<Caller, Call>, invalidations: seq<Invalidation>, steps: nat)

  datatype Step =
    | Begin(who: Caller, key: Key)
    | Lookup(who: Caller, now: Micros)
    | ClaimOrJoin(who: Caller)
    | MakeGuard(who: Caller)
    | StartFetch(who: Caller)
    | FetchOk(who: Caller, value: Value)
    | FetchErr(who: Caller)
    | Abort(who: Caller)
    | TakeValue(who: Caller)
    | PublishValue(who: Caller, now: Micros)
    | DropGuard(who: Caller)
    | ReleaseGuard(who: Caller)
    | ReleaseLocal(who: Caller)
    | InvalidateInflight(matches: Key -> bool)
    | InvalidateEntries(id: nat)
    | PlainInsert(key: Key, value: Value, now: Micros)
    | Sweep(keep: (Key, Entry<Stamped>) -> bool)

  ghost function Init(cap: nat, ttl: nat): State {
    State(cap, ttl, Cache([], map[]), [], map[], [], 0)
  }

  predicate HasLocal(c: Call) {
    c.Claimed? || HasGuard(c) || c.Freed?
  }

  predicate HasGuard(c: Call) {
    c.Waiting? || c.Fetching? || c.Resolved? || c.Leaving? || c.Dropped?
  }

  // Has claimed or joined a cell and not yet been through its guard's drop.
  predicate Participates(c: Call) {
    c.Claimed? || c.Waiting? || c.Fetching? || c.Resolved? || c.Leaving?
  }

  // Is through its guard's drop and still holds a reference.
  predicate Lingers(c: Call) {
    c.Dropped? || c.Freed?
  }

  ghost predicate Known(s: State, who: Caller) {
    who in s.calls && (HasLocal(s.calls[who]) ==> s.calls[who].cell < |s.cells|)
  }

  ghost predicate Enabled(s: State, step: Step) {
    match step
    case Begin(w, _) => w !in s.calls
    case Lookup(w, _) => Known(s, w) && s.calls[w].Starting?
    case ClaimOrJoin(w) => Known(s, w) && s.calls[w].Missed?
    case MakeGuard(w) => Known(s, w) && s.calls[w].Claimed?
    case StartFetch(w) =>
      Known(s, w) && s.calls[w].Waiting? && var cell := s.cells[s.calls[w].cell]; cell.value.None? && cell.running.None?
    case FetchOk(w, _) => Known(s, w) && s.calls[w].Fetching?
    case FetchErr(w) => Known(s, w) && s.calls[w].Fetching?
    case Abort(w) => Known(s, w) && (s.calls[w].Waiting? || s.calls[w].Fetching?)
    case TakeValue(w) => Known(s, w) && s.calls[w].Waiting? && s.cells[s.calls[w].cell].value.Some?
    case PublishValue(w, _) => Known(s, w) && s.calls[w].Resolved?
    case DropGuard(w) => Known(s, w) && s.calls[w].Leaving?
    case ReleaseGuard(w) => Known(s, w) && s.calls[w].Dropped?
    case ReleaseLocal(w) => Known(s, w) && s.calls[w].Freed?
    case InvalidateInflight(_) => true
    case InvalidateEntries(i) => i < |s.invalidations| && s.invalidations[i].swept.None?
    case PlainInsert(_, _, _) => true
    case Sweep(_) => true
  }

  ghost function Go(s: State, who: Caller, call: Call): State {
    s.(calls := s.calls[who := call])
  }

  ghost function SetCell(s: State, c: nat, cell: Cell): State
    requires c < |s.cells|
  {
    s.(cells := s.cells[c := cell])
  }

  predicate InSlot(s: State, k: Key, c: nat) {
    k in s.cache.inflight && s.cache.inflight[k] == c
  }

  // The strong count of a cell's `Arc`.
  ghost function StrongCount(s: State, c: nat): nat
    requires c < |s.cells|
  {
    |s.cells[c].refs| + if InSlot(s, s.cells[c].key, c) then 1 else 0
  }

  ghost function Invalidated(s: State, m: Key -> bool): (cells: seq<Cell>)
    ensures |cells| == |s.cells|
    ensures forall c | 0 <= c < |cells| :: cells[c] ==
              s.cells[c].(invalidated := s.cells[c].invalidated || (InSlot(s, s.cells[c].key, c) && m(s.cells[c].key)))
  {
    seq(|s.cells|, c requires 0 <= c < |s.cells| =>
      s.cells[c].(invalidated := s.cells[c].invalidated || (InSlot(s, s.cells[c].key, c) && m(s.cells[c].key))))
  }

  ghost function Effect(s: State, step: Step): State
    requires Enabled(s, step)
  {
    match step
    case Begin(w, k) => Go(s, w, Starting(k))
    case Lookup(w, now) =>
      var k := s.calls[w].key;
      var next := match Answer(s.cache.lru, k, now)
        case Some(v) => Done(Answered(v.value))
        case None => Missed(k);
      Go(s, w, next).(cache := s.cache.(lru := AfterGet(s.cache.lru, k, now)))
    case ClaimOrJoin(w) =>
      var k := s.calls[w].key;
      var (cache, c) := Claim(s.cache, k, |s.cells|);
      var cells := if c < |s.cells| then s.cells[c := s.cells[c].(refs := s.cells[c].refs + {Local(w)})]
        else s.cells + [Cell(k, None, None, {Local(w)}, 0, false)];
      Go(s, w, Claimed(k, c)).(cache := cache, cells := cells)
    case MakeGuard(w) =>
      var c := s.calls[w].cell;
      SetCell(Go(s, w, Waiting(s.calls[w].key, c)), c, s.cells[c].(refs := s.cells[c].refs + {Guard(w)}))
    case StartFetch(w) =>
      var c := s.calls[w].cell;
      SetCell(Go(s, w, Fetching(s.calls[w].key, c)), c, s.cells[c].(running := Some(w)))
    case FetchOk(w, v) =>
      var c := s.calls[w].cell;
      SetCell(Go(s, w, Resolved(s.calls[w].key, c, v)), c, s.cells[c].(running := None, value := Some(v)))
    case FetchErr(w) =>
      var c := s.calls[w].cell;
      SetCell(Go(s, w, Leaving(s.calls[w].key, c, Failed)), c, s.cells[c].(running := None))
    case Abort(w) =>
      var c := s.calls[w].cell;
      var cell := if s.calls[w].Fetching? then s.cells[c].(running := None) else s.cells[c];
      SetCell(Go(s, w, Leaving(s.calls[w].key, c, Aborted)), c, cell)
    case TakeValue(w) =>
      var c := s.calls[w].cell;
      Go(s, w, Resolved(s.calls[w].key, c, s.cells[c].value.value))
    case PublishValue(w, now) =>
      var Resolved(k, c, v) := s.calls[w];
      var cell := if InSlot(s, k, c) then s.cells[c].(promotions := s.cells[c].promotions + 1) else s.cells[c];
      SetCell(Go(s, w, Leaving(k, c, Answered(v))), c, cell)
        .(cache := Publish(s.cache, s.cap, s.ttl, k, c, Stamped(v, Loaded(c), s.steps), now))
    case DropGuard(w) =>
      var Leaving(k, c, o) := s.calls[w];
      Go(s, w, Dropped(k, c, o)).(cache := GuardDrop(s.cache, k, c, StrongCount(s, c)))
    case ReleaseGuard(w) =>
      var Dropped(k, c, o) := s.calls[w];
      SetCell(Go(s, w, Freed(k, c, o)), c, s.cells[c].(refs := s.cells[c].refs - {Guard(w)}))
    case ReleaseLocal(w) =>
      var Freed(k, c, o) := s.calls[w];
      SetCell(Go(s, w, Done(o)), c, s.cells[c].(refs := s.cells[c].refs - {Local(w)}))
    case InvalidateInflight(m) =>
      s.(cache := s.cache.(inflight := UnmatchedCells(s.cache.inflight, m)),
         cells := Invalidated(s, m),
         invalidations := s.invalidations + [Invalidation(m, |s.cells|, None)])
    case InvalidateEntries(i) =>
      s.(cache := s.cache.(lru := Unmatched(s.cache.lru, s.invalidations[i].matches)),
         invalidations := s.invalidations[i := s.invalidations[i].(swept := Some(s.steps))])
    case PlainInsert(k, v, now) =>
      s.(cache := s.cache.(lru := AfterInsert(s.cache.lru, s.cap, s.ttl, k, Stamped(v, Inserted, s.steps), now)))
    case Sweep(keep) => s.(cache := s.cache.(lru := R.Filter(s.cache.lru, keep)))
  }

  ghost function Next(s: State, step: Step): State
    requires Enabled(s, step)
  {
    Effect(s, step).(steps := s.steps + 1)
  }

  // ---- What every step keeps ----

  ghost predicate CallsOk(s: State) {
    forall w | w in s.calls && HasLocal(s.calls[w]) ::
      && s.calls[w].cell < |s.cells|
      && s.cells[s.calls[w].cell].key == s.calls[w].key
  }

  ghost predicate SlotsOk(s: State) {
    forall k | k in s.cache.inflight ::
      && s.cache.inflight[k] < |s.cells|
      && s.cells[s.cache.inflight[k]].key == k
      && s.cells[s.cache.inflight[k]].promotions == 0
      && !s.cells[s.cache.inflight[k]].invalidated
  }

  ghost function Held(w: Caller, call: Call): set<Handle> {
    if HasGuard(call) then {Local(w), Guard(w)} else if HasLocal(call) then {Local(w)} else {}
  }

  // The references counted on a cell are exactly those its callers hold.
  ghost predicate RefsOk(s: State) {
    && (forall c, h | 0 <= c < |s.cells| && h in s.cells[c].refs ::
          h.who in s.calls && h in Held(h.who, s.calls[h.who]) && s.calls[h.who].cell == c)
    && (forall w, h | w in s.calls && h in Held(w, s.calls[w]) ::
          s.calls[w].cell < |s.cells| && h in s.cells[s.calls[w].cell].refs)
  }

  // The cell's running initialiser is exactly the caller that is fetching.
  ghost predicate RunningOk(s: State) {
    && (forall w | w in s.calls && s.calls[w].Fetching? ::
          s.calls[w].cell < |s.cells| && s.cells[s.calls[w].cell].running == Some(w))
    && (forall c | 0 <= c < |s.cells| && s.cells[c].running.Some? ::
          && s.cells[c].value.None?
          && s.cells[c].running.value in s.calls
          && s.calls[s.cells[c].running.value].Fetching?
          && s.calls[s.cells[c].running.value].cell == c)
  }

  ghost predicate ValuesOk(s: State) {
    && (forall w | w in s.calls && s.calls[w].Resolved? ::
          s.calls[w].cell < |s.cells| && s.cells[s.calls[w].cell].value == Some(s.calls[w].value))
    && (forall c | 0 <= c < |s.cells| :: s.cells[c].promotions <= 1)
  }

  // A caller that may still fetch does so through the slot of its key, unless
  // the cell was invalidated or is already set.
  ghost predicate FetchersInSlot(s: State) {
    forall w | w in s.calls && (s.calls[w].Claimed? || s.calls[w].Waiting? || s.calls[w].Fetching?) ::
      && s.calls[w].cell < |s.cells|
      && var cell := s.cells[s.calls[w].cell];
         cell.invalidated || cell.value.Some? || InSlot(s, s.calls[w].key, s.calls[w].cell)
  }

  // A slot whose cell is set has a caller about to publish it.
  ghost predicate SetSlotsLeave(s: State) {
    forall k | k in s.cache.inflight && s.cache.inflight[k] < |s.cells| && s.cells[s.cache.inflight[k]].value.Some? ::
      exists w :: w in s.calls && s.calls[w].Resolved? && s.calls[w].cell == s.cache.inflight[k]
  }

  ghost predicate EntriesOk(s: State) {
    && R.Distinct(s.cache.lru) && 0 < s.cap && |s.cache.lru| <= s.cap
    && forall x | x in s.cache.lru && x.1.value.origin.Loaded? ::
         && x.1.value.origin.cell < |s.cells|
         && var cell := s.cells[x.1.value.origin.cell];
            cell.key == x.0 && cell.value == Some(x.1.value.value) && cell.promotions == 1
  }

  // After an invalidation's first half its keys have only younger cells in
  // flight; after its second half they have only younger entries.
  ghost predicate CutoffsOk(s: State) {
    && (forall i, k | 0 <= i < |s.invalidations| && k in s.cache.inflight && s.invalidations[i].matches(k) ::
          s.invalidations[i].before <= s.cache.inflight[k])
    && (forall i | 0 <= i < |s.invalidations| ::
          && s.invalidations[i].before <= |s.cells|
          && (s.invalidations[i].swept.Some? ==> s.invalidations[i].swept.value < s.steps))
  }

  ghost predicate YoungerOk(s: State) {
    forall i, x | 0 <= i < |s.invalidations| && x in s.cache.lru :: Younger(s.invalidations[i], x.0, x.1.value)
  }

  ghost predicate Younger(inv: Invalidation, k: Key, v: Stamped) {
    inv.swept.Some? && inv.matches(k) ==>
      v.step > inv.swept.value && (v.origin.Loaded? ==> inv.before <= v.origin.cell)
  }

  // Calls, cells and slots agree.
  ghost predicate FlightOk(s: State) {
    && CallsOk(s) && SlotsOk(s) && RefsOk(s) && RunningOk(s) && ValuesOk(s)
    && FetchersInSlot(s) && SetSlotsLeave(s)
  }

  // The value a call that still holds its cell has been given.
  function Given(c: Call): Option<Value> {
    if c.Resolved? then Some(c.value)
    else if (c.Leaving? || c.Dropped? || c.Freed?) && c.outcome.Answered? then Some(c.outcome.value)
    else None
  }

  // Callers are given the value their cell holds.
  ghost predicate GivenOk(s: State) {
    forall w | w in s.calls && Given(s.calls[w]).Some? ::
      s.calls[w].cell < |s.cells| && s.cells[s.calls[w].cell].value == Given(s.calls[w])
  }

  // A cell that is set, not invalidated and not yet promoted keeps its slot.
  ghost predicate SetStaysOk(s: State) {
    forall c | 0 <= c < |s.cells| && s.cells[c].value.Some? && !s.cells[c].invalidated && s.cells[c].promotions == 0 ::
      InSlot(s, s.cells[c].key, c)
  }

  ghost predicate Inv(s: State) {
    FlightOk(s) && EntriesOk(s) && CutoffsOk(s) && YoungerOk(s) && GivenOk(s) && SetStaysOk(s)
  }

  // The count under the lock shows whether anyone else holds the cell.
  lemma CountIsExact(s: State, w: Caller)
    requires RefsOk(s) && Enabled(s, DropGuard(w)) && CallsOk(s)
    requires InSlot(s, s.calls[w].key, s.calls[w].cell)
    ensures StrongCount(s, s.calls[w].cell) <= IDLE_CELL_REFS <==>
            s.cells[s.calls[w].cell].refs == {Local(w), Guard(w)}
  {
    assert forall h | h in Held(w, s.calls[w]) :: h in s.cells[s.calls[w].cell].refs;
    R.SubsetSize({Local(w), Guard(w)}, s.cells[s.calls[w].cell].refs);
  }

  // A step of one caller on its own cell changes nothing else: what it does
  // to the caller's references, to the cell's initialiser and value, and to
  // the slot of the caller's key.
  ghost predicate OwnStep(s: State, s': State, w: Caller) {
    OwnCell(s, s', w) && OwnSlot(s, s', w)
  }

  ghost predicate OwnCell(s: State, s': State, w: Caller) {
    && w in s.calls && HasLocal(s.calls[w]) && s.calls[w].cell < |s.cells| == |s'.cells| && w in s'.calls
    && var c, call, call' := s.calls[w].cell, s.calls[w], s'.calls[w];
    && var cell, cell' := s.cells[c], s'.cells[c];
    && s'.calls == s.calls[w := call'] && s'.cells == s.cells[c := cell']
    && cell'.key == cell.key && cell'.invalidated == cell.invalidated
    && (HasLocal(call') ==> call'.cell == c && call'.key == call.key)
    && (Participates(call) && !call.Leaving? ==> Participates(call'))
    && !call'.Claimed? && (call'.Waiting? ==> call.Claimed?) && (call'.Fetching? ==> call.Waiting?)
    && cell'.refs == (cell.refs - Held(w, call)) + Held(w, call')
    && cell'.running == (if call'.Fetching? then Some(w) else if call.Fetching? then None else cell.running)
    && (call'.Fetching? ==> cell.running.None? && cell.value.None?)
    && cell'.value == (if call.Fetching? && call'.Resolved? then Some(call'.value) else cell.value)
    && (call'.Resolved? ==> cell'.value == Some(call'.value))
  }

  ghost predicate OwnSlot(s: State, s': State, w: Caller)
    requires w in s.calls && HasLocal(s.calls[w]) && s.calls[w].cell < |s.cells| == |s'.cells|
  {
    var k, c := s.calls[w].key, s.calls[w].cell;
    && (s.calls[w].Resolved? ==> !InSlot(s', k, c))
    && (|| (s'.cache.inflight == s.cache.inflight && s'.cells[c].promotions == s.cells[c].promotions)
    || (&& s'.cache.inflight == s.cache.inflight - {k} && InSlot(s, k, c)
        && (|| (s.calls[w].Resolved? && s'.cells[c].promotions == s.cells[c].promotions + 1)
            || (s.cells[c].refs == Held(w, s.calls[w]) && s.calls[w].Leaving?
                && s'.cells[c].promotions == s.cells[c].promotions))))
  }

  predicate IsOwn(step: Step) {
    || step.MakeGuard? || step.StartFetch? || step.FetchOk? || step.FetchErr? || step.Abort? || step.TakeValue?
    || step.PublishValue? || step.DropGuard? || step.ReleaseGuard? || step.ReleaseLocal?
  }

  lemma LoadIsOwnCell(s: State, step: Step)
    requires CallsOk(s) && RefsOk(s) && RunningOk(s) && ValuesOk(s) && Enabled(s, step)
    requires step.MakeGuard? || step.StartFetch? || step.FetchOk? || step.FetchErr? || step.Abort? || step.TakeValue?
    ensures OwnCell(s, Next(s, step), step.who)
  {
    assert forall h | h in Held(step.who, s.calls[step.who]) :: h in s.cells[s.calls[step.who].cell].refs;
  }

  lemma LeaveIsOwnCell(s: State, step: Step)
    requires CallsOk(s) && RefsOk(s) && ValuesOk(s) && Enabled(s, step) && (step.PublishValue? || step.DropGuard?)
    ensures OwnCell(s, Next(s, step), step.who)
  {
    var w, cell := step.who, s.cells[s.calls[step.who].cell];
    assert Held(w, s.calls[w]) == Held(w, Next(s, step).calls[w]) == {Local(w), Guard(w)};
    assert forall h | h in Held(w, s.calls[w]) :: h in cell.refs;
    assert cell.refs == (cell.refs - {Local(w), Guard(w)}) + {Local(w), Guard(w)};
  }

  lemma ReleaseIsOwnCell(s: State, step: Step)
    requires CallsOk(s) && RefsOk(s) && Enabled(s, step) && (step.ReleaseGuard? || step.ReleaseLocal?)
    ensures OwnCell(s, Next(s, step), step.who)
  {
    var w := step.who;
    assert forall h | h in Held(w, s.calls[w]) :: h in s.cells[s.calls[w].cell].refs;
  }

  lemma StepIsOwnCell(s: State, step: Step)
    requires CallsOk(s) && RefsOk(s) && RunningOk(s) && ValuesOk(s) && Enabled(s, step) && IsOwn(step)
    ensures OwnCell(s, Next(s, step), step.who)
  {
    if step.PublishValue? || step.DropGuard? {
      LeaveIsOwnCell(s, step);
    } else if step.ReleaseGuard? || step.ReleaseLocal? {
      ReleaseIsOwnCell(s, step);
    } else {
      LoadIsOwnCell(s, step);
    }
  }

  lemma StepIsOwnSlot(s: State, step: Step)
    requires CallsOk(s) && RefsOk(s) && Enabled(s, step) && IsOwn(step)
    ensures |Next(s, step).cells| == |s.cells| && OwnSlot(s, Next(s, step), step.who)
  {
    if step.DropGuard? && InSlot(s, s.calls[step.who].key, s.calls[step.who].cell) {
      CountIsExact(s, step.who);
    }
  }

  lemma StepIsOwn(s: State, step: Step)
    requires CallsOk(s) && RefsOk(s) && RunningOk(s) && ValuesOk(s) && Enabled(s, step) && IsOwn(step)
    ensures OwnStep(s, Next(s, step), step.who)
  {
    StepIsOwnCell(s, step);
    StepIsOwnSlot(s, step);
  }

  lemma OwnKeepsRefs(s: State, s': State, w: Caller)
    requires CallsOk(s) && SlotsOk(s) && RefsOk(s) && OwnStep(s, s', w)
    ensures CallsOk(s') && SlotsOk(s') && RefsOk(s')
  {
  }

  lemma OwnKeepsRunning(s: State, s': State, w: Caller)
    requires CallsOk(s) && SlotsOk(s) && RunningOk(s) && ValuesOk(s) && OwnStep(s, s', w)
    ensures RunningOk(s') && ValuesOk(s')
  {
  }

  lemma OwnKeepsFetchers(s: State, s': State, w: Caller)
    requires CallsOk(s) && SlotsOk(s) && RefsOk(s) && ValuesOk(s) && FetchersInSlot(s) && OwnStep(s, s', w)
    ensures FetchersInSlot(s')
  {
    forall w2 | w2 in s'.calls && (s'.calls[w2].Claimed? || s'.calls[w2].Waiting? || s'.calls[w2].Fetching?)
      ensures s'.calls[w2].cell < |s'.cells|
      ensures var cell := s'.cells[s'.calls[w2].cell];
        cell.invalidated || cell.value.Some? || InSlot(s', s'.calls[w2].key, s'.calls[w2].cell)
    {
      assert w2 != w ==> Local(w2) in Held(w2, s.calls[w2]);
    }
  }

  lemma OwnKeepsSetSlots(s: State, s': State, w: Caller)
    requires CallsOk(s) && SlotsOk(s) && ValuesOk(s) && SetSlotsLeave(s) && OwnStep(s, s', w)
    ensures SetSlotsLeave(s')
  {
    forall k | k in s'.cache.inflight && s'.cache.inflight[k] < |s'.cells| && s'.cells[s'.cache.inflight[k]].value.Some?
      ensures exists w2 :: w2 in s'.calls && s'.calls[w2].Resolved? && s'.calls[w2].cell == s'.cache.inflight[k]
    {
      var c := s'.cache.inflight[k];
      assert s.cache.inflight[k] == c;
      if s.cells[c].value.Some? {
        var w2 :| w2 in s.calls && s.calls[w2].Resolved? && s.calls[w2].cell == s.cache.inflight[k];
        assert w2 in s'.calls && s'.calls[w2].Resolved?;
      } else {
        assert s'.calls[w].Resolved?;
      }
    }
  }

  // What claiming or joining does, without the functions it is written with.
  ghost predicate ClaimStep(s: State, s': State, w: Caller) {
    && w in s.calls && s.calls[w].Missed? && w in s'.calls && s'.calls[w].Claimed?
    && s'.calls == s.calls[w := s'.calls[w]]
    && var k, c := s'.calls[w].key, s'.calls[w].cell;
    && c < |s'.cells| && InSlot(s', k, c) && s'.cells[c].key == k
    && (if c < |s.cells| then
          && s'.cells == s.cells[c := s.cells[c].(refs := s.cells[c].refs + {Local(w)})]
          && s'.cache.inflight == s.cache.inflight
        else
          && s'.cells == s.cells + [Cell(k, None, None, {Local(w)}, 0, false)]
          && s'.cache.inflight == s.cache.inflight[k := c] && k !in s.cache.inflight)
  }

  lemma ClaimIsStep(s: State, w: Caller)
    requires FlightOk(s) && Enabled(s, ClaimOrJoin(w))
    ensures ClaimStep(s, Next(s, ClaimOrJoin(w)), w)
  {
  }

  lemma ClaimKeepsSlots(s: State, s': State, w: Caller)
    requires CallsOk(s) && SlotsOk(s) && ClaimStep(s, s', w)
    ensures CallsOk(s') && SlotsOk(s')
  {
  }

  lemma ClaimKeepsRefs(s: State, s': State, w: Caller)
    requires CallsOk(s) && RefsOk(s) && ClaimStep(s, s', w)
    ensures RefsOk(s')
  {
  }

  lemma ClaimKeepsRunning(s: State, s': State, w: Caller)
    requires FlightOk(s) && ClaimStep(s, s', w)
    ensures RunningOk(s') && ValuesOk(s') && FetchersInSlot(s')
  {
  }

  lemma ClaimKeepsFlight(s: State, s': State, w: Caller)
    requires FlightOk(s) && ClaimStep(s, s', w)
    ensures FlightOk(s')
  {
    ClaimKeepsSlots(s, s', w);
    ClaimKeepsRefs(s, s', w);
    ClaimKeepsRunning(s, s', w);
    forall k | k in s'.cache.inflight && s'.cache.inflight[k] < |s'.cells| && s'.cells[s'.cache.inflight[k]].value.Some?
      ensures exists w2 :: w2 in s'.calls && s'.calls[w2].Resolved? && s'.calls[w2].cell == s'.cache.inflight[k]
    {
      var w2 :| w2 in s.calls && s.calls[w2].Resolved? && s.calls[w2].cell == s.cache.inflight[k];
      assert w2 in s'.calls && s'.calls[w2].Resolved?;
    }
  }

  lemma InvalidateKeepsFlight(s: State, m: Key -> bool)
    requires FlightOk(s)
    ensures FlightOk(Next(s, InvalidateInflight(m)))
  {
    var s' := Next(s, InvalidateInflight(m));
    assert s'.calls == s.calls;
    forall k | k in s'.cache.inflight && s'.cache.inflight[k] < |s'.cells| && s'.cells[s'.cache.inflight[k]].value.Some?
      ensures exists w2 :: w2 in s'.calls && s'.calls[w2].Resolved? && s'.calls[w2].cell == s'.cache.inflight[k]
    {
      assert k in s.cache.inflight && s.cells[s.cache.inflight[k]].value.Some?;
    }
  }

  // Steps that start a call, look up or change the cached entries only.
  lemma OuterKeepsFlight(s: State, step: Step)
    requires FlightOk(s) && Enabled(s, step)
    requires step.Begin? || step.Lookup? || step.InvalidateEntries? || step.PlainInsert? || step.Sweep?
    ensures FlightOk(Next(s, step))
  {
    var s' := Next(s, step);
    assert s'.cells == s.cells && s'.cache.inflight == s.cache.inflight;
    assert forall w | w in s.calls && HasLocal(s.calls[w]) :: w in s'.calls && s'.calls[w] == s.calls[w];
    assert forall w | w in s'.calls && HasLocal(s'.calls[w]) :: w in s.calls && s'.calls[w] == s.calls[w];
    SameFlight(s, s');
  }

  lemma SameFlight(s: State, s': State)
    requires FlightOk(s) && s'.cells == s.cells && s'.cache.inflight == s.cache.inflight
    requires forall w | w in s.calls && HasLocal(s.calls[w]) :: w in s'.calls && s'.calls[w] == s.calls[w]
    requires forall w | w in s'.calls && HasLocal(s'.calls[w]) :: w in s.calls && s'.calls[w] == s.calls[w]
    ensures FlightOk(s')
  {
    forall k | k in s'.cache.inflight && s'.cache.inflight[k] < |s'.cells| && s'.cells[s'.cache.inflight[k]].value.Some?
      ensures exists w2 :: w2 in s'.calls && s'.calls[w2].Resolved? && s'.calls[w2].cell == s'.cache.inflight[k]
    {
      var w2 :| w2 in s.calls && s.calls[w2].Resolved? && s.calls[w2].cell == s.cache.inflight[k];
      assert w2 in s'.calls && s'.calls[w2].Resolved?;
    }
  }

  lemma StepKeepsFlight(s: State, step: Step)
    requires FlightOk(s) && Enabled(s, step)
    ensures FlightOk(Next(s, step))
  {
    if IsOwn(step) {
      StepIsOwn(s, step);
      OwnKeepsFlight(s, Next(s, step), step.who);
    } else if step.ClaimOrJoin? {
      ClaimIsStep(s, step.who);
      ClaimKeepsFlight(s, Next(s, step), step.who);
    } else if step.InvalidateInflight? {
      InvalidateKeepsFlight(s, step.matches);
    } else {
      OuterKeepsFlight(s, step);
    }
  }

  lemma OwnKeepsFlight(s: State, s': State, w: Caller)
    requires FlightOk(s) && OwnStep(s, s', w)
    ensures FlightOk(s')
  {
    OwnKeepsRefs(s, s', w);
    OwnKeepsRunning(s, s', w);
    OwnKeepsFetchers(s, s', w);
    OwnKeepsSetSlots(s, s', w);
  }

  // A cell that has been promoted keeps its key, value and count.
  lemma PromotedStays(s: State, step: Step, c: nat)
    requires FlightOk(s) && Enabled(s, step) && c < |s.cells| && s.cells[c].value.Some?
    ensures c < |Next(s, step).cells|
    ensures var cell := Next(s, step).cells[c];
            && cell.key == s.cells[c].key && cell.value == s.cells[c].value
            && (s.cells[c].promotions == 1 ==> cell.promotions == 1)
  {
    if IsOwn(step) { StepIsOwn(s, step); }
  }

  lemma StepKeepsEntries(s: State, step: Step)
    requires FlightOk(s) && EntriesOk(s) && Enabled(s, step)
    ensures EntriesOk(Next(s, step))
  {
    var s' := Next(s, step);
    LruStep(s, step);
    forall x | x in s'.cache.lru && x.1.value.origin.Loaded?
      ensures x.1.value.origin.cell < |s'.cells|
      ensures var cell := s'.cells[x.1.value.origin.cell];
              cell.key == x.0 && cell.value == Some(x.1.value.value) && cell.promotions == 1
    {
      if x in s.cache.lru {
        PromotedStays(s, step, x.1.value.origin.cell);
      } else {
        assert Arrives(s, step, x);
      }
    }
  }

  // A step files a cell in a slot only by claiming a new one, and records an
  // invalidation or its sweep only by taking that step.
  ghost predicate Grows(s: State, s': State, step: Step) {
    && |s.cells| <= |s'.cells| && |s.invalidations| <= |s'.invalidations| && s'.steps == s.steps + 1
    && (forall k | k in s'.cache.inflight ::
          || s'.cache.inflight[k] == |s.cells|
          || (&& k in s.cache.inflight && s'.cache.inflight[k] == s.cache.inflight[k]
              && (step.InvalidateInflight? ==> !step.matches(k))))
    && (forall i | 0 <= i < |s'.invalidations| ::
          if i < |s.invalidations| then
            && s'.invalidations[i].matches == s.invalidations[i].matches
            && s'.invalidations[i].before == s.invalidations[i].before
            && (|| s'.invalidations[i].swept == s.invalidations[i].swept
                || (step == InvalidateEntries(i) && s'.invalidations[i].swept == Some(s.steps)))
          else step.InvalidateInflight? && s'.invalidations[i] == Invalidation(step.matches, |s.cells|, None))
  }

  lemma StepGrows(s: State, step: Step)
    requires FlightOk(s) && Enabled(s, step)
    ensures Grows(s, Next(s, step), step)
  {
    if IsOwn(step) { StepIsOwnSlot(s, step); }
  }

  lemma KeepsCutoffs(s: State, s': State, step: Step)
    requires SlotsOk(s) && CutoffsOk(s) && Grows(s, s', step)
    ensures CutoffsOk(s')
  {
  }

  lemma KeepsYounger(s: State, s': State, step: Step)
    requires CutoffsOk(s) && YoungerOk(s) && Grows(s, s', step) && Enabled(s, step)
    requires forall x | x in s'.cache.lru :: x in s.cache.lru || Arrives(s, step, x)
    requires step.InvalidateEntries? ==> forall x | x in s'.cache.lru :: !s.invalidations[step.id].matches(x.0)
    ensures YoungerOk(s')
  {
    forall i, x | 0 <= i < |s'.invalidations| && x in s'.cache.lru
      ensures Younger(s'.invalidations[i], x.0, x.1.value)
    {
      if x in s.cache.lru && i < |s.invalidations| {
        assert Younger(s.invalidations[i], x.0, x.1.value);
      }
    }
  }

  // A step of one caller gives a value only from the cell it resolves to.
  lemma OwnKeepsGiven(s: State, step: Step)
    requires FlightOk(s) && GivenOk(s) && Enabled(s, step) && IsOwn(step)
    ensures GivenOk(Next(s, step))
  {
    var s', w := Next(s, step), step.who;
    StepIsOwnCell(s, step);
    assert Given(s'.calls[w]).Some? ==> s'.calls[w].Resolved? || Given(s'.calls[w]) == Given(s.calls[w]);
  }

  lemma OwnKeepsSetStays(s: State, s': State, w: Caller)
    requires FlightOk(s) && SetStaysOk(s) && OwnStep(s, s', w)
    ensures SetStaysOk(s')
  {
    forall c | 0 <= c < |s'.cells| && s'.cells[c].value.Some? && !s'.cells[c].invalidated && s'.cells[c].promotions == 0
      ensures InSlot(s', s'.cells[c].key, c)
    {
      if s.cells[c].value.Some? {
        assert InSlot(s, s.cells[c].key, c);
        var w2 :| w2 in s.calls && s.calls[w2].Resolved? && s.calls[w2].cell == c;
        assert Local(w2) in Held(w2, s.calls[w2]);
      }
    }
  }

  lemma StepKeepsGiven(s: State, step: Step)
    requires FlightOk(s) && GivenOk(s) && SetStaysOk(s) && Enabled(s, step)
    ensures GivenOk(Next(s, step)) && SetStaysOk(Next(s, step))
  {
    if IsOwn(step) {
      StepIsOwn(s, step);
      OwnKeepsGiven(s, step);
      OwnKeepsSetStays(s, Next(s, step), step.who);
    } else if step.ClaimOrJoin? {
      ClaimIsStep(s, step.who);
      ClaimKeepsGiven(s, Next(s, step), step.who);
    }
  }

  lemma ClaimKeepsGiven(s: State, s': State, w: Caller)
    requires FlightOk(s) && GivenOk(s) && SetStaysOk(s) && ClaimStep(s, s', w)
    ensures GivenOk(s') && SetStaysOk(s')
  {
  }

  lemma StepKeepsInv(s: State, step: Step)
    requires Inv(s) && Enabled(s, step)
    ensures Inv(Next(s, step))
  {
    StepKeepsFlight(s, step);
    StepKeepsGiven(s, step);
    StepKeepsEntries(s, step);
    StepGrows(s, step);
    KeepsCutoffs(s, Next(s, step), step);
    LruStep(s, step);
    KeepsYounger(s, Next(s, step), step);
  }

  // The pair a step adds to the cache: a promotion or a plain insert.
  ghost predicate Arrives(s: State, step: Step, x: (Key, Entry<Stamped>)) {
    || (step.PlainInsert? && x.0 == step.key && x.1.value == Stamped(step.value, Inserted, s.steps))
    || (step.PublishValue? && Known(s, step.who) && s.calls[step.who].Resolved?
        && InSlot(s, s.calls[step.who].key, s.calls[step.who].cell)
        && x.0 == s.calls[step.who].key
        && x.1.value == Stamped(s.calls[step.who].value, Loaded(s.calls[step.who].cell), s.steps))
  }

  lemma LruStep(s: State, step: Step)
    requires R.Distinct(s.cache.lru) && 0 < s.cap && |s.cache.lru| <= s.cap && Enabled(s, step)
    ensures var lru := Next(s, step).cache.lru;
            && R.Distinct(lru) && |lru| <= s.cap
            && (forall x | x in lru :: x in s.cache.lru || Arrives(s, step, x))
            && (step.InvalidateEntries? ==> forall x | x in lru :: !s.invalidations[step.id].matches(x.0))
  {
    var lru := s.cache.lru;
    match step
    case Lookup(w, now) =>
      R.TouchKeeps(lru, s.calls[w].key);
      R.WithoutMembers(lru, s.calls[w].key);
    case PublishValue(w, now) =>
      var Resolved(k, c, v) := s.calls[w];
      R.PutKeeps(lru, s.cap, k, Entry(Stamped(v, Loaded(c), s.steps), Expiry(now, s.ttl)));
    case InvalidateEntries(i) =>
      var m := s.invalidations[i].matches;
      R.FilterMembers(lru, (k, e) => !m(k));
    case PlainInsert(k, v, now) =>
      R.PutKeeps(lru, s.cap, k, Entry(Stamped(v, Inserted, s.steps), Expiry(now, s.ttl)));
    case Sweep(keep) => R.FilterMembers(lru, keep);
    case _ =>
  }

  // ---- Runs ----

  ghost predicate Feasible(s: State, steps: seq<Step>)
    decreases |steps|
  {
    steps == [] || (Enabled(s, steps[0]) && Feasible(Next(s, steps[0]), steps[1..]))
  }

  ghost function Run(s: State, steps: seq<Step>): State
    requires Feasible(s, steps)
    decreases |steps|
  {
    if steps == [] then s else Run(Next(s, steps[0]), steps[1..])
  }

  // A state some interleaving of steps leads to from an empty cache.
  ghost predicate Reachable(s: State) {
    exists steps :: 0 < s.cap && Feasible(Init(s.cap, s.ttl), steps) && Run(Init(s.cap, s.ttl), steps) == s
  }

  lemma {:induction false} RunKeepsInv(s: State, steps: seq<Step>)
    requires Inv(s) && Feasible(s, steps)
    ensures Inv(Run(s, steps))
    decreases |steps|
  {
    if steps != [] {
      StepKeepsInv(s, steps[0]);
      RunKeepsInv(Next(s, steps[0]), steps[1..]);
    }
  }

  lemma ReachableInv(s: State)
    requires Reachable(s)
    ensures Inv(s)
  {
    var steps :| 0 < s.cap && Feasible(Init(s.cap, s.ttl), steps) && Run(Init(s.cap, s.ttl), steps) == s;
    RunKeepsInv(Init(s.cap, s.ttl), steps);
  }

  // An invalidation's record only ever gains its sweep.
  lemma {:induction false} RecordStays(s: State, steps: seq<Step>, i: nat)
    requires Feasible(s, steps) && i < |s.invalidations|
    ensures i < |Run(s, steps).invalidations|
    ensures var r, r' := s.invalidations[i], Run(s, steps).invalidations[i];
            r'.matches == r.matches && r'.before == r.before && (r.swept.Some? ==> r'.swept == r.swept)
    decreases |steps|
  {
    if steps != [] {
      RecordStays(Next(s, steps[0]), steps[1..], i);
    }
  }

  // The state and the record any run after the in-flight half leads to.
  lemma AfterInvalidate(s: State, m: Key -> bool, later: seq<Step>)
    requires Reachable(s) && Feasible(Next(s, InvalidateInflight(m)), later)
    ensures var t, i := Run(Next(s, InvalidateInflight(m)), later), |s.invalidations|;
            Inv(t) && i < |t.invalidations| && t.invalidations[i].matches == m && t.invalidations[i].before == |s.cells|
  {
    ReachableInv(s);
    StepKeepsInv(s, InvalidateInflight(m));
    RunKeepsInv(Next(s, InvalidateInflight(m)), later);
    RecordStays(Next(s, InvalidateInflight(m)), later, |s.invalidations|);
  }

  // Invalidate wins: once an invalidation has run its in-flight half, then
  // whatever steps follow, no step adds to the cache a value loaded through a
  // cell claimed before it, for any key it matches.
  lemma InvalidateWins(s: State, m: Key -> bool, later: seq<Step>, step: Step)
    requires Reachable(s) && Feasible(Next(s, InvalidateInflight(m)), later)
    requires Enabled(Run(Next(s, InvalidateInflight(m)), later), step)
    ensures var t := Run(Next(s, InvalidateInflight(m)), later);
            forall x | x in Next(t, step).cache.lru && x !in t.cache.lru && m(x.0) && x.1.value.origin.Loaded? ::
              |s.cells| <= x.1.value.origin.cell
  {
    AfterInvalidate(s, m, later);
    LruStep(Run(Next(s, InvalidateInflight(m)), later), step);
  }

  // And once its other half has run too, every entry under a matching key was
  // put there by a later step: a plain insert, or a load whose cell was
  // claimed after the invalidation began.
  lemma InvalidatedStaysGone(s: State, m: Key -> bool, between: seq<Step>, t: State, later: seq<Step>)
    requires Reachable(s) && Feasible(Next(s, InvalidateInflight(m)), between)
    requires t == Run(Next(s, InvalidateInflight(m)), between)
    requires Enabled(t, InvalidateEntries(|s.invalidations|))
    requires Feasible(Next(t, InvalidateEntries(|s.invalidations|)), later)
    ensures forall x | x in Run(Next(t, InvalidateEntries(|s.invalidations|)), later).cache.lru && m(x.0) ::
              x.1.value.step > t.steps && (x.1.value.origin.Loaded? ==> |s.cells| <= x.1.value.origin.cell)
  {
    var i := |s.invalidations|;
    AfterInvalidate(s, m, between);
    StepKeepsInv(t, InvalidateEntries(i));
    var u := Next(t, InvalidateEntries(i));
    assert u.invalidations[i] == Invalidation(m, |s.cells|, Some(t.steps));
    SweptStaysYounger(u, i, later);
  }

  lemma SweptStaysYounger(s: State, i: nat, later: seq<Step>)
    requires Inv(s) && i < |s.invalidations| && s.invalidations[i].swept.Some? && Feasible(s, later)
    ensures forall x | x in Run(s, later).cache.lru :: Younger(s.invalidations[i], x.0, x.1.value)
  {
    RunKeepsInv(s, later);
    RecordStays(s, later, i);
    forall x | x in Run(s, later).cache.lru ensures Younger(s.invalidations[i], x.0, x.1.value) {
      assert Younger(Run(s, later).invalidations[i], x.0, x.1.value);
    }
  }

  // At most one fetch runs for a key among cells no invalidation removed, and
  // at most one for any single cell.
  lemma OneFetcher(s: State, w1: Caller, w2: Caller)
    requires Reachable(s) && w1 in s.calls && w2 in s.calls && s.calls[w1].Fetching? && s.calls[w2].Fetching?
    requires s.calls[w1].key == s.calls[w2].key
    ensures s.calls[w1].cell < |s.cells| && s.calls[w2].cell < |s.cells|
    ensures !s.cells[s.calls[w1].cell].invalidated && !s.cells[s.calls[w2].cell].invalidated ==> w1 == w2
    ensures s.calls[w1].cell == s.calls[w2].cell ==> w1 == w2
  {
    ReachableInv(s);
  }

  // Each cell is promoted at most once, with the value it holds, and every
  // caller it resolved for is given that value, however far it has come.
  lemma PromotedOnce(s: State)
    requires Reachable(s)
    ensures forall c | 0 <= c < |s.cells| :: s.cells[c].promotions <= 1
    ensures forall x | x in s.cache.lru && x.1.value.origin.Loaded? ::
              && x.1.value.origin.cell < |s.cells|
              && s.cells[x.1.value.origin.cell].key == x.0
              && s.cells[x.1.value.origin.cell].value == Some(x.1.value.value)
    ensures forall w | w in s.calls && Given(s.calls[w]).Some? ::
              s.calls[w].cell < |s.cells| && s.cells[s.calls[w].cell].value == Given(s.calls[w])
  {
    ReachableInv(s);
  }

  // And no success is lost: a cell that is set and not invalidated has been
  // promoted, or still has its slot and a caller about to promote it.
  lemma SetIsPromoted(s: State, c: nat)
    requires Reachable(s) && c < |s.cells| && s.cells[c].value.Some? && !s.cells[c].invalidated
    ensures || s.cells[c].promotions == 1
            || (&& InSlot(s, s.cells[c].key, c)
                && exists w :: w in s.calls && s.calls[w].Resolved? && s.calls[w].cell == c)
  {
    ReachableInv(s);
    if s.cells[c].promotions == 0 {
      assert InSlot(s, s.cells[c].key, c);
    }
  }

  // ---- What a call answers ----

  // How a call will end, once that is decided.
  function Fate(c: Call): Option<Outcome> {
    if c.Resolved? then Some(Answered(c.value))
    else if c.Leaving? || c.Dropped? || c.Freed? || c.Done? then Some(c.outcome)
    else None
  }

  // Once decided it stays so, through every run, to the end of the call.
  lemma {:induction false} FateStays(s: State, steps: seq<Step>, w: Caller)
    requires Feasible(s, steps) && w in s.calls && Fate(s.calls[w]).Some?
    ensures w in Run(s, steps).calls && Fate(Run(s, steps).calls[w]) == Fate(s.calls[w])
    decreases |steps|
  {
    if steps != [] {
      var s1 := Next(s, steps[0]);
      assert w in s1.calls && Fate(s1.calls[w]) == Fate(s.calls[w]);
      FateStays(s1, steps[1..], w);
    }
  }

  // So a call that fetched a value answers it, one whose fetch failed answers
  // the failure, one that was aborted nothing, and a joiner the value another
  // caller fetched through its cell.
  lemma LoadAnswers(s: State, step: Step, later: seq<Step>)
    requires Reachable(s) && Enabled(s, step) && Feasible(Next(s, step), later)
    requires step.FetchOk? || step.FetchErr? || step.Abort? || step.TakeValue?
    ensures step.who in Run(Next(s, step), later).calls
    ensures var fate := Fate(Run(Next(s, step), later).calls[step.who]);
            && (step.FetchOk? ==> fate == Some(Answered(step.value)))
            && (step.FetchErr? ==> fate == Some(Failed))
            && (step.Abort? ==> fate == Some(Aborted))
            && (step.TakeValue? ==>
                  var value := s.cells[s.calls[step.who].cell].value;
                  value.Some? && fate == Some(Answered(value.value)))
  {
    FateStays(Next(s, step), later, step.who);
  }

  // The fast path: a lookup ends the call exactly when the key has an entry
  // that expires later, and with that entry's value.
  lemma HitAnswers(s: State, w: Caller, now: Micros)
    requires Reachable(s) && Enabled(s, Lookup(w, now))
    ensures var k, call := s.calls[w].key, Next(s, Lookup(w, now)).calls[w];
            && (forall e | (k, e) in s.cache.lru ::
                  call == if now < e.expires then Done(Answered(e.value.value)) else Missed(k))
            && ((forall e :: (k, e) !in s.cache.lru) ==> call == Missed(k))
  {
    ReachableInv(s);
    var k := s.calls[w].key;
    forall e | (k, e) in s.cache.lru
      ensures Next(s, Lookup(w, now)).calls[w] == if now < e.expires then Done(Answered(e.value.value)) else Missed(k)
    {
      R.LookupIff(s.cache.lru, k, e);
    }
    if R.Lookup(s.cache.lru, k).Some? {
      R.LookupIff(s.cache.lru, k, R.Lookup(s.cache.lru, k).value);
    }
  }

  // Straight after a plain insert a call for the key is answered its value,
  // exactly within the TTL.
  lemma InsertThenHit(s: State, k: Key, v: Value, now: Micros, w: Caller, later: Micros)
    requires Reachable(s) && w in s.calls && s.calls[w] == Starting(k)
    ensures var t := Next(s, PlainInsert(k, v, now));
            && Enabled(t, Lookup(w, later))
            && Next(t, Lookup(w, later)).calls[w] ==
               if Within(now, s.ttl, later) then Done(Answered(v)) else Missed(k)
  {
    InsertAnswers(s.cache.lru, s.cap, s.ttl, k, Stamped(v, Inserted, s.steps), now, later);
  }

  // A sweep of expired or matching entries leaves exactly the others.
  lemma SweptExactly(s: State, keep: (Key, Entry<Stamped>) -> bool)
    requires Reachable(s)
    ensures forall x | x in Next(s, Sweep(keep)).cache.lru :: x in s.cache.lru && keep(x.0, x.1)
    ensures forall x | x in s.cache.lru && keep(x.0, x.1) :: x in Next(s, Sweep(keep)).cache.lru
    ensures Next(s, Sweep(keep)).cache.inflight == s.cache.inflight
  {
    ReachableInv(s);
    R.FilterMembers(s.cache.lru, keep);
  }

  // ---- A call on its own ----

  // State `s` with caller `w` at `call`, one cell more, and the cache given.
  ghost function Solo(s: State, w: Caller, call: Call, cell: Cell, cache: Cache<Key, Stamped, nat>, n: nat): State {
    State(s.cap, s.ttl, cache, s.cells + [cell], s.calls[w := call], s.invalidations, s.steps + n)
  }

  // The run of `steps` from `s` is possible and leads to `t`.
  ghost predicate Leads(s: State, steps: seq<Step>, t: State) {
    Feasible(s, steps) && Run(s, steps) == t
  }

  lemma LeadsOn(s: State, step: Step, rest: seq<Step>, t: State)
    requires Enabled(s, step) && Leads(Next(s, step), rest, t)
    ensures Leads(s, [step] + rest, t)
  {
    assert ([step] + rest)[1..] == rest;
  }

  // Moving `w` and replacing its cell keeps the shape.
  lemma SoloMoves(s: State, w: Caller, call: Call, cell: Cell, cache: Cache<Key, Stamped, nat>, n: nat,
                  call': Call, cell': Cell)
    ensures var u := Solo(s, w, call, cell, cache, n);
            && SetCell(Go(u, w, call'), |s.cells|, cell') == Solo(s, w, call', cell', cache, n)
            && Go(u, w, call') == Solo(s, w, call', cell, cache, n)
  {
    assert (s.cells + [cell])[|s.cells| := cell'] == s.cells + [cell'];
    assert s.calls[w := call][w := call'] == s.calls[w := call'];
  }

  lemma SoloGuards(s: State, w: Caller, k: Key, cache: Cache<Key, Stamped, nat>, n: nat)
    ensures var c := |s.cells|;
            var u := Solo(s, w, Claimed(k, c), Cell(k, None, None, {Local(w)}, 0, false), cache, n);
            && Enabled(u, MakeGuard(w))
            && Next(u, MakeGuard(w)) == Solo(s, w, Waiting(k, c), Blank(w, k, None), cache, n + 1)
  {
    var cell := Cell(k, None, None, {Local(w)}, 0, false);
    assert cell.(refs := cell.refs + {Guard(w)}) == Blank(w, k, None);
    SoloMoves(s, w, Claimed(k, |s.cells|), cell, cache, n, Waiting(k, |s.cells|), Blank(w, k, None));
  }

  // A cell only `w` refers to.
  ghost function Blank(w: Caller, k: Key, running: Option<Caller>): Cell {
    Cell(k, None, running, {Local(w), Guard(w)}, 0, false)
  }

  lemma SoloStarts(s: State, w: Caller, k: Key, cache: Cache<Key, Stamped, nat>, n: nat)
    ensures var u := Solo(s, w, Waiting(k, |s.cells|), Blank(w, k, None), cache, n);
            && Enabled(u, StartFetch(w))
            && Next(u, StartFetch(w)) == Solo(s, w, Fetching(k, |s.cells|), Blank(w, k, Some(w)), cache, n + 1)
  {
    SoloMoves(s, w, Waiting(k, |s.cells|), Blank(w, k, None), cache, n, Fetching(k, |s.cells|), Blank(w, k, Some(w)));
  }

  lemma SoloFetches(s: State, w: Caller, k: Key, cache: Cache<Key, Stamped, nat>, n: nat, v: Value)
    ensures var u := Solo(s, w, Fetching(k, |s.cells|), Blank(w, k, Some(w)), cache, n);
            && Enabled(u, FetchOk(w, v))
            && Next(u, FetchOk(w, v)) ==
               Solo(s, w, Resolved(k, |s.cells|, v), Blank(w, k, None).(value := Some(v)), cache, n + 1)
  {
    SoloMoves(s, w, Fetching(k, |s.cells|), Blank(w, k, Some(w)), cache, n,
              Resolved(k, |s.cells|, v), Blank(w, k, None).(value := Some(v)));
  }

  lemma SoloFails(s: State, w: Caller, k: Key, cache: Cache<Key, Stamped, nat>, n: nat)
    ensures var u := Solo(s, w, Fetching(k, |s.cells|), Blank(w, k, Some(w)), cache, n);
            && Enabled(u, FetchErr(w))
            && Next(u, FetchErr(w)) == Solo(s, w, Leaving(k, |s.cells|, Failed), Blank(w, k, None), cache, n + 1)
  {
    SoloMoves(s, w, Fetching(k, |s.cells|), Blank(w, k, Some(w)), cache, n,
              Leaving(k, |s.cells|, Failed), Blank(w, k, None));
  }

  lemma SoloPublishes(s: State, w: Caller, k: Key, cache: Cache<Key, Stamped, nat>, n: nat, v: Value, now: Micros)
    requires k in cache.inflight && cache.inflight[k] == |s.cells|
    ensures var c, cell := |s.cells|, Blank(w, k, None).(value := Some(v));
            var u := Solo(s, w, Resolved(k, c, v), cell, cache, n);
            var lru := AfterInsert(cache.lru, s.cap, s.ttl, k, Stamped(v, Loaded(c), s.steps + n), now);
            && Enabled(u, PublishValue(w, now))
            && Next(u, PublishValue(w, now)) ==
               Solo(s, w, Leaving(k, c, Answered(v)), cell.(promotions := 1), Cache(lru, cache.inflight - {k}), n + 1)
  {
    var c, cell := |s.cells|, Blank(w, k, None).(value := Some(v));
    SoloMoves(s, w, Resolved(k, c, v), cell, cache, n, Leaving(k, c, Answered(v)), cell.(promotions := 1));
  }

  lemma SoloDrops(s: State, w: Caller, k: Key, o: Outcome, cell: Cell, cache: Cache<Key, Stamped, nat>, n: nat)
    requires cell.key == k && cell.refs == {Local(w), Guard(w)}
    requires k in cache.inflight ==> cache.inflight[k] == |s.cells|
    ensures var u := Solo(s, w, Leaving(k, |s.cells|, o), cell, cache, n);
            && Enabled(u, DropGuard(w))
            && Next(u, DropGuard(w)) ==
               Solo(s, w, Dropped(k, |s.cells|, o), cell, cache.(inflight := cache.inflight - {k}), n + 1)
  {
    SoloMoves(s, w, Leaving(k, |s.cells|, o), cell, cache, n, Dropped(k, |s.cells|, o), cell);
    assert k !in cache.inflight ==> cache.inflight - {k} == cache.inflight;
  }

  lemma SoloReleases(s: State, w: Caller, k: Key, o: Outcome, cell: Cell, cache: Cache<Key, Stamped, nat>, n: nat)
    requires cell.refs == {Local(w), Guard(w)}
    ensures var u := Solo(s, w, Dropped(k, |s.cells|, o), cell, cache, n);
            var v := Solo(s, w, Freed(k, |s.cells|, o), cell.(refs := {Local(w)}), cache, n + 1);
            && Enabled(u, ReleaseGuard(w)) && Next(u, ReleaseGuard(w)) == v
            && Enabled(v, ReleaseLocal(w))
            && Next(v, ReleaseLocal(w)) == Solo(s, w, Done(o), cell.(refs := {}), cache, n + 2)
  {
    assert {Local(w), Guard(w)} - {Guard(w)} == {Local(w)} && {Local(w)} - {Local(w)} == {};
    SoloMoves(s, w, Dropped(k, |s.cells|, o), cell, cache, n, Freed(k, |s.cells|, o), cell.(refs := {Local(w)}));
    SoloMoves(s, w, Freed(k, |s.cells|, o), cell.(refs := {Local(w)}), cache, n + 1, Done(o), cell.(refs := {}));
  }

  lemma {:induction false} LeadsJoin(s: State, a: seq<Step>, t: State, b: seq<Step>, u: State)
    requires Leads(s, a, t) && Leads(t, b, u)
    ensures Leads(s, a + b, u)
    decreases |a|
  {
    if a == [] {
      assert a + b == b;
    } else {
      LeadsJoin(Next(s, a[0]), a[1..], t, b, u);
      LeadsOn(s, a[0], a[1..] + b, u);
      assert a + b == [a[0]] + (a[1..] + b);
    }
  }

  lemma LeadsOne(s: State, step: Step)
    requires Enabled(s, step)
    ensures Leads(s, [step], Next(s, step))
  {
    assert Leads(Next(s, step), [], Next(s, step));
    LeadsOn(s, step, [], Next(s, step));
    assert [step] + [] == [step];
  }

  lemma SoloLeaves(s: State, w: Caller, k: Key, o: Outcome, cell: Cell, cache: Cache<Key, Stamped, nat>, n: nat)
    requires cell.key == k && cell.refs == {Local(w), Guard(w)}
    requires k in cache.inflight ==> cache.inflight[k] == |s.cells|
    ensures Leads(Solo(s, w, Leaving(k, |s.cells|, o), cell, cache, n),
                  [DropGuard(w)] + [ReleaseGuard(w)] + [ReleaseLocal(w)],
                  Solo(s, w, Done(o), cell.(refs := {}), cache.(inflight := cache.inflight - {k}), n + 3))
  {
    var s0 := Solo(s, w, Leaving(k, |s.cells|, o), cell, cache, n);
    SoloDrops(s, w, k, o, cell, cache, n);
    SoloReleases(s, w, k, o, cell, cache.(inflight := cache.inflight - {k}), n + 1);
    LeadThree(s0, DropGuard(w), ReleaseGuard(w), ReleaseLocal(w));
  }

  lemma LeadThree(s: State, a: Step, b: Step, c: Step)
    requires Enabled(s, a) && Enabled(Next(s, a), b) && Enabled(Next(Next(s, a), b), c)
    ensures Leads(s, [a] + [b] + [c], Next(Next(Next(s, a), b), c))
  {
    LeadsOne(s, a);
    LeadsOne(Next(s, a), b);
    LeadsOne(Next(Next(s, a), b), c);
    LeadsJoin(s, [a], Next(s, a), [b], Next(Next(s, a), b));
    LeadsJoin(s, [a] + [b], Next(Next(s, a), b), [c], Next(Next(Next(s, a), b), c));
  }

  // A call that misses the cache and finds the slot free.
  lemma SoloClaims(s: State, w: Caller, k: Key, now: Micros)
    requires w !in s.calls && k !in s.cache.inflight && Answer(s.cache.lru, k, now).None?
    ensures Leads(s, [Begin(w, k)] + [Lookup(w, now)] + [ClaimOrJoin(w)],
                  Solo(s, w, Claimed(k, |s.cells|), Cell(k, None, None, {Local(w)}, 0, false), Loading(s, k, now), 3))
  {
    var s1 := Next(s, Begin(w, k));
    var s2 := Next(s1, Lookup(w, now));
    assert s2.calls == s.calls[w := Missed(k)];
    assert Next(s2, ClaimOrJoin(w)).calls == s.calls[w := Claimed(k, |s.cells|)];
    LeadThree(s, Begin(w, k), Lookup(w, now), ClaimOrJoin(w));
  }

  // The cache after a missed lookup, with the key's slot taken by a new cell.
  ghost function Loading(s: State, k: Key, now: Micros): Cache<Key, Stamped, nat> {
    Cache(AfterGet(s.cache.lru, k, now), s.cache.inflight[k := |s.cells|])
  }

  lemma LoadingFreed(s: State, k: Key, now: Micros)
    requires k !in s.cache.inflight
    ensures Loading(s, k, now).inflight - {k} == s.cache.inflight
    ensures s.cache.inflight - {k} == s.cache.inflight
  {
  }

  ghost function Opened(w: Caller, k: Key, now: Micros): seq<Step> {
    [Begin(w, k)] + [Lookup(w, now)] + [ClaimOrJoin(w)] + [MakeGuard(w)] + [StartFetch(w)]
  }

  ghost function Closed(w: Caller): seq<Step> {
    [DropGuard(w)] + [ReleaseGuard(w)] + [ReleaseLocal(w)]
  }

  lemma SoloOpens(s: State, w: Caller, k: Key, now: Micros)
    requires w !in s.calls && k !in s.cache.inflight && Answer(s.cache.lru, k, now).None?
    ensures Leads(s, Opened(w, k, now),
                  Solo(s, w, Fetching(k, |s.cells|), Blank(w, k, Some(w)), Loading(s, k, now), 5))
  {
    var c, cache := |s.cells|, Loading(s, k, now);
    var s3 := Solo(s, w, Claimed(k, c), Cell(k, None, None, {Local(w)}, 0, false), cache, 3);
    var s4 := Solo(s, w, Waiting(k, c), Blank(w, k, None), cache, 4);
    var opening := [Begin(w, k)] + [Lookup(w, now)] + [ClaimOrJoin(w)];
    SoloClaims(s, w, k, now);
    SoloGuards(s, w, k, cache, 3);
    SoloStarts(s, w, k, cache, 4);
    LeadsOne(s3, MakeGuard(w));
    LeadsOne(s4, StartFetch(w));
    LeadsJoin(s, opening, s3, [MakeGuard(w)], s4);
    LeadsJoin(s, opening + [MakeGuard(w)], s4, [StartFetch(w)], Next(s4, StartFetch(w)));
  }

  // A call on its own whose fetch succeeds answers the value, leaves it cached
  // from the instant it was published, and gives the slot back.
  lemma LoneLoad(s: State, w: Caller, k: Key, now: Micros, v: Value, later: Micros) returns (t: State)
    requires w !in s.calls && k !in s.cache.inflight && Answer(s.cache.lru, k, now).None?
    ensures Leads(s, Opened(w, k, now) + [FetchOk(w, v)] + [PublishValue(w, later)] + Closed(w), t)
    ensures t.calls == s.calls[w := Done(Answered(v))] && t.cache.inflight == s.cache.inflight
    ensures t.cache.lru == AfterInsert(AfterGet(s.cache.lru, k, now), s.cap, s.ttl, k,
                                       Stamped(v, Loaded(|s.cells|), s.steps + 6), later)
  {
    var c, cache := |s.cells|, Loading(s, k, now);
    var lru := AfterInsert(cache.lru, s.cap, s.ttl, k, Stamped(v, Loaded(c), s.steps + 6), later);
    var cell := Blank(w, k, None).(value := Some(v));
    var s5 := Solo(s, w, Fetching(k, c), Blank(w, k, Some(w)), cache, 5);
    var s6 := Solo(s, w, Resolved(k, c, v), cell, cache, 6);
    var s7 := Solo(s, w, Leaving(k, c, Answered(v)), cell.(promotions := 1), Cache(lru, s.cache.inflight), 7);
    LoadingFreed(s, k, now);
    SoloOpens(s, w, k, now);
    SoloFetches(s, w, k, cache, 5, v);
    SoloPublishes(s, w, k, cache, 6, v, later);
    LeadsOne(s5, FetchOk(w, v));
    LeadsOne(s6, PublishValue(w, later));
    SoloLeaves(s, w, k, Answered(v), cell.(promotions := 1), Cache(lru, s.cache.inflight), 7);
    t := Solo(s, w, Done(Answered(v)), cell.(promotions := 1, refs := {}), Cache(lru, s.cache.inflight), 10);
    LeadsJoin(s, Opened(w, k, now), s5, [FetchOk(w, v)], s6);
    LeadsJoin(s, Opened(w, k, now) + [FetchOk(w, v)], s6, [PublishValue(w, later)], s7);
    LeadsJoin(s, Opened(w, k, now) + [FetchOk(w, v)] + [PublishValue(w, later)], s7, Closed(w), t);
  }

  // One whose fetch fails answers the failure and leaves no trace but the
  // missed lookup.
  lemma LoneFailure(s: State, w: Caller, k: Key, now: Micros) returns (t: State)
    requires w !in s.calls && k !in s.cache.inflight && Answer(s.cache.lru, k, now).None?
    ensures Leads(s, Opened(w, k, now) + [FetchErr(w)] + Closed(w), t)
    ensures t.calls == s.calls[w := Done(Failed)]
    ensures t.cache == Cache(AfterGet(s.cache.lru, k, now), s.cache.inflight)
  {
    var c, cache := |s.cells|, Loading(s, k, now);
    var s5 := Solo(s, w, Fetching(k, c), Blank(w, k, Some(w)), cache, 5);
    var s6 := Solo(s, w, Leaving(k, c, Failed), Blank(w, k, None), cache, 6);
    LoadingFreed(s, k, now);
    SoloOpens(s, w, k, now);
    SoloFails(s, w, k, cache, 5);
    LeadsOne(s5, FetchErr(w));
    SoloLeaves(s, w, k, Failed, Blank(w, k, None), cache, 6);
    t := Solo(s, w, Done(Failed), Blank(w, k, None).(refs := {}), cache.(inflight := s.cache.inflight), 9);
    LeadsJoin(s, Opened(w, k, now), s5, [FetchErr(w)], s6);
    LeadsJoin(s, Opened(w, k, now) + [FetchErr(w)], s6, Closed(w), t);
  }

  // A cell out of its slot never gets it back.
  lemma {:induction false} SlotNeverReturns(s: State, steps: seq<Step>, k: Key, c: nat)
    requires Inv(s) && Feasible(s, steps) && c < |s.cells| && !InSlot(s, k, c)
    ensures c < |Run(s, steps).cells| && !InSlot(Run(s, steps), k, c)
    decreases |steps|
  {
    if steps != [] {
      StepGrows(s, steps[0]);
      StepKeepsInv(s, steps[0]);
      SlotNeverReturns(Next(s, steps[0]), steps[1..], k, c);
    }
  }

  // Of all the callers a cell resolves for, the first to publish decides: no
  // later publication through that cell changes the cache.
  lemma FirstPublishes(s: State, w: Caller, now: Micros, later: seq<Step>, w2: Caller, now2: Micros)
    requires Reachable(s) && Enabled(s, PublishValue(w, now)) && Feasible(Next(s, PublishValue(w, now)), later)
    requires Enabled(Run(Next(s, PublishValue(w, now)), later), PublishValue(w2, now2))
    requires Run(Next(s, PublishValue(w, now)), later).calls[w2].cell == s.calls[w].cell
    ensures var t := Run(Next(s, PublishValue(w, now)), later);
            Next(t, PublishValue(w2, now2)).cache == t.cache
  {
    ReachableInv(s);
    StepKeepsInv(s, PublishValue(w, now));
    var s1, c := Next(s, PublishValue(w, now)), s.calls[w].cell;
    RunKeepsInv(s1, later);
    var k := Run(s1, later).calls[w2].key;
    StepIsOwn(s, PublishValue(w, now));
    SlotNeverReturns(s1, later, k, c);
  }

  // A cell counts as invalidated only through an invalidation of its key.
  lemma {:induction false} InvalidatedOnlyBy(s: State, steps: seq<Step>, c: nat)
    requires Inv(s) && Feasible(s, steps) && c < |s.cells|
    requires forall i | 0 <= i < |steps| && steps[i].InvalidateInflight? :: !steps[i].matches(s.cells[c].key)
    ensures c < |Run(s, steps).cells| && Run(s, steps).cells[c].invalidated == s.cells[c].invalidated
    decreases |steps|
  {
    if steps != [] {
      var step := steps[0];
      if IsOwn(step) { StepIsOwn(s, step); }
      StepGrows(s, step);
      StepKeepsInv(s, step);
      assert Next(s, step).cells[c].key == s.cells[c].key;
      InvalidatedOnlyBy(Next(s, step), steps[1..], c);
    }
  }

  // ---- Slots and their participants ----

  ghost predicate Attended(s: State, k: Key)
    requires k in s.cache.inflight
  {
    exists w :: w in s.calls && Participates(s.calls[w]) && s.calls[w].cell == s.cache.inflight[k]
  }

  // A slot that has outlived its participants.
  ghost predicate Orphan(s: State, k: Key) {
    k in s.cache.inflight && !Attended(s, k)
  }

  // The guard never frees a slot whose cell another caller still holds.
  lemma GuardSparesHeldCells(s: State, w: Caller)
    requires Reachable(s) && Enabled(s, DropGuard(w)) && InSlot(s, s.calls[w].key, s.calls[w].cell)
    ensures s.calls[w].key !in Next(s, DropGuard(w)).cache.inflight <==>
            forall w2 | w2 in s.calls && w2 != w && HasLocal(s.calls[w2]) :: s.calls[w2].cell != s.calls[w].cell
  {
    ReachableInv(s);
    CountIsExact(s, w);
    var c := s.calls[w].cell;
    if s.cells[c].refs == {Local(w), Guard(w)} {
      assert forall w2 | w2 in s.calls && HasLocal(s.calls[w2]) :: Local(w2) in Held(w2, s.calls[w2]);
    } else {
      assert Local(w) in Held(w, s.calls[w]) && Guard(w) in Held(w, s.calls[w]);
      var h :| h in s.cells[c].refs && h != Local(w) && h != Guard(w);
      assert h.who != w && HasLocal(s.calls[h.who]);
    }
  }

  // A slot is orphaned by exactly one event: its last participant's guard
  // drop, while some caller already through its own drop has not yet released
  // its reference.
  lemma OrphanedExactly(s: State, w: Caller)
    requires Reachable(s) && Enabled(s, DropGuard(w)) && InSlot(s, s.calls[w].key, s.calls[w].cell)
    ensures Orphan(Next(s, DropGuard(w)), s.calls[w].key) <==>
            && (forall w2 | w2 in s.calls && w2 != w && Participates(s.calls[w2]) ::
                  s.calls[w2].cell != s.calls[w].cell)
            && (exists w2 :: w2 in s.calls && w2 != w && Lingers(s.calls[w2])
                             && s.calls[w2].cell == s.calls[w].cell)
  {
    GuardSparesHeldCells(s, w);
    var k, c, s' := s.calls[w].key, s.calls[w].cell, Next(s, DropGuard(w));
    assert s'.calls == s.calls[w := s'.calls[w]] && s'.calls[w].Dropped?;
    if k in s'.cache.inflight {
      assert s'.cache.inflight[k] == c;
      var w2 :| w2 in s.calls && w2 != w && HasLocal(s.calls[w2]) && s.calls[w2].cell == c;
      assert Participates(s.calls[w2]) || Lingers(s.calls[w2]);
      if w3 :| w3 in s.calls && w3 != w && Participates(s.calls[w3]) && s.calls[w3].cell == c {
        assert w3 in s'.calls && Participates(s'.calls[w3]);
      }
    }
  }

  // No other step does it: a slot that is new, or that had a participant
  // before, has one after.
  lemma OnlyDropsOrphan(s: State, step: Step, k: Key)
    requires Reachable(s) && Enabled(s, step) && !step.DropGuard?
    requires k in Next(s, step).cache.inflight && (k in s.cache.inflight ==> Attended(s, k))
    ensures Attended(Next(s, step), k)
  {
    ReachableInv(s);
    var s' := Next(s, step);
    if IsOwn(step) {
      StepIsOwn(s, step);
      OwnStaysAttended(s, s', step.who, k);
    } else if step.ClaimOrJoin? {
      ClaimIsStep(s, step.who);
      ClaimStaysAttended(s, s', step.who, k);
    } else {
      var w :| w in s.calls && Participates(s.calls[w]) && s.calls[w].cell == s.cache.inflight[k];
      assert w in s'.calls && s'.calls[w] == s.calls[w];
    }
  }

  lemma OwnStaysAttended(s: State, s': State, w: Caller, k: Key)
    requires OwnStep(s, s', w) && !s.calls[w].Leaving?
    requires k in s'.cache.inflight && (k in s.cache.inflight ==> Attended(s, k))
    ensures Attended(s', k)
  {
    var w2 :| w2 in s.calls && Participates(s.calls[w2]) && s.calls[w2].cell == s.cache.inflight[k];
    assert w2 in s'.calls && Participates(s'.calls[w2]);
  }

  lemma ClaimStaysAttended(s: State, s': State, w: Caller, k: Key)
    requires ClaimStep(s, s', w) && k in s'.cache.inflight && (k in s.cache.inflight ==> Attended(s, k))
    ensures Attended(s', k)
  {
    if k == s'.calls[w].key {
      assert Participates(s'.calls[w]);
    } else {
      var w2 :| w2 in s.calls && Participates(s.calls[w2]) && s.calls[w2].cell == s.cache.inflight[k];
      assert w2 in s'.calls && Participates(s'.calls[w2]);
    }
  }

  // An orphan is harmless: its cell is unset and idle, and the next caller
  // for the key that misses the cache joins it and runs its own fetch.
  lemma OrphanIsReusable(s: State, k: Key, w: Caller)
    requires Reachable(s) && Orphan(s, k) && w in s.calls && s.calls[w] == Missed(k)
    ensures s.cache.inflight[k] < |s.cells|
    ensures s.cells[s.cache.inflight[k]].value.None? && s.cells[s.cache.inflight[k]].running.None?
    ensures Enabled(s, ClaimOrJoin(w))
    ensures Next(s, ClaimOrJoin(w)).calls[w] == Claimed(k, s.cache.inflight[k])
    ensures Enabled(Next(s, ClaimOrJoin(w)), MakeGuard(w))
    ensures Enabled(Next(Next(s, ClaimOrJoin(w)), MakeGuard(w)), StartFetch(w))
  {
    ReachableInv(s);
    OrphanIsUnset(s, k);
  }

  lemma OrphanIsUnset(s: State, k: Key)
    requires Inv(s) && Orphan(s, k)
    ensures s.cells[s.cache.inflight[k]].value.None? && s.cells[s.cache.inflight[k]].running.None?
  {
    var c := s.cache.inflight[k];
    assert forall w | w in s.calls && (s.calls[w].Resolved? || s.calls[w].Fetching?) :: Participates(s.calls[w]);
  }

  // Runs in which each guard drop and both releases happen as one.
  ghost predicate Coarse(steps: seq<Step>)
    decreases |steps|
  {
    if steps == [] then true
    else if steps[0].DropGuard? then
      && |steps| >= 3
      && steps[1] == ReleaseGuard(steps[0].who) && steps[2] == ReleaseLocal(steps[0].who)
      && Coarse(steps[3..])
    else !steps[0].ReleaseGuard? && !steps[0].ReleaseLocal? && Coarse(steps[1..])
  }

  ghost predicate Tidy(s: State) {
    && (forall w | w in s.calls :: !Lingers(s.calls[w]))
    && (forall k | k in s.cache.inflight :: Attended(s, k))
  }

  lemma {:induction false} CoarseRunsAreTidy(s: State, steps: seq<Step>)
    requires Reachable(s) && Tidy(s) && Feasible(s, steps) && Coarse(steps)
    ensures Tidy(Run(s, steps))
    decreases |steps|
  {
    if steps != [] {
      var s1 := Next(s, steps[0]);
      StepReachable(s, steps[0]);
      if steps[0].DropGuard? {
        var s2, s3 := ThreeSteps(s, steps);
        StepReachable(s1, steps[1]);
        StepReachable(s2, steps[2]);
        LeavingIsTidy(s, steps[0].who);
        CoarseRunsAreTidy(s3, steps[3..]);
      } else {
        StepIsTidy(s, steps[0]);
        CoarseRunsAreTidy(s1, steps[1..]);
      }
    }
  }

  lemma ThreeSteps(s: State, steps: seq<Step>) returns (s2: State, s3: State)
    requires Feasible(s, steps) && |steps| >= 3
    ensures Enabled(Next(s, steps[0]), steps[1]) && s2 == Next(Next(s, steps[0]), steps[1])
    ensures Enabled(s2, steps[2]) && s3 == Next(s2, steps[2])
    ensures Feasible(s3, steps[3..]) && Run(s3, steps[3..]) == Run(s, steps)
  {
    var s1 := Next(s, steps[0]);
    assert Feasible(s1, steps[1..]) && steps[1..][0] == steps[1];
    s2 := Next(s1, steps[1]);
    assert steps[1..][1..] == steps[2..] && Feasible(s2, steps[2..]) && steps[2..][0] == steps[2];
    s3 := Next(s2, steps[2]);
    assert steps[2..][1..] == steps[3..];
    assert Run(s, steps) == Run(s1, steps[1..]) == Run(s2, steps[2..]);
  }

  lemma StepIsTidy(s: State, step: Step)
    requires Reachable(s) && Tidy(s) && Enabled(s, step)
    requires !step.DropGuard? && !step.ReleaseGuard? && !step.ReleaseLocal?
    ensures Tidy(Next(s, step))
  {
    forall k | k in Next(s, step).cache.inflight ensures Attended(Next(s, step), k) {
      OnlyDropsOrphan(s, step, k);
    }
  }

  lemma ReleasesOnly(s: State, w: Caller)
    requires Enabled(s, ReleaseGuard(w)) && Enabled(Next(s, ReleaseGuard(w)), ReleaseLocal(w))
    ensures var s' := Next(Next(s, ReleaseGuard(w)), ReleaseLocal(w));
            s'.cache == s.cache && w in s'.calls && s'.calls == s.calls[w := s'.calls[w]] && s'.calls[w].Done?
  {
  }

  lemma LeavingIsTidy(s: State, w: Caller)
    requires Reachable(s) && Tidy(s) && Enabled(s, DropGuard(w))
    requires Enabled(Next(s, DropGuard(w)), ReleaseGuard(w))
    requires Enabled(Next(Next(s, DropGuard(w)), ReleaseGuard(w)), ReleaseLocal(w))
    ensures Tidy(Next(Next(Next(s, DropGuard(w)), ReleaseGuard(w)), ReleaseLocal(w)))
  {
    var s1 := Next(s, DropGuard(w));
    var s3 := Next(Next(s1, ReleaseGuard(w)), ReleaseLocal(w));
    ReleasesOnly(s1, w);
    DropKeepsAttended(s, w);
    forall k | k in s3.cache.inflight ensures Attended(s3, k) {
      assert Attended(s1, k);
      var w3 :| w3 in s1.calls && Participates(s1.calls[w3]) && s1.calls[w3].cell == s1.cache.inflight[k];
      assert w3 in s3.calls && Participates(s3.calls[w3]);
    }
  }

  lemma DropKeepsAttended(s: State, w: Caller)
    requires Reachable(s) && Tidy(s) && Enabled(s, DropGuard(w))
    ensures var s1 := Next(s, DropGuard(w));
            && s1.calls == s.calls[w := s1.calls[w]] && s1.calls[w].Dropped?
            && forall k | k in s1.cache.inflight :: Attended(s1, k)
  {
    var s1 := Next(s, DropGuard(w));
    assert s1.calls == s.calls[w := s1.calls[w]] && s1.calls[w].Dropped?;
    forall k | k in s1.cache.inflight ensures Attended(s1, k) {
      assert Attended(s, k);
      var w2 :| w2 in s.calls && Participates(s.calls[w2]) && s.calls[w2].cell == s.cache.inflight[k];
      if w2 == w {
        ReachableInv(s);
        OrphanedExactly(s, w);
        assert !Orphan(s1, k);
      } else {
        assert w2 in s1.calls && Participates(s1.calls[w2]);
      }
    }
  }

  // Two callers of one key that share its only cell.
  datatype Duo = Duo(cap: nat, ttl: nat, k: Key, a: Caller, b: Caller)

  ghost function Pair(d: Duo, x: Call, y: Call, running: Option<Caller>, refs: set<Handle>, steps: nat): State {
    State(d.cap, d.ttl, Cache([], map[d.k := 0]), [Cell(d.k, None, running, refs, 0, false)],
          map[d.a := x, d.b := y], [], steps)
  }

  // One of the two moves on, changing the cell's initialiser and references.
  lemma PairMoves(d: Duo, w: Caller, t: State, x: Call, y: Call, running: Option<Caller>, refs: set<Handle>, n: nat,
                  x': Call, y': Call, running': Option<Caller>, refs': set<Handle>)
    requires d.a != d.b && if w == d.a then y' == y else w == d.b && x' == x
    requires var s := Pair(d, x, y, running, refs, n);
             t == s.(calls := s.calls[w := if w == d.a then x' else y'],
                     cells := s.cells[0 := Cell(d.k, None, running', refs', 0, false)], steps := n + 1)
    ensures t == Pair(d, x', y', running', refs', n + 1)
  {
    assert t.calls == map[d.a := x', d.b := y'];
    assert t.cells == [Cell(d.k, None, running', refs', 0, false)];
  }

  lemma BothClaim(d: Duo, now: Micros) returns (s: State)
    requires 0 < d.cap && d.a != d.b
    ensures Reachable(s) && s == Pair(d, Claimed(d.k, 0), Claimed(d.k, 0), None, {Local(d.a), Local(d.b)}, 6)
  {
    s := BothMiss(d, now);
    StepReachable(s, ClaimOrJoin(d.a));
    s := Next(s, ClaimOrJoin(d.a));
    assert s.calls == map[d.a := Claimed(d.k, 0), d.b := Missed(d.k)];
    StepReachable(s, ClaimOrJoin(d.b));
    s := Next(s, ClaimOrJoin(d.b));
    assert s.calls == map[d.a := Claimed(d.k, 0), d.b := Claimed(d.k, 0)];
    assert s.cells[0].refs == {Local(d.a), Local(d.b)};
    assert s.cells == [Cell(d.k, None, None, {Local(d.a), Local(d.b)}, 0, false)];
  }

  ghost function Opening(d: Duo, calls: map<Caller, Call>, steps: nat): State {
    State(d.cap, d.ttl, Cache([], map[]), [], calls, [], steps)
  }

  lemma BothBegin(d: Duo) returns (s: State)
    requires 0 < d.cap && d.a != d.b
    ensures Reachable(s) && s == Opening(d, map[d.a := Starting(d.k), d.b := Starting(d.k)], 2)
  {
    s := Init(d.cap, d.ttl);
    assert Feasible(s, []) && Run(s, []) == s;
    StepReachable(s, Begin(d.a, d.k));
    s := Next(s, Begin(d.a, d.k));
    StepReachable(s, Begin(d.b, d.k));
    s := Next(s, Begin(d.b, d.k));
    assert s.calls == map[d.a := Starting(d.k), d.b := Starting(d.k)];
  }

  lemma BothMiss(d: Duo, now: Micros) returns (s: State)
    requires 0 < d.cap && d.a != d.b
    ensures Reachable(s) && s == Opening(d, map[d.a := Missed(d.k), d.b := Missed(d.k)], 4)
  {
    s := BothBegin(d);
    StepReachable(s, Lookup(d.a, now));
    s := Next(s, Lookup(d.a, now));
    assert s.calls == map[d.a := Missed(d.k), d.b := Starting(d.k)];
    StepReachable(s, Lookup(d.b, now));
    s := Next(s, Lookup(d.b, now));
    assert s.calls == map[d.a := Missed(d.k), d.b := Missed(d.k)];
  }

  ghost function AllHandles(d: Duo): set<Handle> {
    {Local(d.a), Local(d.b), Guard(d.a), Guard(d.b)}
  }

  lemma BothWait(d: Duo, s0: State) returns (s: State)
    requires d.a != d.b && Reachable(s0)
    requires s0 == Pair(d, Claimed(d.k, 0), Claimed(d.k, 0), None, {Local(d.a), Local(d.b)}, 6)
    ensures Reachable(s) && s == Pair(d, Waiting(d.k, 0), Waiting(d.k, 0), None, AllHandles(d), 8)
  {
    var refs := {Local(d.a), Local(d.b), Guard(d.a)};
    s := Next(s0, MakeGuard(d.a));
    assert s.cells[0].refs == refs;
    StepReachable(s0, MakeGuard(d.a));
    PairMoves(d, d.a, s, Claimed(d.k, 0), Claimed(d.k, 0), None, {Local(d.a), Local(d.b)}, 6,
              Waiting(d.k, 0), Claimed(d.k, 0), None, refs);
    var t := Next(s, MakeGuard(d.b));
    assert t.cells[0].refs == AllHandles(d);
    StepReachable(s, MakeGuard(d.b));
    PairMoves(d, d.b, t, Waiting(d.k, 0), Claimed(d.k, 0), None, refs, 7,
              Waiting(d.k, 0), Waiting(d.k, 0), None, AllHandles(d));
    s := t;
  }

  lemma BothFail(d: Duo, s0: State) returns (s: State)
    requires d.a != d.b && Reachable(s0)
    requires s0 == Pair(d, Waiting(d.k, 0), Waiting(d.k, 0), None, AllHandles(d), 8)
    ensures Reachable(s)
    ensures s == Pair(d, Leaving(d.k, 0, Failed), Leaving(d.k, 0, Failed), None, AllHandles(d), 12)
  {
    var all, wait, fetch, fail := AllHandles(d), Waiting(d.k, 0), Fetching(d.k, 0), Leaving(d.k, 0, Failed);
    s := Next(s0, StartFetch(d.a));
    StepReachable(s0, StartFetch(d.a));
    PairMoves(d, d.a, s, wait, wait, None, all, 8, fetch, wait, Some(d.a), all);
    var t := Next(s, FetchErr(d.a));
    StepReachable(s, FetchErr(d.a));
    PairMoves(d, d.a, t, fetch, wait, Some(d.a), all, 9, fail, wait, None, all);
    s := Next(t, StartFetch(d.b));
    StepReachable(t, StartFetch(d.b));
    PairMoves(d, d.b, s, fail, wait, None, all, 10, fail, fetch, Some(d.b), all);
    t := Next(s, FetchErr(d.b));
    StepReachable(s, FetchErr(d.b));
    PairMoves(d, d.b, t, fail, fetch, Some(d.b), all, 11, fail, fail, None, all);
    s := t;
  }

  lemma BothDrop(d: Duo, s0: State) returns (s: State)
    requires d.a != d.b && Reachable(s0)
    requires s0 == Pair(d, Leaving(d.k, 0, Failed), Leaving(d.k, 0, Failed), None, AllHandles(d), 12)
    ensures Reachable(s)
    ensures s == Pair(d, Dropped(d.k, 0, Failed), Dropped(d.k, 0, Failed), None, AllHandles(d), 14)
  {
    var all, fail, dropped := AllHandles(d), Leaving(d.k, 0, Failed), Dropped(d.k, 0, Failed);
    assert |all| == 4;
    s := Next(s0, DropGuard(d.a));
    StepReachable(s0, DropGuard(d.a));
    PairMoves(d, d.a, s, fail, fail, None, all, 12, dropped, fail, None, all);
    var t := Next(s, DropGuard(d.b));
    StepReachable(s, DropGuard(d.b));
    PairMoves(d, d.b, t, dropped, fail, None, all, 13, dropped, dropped, None, all);
    s := t;
  }

  lemma BothFree(d: Duo, s0: State) returns (s: State)
    requires d.a != d.b && Reachable(s0)
    requires s0 == Pair(d, Dropped(d.k, 0, Failed), Dropped(d.k, 0, Failed), None, AllHandles(d), 14)
    ensures Reachable(s)
    ensures s == Pair(d, Freed(d.k, 0, Failed), Freed(d.k, 0, Failed), None, {Local(d.a), Local(d.b)}, 16)
  {
    var all, dropped, freed := AllHandles(d), Dropped(d.k, 0, Failed), Freed(d.k, 0, Failed);
    var three, two := {Local(d.a), Local(d.b), Guard(d.b)}, {Local(d.a), Local(d.b)};
    s := Next(s0, ReleaseGuard(d.a));
    assert s.cells[0].refs == three;
    StepReachable(s0, ReleaseGuard(d.a));
    PairMoves(d, d.a, s, dropped, dropped, None, all, 14, freed, dropped, None, three);
    var t := Next(s, ReleaseGuard(d.b));
    assert t.cells[0].refs == two;
    StepReachable(s, ReleaseGuard(d.b));
    PairMoves(d, d.b, t, freed, dropped, None, three, 15, freed, freed, None, two);
    s := t;
  }

  lemma BothFinish(d: Duo, s0: State) returns (s: State)
    requires d.a != d.b && Reachable(s0)
    requires s0 == Pair(d, Freed(d.k, 0, Failed), Freed(d.k, 0, Failed), None, {Local(d.a), Local(d.b)}, 16)
    ensures Reachable(s) && s == Pair(d, Done(Failed), Done(Failed), None, {}, 18)
  {
    var freed, two := Freed(d.k, 0, Failed), {Local(d.a), Local(d.b)};
    s := Next(s0, ReleaseLocal(d.a));
    assert s.cells[0].refs == {Local(d.b)};
    StepReachable(s0, ReleaseLocal(d.a));
    PairMoves(d, d.a, s, freed, freed, None, two, 16, Done(Failed), freed, None, {Local(d.b)});
    var t := Next(s, ReleaseLocal(d.b));
    assert t.cells[0].refs == {};
    StepReachable(s, ReleaseLocal(d.b));
    PairMoves(d, d.b, t, Done(Failed), freed, None, {Local(d.b)}, 17, Done(Failed), Done(Failed), None, {});
    s := t;
  }

  // Orphans do occur: two callers of one key both fail, and each drops its
  // guard while the other still holds its references.
  lemma OrphanOccurs(d: Duo, now: Micros) returns (s: State)
    requires 0 < d.cap && d.a != d.b
    ensures Reachable(s) && Orphan(s, d.k) && s.calls == map[d.a := Done(Failed), d.b := Done(Failed)]
  {
    s := BothClaim(d, now);
    s := BothWait(d, s);
    s := BothFail(d, s);
    s := BothDrop(d, s);
    s := BothFree(d, s);
    s := BothFinish(d, s);
  }

  lemma StepReachable(s: State, step: Step)
    requires Reachable(s) && Enabled(s, step)
    ensures Reachable(Next(s, step))
  {
    var steps :| 0 < s.cap && Feasible(Init(s.cap, s.ttl), steps) && Run(Init(s.cap, s.ttl), steps) == s;
    RunExtends(Init(s.cap, s.ttl), steps, step);
  }

  lemma {:induction false} RunExtends(s: State, steps: seq<Step>, last: Step)
    requires Feasible(s, steps) && Enabled(Run(s, steps), last)
    ensures Feasible(s, steps + [last]) && Run(s, steps + [last]) == Next(Run(s, steps), last)
    decreases |steps|
  {
    if steps != [] {
      assert (steps + [last])[1..] == steps[1..] + [last];
      RunExtends(Next(s, steps[0]), steps[1..], last);
    } else {
      assert (steps + [last])[1..] == [];
    }
  }
}
