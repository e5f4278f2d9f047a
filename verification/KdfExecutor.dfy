// The bounded executor: a semaphore, an atomic count of waiting jobs, and any
// interleaving of callers, each step one atomic operation. A caller may be
// dropped while it waits and while its job runs.
module KdfExecutor {
  type Caller(==, !new)

  const DEFAULT_QUEUE_PER_PERMIT: nat := 16
  const USIZE_MAX: nat := 0xFFFF_FFFF_FFFF_FFFF

  function SaturatingMul(a: nat, b: nat): nat {
    if a * b <= USIZE_MAX then a * b else USIZE_MAX
  }

  datatype Counters = Counters(free: nat, waiting: nat, started: nat)

  // What each atomic operation does to the counters: a permit taken or given
  // back, a job counted as waiting or no longer, a job started.
  function Taken(at: Counters): Counters requires at.free > 0 { at.(free := at.free - 1) }

  function Given(at: Counters): Counters { at.(free := at.free + 1) }

  function Counted(at: Counters): Counters { at.(waiting := at.waiting + 1) }

  function Uncounted(at: Counters): Counters requires at.waiting > 0 { at.(waiting := at.waiting - 1) }

  function Begun(at: Counters): Counters { at.(started := at.started + 1) }

  // Decided on the count before the job itself was counted.
  predicate Admits(at: Counters, maxQueue: nat) { at.waiting < maxQueue }

  // Where a caller is: it has yet to try for a permit, found none free, was
  // counted and is being refused, waits, has a permit set aside that it has
  // not yet woken up to, was dropped and gave that one back, has taken a
  // permit but is still counted, holds a permit, has its job running, was
  // dropped with its job running, has had its job end, or has left without
  // one.
  datatype Place =
    | Asking | Full | Refusing | Queued | Reserved | Abandoning | Granted
    | Holding | Running | Detached | Ended | Gone

  datatype State = State(permits: nat, maxQueue: nat, at: Counters, calls: map<Caller, Place>)

  datatype Step =
    | Call(who: Caller)
    | TryAcquire(who: Caller)
    | Enqueue(who: Caller)
    | Undo(who: Caller)
    | Reserve(who: Caller)
    | Wake(who: Caller)
    | Return(who: Caller)
    | Grant(who: Caller)
    | DropGuard(who: Caller)
    | GiveUp(who: Caller)
    | Start(who: Caller)
    | Detach(who: Caller)
    | End(who: Caller)

  ghost function Init(permits: nat, maxQueue: nat): State {
    State(permits, maxQueue, Counters(permits, 0, 0), map[])
  }

  ghost function In(calls: map<Caller, Place>, p: Place): set<Caller> {
    set w | w in calls && calls[w] == p
  }

  // How many callers are at a place.
  ghost function Count(s: State, p: Place): nat {
    |In(s.calls, p)|
  }

  // Holds a waiting guard.
  ghost predicate Waits(p: Place) {
    p.Queued? || p.Reserved? || p.Abandoning? || p.Granted?
  }

  ghost function Waiters(s: State): nat {
    Count(s, Queued) + Count(s, Reserved) + Count(s, Abandoning) + Count(s, Granted)
  }

  // Permits of jobs, from the moment one is taken to the end of the job.
  ghost function Held(s: State): nat {
    Count(s, Granted) + Count(s, Holding) + Count(s, Running) + Count(s, Detached)
  }

  ghost predicate Enabled(s: State, step: Step) {
    var w := step.who;
    match step
    case Call(_) => w !in s.calls
    case TryAcquire(_) => w in s.calls && s.calls[w].Asking?
    case Enqueue(_) => w in s.calls && s.calls[w].Full?
    case Undo(_) => w in s.calls && s.calls[w].Refusing? && s.at.waiting > 0
    case Reserve(_) => w in s.calls && s.calls[w].Queued? && s.at.free > 0
    case Wake(_) => w in s.calls && s.calls[w].Reserved?
    case Return(_) => w in s.calls && s.calls[w].Reserved?
    case Grant(_) => w in s.calls && s.calls[w].Queued? && s.at.free > 0
    case DropGuard(_) => w in s.calls && s.calls[w].Granted? && s.at.waiting > 0
    case GiveUp(_) => w in s.calls && (s.calls[w].Queued? || s.calls[w].Abandoning?) && s.at.waiting > 0
    case Start(_) => w in s.calls && s.calls[w].Holding?
    case Detach(_) => w in s.calls && s.calls[w].Running?
    case End(_) => w in s.calls && (s.calls[w].Running? || s.calls[w].Detached?)
  }

  ghost function Go(s: State, w: Caller, p: Place, at: Counters): State {
    s.(calls := s.calls[w := p], at := at)
  }

  ghost function Next(s: State, step: Step): State
    requires Enabled(s, step)
  {
    var w, at := step.who, s.at;
    match step
    case Call(_) => Go(s, w, Asking, at)
    case TryAcquire(_) => if at.free > 0 then Go(s, w, Holding, Taken(at)) else Go(s, w, Full, at)
    case Enqueue(_) => Go(s, w, if Admits(at, s.maxQueue) then Queued else Refusing, Counted(at))
    case Undo(_) => Go(s, w, Gone, Uncounted(at))
    case Reserve(_) => Go(s, w, Reserved, Taken(at))
    case Wake(_) => Go(s, w, Granted, at)
    case Return(_) => Go(s, w, Abandoning, Given(at))
    case Grant(_) => Go(s, w, Granted, Taken(at))
    case DropGuard(_) => Go(s, w, Holding, Uncounted(at))
    case GiveUp(_) => Go(s, w, Gone, Uncounted(at))
    case Start(_) => Go(s, w, Running, Begun(at))
    case Detach(_) => Go(s, w, Detached, at)
    case End(_) => Go(s, w, Ended, Given(at))
  }

  // ---- What every step keeps ----

  // Each permit is free, set aside or held; the counter is the waiters plus the refusals
  // not yet undone; the waiters fit the queue.
  ghost predicate Inv(s: State) {
    && s.at.free + Count(s, Reserved) + Held(s) == s.permits
    && s.at.waiting == Waiters(s) + Count(s, Refusing)
    && Waiters(s) <= s.maxQueue
    && s.at.started == Count(s, Running) + Count(s, Detached) + Count(s, Ended)
  }

  lemma MoveMembers(calls: map<Caller, Place>, w: Caller, to: Place, p: Place)
    ensures In(calls[w := to], p) == if to == p then In(calls, p) + {w} else In(calls, p) - {w}
  {
    var after := In(calls[w := to], p);
    forall x ensures x in after <==> (if x == w then to == p else x in In(calls, p)) {
    }
  }

  lemma MoveCounts(calls: map<Caller, Place>, w: Caller, to: Place, p: Place)
    ensures |In(calls[w := to], p)| ==
            |In(calls, p)| + (if to == p then 1 else 0) - (if w in calls && calls[w] == p then 1 else 0)
  {
    MoveMembers(calls, w, to, p);
    assert w in In(calls, p) <==> w in calls && calls[w] == p;
  }

  lemma StepKeepsPermits(s: State, step: Step)
    requires Inv(s) && Enabled(s, step)
    ensures var s' := Next(s, step);
            && s'.at.free + Count(s', Reserved) + Held(s') == s.permits
            && s'.at.started == Count(s', Running) + Count(s', Detached) + Count(s', Ended)
  {
    var to := Next(s, step).calls[step.who];
    MoveCounts(s.calls, step.who, to, Reserved);
    MoveCounts(s.calls, step.who, to, Granted);
    MoveCounts(s.calls, step.who, to, Holding);
    MoveCounts(s.calls, step.who, to, Running);
    MoveCounts(s.calls, step.who, to, Detached);
    MoveCounts(s.calls, step.who, to, Ended);
  }

  lemma StepKeepsQueue(s: State, step: Step)
    requires Inv(s) && Enabled(s, step)
    ensures var s' := Next(s, step);
            s'.at.waiting == Waiters(s') + Count(s', Refusing) && Waiters(s') <= s.maxQueue
  {
    var to := Next(s, step).calls[step.who];
    MoveCounts(s.calls, step.who, to, Queued);
    MoveCounts(s.calls, step.who, to, Reserved);
    MoveCounts(s.calls, step.who, to, Abandoning);
    MoveCounts(s.calls, step.who, to, Granted);
    MoveCounts(s.calls, step.who, to, Refusing);
  }

  lemma StepKeepsInv(s: State, step: Step)
    requires Inv(s) && Enabled(s, step)
    ensures Inv(Next(s, step))
  {
    StepKeepsPermits(s, step);
    StepKeepsQueue(s, step);
  }

  // ---- Runs ----

  ghost predicate Feasible(s: State, steps: seq<Step>)
    decreases |steps|
  {
    steps == [] || (Enabled(s, steps[0]) && Feasible(Next(s, steps[0]), steps[1..]))
  }

  ghost function Run(s: State, steps: seq<Step>): State
    requires Feasible(s, steps)
    decreases |steps|
  {
    if steps == [] then s else Run(Next(s, steps[0]), steps[1..])
  }

  ghost predicate Reachable(s: State) {
    exists steps ::
      && Feasible(Init(s.permits, s.maxQueue), steps)
      && Run(Init(s.permits, s.maxQueue), steps) == s
  }

  lemma {:induction false} RunKeepsInv(s: State, steps: seq<Step>)
    requires Inv(s) && Feasible(s, steps)
    ensures Inv(Run(s, steps))
    decreases |steps|
  {
    if steps != [] {
      StepKeepsInv(s, steps[0]);
      RunKeepsInv(Next(s, steps[0]), steps[1..]);
    }
  }

  // In every interleaving: permits are conserved, at most as many jobs run as
  // there are permits, the admitted waiters never exceed the queue limit, and
  // the counter is exactly the waiters and the refusals not yet undone.
  lemma PermitsConserved(s: State)
    requires Reachable(s)
    ensures s.at.free + Count(s, Reserved) + Held(s) == s.permits
    ensures Count(s, Running) + Count(s, Detached) <= s.permits
    ensures Waiters(s) <= s.maxQueue
    ensures s.at.waiting == Waiters(s) + Count(s, Refusing)
    ensures s.at.started == Count(s, Running) + Count(s, Detached) + Count(s, Ended)
  {
    var steps :| Feasible(Init(s.permits, s.maxQueue), steps) && Run(Init(s.permits, s.maxQueue), steps) == s;
    assert forall p :: In(map[], p) == {};
    RunKeepsInv(Init(s.permits, s.maxQueue), steps);
  }

  // Has a permit of its own.
  predicate Holds(p: Place) {
    p.Granted? || p.Holding? || p.Running? || p.Detached?
  }

  // A caller's permit stays its own, dropped or not, until its job ends: after
  // any run it still holds it exactly when the run did not end its job.
  lemma {:induction false} HeldUntilEnd(s: State, steps: seq<Step>, w: Caller)
    requires Feasible(s, steps) && w in s.calls && Holds(s.calls[w])
    ensures w in Run(s, steps).calls
    ensures Holds(Run(s, steps).calls[w]) <==> End(w) !in steps
    decreases |steps|
  {
    if steps != [] {
      assert steps == [steps[0]] + steps[1..];
      if steps[0] == End(w) {
        EndedStays(Next(s, steps[0]), steps[1..], w);
      } else {
        HeldUntilEnd(Next(s, steps[0]), steps[1..], w);
      }
    }
  }

  lemma {:induction false} EndedStays(s: State, steps: seq<Step>, w: Caller)
    requires Feasible(s, steps) && w in s.calls && s.calls[w].Ended?
    ensures w in Run(s, steps).calls && Run(s, steps).calls[w].Ended?
    decreases |steps|
  {
    if steps != [] {
      EndedStays(Next(s, steps[0]), steps[1..], w);
    }
  }

  lemma EndGivesOne(s: State, w: Caller)
    requires Enabled(s, End(w))
    ensures Held(Next(s, End(w))) == Held(s) - 1
  {
    MoveCounts(s.calls, w, Ended, Granted);
    MoveCounts(s.calls, w, Ended, Holding);
    MoveCounts(s.calls, w, Ended, Running);
    MoveCounts(s.calls, w, Ended, Detached);
  }

  // And no step but an end gives a held permit back; besides that only one
  // set aside and never taken becomes free.
  lemma PermitReturnsAtEnd(s: State, step: Step)
    requires Reachable(s) && Enabled(s, step)
    ensures Held(Next(s, step)) < Held(s) <==> step.End?
    ensures Next(s, step).at.free > s.at.free <==> step.End? || step.Return?
  {
    var to := Next(s, step).calls[step.who];
    MoveCounts(s.calls, step.who, to, Granted);
    MoveCounts(s.calls, step.who, to, Holding);
    MoveCounts(s.calls, step.who, to, Running);
    MoveCounts(s.calls, step.who, to, Detached);
  }

  // The counter's decrements never go below zero.
  lemma CounterCoversGuards(s: State, w: Caller)
    requires Reachable(s) && w in s.calls && (s.calls[w].Refusing? || Waits(s.calls[w]))
    ensures s.at.waiting > 0
  {
    PermitsConserved(s);
    GuardIsCounted(s, w);
  }

  lemma GuardIsCounted(s: State, w: Caller)
    requires Inv(s) && w in s.calls && (s.calls[w].Refusing? || Waits(s.calls[w]))
    ensures s.at.waiting > 0
  {
    assert w in In(s.calls, s.calls[w]);
  }

  // A job that found no free permit is refused exactly when the waiters and
  // the refusals not yet undone fill the queue.
  lemma RefusedExactly(s: State, w: Caller)
    requires Reachable(s) && Enabled(s, Enqueue(w))
    ensures Next(s, Enqueue(w)).calls[w].Refusing? <==>
            Waiters(s) + Count(s, Refusing) >= s.maxQueue
    ensures Count(s, Refusing) == 0 ==>
              (Next(s, Enqueue(w)).calls[w].Refusing? <==> Waiters(s) == s.maxQueue)
  {
    PermitsConserved(s);
  }

  lemma {:induction false} RunExtends(s: State, steps: seq<Step>, last: Step)
    requires Feasible(s, steps) && Enabled(Run(s, steps), last)
    ensures Feasible(s, steps + [last]) && Run(s, steps + [last]) == Next(Run(s, steps), last)
    decreases |steps|
  {
    if steps != [] {
      assert (steps + [last])[1..] == steps[1..] + [last];
      RunExtends(Next(s, steps[0]), steps[1..], last);
    } else {
      assert (steps + [last])[1..] == [];
    }
  }

  lemma Take(s: State, step: Step) returns (t: State)
    requires Reachable(s) && Enabled(s, step)
    ensures t == Next(s, step) && Reachable(t)
  {
    t := Next(s, step);
    var steps :| Feasible(Init(s.permits, s.maxQueue), steps) && Run(Init(s.permits, s.maxQueue), steps) == s;
    RunExtends(Init(s.permits, s.maxQueue), steps, step);
  }

  ghost function Single(waiting: nat, calls: map<Caller, Place>): State {
    State(1, 1, Counters(0, waiting, 0), calls)
  }

  // So the queue limit is not exact: with one permit held and a queue of one,
  // a job can be refused while nobody waits, because a refusal is still being
  // undone.
  lemma RefusedBelowLimit(a: Caller, b: Caller, c: Caller, d: Caller) returns (s: State)
    requires a != b && a != c && a != d && b != c && b != d && c != d
    ensures Reachable(s) && Enabled(s, Enqueue(d)) && Next(s, Enqueue(d)).calls[d].Refusing?
    ensures Waiters(s) == 0 < s.maxQueue
  {
    s := RefusalPending(a, b, c);
    s := FindsNone(d, 1, s.calls);
    assert s.calls == map[a := Holding, b := Gone, c := Refusing, d := Full];
    NobodyWaits(s);
  }

  lemma OneQueued(a: Caller, b: Caller) returns (s: State)
    requires a != b
    ensures s == Single(1, map[a := Holding, b := Queued]) && Reachable(s)
  {
    s := Init(1, 1);
    assert Feasible(s, []) && Run(s, []) == s;
    s := Take(s, Call(a));
    s := Take(s, TryAcquire(a));
    assert s.calls == map[a := Holding];
    s := FindsNone(b, 0, s.calls);
    s := Take(s, Enqueue(b));
    assert s.calls == map[a := Holding, b := Queued];
  }

  lemma RefusalPending(a: Caller, b: Caller, c: Caller) returns (s: State)
    requires a != b && a != c && b != c
    ensures s == Single(1, map[a := Holding, b := Gone, c := Refusing]) && Reachable(s)
  {
    s := OneQueued(a, b);
    s := FindsNone(c, 1, s.calls);
    s := Take(s, Enqueue(c));
    assert s.calls == map[a := Holding, b := Queued, c := Refusing];
    s := Take(s, GiveUp(b));
    assert s.calls == map[a := Holding, b := Gone, c := Refusing];
  }

  lemma FindsNone(w: Caller, waiting: nat, calls: map<Caller, Place>) returns (s: State)
    requires Reachable(Single(waiting, calls)) && w !in calls
    ensures s == Single(waiting, calls[w := Full]) && Reachable(s)
  {
    s := Take(Single(waiting, calls), Call(w));
    s := Take(s, TryAcquire(w));
    assert s.calls == calls[w := Full];
  }

  lemma NobodyWaits(s: State)
    requires forall w | w in s.calls :: !Waits(s.calls[w])
    ensures Waiters(s) == 0
  {
    assert In(s.calls, Queued) == {} && In(s.calls, Reserved) == {};
    assert In(s.calls, Abandoning) == {} && In(s.calls, Granted) == {};
  }

  // ---- A job on its own ----

  ghost predicate Leads(s: State, steps: seq<Step>, t: State) {
    Feasible(s, steps) && Run(s, steps) == t
  }

  lemma LeadsOn(s: State, step: Step, rest: seq<Step>, t: State)
    requires Enabled(s, step) && Leads(Next(s, step), rest, t)
    ensures Leads(s, [step] + rest, t)
  {
    assert ([step] + rest)[1..] == rest;
  }

  // With a permit free a job runs without queueing, and when it ends all is as
  // before but for one job more started.
  lemma FreePermitRuns(s: State, w: Caller) returns (t: State)
    requires w !in s.calls && s.at.free > 0
    ensures Leads(s, [Call(w)] + ([TryAcquire(w)] + ([Start(w)] + ([End(w)] + []))), t)
    ensures t.calls == s.calls[w := Ended] && t.at == s.at.(started := s.at.started + 1)
  {
    var s1 := Next(s, Call(w));
    var s2 := Next(s1, TryAcquire(w));
    var s3 := Next(s2, Start(w));
    t := Next(s3, End(w));
    assert Leads(t, [], t);
    LeadsOn(s3, End(w), [], t);
    LeadsOn(s2, Start(w), [End(w)] + [], t);
    LeadsOn(s1, TryAcquire(w), [Start(w)] + ([End(w)] + []), t);
    LeadsOn(s, Call(w), [TryAcquire(w)] + ([Start(w)] + ([End(w)] + [])), t);
    assert t.calls == s.calls[w := Ended];
  }

  // With none free and a place in the queue it waits.
  lemma NoPermitWaits(s: State, w: Caller) returns (t: State)
    requires Reachable(s) && w !in s.calls && s.at.free == 0 && Waiters(s) + Count(s, Refusing) < s.maxQueue
    ensures Leads(s, [Call(w)] + ([TryAcquire(w)] + ([Enqueue(w)] + [])), t)
    ensures t.calls == s.calls[w := Queued] && t.at == s.at.(waiting := s.at.waiting + 1)
  {
    PermitsConserved(s);
    t := CountedIn(s, w);
    assert Leads(t, [], t);
    EnqueueLeads(s, w, [], t);
  }

  // With none free and the queue full it is refused and leaves no trace.
  lemma FullQueueRefuses(s: State, w: Caller) returns (t: State)
    requires Reachable(s) && w !in s.calls && s.at.free == 0 && Waiters(s) + Count(s, Refusing) >= s.maxQueue
    ensures Leads(s, [Call(w)] + ([TryAcquire(w)] + ([Enqueue(w)] + ([Undo(w)] + []))), t)
    ensures t.calls == s.calls[w := Gone] && t.at == s.at
  {
    PermitsConserved(s);
    t := RefusalLeads(s, w);
  }

  lemma RefusalLeads(s: State, w: Caller) returns (t: State)
    requires w !in s.calls && s.at.free == 0 && !Admits(s.at, s.maxQueue)
    ensures Leads(s, [Call(w)] + ([TryAcquire(w)] + ([Enqueue(w)] + ([Undo(w)] + []))), t)
    ensures t.calls == s.calls[w := Gone] && t.at == s.at
  {
    var s3 := CountedIn(s, w);
    t := Next(s3, Undo(w));
    assert Leads(t, [], t);
    LeadsOn(s3, Undo(w), [], t);
    EnqueueLeads(s, w, [Undo(w)] + [], t);
    assert t.calls == s.calls[w := Gone];
  }

  // The state once the job is counted.
  ghost function CountedIn(s: State, w: Caller): State {
    Go(s, w, if Admits(s.at, s.maxQueue) then Queued else Refusing, Counted(s.at))
  }

  lemma EnqueueLeads(s: State, w: Caller, rest: seq<Step>, t: State)
    requires w !in s.calls && s.at.free == 0 && Leads(CountedIn(s, w), rest, t)
    ensures Leads(s, [Call(w)] + ([TryAcquire(w)] + ([Enqueue(w)] + rest)), t)
  {
    var s1 := Next(s, Call(w));
    var s2 := Next(s1, TryAcquire(w));
    assert s2.calls == s.calls[w := Full];
    assert Next(s2, Enqueue(w)).calls == CountedIn(s, w).calls;
    LeadsOn(s2, Enqueue(w), rest, t);
    LeadsOn(s1, TryAcquire(w), [Enqueue(w)] + rest, t);
    LeadsOn(s, Call(w), [TryAcquire(w)] + ([Enqueue(w)] + rest), t);
  }

  // ---- The executor ----

  // The step a dropped waiting guard is: with the permit taken, or giving up.
  ghost function GuardStep(p: Place, w: Caller): Step {
    if p.Granted? then DropGuard(w) else GiveUp(w)
  }

  lemma GuardDropped(s: State, w: Caller) returns (to: Place)
    requires Inv(s) && w in s.calls && Waits(s.calls[w]) && !s.calls[w].Reserved?
    ensures s.at.waiting > 0 && Inv(Next(s, GuardStep(s.calls[w], w)))
    ensures Next(s, GuardStep(s.calls[w], w)) ==
            State(s.permits, s.maxQueue, Counters(s.at.free, s.at.waiting - 1, s.at.started), s.calls[w := to])
    ensures !Waits(to) && (Holds(to) <==> Holds(s.calls[w]))
  {
    GuardIsCounted(s, w);
    to := if s.calls[w].Granted? then Holding else Gone;
    StepKeepsInv(s, GuardStep(s.calls[w], w));
  }

  // The executor's fields and the atomic operations on them. `calls` is where
  // its callers are; every operation is a step of the caller named, and what
  // it answers is told in terms of the callers, not of the counters.
  class Executor {
    const permits: nat
    const maxQueue: nat
    var free: nat
    var waiting: nat
    var started: nat
    ghost var calls: map<Caller, Place>

    ghost function Machine(): State
      reads this
    {
      State(permits, maxQueue, Counters(free, waiting, started), calls)
    }

    // The counters account for every caller.
    ghost predicate Valid()
      reads this
    {
      Inv(Machine())
    }

    constructor (limit: nat)
      ensures Valid() && calls == map[] && 0 < permits
      ensures limit <= USIZE_MAX ==> permits <= maxQueue <= USIZE_MAX
      ensures Machine() == Init(permits, maxQueue)
      ensures permits == (if limit < 1 then 1 else limit)
      ensures maxQueue == if 16 * permits <= 0xFFFF_FFFF_FFFF_FFFF then 16 * permits else 0xFFFF_FFFF_FFFF_FFFF
    {
      permits := if limit < 1 then 1 else limit;
      maxQueue := SaturatingMul(if limit < 1 then 1 else limit, DEFAULT_QUEUE_PER_PERMIT);
      free, waiting, started := if limit < 1 then 1 else limit, 0, 0;
      calls := map[];
      new;
      assert forall p :: In(map[], p) == {};
    }

    ghost method Arrive(w: Caller)
      requires Valid() && w !in calls
      modifies `calls
      ensures Valid() && Machine() == Next(old(Machine()), Call(w))
    {
      ghost var after := Next(Machine(), Call(w));
      StepKeepsInv(Machine(), Call(w));
      calls := after.calls;
      assert Machine() == after;
    }

    // Succeeds exactly while some permit is neither held nor set aside.
    method TryAcquire(ghost w: Caller) returns (ok: bool)
      requires Valid() && w in calls && calls[w].Asking?
      modifies this
      ensures Valid() && Machine() == Next(old(Machine()), Step.TryAcquire(w))
      ensures ok <==> old(Count(Machine(), Reserved) + Held(Machine())) < permits
      ensures ok <==> Holds(calls[w])
    {
      ghost var after := Next(Machine(), Step.TryAcquire(w));
      StepKeepsInv(Machine(), Step.TryAcquire(w));
      ok := free > 0;
      if ok {
        free := free - 1;
      }
      calls := after.calls;
      assert Machine() == after;
    }

    // The job is counted first and the count before it compared: admitted
    // exactly while waiters and refusals not yet undone leave a place.
    method Enqueue(ghost w: Caller) returns (admitted: bool)
      requires Valid() && w in calls && calls[w].Full?
      modifies this
      ensures Valid() && Machine() == Next(old(Machine()), Step.Enqueue(w))
      ensures admitted <==> old(Waiters(Machine()) + Count(Machine(), Refusing)) < maxQueue
      ensures admitted <==> Waits(calls[w])
    {
      ghost var after := Next(Machine(), Step.Enqueue(w));
      StepKeepsInv(Machine(), Step.Enqueue(w));
      var before := waiting;
      waiting := waiting + 1;
      admitted := before < maxQueue;
      calls := after.calls;
      assert Machine() == after;
    }

    // The awaited permit arrives.
    method Grant(ghost w: Caller)
      requires Valid() && w in calls && calls[w].Queued? && free > 0
      modifies this
      ensures Valid() && Machine() == Next(old(Machine()), Step.Grant(w))
      ensures Holds(calls[w]) && Waits(calls[w])
    {
      ghost var after := Next(Machine(), Step.Grant(w));
      StepKeepsInv(Machine(), Step.Grant(w));
      free := free - 1;
      calls := after.calls;
      assert Machine() == after;
    }

    // A refusal undone: the caller is counted, so the counter does not wrap.
    method Undo(ghost w: Caller)
      requires Valid() && w in calls && calls[w].Refusing?
      modifies this
      ensures old(waiting) > 0
      ensures Valid() && Machine() == Next(old(Machine()), Step.Undo(w))
      ensures !Waits(calls[w]) && !Holds(calls[w])
    {
      GuardIsCounted(Machine(), w);
      ghost var after := Next(Machine(), Step.Undo(w));
      StepKeepsInv(Machine(), Step.Undo(w));
      waiting := waiting - 1;
      calls := after.calls;
      assert Machine() == after;
    }

    // A waiting guard dropped, with the permit or without: the same.
    method DropWaiting(ghost w: Caller)
      requires Valid() && w in calls && Waits(calls[w]) && !calls[w].Reserved?
      modifies this
      ensures old(waiting) > 0
      ensures Valid() && Machine() == Next(old(Machine()), GuardStep(old(calls)[w], w))
      ensures !Waits(calls[w]) && (Holds(calls[w]) <==> old(Holds(calls[w])))
    {
      ghost var to := GuardDropped(Machine(), w);
      waiting := waiting - 1;
      calls := calls[w := to];
    }

    // Every job that runs, was detached or has ended was started.
    method Start(ghost w: Caller)
      requires Valid() && w in calls && calls[w].Holding?
      modifies this
      ensures Valid() && Machine() == Next(old(Machine()), Step.Start(w))
      ensures started == Count(Machine(), Running) + Count(Machine(), Detached) + Count(Machine(), Ended)
    {
      ghost var after := Next(Machine(), Step.Start(w));
      StepKeepsInv(Machine(), Step.Start(w));
      started := started + 1;
      calls := after.calls;
      assert Machine() == after;
    }

    // The job ends, its caller there or not, and one permit fewer is out.
    method End(ghost w: Caller)
      requires Valid() && w in calls && (calls[w].Running? || calls[w].Detached?)
      modifies this
      ensures Valid() && Machine() == Next(old(Machine()), Step.End(w))
      ensures Held(Machine()) == old(Held(Machine())) - 1 && !Holds(calls[w])
    {
      ghost var after := Next(Machine(), Step.End(w));
      StepKeepsInv(Machine(), Step.End(w));
      EndGivesOne(Machine(), w);
      free := free + 1;
      calls := after.calls;
      assert Machine() == after;
    }
  }
}
