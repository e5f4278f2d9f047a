// Concurrent callers of the outbound OAuth client. A call is a program
// counter; each step is one lock section, one clock reading, one gate
// transition, or the end of a fetch. The clock may jump either way, a fetch
// may succeed, fail or time out, and a call may be dropped at any point.
module TokenProtocol {
  import opened Options
  import opened TokenCache

  type Caller(==, !new)

  datatype Call =
    | GetStart(now: int)
    | GetDue(now: int, seen: nat)
    | GetBusy(now: int, seen: nat)
    | ForceStart(target: Option<string>)
    | Queued(seen: nat)
    | Holding(seen: nat)
    | Settling(seen: nat, now: int)
    | Fetching
    | Fetched(result: Result<Token, Error>)
    | Storing(result: Result<Token, Error>, now: int)
    | Releasing(answer: Result<Token, Error>)
    | Done(answer: Result<Token, Error>)
    | Cancelled

  // `readings` are the clock readings each call took, `condemned` the serials
  // of tokens taken out by a forced refresh, `lastIssued` the token of the
  // last completed fetch if it succeeded.
  datatype State = State(threshold: nat, maxUtc: int, record: Record, gate: Option<Caller>, clock: int,
                         calls: map<Caller, Call>, readings: map<Caller, set<int>>,
                         nextSerial: nat, condemned: set<nat>, lastIssued: Option<Token>)

  datatype Step =
    | Tick(clock: int)
    | StartGet(who: Caller)
    | FastRead(who: Caller)
    | TryGate(who: Caller)
    | BusyRead(who: Caller)
    | StartForce(who: Caller, target: Option<string>)
    | Condemn(who: Caller)
    | TakeGate(who: Caller)
    | SettleClock(who: Caller)
    | Settle(who: Caller)
    | FetchOk(who: Caller, text: string, expiresIn: Option<nat>)
    | FetchErr(who: Caller, error: Error)
    | StoreClock(who: Caller)
    | Store(who: Caller)
    | Release(who: Caller)
    | Cancel(who: Caller)

  ghost function Init(threshold: nat, maxUtc: int, clock: int): State {
    State(threshold, maxUtc, Record(None, 0, None), None, clock, map[], map[], 0, {}, None)
  }

  predicate HoldsGate(c: Call) {
    c.Holding? || c.Settling? || c.Fetching? || c.Fetched? || c.Storing? || c.Releasing?
  }

  ghost predicate Enabled(s: State, step: Step) {
    match step
    case Tick(_) => true
    case StartGet(w) => w !in s.calls
    case FastRead(w) => w in s.calls && s.calls[w].GetStart?
    case TryGate(w) => w in s.calls && s.calls[w].GetDue?
    case BusyRead(w) => w in s.calls && s.calls[w].GetBusy?
    case StartForce(w, _) => w !in s.calls
    case Condemn(w) => w in s.calls && s.calls[w].ForceStart?
    case TakeGate(w) => w in s.calls && s.calls[w].Queued? && s.gate.None?
    case SettleClock(w) => w in s.calls && s.calls[w].Holding?
    case Settle(w) => w in s.calls && s.calls[w].Settling?
    case FetchOk(w, _, _) => w in s.calls && s.calls[w].Fetching?
    case FetchErr(w, _) => w in s.calls && s.calls[w].Fetching?
    case StoreClock(w) => w in s.calls && s.calls[w].Fetched?
    case Store(w) => w in s.calls && s.calls[w].Storing?
    case Release(w) => w in s.calls && s.calls[w].Releasing?
    case Cancel(w) => w in s.calls && !s.calls[w].Done? && !s.calls[w].Cancelled?
  }

  // `force_refresh` condemns whatever is cached, `force_refresh_of` the token
  // with that text.
  predicate Targets(target: Option<string>, t: Token) {
    target.None? || t.text == target.value
  }

  ghost function Go(s: State, w: Caller, c: Call): State {
    s.(calls := s.calls[w := c])
  }

  // Takes a clock reading for the call.
  ghost function Reading(s: State, w: Caller): State {
    s.(readings := s.readings[w := (if w in s.readings then s.readings[w] else {}) + {s.clock}])
  }

  ghost function Next(s: State, step: Step): State
    requires Enabled(s, step)
  {
    match step
    case Tick(t) => s.(clock := t)
    case StartGet(w) => Reading(Go(s, w, GetStart(s.clock)), w)
    case FastRead(w) =>
      Go(s, w, if NotDue(s.record, s.calls[w].now) then Done(Ok(s.record.token.value))
               else GetDue(s.calls[w].now, s.record.fetches))
    case TryGate(w) =>
      if s.gate.None? then Go(s, w, Holding(s.calls[w].seen)).(gate := Some(w))
      else Go(s, w, GetBusy(s.calls[w].now, s.calls[w].seen))
    case BusyRead(w) =>
      Go(s, w, if Unexpired(s.record, s.calls[w].now) then Done(Ok(s.record.token.value))
               else Queued(s.calls[w].seen))
    case StartForce(w, target) => Go(s, w, ForceStart(target))
    case Condemn(w) =>
      var target := s.calls[w].target;
      var hit := s.record.token.Some? && Targets(target, s.record.token.value);
      Go(s, w, Queued(s.record.fetches)).(
        record := Condemned(s.record, t => Targets(target, t)),
        condemned := s.condemned + if hit then {s.record.token.value.serial} else {})
    case TakeGate(w) => Go(s, w, Holding(s.calls[w].seen)).(gate := Some(w))
    case SettleClock(w) => Reading(Go(s, w, Settling(s.calls[w].seen, s.clock)), w)
    case Settle(w) =>
      (match Settled(s.record, s.calls[w].seen, s.calls[w].now)
       case Use(t) => Go(s, w, Releasing(Ok(t)))
       case Share(e) => Go(s, w, Releasing(Err(e)))
       case Fetch => Go(s, w, Fetching))
    case FetchOk(w, text, expiresIn) =>
      Go(s, w, Fetched(MakeToken(text, s.nextSerial, s.clock, expiresIn, s.threshold, s.maxUtc)))
        .(nextSerial := s.nextSerial + 1)
    case FetchErr(w, e) => Go(s, w, Fetched(Err(e)))
    case StoreClock(w) => Reading(Go(s, w, Storing(s.calls[w].result, s.clock)), w)
    case Store(w) =>
      var (record, answer) := Stored(s.record, s.calls[w].result, s.calls[w].now);
      Go(s, w, Releasing(answer)).(
        record := record,
        lastIssued := if s.calls[w].result.Ok? then Some(s.calls[w].result.value) else None)
    case Release(w) => Go(s, w, Done(s.calls[w].answer)).(gate := None)
    case Cancel(w) => Go(s, w, Cancelled).(gate := if HoldsGate(s.calls[w]) then None else s.gate)
  }

  // The answer a step gives its caller, in the lock section that decided it.
  ghost function AnswerOf(s: State, step: Step): Option<Result<Token, Error>>
    requires Enabled(s, step)
  {
    if (step.FastRead? || step.BusyRead?) && Next(s, step).calls[step.who].Done?
    then Some(Next(s, step).calls[step.who].answer)
    else if (step.Settle? || step.Store?) && Next(s, step).calls[step.who].Releasing?
    then Some(Next(s, step).calls[step.who].answer)
    else None
  }

  // ---- What every step keeps ----

  ghost predicate GateOk(s: State) {
    && (forall w | w in s.calls && HoldsGate(s.calls[w]) :: s.gate == Some(w))
    && (s.gate.Some? ==> s.gate.value in s.calls && HoldsGate(s.calls[s.gate.value]))
  }

  // A fetched token on its way to the cache.
  predicate Carries(c: Call, t: Token) {
    (c.Fetched? || c.Storing?) && c.result == Ok(t)
  }

  // Every token in the cache or on its way there is well formed, known,
  // not condemned, and in one place only.
  ghost predicate TokensOk(s: State) {
    && (s.record.token.Some? ==> TokenOk(s, s.record.token.value))
    && (forall w, t | w in s.calls && Carries(s.calls[w], t) ::
          TokenOk(s, t) && (s.record.token.Some? ==> s.record.token.value.serial != t.serial))
    && (forall n | n in s.condemned :: n < s.nextSerial)
  }

  ghost predicate TokenOk(s: State, t: Token) {
    Lives(t) && t.serial < s.nextSerial && t.serial !in s.condemned
  }

  // The record tells how the last fetch ended: in an error, or in a token that
  // is cached still or was condemned.
  ghost predicate RecordOk(s: State) {
    && (s.record.fetches == 0 ==> s.record.token.None? && s.record.lastError.None? && s.lastIssued.None?)
    && (s.record.fetches > 0 ==> (s.lastIssued.None? <==> s.record.lastError.Some?))
    && (s.lastIssued.Some? ==>
          || s.record.token == s.lastIssued
          || (s.record.token.None? && s.lastIssued.value.serial in s.condemned))
  }

  // A call that goes by a clock reading took it itself.
  ghost predicate ReadingsOk(s: State) {
    forall w | w in s.calls && (s.calls[w].GetStart? || s.calls[w].GetDue? || s.calls[w].GetBusy?
                                || s.calls[w].Settling? || s.calls[w].Storing?) ::
      w in s.readings && s.calls[w].now in s.readings[w]
  }

  ghost predicate SeenOk(s: State) {
    forall w | w in s.calls && (s.calls[w].GetDue? || s.calls[w].GetBusy? || s.calls[w].Queued?
                                || s.calls[w].Holding? || s.calls[w].Settling?) ::
      s.calls[w].seen <= s.record.fetches
  }

  ghost predicate Inv(s: State) {
    GateOk(s) && TokensOk(s) && RecordOk(s) && ReadingsOk(s) && SeenOk(s)
  }

  lemma StepKeepsGate(s: State, step: Step)
    requires GateOk(s) && Enabled(s, step)
    ensures GateOk(Next(s, step))
  {
  }

  lemma StepKeepsTokens(s: State, step: Step)
    requires GateOk(s) && TokensOk(s) && Enabled(s, step)
    ensures TokensOk(Next(s, step))
  {
    if step.FetchOk? {
      RefreshWithinLife(step.text, s.nextSerial, s.clock, step.expiresIn, s.threshold, s.maxUtc);
    }
  }

  lemma StepKeepsRecord(s: State, step: Step)
    requires RecordOk(s) && Enabled(s, step)
    ensures RecordOk(Next(s, step))
  {
  }

  lemma StepKeepsReadings(s: State, step: Step)
    requires ReadingsOk(s) && Enabled(s, step)
    ensures ReadingsOk(Next(s, step))
  {
  }

  lemma StepKeepsSeen(s: State, step: Step)
    requires SeenOk(s) && Enabled(s, step)
    ensures SeenOk(Next(s, step))
  {
  }

  lemma StepKeepsInv(s: State, step: Step)
    requires Inv(s) && Enabled(s, step)
    ensures Inv(Next(s, step))
  {
    StepKeepsGate(s, step);
    StepKeepsTokens(s, step);
    StepKeepsRecord(s, step);
    StepKeepsReadings(s, step);
    StepKeepsSeen(s, step);
  }

  // ---- Runs ----

  ghost predicate Feasible(s: State, steps: seq<Step>)
    decreases |steps|
  {
    steps == [] || (Enabled(s, steps[0]) && Feasible(Next(s, steps[0]), steps[1..]))
  }

  ghost function Run(s: State, steps: seq<Step>): State
    requires Feasible(s, steps)
    decreases |steps|
  {
    if steps == [] then s else Run(Next(s, steps[0]), steps[1..])
  }

  ghost predicate Reachable(s: State) {
    exists clock, steps ::
      && Feasible(Init(s.threshold, s.maxUtc, clock), steps)
      && Run(Init(s.threshold, s.maxUtc, clock), steps) == s
  }

  lemma {:induction false} RunKeepsInv(s: State, steps: seq<Step>)
    requires Inv(s) && Feasible(s, steps)
    ensures Inv(Run(s, steps)) && s.condemned <= Run(s, steps).condemned
    decreases |steps|
  {
    if steps != [] {
      StepKeepsInv(s, steps[0]);
      RunKeepsInv(Next(s, steps[0]), steps[1..]);
    }
  }

  lemma ReachableInv(s: State)
    requires Reachable(s)
    ensures Inv(s)
  {
    var clock, steps :| Feasible(Init(s.threshold, s.maxUtc, clock), steps)
                        && Run(Init(s.threshold, s.maxUtc, clock), steps) == s;
    RunKeepsInv(Init(s.threshold, s.maxUtc, clock), steps);
  }

  // From the step that condemns the cached token onward no call is answered
  // with it, whatever fetches, failures and cancellations follow and whoever
  // was already waiting.
  lemma CondemnedIsNeverServed(s: State, w: Caller, later: seq<Step>, step: Step)
    requires Reachable(s) && Enabled(s, Condemn(w))
    requires s.record.token.Some? && (s.calls[w].target.Some? ==> s.record.token.value.text == s.calls[w].target.value)
    requires Feasible(Next(s, Condemn(w)), later) && Enabled(Run(Next(s, Condemn(w)), later), step)
    ensures forall t: Token | AnswerOf(Run(Next(s, Condemn(w)), later), step) == Some(Ok(t)) ::
              t.serial != s.record.token.value.serial
  {
    ReachableInv(s);
    var u := Next(s, Condemn(w));
    StepKeepsInv(s, Condemn(w));
    RunKeepsInv(u, later);
    ServedTokens(Run(u, later), step);
  }

  // A forced refresh takes out whatever is cached, one of a given token only
  // that token; anything else stays.
  lemma CondemnTakesOut(s: State, w: Caller)
    requires Enabled(s, Condemn(w)) && s.record.token.Some?
    ensures Next(s, Condemn(w)).record ==
            if s.calls[w].target.None? || s.record.token.value.text == s.calls[w].target.value
            then s.record.(token := None) else s.record
  {
  }

  // Where an answered token came from.
  lemma ServedTokens(s: State, step: Step)
    requires Inv(s) && Enabled(s, step)
    ensures forall t: Token | AnswerOf(s, step) == Some(Ok(t)) ::
              && TokenOk(s, t)
              && (|| (step.Store? && s.calls[step.who].result == Ok(t))
                  || (&& s.record.token == Some(t) && step.who in s.readings
                      && exists r :: r in s.readings[step.who] && r < t.expiresAt))
  {
    forall t: Token | AnswerOf(s, step) == Some(Ok(t))
      ensures && TokenOk(s, t)
              && (|| (step.Store? && s.calls[step.who].result == Ok(t))
                  || (&& s.record.token == Some(t) && step.who in s.readings
                      && exists r :: r in s.readings[step.who] && r < t.expiresAt))
    {
      if step.Store? && s.calls[step.who].result == Ok(t) {
        assert Carries(s.calls[step.who], t);
      } else {
        assert s.record.token == Some(t) && s.calls[step.who].now < t.expiresAt;
      }
    }
  }

  // A token answered is the caller's own fetch, or the cached one and then
  // unexpired at a clock reading that very call took; and its refresh falls in
  // the second half of its life.
  lemma ServedUnexpired(s: State, step: Step, t: Token)
    requires Reachable(s) && Enabled(s, step) && AnswerOf(s, step) == Some(Ok(t))
    ensures Lives(t)
    ensures || (step.Store? && s.calls[step.who].result == Ok(t))
            || (s.record.token == Some(t) && step.who in s.readings
                && exists r :: r in s.readings[step.who] && r < t.expiresAt)
  {
    ReachableInv(s);
    ServedTokens(s, step);
  }

  // An error answered is that of the last completed fetch, and nothing cached
  // was usable at a clock reading the call took.
  lemma ErredOnlyWhenUnusable(s: State, step: Step, e: Error)
    requires Reachable(s) && Enabled(s, step) && AnswerOf(s, step) == Some(Err(e))
    ensures Next(s, step).record.lastError == Some(e) && Next(s, step).lastIssued.None?
    ensures step.who in s.readings && exists r :: r in s.readings[step.who] && !Unexpired(s.record, r)
  {
    ReachableInv(s);
    assert !Unexpired(s.record, s.calls[step.who].now) && s.calls[step.who].now in s.readings[step.who];
  }

  // The fetches completed when `w` began number at least `base`, and so does
  // every count it has seen since.
  ghost predicate SeenSince(s: State, w: Caller, base: nat) {
    && base <= s.record.fetches && w in s.calls
    && var c := s.calls[w];
       (c.GetDue? || c.GetBusy? || c.Queued? || c.Holding? || c.Settling? ==> base <= c.seen)
  }

  lemma {:induction false} SeenStays(s: State, steps: seq<Step>, w: Caller, base: nat)
    requires Feasible(s, steps) && SeenSince(s, w, base)
    ensures SeenSince(Run(s, steps), w, base)
    decreases |steps|
  {
    if steps != [] {
      SeenStays(Next(s, steps[0]), steps[1..], w, base);
    }
  }

  // An error shared is that of a fetch completed after the call began, or,
  // for a forced refresh, after it condemned the token: an old failure answers
  // no later call.
  lemma SharedErrorIsRecent(s: State, first: Step, later: seq<Step>, e: Error)
    requires Reachable(s) && Enabled(s, first) && (first.StartGet? || first.Condemn?)
    requires Feasible(Next(s, first), later) && Enabled(Run(Next(s, first), later), Settle(first.who))
    requires AnswerOf(Run(Next(s, first), later), Settle(first.who)) == Some(Err(e))
    ensures Run(Next(s, first), later).record.fetches > s.record.fetches
    ensures Run(Next(s, first), later).record.lastError == Some(e)
  {
    ReachableInv(s);
    StepKeepsInv(s, first);
    RunKeepsInv(Next(s, first), later);
    SeenStays(Next(s, first), later, first.who, s.record.fetches);
  }

  // ---- A call on its own ----

  ghost predicate Leads(s: State, steps: seq<Step>, t: State) {
    Feasible(s, steps) && Run(s, steps) == t
  }

  lemma LeadsOn(s: State, step: Step, rest: seq<Step>, t: State)
    requires Enabled(s, step) && Leads(Next(s, step), rest, t)
    ensures Leads(s, [step] + rest, t)
  {
    assert ([step] + rest)[1..] == rest;
  }

  // With a token not yet due the cached one answers at once, and with one due
  // but unexpired it answers while another call holds the gate; nothing
  // changes but the call.
  lemma CachedAnswers(s: State, w: Caller) returns (steps: seq<Step>, t: State)
    requires w !in s.calls && (NotDue(s.record, s.clock) || (Unexpired(s.record, s.clock) && s.gate.Some?))
    ensures steps == if NotDue(s.record, s.clock) then [StartGet(w)] + ([FastRead(w)] + [])
                     else [StartGet(w)] + ([FastRead(w)] + ([TryGate(w)] + ([BusyRead(w)] + [])))
    ensures Leads(s, steps, t)
    ensures t.calls == s.calls[w := Done(Ok(s.record.token.value))] && t.record == s.record && t.gate == s.gate
  {
    var s1 := Next(s, StartGet(w));
    var s2 := Next(s1, FastRead(w));
    if NotDue(s.record, s.clock) {
      t := s2;
      assert Leads(s2, [], t);
      LeadsOn(s1, FastRead(w), [], t);
      LeadsOn(s, StartGet(w), [FastRead(w)] + [], t);
      steps := [StartGet(w)] + ([FastRead(w)] + []);
    } else {
      var s3 := Next(s2, TryGate(w));
      t := Next(s3, BusyRead(w));
      assert Leads(t, [], t);
      LeadsOn(s3, BusyRead(w), [], t);
      LeadsOn(s2, TryGate(w), [BusyRead(w)] + [], t);
      LeadsOn(s1, FastRead(w), [TryGate(w)] + ([BusyRead(w)] + []), t);
      LeadsOn(s, StartGet(w), [FastRead(w)] + ([TryGate(w)] + ([BusyRead(w)] + [])), t);
      steps := [StartGet(w)] + ([FastRead(w)] + ([TryGate(w)] + ([BusyRead(w)] + [])));
    }
    assert t.calls == s.calls[w := Done(Ok(s.record.token.value))];
  }

  // The steps of a call that fetches.
  ghost function Fetches(w: Caller, outcome: Step): seq<Step> {
    [StartGet(w)] + ([FastRead(w)] + ([TryGate(w)] + ([SettleClock(w)] + ([Settle(w)] + Ends(w, outcome)))))
  }

  ghost function Ends(w: Caller, outcome: Step): seq<Step> {
    [outcome] + ([StoreClock(w)] + ([Store(w)] + ([Release(w)] + [])))
  }

  // What a fetch that ends now brings.
  ghost function Brought(s: State, outcome: Step): Result<Token, Error>
    requires outcome.FetchOk? || outcome.FetchErr?
  {
    if outcome.FetchErr? then Err(outcome.error)
    else MakeToken(outcome.text, s.nextSerial, s.clock, outcome.expiresIn, s.threshold, s.maxUtc)
  }

  // With nothing cached, or a token due, a call that finds the gate free
  // fetches. A success is cached and answered; a failure is recorded and
  // answered, unless the cached token has not expired, which then answers.
  lemma DueCallFetches(s: State, w: Caller, outcome: Step) returns (t: State)
    requires w !in s.calls && s.gate.None? && !NotDue(s.record, s.clock)
    requires (outcome.FetchOk? || outcome.FetchErr?) && outcome.who == w
    ensures Leads(s, Fetches(w, outcome), t) && t.gate.None? && t.record.fetches == s.record.fetches + 1
    ensures var fetched := Brought(s, outcome);
            var kept := if Unexpired(s.record, s.clock) then s.record.token else None;
            && t.record.lastError == (if fetched.Ok? then None else Some(fetched.error))
            && t.record.token == (if fetched.Ok? then Some(fetched.value) else kept)
            && t.calls == s.calls[w := Done(if fetched.Err? && kept.Some? then Ok(kept.value) else fetched)]
  {
    var s1 := Next(s, StartGet(w));
    var s2 := Next(s1, FastRead(w));
    var s3 := Next(s2, TryGate(w));
    var s4 := Next(s3, SettleClock(w));
    var s5 := Next(s4, Settle(w));
    assert s5.calls == s.calls[w := Fetching];
    t := FetchEnds(s, s5, w, outcome);
    LeadsOn(s4, Settle(w), Ends(w, outcome), t);
    LeadsOn(s3, SettleClock(w), [Settle(w)] + Ends(w, outcome), t);
    LeadsOn(s2, TryGate(w), [SettleClock(w)] + ([Settle(w)] + Ends(w, outcome)), t);
    LeadsOn(s1, FastRead(w), [TryGate(w)] + ([SettleClock(w)] + ([Settle(w)] + Ends(w, outcome))), t);
    LeadsOn(s, StartGet(w), [FastRead(w)] + ([TryGate(w)] + ([SettleClock(w)] + ([Settle(w)] + Ends(w, outcome)))), t);
  }

  lemma FetchEnds(s: State, s5: State, w: Caller, outcome: Step) returns (t: State)
    requires s5.record == s.record && s5.clock == s.clock && s5.gate == Some(w) && s5.nextSerial == s.nextSerial
    requires s5.threshold == s.threshold && s5.maxUtc == s.maxUtc && s5.calls == s.calls[w := Fetching]
    requires (outcome.FetchOk? || outcome.FetchErr?) && outcome.who == w
    ensures Leads(s5, Ends(w, outcome), t) && t.gate.None? && t.record.fetches == s.record.fetches + 1
    ensures var fetched := Brought(s, outcome);
            var kept := if Unexpired(s.record, s.clock) then s.record.token else None;
            && t.record.lastError == (if fetched.Ok? then None else Some(fetched.error))
            && t.record.token == (if fetched.Ok? then Some(fetched.value) else kept)
            && t.calls == s.calls[w := Done(if fetched.Err? && kept.Some? then Ok(kept.value) else fetched)]
  {
    var s6 := Next(s5, outcome);
    var s7 := Next(s6, StoreClock(w));
    var s8 := Next(s7, Store(w));
    t := Next(s8, Release(w));
    assert Leads(t, [], t);
    LeadsOn(s8, Release(w), [], t);
    LeadsOn(s7, Store(w), [Release(w)] + [], t);
    LeadsOn(s6, StoreClock(w), [Store(w)] + ([Release(w)] + []), t);
    LeadsOn(s5, outcome, [StoreClock(w)] + ([Store(w)] + ([Release(w)] + [])), t);
    var answer := t.calls[w];
    assert t.calls == s.calls[w := answer];
  }

  predicate InFetch(c: Call) {
    c.Fetching? || c.Fetched? || c.Storing?
  }

  lemma OneFetch(s: State, w1: Caller, w2: Caller)
    requires Reachable(s) && w1 in s.calls && w2 in s.calls && InFetch(s.calls[w1]) && InFetch(s.calls[w2])
    ensures w1 == w2 && s.gate == Some(w1)
  {
    ReachableInv(s);
  }

  // A caller that waited while a fetch completed fetches again exactly when
  // that last fetch succeeded and its token has since expired, at the reading
  // the caller took, or been condemned.
  lemma RefetchExactly(s: State, w: Caller)
    requires Reachable(s) && Enabled(s, Settle(w)) && s.calls[w].seen != s.record.fetches
    ensures s.calls[w].seen < s.record.fetches
    ensures Next(s, Settle(w)).calls[w].Fetching? <==>
            && s.lastIssued.Some?
            && (|| (s.record.token == s.lastIssued && s.lastIssued.value.expiresAt <= s.calls[w].now)
                || s.lastIssued.value.serial in s.condemned)
  {
    ReachableInv(s);
  }
}
