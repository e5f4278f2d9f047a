// The outbound OAuth client's token cache: the record kept under the cache
// lock, one method per lock section, and the lifetime arithmetic of a fetch.
// Instants and durations are in nanoseconds.
module TokenCache {
  import opened Options

  const NANOS: int := 1_000_000_000

  // The longest whole-second and the longest overall duration the time library
  // represents: i64::MAX milliseconds.
  const MAX_DELTA_SECS: int := 0x7FFF_FFFF_FFFF_FFFF / 1000
  const MAX_DELTA: int := 0x7FFF_FFFF_FFFF_FFFF * 1_000_000

  // `serial` and `issuedAt` record which fetch made the token and when.
  datatype Token = Token(text: string, expiresAt: int, refreshAt: int, serial: nat, issuedAt: int)

  datatype Error = OutOfRange | Refused(detail: string)

  datatype Record = Record(token: Option<Token>, fetches: nat, lastError: Option<Error>)

  // ---- Lifetime arithmetic ----

  // A response without a lifetime counts as an hour, and no lifetime is zero.
  function Lifetime(expiresIn: Option<nat>): nat {
    var secs := match expiresIn case Some(n) => n case None => 3600;
    if secs < 1 then 1 else secs
  }

  // `now + secs`, or None when it does not fit a duration or a timestamp.
  function ExpiryAfter(now: int, secs: nat, maxUtc: int): Option<int> {
    if secs > 0x7FFF_FFFF_FFFF_FFFF || secs > MAX_DELTA_SECS || now + secs * NANOS > maxUtc then None
    else Some(now + secs * NANOS)
  }

  // A standard duration as a signed one; zero when it does not fit.
  function DeltaOrZero(d: nat): int {
    if d <= MAX_DELTA then d else 0
  }

  function Min(a: nat, b: nat): nat {
    if a <= b then a else b
  }

  function MakeToken(text: string, serial: nat, now: int, expiresIn: Option<nat>, threshold: nat, maxUtc: int)
    : Result<Token, Error>
  {
    var secs := Lifetime(expiresIn);
    match ExpiryAfter(now, secs, maxUtc)
    case None => Err(OutOfRange)
    case Some(expiresAt) =>
      var early := DeltaOrZero(Min(threshold, secs / 2 * NANOS));
      Ok(Token(text, expiresAt, expiresAt - early, serial, now))
  }

  // A token is not due when it is fetched, is due by its expiry, and not in
  // the first half of its life.
  ghost predicate Lives(t: Token) {
    && t.issuedAt < t.refreshAt <= t.expiresAt
    && 2 * (t.refreshAt - t.issuedAt) >= t.expiresAt - t.issuedAt
  }

  // Whatever lifetime the provider names and whatever threshold is configured:
  // the token is refused exactly when its expiry is not representable, and
  // otherwise the refresh falls due the threshold before the expiry or half
  // the lifetime before it, whichever is later.
  lemma RefreshWithinLife(text: string, serial: nat, now: int, expiresIn: Option<nat>, threshold: nat, maxUtc: int)
    ensures var secs := Lifetime(expiresIn);
            var r := MakeToken(text, serial, now, expiresIn, threshold, maxUtc);
            && (r.Err? <==> secs > MAX_DELTA_SECS || now + secs * NANOS > maxUtc)
            && (r.Ok? ==>
                  && Lives(r.value) && now < r.value.expiresAt <= maxUtc
                  && r.value.issuedAt == now && r.value.text == text && r.value.serial == serial
                  && r.value.expiresAt == now + NANOS * (if expiresIn.None? then 3600
                                                         else if expiresIn.value == 0 then 1 else expiresIn.value)
                  && (threshold <= secs / 2 * NANOS ==> r.value.refreshAt == r.value.expiresAt - threshold)
                  && (threshold > secs / 2 * NANOS ==> r.value.refreshAt == r.value.expiresAt - secs / 2 * NANOS))
  {
    var secs := Lifetime(expiresIn);
    assert secs / 2 * NANOS * 2 <= secs * NANOS;
  }

  // ---- Lock sections ----

  predicate NotDue(r: Record, now: int) {
    r.token.Some? && now < r.token.value.refreshAt
  }

  predicate Unexpired(r: Record, now: int) {
    r.token.Some? && now < r.token.value.expiresAt
  }

  // Taken out, never flagged, so that nothing can serve it afterwards.
  function Condemned(r: Record, isCondemned: Token -> bool): Record {
    if r.token.Some? && isCondemned(r.token.value) then r.(token := None) else r
  }

  datatype Settlement = Use(token: Token) | Share(error: Error) | Fetch

  // Holding the gate: a token not yet due if nobody fetched since `seen`;
  // otherwise the outcome of the fetch that completed meanwhile.
  function Settled(r: Record, seen: nat, now: int): Settlement {
    if r.fetches == seen then
      if NotDue(r, now) then Use(r.token.value) else Fetch
    else if Unexpired(r, now) then Use(r.token.value)
    else if r.lastError.Some? then Share(r.lastError.value)
    else Fetch
  }

  // The record after a fetch, and what the fetching caller is answered.
  function Stored(r: Record, fetched: Result<Token, Error>, now: int): (Record, Result<Token, Error>) {
    match fetched
    case Ok(t) => (Record(Some(t), r.fetches + 1, None), fetched)
    case Err(e) =>
      if Unexpired(r, now) then (Record(r.token, r.fetches + 1, Some(e)), Ok(r.token.value))
      else (Record(None, r.fetches + 1, Some(e)), fetched)
  }

  class Cache {
    var token: Option<Token>
    var fetches: nat
    var lastError: Option<Error>

    // What the last completed fetch brought, if it succeeded.
    ghost var lastIssued: Option<Token>

    ghost function View(): Record
      reads this
    {
      Record(token, fetches, lastError)
    }

    // The cached token lives, and the record tells how the last fetch ended:
    // in an error, or in a token that is cached still or was condemned.
    ghost predicate Valid()
      reads this
    {
      && (token.Some? ==> Lives(token.value))
      && (fetches == 0 ==> token.None? && lastError.None? && lastIssued.None?)
      && (fetches > 0 ==> (lastIssued.None? <==> lastError.Some?))
      && (lastIssued.Some? ==> token == lastIssued || token.None?)
    }

    constructor ()
      ensures Valid() && View() == Record(None, 0, None)
    {
      token, fetches, lastError, lastIssued := None, 0, None, None;
    }

    // The fast path and the path beside a running fetch; `due` tells them
    // apart. Either way the token answered is unexpired.
    method Read(now: int, due: bool) returns (r: Option<Token>, seen: nat)
      requires Valid()
      ensures seen == View().fetches
      ensures r.Some? <==> if due then Unexpired(View(), now) else NotDue(View(), now)
      ensures r.Some? ==> r == View().token && now < r.value.expiresAt
    {
      seen := fetches;
      if token.Some? && now < (if due then token.value.expiresAt else token.value.refreshAt) {
        r := token;
      } else {
        r := None;
      }
    }

    method Condemn(isCondemned: Token -> bool) returns (seen: nat)
      requires Valid()
      modifies this
      ensures Valid() && lastIssued == old(lastIssued)
      ensures View() == Condemned(old(View()), isCondemned) && seen == old(View()).fetches
      ensures token.Some? ==> !isCondemned(token.value)
      ensures old(token).Some? && !isCondemned(old(token).value) ==> token == old(token)
    {
      if token.Some? && isCondemned(token.value) {
        token := None;
      }
      seen := fetches;
    }

    // A token used is cached and unexpired, and not due either if nobody
    // fetched since `seen`; an error shared is that of a fetch that completed
    // since, with nothing usable; and another fetch is made exactly when
    // nobody fetched and nothing cached will do, or when the fetch that
    // completed since succeeded and its token was condemned or has expired.
    method Settle(seen: nat, now: int) returns (r: Settlement)
      requires Valid() && seen <= fetches
      ensures r == Settled(View(), seen, now)
      ensures r.Use? ==>
                token == Some(r.token) && now < r.token.expiresAt && (fetches == seen ==> now < r.token.refreshAt)
      ensures r.Share? ==> seen < fetches && lastIssued.None? && lastError == Some(r.error) && !Unexpired(View(), now)
      ensures r.Fetch? <==>
                if fetches == seen then !NotDue(View(), now)
                else lastIssued.Some? && (token != lastIssued || lastIssued.value.expiresAt <= now)
    {
      if fetches == seen {
        if token.Some? && now < token.value.refreshAt {
          return Use(token.value);
        }
      } else {
        if token.Some? && now < token.value.expiresAt {
          return Use(token.value);
        }
        if lastError.Some? {
          return Share(lastError.value);
        }
      }
      r := Fetch;
    }

    method Store(fetched: Result<Token, Error>, now: int) returns (answer: Result<Token, Error>)
      requires Valid() && (fetched.Ok? ==> Lives(fetched.value))
      modifies this
      ensures Valid() && lastIssued == if fetched.Ok? then Some(fetched.value) else None
      ensures (View(), answer) == Stored(old(View()), fetched, now)
      ensures answer.Ok? ==> token == Some(answer.value) && (fetched.Ok? || now < answer.value.expiresAt)
      ensures answer.Err? ==> token.None? && answer == fetched && lastError == Some(answer.error)
    {
      fetches := fetches + 1;
      lastIssued := if fetched.Ok? then Some(fetched.value) else None;
      match fetched {
        case Ok(fetchedToken) =>
          token := Some(fetchedToken);
          lastError := None;
          answer := fetched;
        case Err(err) =>
          lastError := Some(err);
          if token.Some? && now < token.value.expiresAt {
            answer := Ok(token.value);
          } else {
            token := None;
            answer := Err(err);
          }
      }
    }
  }
}
