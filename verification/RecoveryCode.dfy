// Recovery codes: generation, normalisation and single-use verification. HMAC
// and the Argon2id check are parameters.
module RecoveryCode {
  import opened Bytes
  import opened Options
  import opened Text
  import Hex

  const LENGTH: nat := 10
  const ALPHABET: string := "ABCDEFGHJKLMNPQRSTUVWXYZ23456789"
  const PREFIX: string := "hmac-sha256:"
  const DOMAIN: Bytes := Ascii("axess/recovery-code/v1") + [0]
  const MAC_LEN: nat := 32
  const ZEROS: Bytes := Zeros(MAC_LEN)

  type Mac = b: Bytes | |b| == MAC_LEN witness ZEROS
  type Hmac = (Bytes, Bytes) -> Mac
  type Verifier = (string, string) -> bool
  type Time = int

  datatype StoredCode = StoredCode(hash: string, usedAt: Option<Time>)
  datatype Config = Config(codes: seq<StoredCode>, underPreviousPepper: bool)

  function MacOf(hmac: Hmac, pepper: Bytes, canonical: string): Mac {
    hmac(pepper, DOMAIN + Ascii(canonical))
  }

  function StoredForm(hmac: Hmac, pepper: Bytes, canonical: string): string {
    PREFIX + Hex.HexOf(MacOf(hmac, pepper, canonical))
  }

  function MacOrZeros(r: Result<Bytes, Hex.HexError>): Mac {
    if r.Ok? && |r.value| == MAC_LEN then r.value else ZEROS
  }

  // The MAC of a keyed row, None for an Argon2id row; a keyed row whose
  // digits are malformed reads as zeros.
  function KeyedMac(hash: string): Option<Mac> {
    if !(PREFIX <= hash) then None
    else Some(MacOrZeros(Hex.Decoded(hash[|PREFIX|..])))
  }

  method ReadKeyedMac(hash: string) returns (r: Option<Mac>)
    ensures r == KeyedMac(hash)
  {
    if !(PREFIX <= hash) { return None; }
    var out := new byte[MAC_LEN](_ => 0);
    var status := Hex.DecodeToSlice(hash[|PREFIX|..], out);
    if status.Err? {
      out := new byte[MAC_LEN](_ => 0);
      assert out[..] == ZEROS;
    }
    r := Some(out[..]);
  }

  lemma KeyedRoundTrip(hmac: Hmac, pepper: Bytes, canonical: string)
    ensures KeyedMac(StoredForm(hmac, pepper, canonical)) == Some(MacOf(hmac, pepper, canonical))
  {
    var m := MacOf(hmac, pepper, canonical);
    assert (PREFIX + Hex.HexOf(m))[|PREFIX|..] == Hex.HexOf(m);
    Hex.DecodeEncode(m);
  }

  // A row without the prefix is no keyed row; one with it stands for the MAC
  // its digits spell in either case, or for zeros when they spell none.
  lemma KeyedMacExactly(hash: string)
    ensures KeyedMac(hash).None? <==> !(PREFIX <= hash)
    ensures KeyedMac(hash).Some? ==>
              var digits := hash[|PREFIX|..];
              if |digits| == 2 * MAC_LEN && Hex.ValidDigits(digits)
              then Hex.HexOf(KeyedMac(hash).value) == Hex.Lowercase(digits)
              else forall x | x in KeyedMac(hash).value :: x == 0
  {
    if PREFIX <= hash && Hex.Decoded(hash[|PREFIX|..]).Ok? { Hex.EncodeDecode(hash[|PREFIX|..]); }
  }

  // ---- Normalisation ----

  predicate Separator(c: char) { Whitespace(c) || c == '-' }

  function Upper(c: char): char {
    if 'a' <= c <= 'z' then (c as int - 32) as char else c
  }

  function Normalize(raw: string): string {
    if raw == "" then ""
    else if Separator(raw[0]) then Normalize(raw[1..])
    else [Upper(raw[0])] + Normalize(raw[1..])
  }

  predicate WellFormed(code: string) {
    |code| == LENGTH && forall c | c in code :: c in ALPHABET
  }

  // `raw` is `code` as a person might type it: white space and dashes anywhere,
  // a capital letter as such or as its small letter, and nothing else.
  ghost predicate Typed(raw: string, code: string) {
    if raw == "" then code == ""
    else
      || ((Whitespace(raw[0]) || raw[0] == '-') && Typed(raw[1..], code))
      || (code != "" && (raw[0] == code[0] || SmallOf(raw[0], code[0])) && Typed(raw[1..], code[1..]))
  }

  predicate SmallOf(c: char, capital: char) {
    'A' <= capital <= 'Z' && c as int - 'a' as int == capital as int - 'A' as int
  }

  predicate Canonical(code: string) {
    forall c | c in code :: !Whitespace(c) && c != '-' && !('a' <= c <= 'z')
  }

  // Normalisation recovers exactly the typed code.
  lemma {:induction false} NormalizeRecovers(raw: string, code: string)
    requires Canonical(code)
    ensures Typed(raw, code) <==> Normalize(raw) == code
  {
    if raw != "" {
      var c := raw[0];
      NormalizeRecovers(raw[1..], code);
      if code != "" {
        assert code == [code[0]] + code[1..];
        assert code[0] in code && forall x | x in code[1..] :: x in code;
        NormalizeRecovers(raw[1..], code[1..]);
      }
    }
  }

  lemma WellFormedIsCanonical(code: string)
    requires WellFormed(code)
    ensures Canonical(code)
  {
    forall c | c in code ensures !Whitespace(c) && c != '-' && !('a' <= c <= 'z') {
      SymbolHasPosition(c);
      PositionIsCanonical(c);
    }
  }

  // The position of a symbol, read off its character code.
  function Position(c: char): int {
    if 'A' <= c <= 'H' then c as int - 'A' as int
    else if 'J' <= c <= 'N' then c as int - 'J' as int + 8
    else if 'P' <= c <= 'Z' then c as int - 'P' as int + 13
    else if '2' <= c <= '9' then c as int - '2' as int + 24
    else -1
  }

  lemma SymbolPosition(i: nat)
    requires i < 32
    ensures Position(ALPHABET[i]) == i
  {
  }

  lemma SymbolHasPosition(c: char)
    requires c in ALPHABET
    ensures 0 <= Position(c)
  {
    var i :| 0 <= i < |ALPHABET| && ALPHABET[i] == c;
    SymbolPosition(i);
  }

  lemma PositionIsCanonical(c: char)
    requires 0 <= Position(c)
    ensures !Whitespace(c) && c != '-' && !('a' <= c <= 'z')
  {
  }

  // ---- Matching ----

  datatype Query = Query(candidate: string, current: Option<Mac>, previous: Option<Mac>)

  // Whether a row is one this query may spend.
  predicate Hit(verify: Verifier, q: Query, c: StoredCode) {
    && c.usedAt.None?
    && match KeyedMac(c.hash)
       case Some(stored) => q.current == Some(stored) || q.previous == Some(stored)
       case None => verify(q.candidate, c.hash)
  }

  predicate OnlyPrevious(q: Query, c: StoredCode) {
    KeyedMac(c.hash).Some? && q.previous == KeyedMac(c.hash) && q.current != KeyedMac(c.hash)
  }

  function FirstHit(verify: Verifier, q: Query, codes: seq<StoredCode>): (r: Option<nat>)
    ensures r.None? ==> forall j | 0 <= j < |codes| :: !Hit(verify, q, codes[j])
    ensures r.Some? ==> r.value < |codes| && Hit(verify, q, codes[r.value])
    ensures r.Some? ==> forall j | 0 <= j < r.value :: !Hit(verify, q, codes[j])
  {
    if codes == [] then None
    else
      match FirstHit(verify, q, codes[..|codes| - 1])
      case Some(i) => Some(i)
      case None => if Hit(verify, q, codes[|codes| - 1]) then Some(|codes| - 1) else None
  }

  // A condition as a branch-free flag.
  type Choice = bv1

  function Flag(b: bool): Choice { if b then 1 else 0 }

  function Select<T>(a: T, b: T, c: Choice): T { if c == 1 then b else a }

  // Every row is examined, and the chosen row is merged in without a branch.
  method FindMatch(verify: Verifier, q: Query, codes: seq<StoredCode>)
    returns (matched: Option<nat>, examined: nat, viaPrevious: bool)
    ensures matched == FirstHit(verify, q, codes)
    ensures examined == |codes|
    ensures viaPrevious <==> matched.Some? && OnlyPrevious(q, codes[matched.value])
  {
    var found: Choice, previous: Choice, index := 0, 0, 0;
    examined := 0;
    for i := 0 to |codes|
      invariant examined == i
      invariant FirstHit(verify, q, codes[..i]) == if found == 1 then Some(index) else None
      invariant previous == Flag(found == 1 && OnlyPrevious(q, codes[..i][index]))
    {
      examined := examined + 1;
      var unspent := Flag(codes[i].usedAt.None?);
      var curEqual: Choice, prevEqual: Choice, equal: Choice := 0, 0, 0;
      var mac := ReadKeyedMac(codes[i].hash);
      match mac {
        case Some(stored) =>
          if q.current.Some? { curEqual := Flag(q.current.value == stored); }
          if q.previous.Some? { prevEqual := Flag(q.previous.value == stored); }
          equal := curEqual | prevEqual;
        case None =>
          if unspent == 1 { equal := Flag(verify(q.candidate, codes[i].hash)); }
      }
      var hit := equal & unspent;
      var take := hit & !found;
      assert hit == Flag(Hit(verify, q, codes[i]));
      assert codes[..i + 1][..i] == codes[..i];
      index := Select(index, i, take);
      previous := Select(previous, prevEqual & !curEqual, take);
      found := found | hit;
    }
    assert codes[..|codes|] == codes;
    matched := if found == 1 then Some(index) else None;
    viaPrevious := previous == 1;
  }

  datatype Submission = Submission(text: string, now: Time, pepper: Option<Bytes>, previous: Option<Bytes>)
  datatype Match = Match(config: Config, matchedPreviousPepper: bool)

  function QueryOf(hmac: Hmac, s: Submission): Query {
    var code := Normalize(s.text);
    Query(code,
          if s.pepper.Some? then Some(MacOf(hmac, s.pepper.value, code)) else None,
          if s.previous.Some? then Some(MacOf(hmac, s.previous.value, code)) else None)
  }

  function Spent(config: Config, i: nat, now: Time): Config
    requires i < |config.codes|
  {
    config.(codes := config.codes[i := config.codes[i].(usedAt := Some(now))])
  }

  function Decided(verify: Verifier, config: Config, q: Query, now: Time): Option<Match> {
    if !WellFormed(q.candidate) then None
    else
      match FirstHit(verify, q, config.codes)
      case None => None
      case Some(i) => Some(Match(Spent(config, i, now), OnlyPrevious(q, config.codes[i])))
  }

  function Verified(hmac: Hmac, verify: Verifier, config: Config, s: Submission): Option<Match> {
    Decided(verify, config, QueryOf(hmac, s), s.now)
  }

  method VerifyRotating(hmac: Hmac, verify: Verifier, config: Config, s: Submission) returns (r: Option<Match>)
    ensures r == Verified(hmac, verify, config, s)
  {
    var q := QueryOf(hmac, s);
    if !WellFormed(q.candidate) { return None; }
    var matched, _, viaPrevious := FindMatch(verify, q, config.codes);
    match matched
    case None => return None;
    case Some(i) => return Some(Match(Spent(config, i, s.now), viaPrevious));
  }

  // An acceptance spends one row, unspent before, at the instant given, and
  // changes nothing else.
  lemma AcceptanceSpendsOne(hmac: Hmac, verify: Verifier, config: Config, s: Submission)
    requires Verified(hmac, verify, config, s).Some?
    ensures exists i | 0 <= i < |config.codes| :: config.codes[i].usedAt.None? && SpendsRow(
                config, Verified(hmac, verify, config, s).value.config, i, s.now)
  {
    var i := FirstHit(verify, QueryOf(hmac, s), config.codes).value;
    assert SpendsRow(config, Verified(hmac, verify, config, s).value.config, i, s.now);
  }

  // `after` is `before` with row `i` marked used at `now`.
  ghost predicate SpendsRow(before: Config, after: Config, i: nat, now: Time) {
    && i < |before.codes| == |after.codes| && after.underPreviousPepper == before.underPreviousPepper
    && after.codes[i] == StoredCode(before.codes[i].hash, Some(now))
    && (forall j | 0 <= j < |before.codes| && j != i :: after.codes[j] == before.codes[j])
  }

  // A set in the Argon2id form: accepted exactly when the text normalises to a
  // well-formed code that some unspent row's hash verifies.
  lemma ArgonAcceptedExactly(hmac: Hmac, verify: Verifier, config: Config, s: Submission)
    requires forall i | 0 <= i < |config.codes| :: !(PREFIX <= config.codes[i].hash)
    ensures Verified(hmac, verify, config, s).Some? <==>
              && WellFormed(Normalize(s.text))
              && exists i | 0 <= i < |config.codes| ::
                   config.codes[i].usedAt.None? && verify(Normalize(s.text), config.codes[i].hash)
    ensures Verified(hmac, verify, config, s).Some? ==> !Verified(hmac, verify, config, s).value.matchedPreviousPepper
  {
    var q := QueryOf(hmac, s);
    assert forall i | 0 <= i < |config.codes| ::
        Hit(verify, q, config.codes[i]) <==>
        config.codes[i].usedAt.None? && verify(q.candidate, config.codes[i].hash);
  }

  // ---- Single use ----

  function Remaining(codes: seq<StoredCode>): nat {
    if codes == [] then 0
    else Remaining(codes[..|codes| - 1]) + if codes[|codes| - 1].usedAt.None? then 1 else 0
  }

  lemma {:induction false} SpendingCounts(codes: seq<StoredCode>, i: nat, now: Time)
    requires i < |codes| && codes[i].usedAt.None?
    ensures Remaining(codes[i := codes[i].(usedAt := Some(now))]) == Remaining(codes) - 1
  {
    var n := |codes| - 1;
    var after := codes[i := codes[i].(usedAt := Some(now))];
    if i == n {
      assert after[..n] == codes[..n];
    } else {
      SpendingCounts(codes[..n], i, now);
      assert after[..n] == codes[..n][i := codes[i].(usedAt := Some(now))];
    }
  }

  // The stored config after a chain of submissions, each accepted one
  // persisted before the next.
  function After(hmac: Hmac, verify: Verifier, config: Config, chain: seq<Submission>): Config
    decreases |chain|
  {
    if chain == [] then config
    else
      match Verified(hmac, verify, config, chain[0])
      case Some(m) => After(hmac, verify, m.config, chain[1..])
      case None => After(hmac, verify, config, chain[1..])
  }

  function Accepted(hmac: Hmac, verify: Verifier, config: Config, chain: seq<Submission>): nat
    decreases |chain|
  {
    if chain == [] then 0
    else
      match Verified(hmac, verify, config, chain[0])
      case Some(m) => 1 + Accepted(hmac, verify, m.config, chain[1..])
      case None => Accepted(hmac, verify, config, chain[1..])
  }

  // Acceptances and remaining codes always add up to the codes there were.
  lemma {:induction false} CodesConserved(hmac: Hmac, verify: Verifier, config: Config, chain: seq<Submission>)
    ensures Accepted(hmac, verify, config, chain) + Remaining(After(hmac, verify, config, chain).codes)
         == Remaining(config.codes)
    decreases |chain|
  {
    if chain != [] {
      match Verified(hmac, verify, config, chain[0])
      case None => CodesConserved(hmac, verify, config, chain[1..]);
      case Some(m) =>
        CodesConserved(hmac, verify, m.config, chain[1..]);
        var i := FirstHit(verify, QueryOf(hmac, chain[0]), config.codes).value;
        SpendingCounts(config.codes, i, chain[0].now);
    }
  }

  // Nothing rewrites a row: hashes stay, and a spent row keeps its instant.
  lemma {:induction false} RowsKept(hmac: Hmac, verify: Verifier, config: Config, chain: seq<Submission>, i: nat)
    requires i < |config.codes|
    ensures var after := After(hmac, verify, config, chain);
            && |after.codes| == |config.codes|
            && after.codes[i].hash == config.codes[i].hash
            && (config.codes[i].usedAt.Some? ==> after.codes[i] == config.codes[i])
            && after.underPreviousPepper == config.underPreviousPepper
    decreases |chain|
  {
    if chain != [] {
      match Verified(hmac, verify, config, chain[0])
      case None => RowsKept(hmac, verify, config, chain[1..], i);
      case Some(m) => RowsKept(hmac, verify, m.config, chain[1..], i);
    }
  }

  predicate NeedsSlow(config: Config) {
    exists i | 0 <= i < |config.codes| ::
      config.codes[i].usedAt.None? && KeyedMac(config.codes[i].hash).None?
  }

  // A set that does not need slow verification is decided without it.
  lemma {:induction false} FastSetsSkipArgon(hmac: Hmac, a: Verifier, b: Verifier, config: Config, s: Submission)
    requires !NeedsSlow(config)
    ensures Verified(hmac, a, config, s) == Verified(hmac, b, config, s)
  {
    var q := QueryOf(hmac, s);
    assert forall i | 0 <= i < |config.codes| :: Hit(a, q, config.codes[i]) == Hit(b, q, config.codes[i]);
    FirstHitAgrees(a, b, q, config.codes);
  }

  lemma FirstHitAgrees(a: Verifier, b: Verifier, q: Query, codes: seq<StoredCode>)
    requires forall i | 0 <= i < |codes| :: Hit(a, q, codes[i]) == Hit(b, q, codes[i])
    ensures FirstHit(a, q, codes) == FirstHit(b, q, codes)
  {
    var x, y := FirstHit(a, q, codes), FirstHit(b, q, codes);
    assert x.Some? ==> Hit(b, q, codes[x.value]);
    assert y.Some? ==> Hit(a, q, codes[y.value]);
  }

  // ---- Generation ----

  type Draw = b: Bytes | |b| == LENGTH witness Zeros(LENGTH)

  function Symbol(b: byte): char { ALPHABET[b as int % 32] }

  // Ten random bytes as a code.
  function Generated(draw: Draw): (code: string)
    ensures WellFormed(code)
  {
    seq(LENGTH, i requires 0 <= i < LENGTH => Symbol(draw[i]))
  }

  // Two draws make the same code exactly when they agree modulo the alphabet.
  lemma SameCodeExactly(a: Draw, b: Draw)
    ensures Generated(a) == Generated(b) <==> forall i | 0 <= i < LENGTH :: a[i] as int % 32 == b[i] as int % 32
  {
    forall i | 0 <= i < LENGTH ensures Generated(a)[i] == Generated(b)[i] <==> a[i] as int % 32 == b[i] as int % 32 {
      SymbolResidue(a[i], b[i] as int % 32);
    }
  }

  // Each symbol comes from exactly eight of the 256 bytes.
  lemma SymbolsUniform(k: nat)
    requires k < 32
    ensures |set b: int | 0 <= b < 256 && Symbol(b) == ALPHABET[k]| == 8
  {
    forall b | 0 <= b < 256 ensures Symbol(b) == ALPHABET[k] <==> b % 32 == k {
      SymbolResidue(b, k);
    }
    assert (set b: int | 0 <= b < 256 && Symbol(b) == ALPHABET[k]) == Residues(k);
    ResiduesCount(k);
  }

  lemma SymbolResidue(b: byte, k: nat)
    requires k < 32
    ensures Symbol(b) == ALPHABET[k] <==> b % 32 == k
  {
    SymbolPosition(b % 32);
    SymbolPosition(k);
  }

  function Residues(k: nat): set<int> {
    set b: int | 0 <= b < 256 && b % 32 == k
  }

  lemma ResiduesCount(k: nat)
    requires k < 32
    ensures |Residues(k)| == 8
  {
    assert Residues(k) == {k, k + 32, k + 64, k + 96, k + 128, k + 160, k + 192, k + 224};
  }

  // Two groups of five.
  function DisplayForm(code: string): (text: string)
    requires |code| == LENGTH
    ensures |text| == 11 && text[5] == '-' && text[..5] + text[6..] == code
  {
    code[..LENGTH / 2] + "-" + code[LENGTH / 2..]
  }

  datatype Issue = Issue(display: seq<string>, config: Config)

  // Row `i` stores draw `i` and shows it.
  predicate Issues(issue: Issue, draws: seq<Draw>, store: string -> string) {
    && |issue.display| == |issue.config.codes| == |draws|
    && !issue.config.underPreviousPepper
    && (forall i | 0 <= i < |draws| ::
          && issue.config.codes[i] == StoredCode(store(Generated(draws[i])), None)
          && issue.display[i] == DisplayForm(Generated(draws[i])))
  }

  method GenerateWith(draws: seq<Draw>, store: string -> string) returns (issue: Issue)
    ensures Issues(issue, draws, store)
  {
    var display, codes := [], [];
    for i := 0 to |draws|
      invariant |display| == |codes| == i
      invariant forall j | 0 <= j < i :: codes[j] == StoredCode(store(Generated(draws[j])), None)
      invariant forall j | 0 <= j < i :: display[j] == DisplayForm(Generated(draws[j]))
    {
      var canonical := Generated(draws[i]);
      codes := codes + [StoredCode(store(canonical), None)];
      display := display + [DisplayForm(canonical)];
    }
    issue := Issue(display, Config(codes, false));
  }

  // What a person types from the displayed text, with or without its dash, is
  // the code itself.
  lemma DisplayedRecovers(code: string, raw: string)
    requires WellFormed(code) && (Typed(raw, DisplayForm(code)) || Typed(raw, code))
    ensures Normalize(raw) == code
  {
    WellFormedIsCanonical(code);
    if Typed(raw, DisplayForm(code)) {
      var half := LENGTH / 2;
      TypedSkipsDash(raw, code[..half], code[half..]);
      assert code[..half] + code[half..] == code;
    }
    NormalizeRecovers(raw, code);
  }

  lemma {:induction false} TypedSkipsDash(raw: string, a: string, b: string)
    requires Typed(raw, a + "-" + b)
    ensures Typed(raw, a + b)
  {
    var full := a + "-" + b;
    if a == "" {
      assert full[1..] == b && a + b == b;
      if Separator(raw[0]) && Typed(raw[1..], full) {
        TypedSkipsDash(raw[1..], a, b);
      }
    } else {
      assert full[1..] == a[1..] + "-" + b && (a + b)[1..] == a[1..] + b;
      if Separator(raw[0]) && Typed(raw[1..], full) {
        TypedSkipsDash(raw[1..], a, b);
      } else {
        TypedSkipsDash(raw[1..], a[1..], b);
      }
    }
  }

  // The rows are those issued under `pepper` for these draws, spent or not.
  predicate RowsOf(config: Config, hmac: Hmac, pepper: Bytes, draws: seq<Draw>) {
    && |config.codes| == |draws|
    && (forall i | 0 <= i < |draws| :: config.codes[i].hash == StoredForm(hmac, pepper, Generated(draws[i])))
  }

  // Some MAC under `p` is also one under `q`, other than of the same code under
  // the same pepper.
  ghost predicate Collides(hmac: Hmac, p: Bytes, q: Bytes) {
    exists a, b | WellFormed(a) && WellFormed(b) && !(p == q && a == b) ::
      hmac(p, DOMAIN + Ascii(a)) == hmac(q, DOMAIN + Ascii(b))
  }

  lemma RowHitExactly(hmac: Hmac, verify: Verifier, pepper: Bytes, code: string, row: StoredCode, s: Submission)
    requires WellFormed(code) && WellFormed(Normalize(s.text)) && row.hash == StoredForm(hmac, pepper, code)
    requires s.pepper.Some? ==> !Collides(hmac, s.pepper.value, pepper)
    requires s.previous.Some? ==> !Collides(hmac, s.previous.value, pepper)
    ensures Hit(verify, QueryOf(hmac, s), row) <==>
              && row.usedAt.None? && Normalize(s.text) == code
              && (s.pepper == Some(pepper) || s.previous == Some(pepper))
    ensures Hit(verify, QueryOf(hmac, s), row) ==> (OnlyPrevious(QueryOf(hmac, s), row) <==> s.pepper != Some(pepper))
  {
    KeyedRoundTrip(hmac, pepper, code);
    var typed := Normalize(s.text);
    if s.pepper.Some? { MacsEqualExactly(hmac, s.pepper.value, typed, pepper, code); }
    if s.previous.Some? { MacsEqualExactly(hmac, s.previous.value, typed, pepper, code); }
  }

  lemma MacsEqualExactly(hmac: Hmac, p: Bytes, a: string, q: Bytes, b: string)
    requires WellFormed(a) && WellFormed(b) && !Collides(hmac, p, q)
    ensures MacOf(hmac, p, a) == MacOf(hmac, q, b) <==> p == q && a == b
  {
    assert hmac(p, DOMAIN + Ascii(a)) == hmac(q, DOMAIN + Ascii(b)) ==> p == q && a == b;
  }

  // Unless MACs collide: against a keyed set a submission is accepted exactly
  // when the set's pepper is the current or the previous one and the text is,
  // however typed, the code of a row still unspent. It spends such a row, and
  // reports the previous pepper exactly when the set's is not the current one.
  lemma AcceptedExactly(hmac: Hmac, verify: Verifier, pepper: Bytes, draws: seq<Draw>, config: Config, s: Submission)
    requires RowsOf(config, hmac, pepper, draws)
    requires s.pepper.Some? ==> !Collides(hmac, s.pepper.value, pepper)
    requires s.previous.Some? ==> !Collides(hmac, s.previous.value, pepper)
    ensures Verified(hmac, verify, config, s).Some? <==>
              && (s.pepper == Some(pepper) || s.previous == Some(pepper))
              && exists i | 0 <= i < |draws| :: config.codes[i].usedAt.None? && Typed(s.text, Generated(draws[i]))
    ensures Verified(hmac, verify, config, s).Some? ==>
              exists i | 0 <= i < |draws| ::
                && config.codes[i].usedAt.None? && Typed(s.text, Generated(draws[i]))
                && SpendsRow(config, Verified(hmac, verify, config, s).value.config, i, s.now)
    ensures Verified(hmac, verify, config, s).Some? ==>
              (Verified(hmac, verify, config, s).value.matchedPreviousPepper <==> s.pepper != Some(pepper))
  {
    var q, typed := QueryOf(hmac, s), Normalize(s.text);
    forall i | 0 <= i < |draws| ensures Typed(s.text, Generated(draws[i])) <==> typed == Generated(draws[i]) {
      WellFormedIsCanonical(Generated(draws[i]));
      NormalizeRecovers(s.text, Generated(draws[i]));
    }
    if WellFormed(typed) {
      forall i | 0 <= i < |draws|
        ensures Hit(verify, q, config.codes[i]) <==>
                  && config.codes[i].usedAt.None? && typed == Generated(draws[i])
                  && (s.pepper == Some(pepper) || s.previous == Some(pepper))
        ensures Hit(verify, q, config.codes[i]) ==> (OnlyPrevious(q, config.codes[i]) <==> s.pepper != Some(pepper))
      {
        RowHitExactly(hmac, verify, pepper, Generated(draws[i]), config.codes[i], s);
      }
      if Verified(hmac, verify, config, s).Some? {
        var i := FirstHit(verify, q, config.codes).value;
        assert SpendsRow(config, Verified(hmac, verify, config, s).value.config, i, s.now);
      }
    }
  }

  lemma HitAccepted(verify: Verifier, config: Config, q: Query, i: nat, now: Time)
    requires WellFormed(q.candidate) && i < |config.codes| && Hit(verify, q, config.codes[i])
    ensures FirstHit(verify, q, config.codes).Some? && FirstHit(verify, q, config.codes).value <= i
    ensures Decided(verify, config, q, now).Some?
  {
  }

  // Every displayed code of a keyed set, however typed, is accepted while its
  // row is unspent, under its own pepper as the current or the previous one.
  // It spends its own row, or an earlier one it matches too.
  lemma IssuedCodeVerifies(hmac: Hmac, verify: Verifier, pepper: Bytes, issue: Issue, draws: seq<Draw>,
                           config: Config, i: nat, s: Submission)
    requires Issues(issue, draws, c => StoredForm(hmac, pepper, c))
    requires i < |draws| && i < |config.codes| && config.codes[i] == issue.config.codes[i]
    requires Typed(s.text, issue.display[i]) || Typed(s.text, Generated(draws[i]))
    requires s.pepper == Some(pepper) || s.previous == Some(pepper)
    ensures Verified(hmac, verify, config, s).Some?
    ensures exists k | 0 <= k <= i :: Verified(hmac, verify, config, s).value.config == Spent(config, k, s.now)
  {
    var code := Generated(draws[i]);
    DisplayedRecovers(code, s.text);
    KeyedRoundTrip(hmac, pepper, code);
    HitAccepted(verify, config, QueryOf(hmac, s), i, s.now);
  }
}
