// Which address a request came from: the walk over the forwarded chain.
// Reading an address from text is a parameter.
module ClientIp {
  import opened Cidr
  import opened Options
  import opened Text

  type Parser = string -> Option<Ip>

  datatype Entry = Exact(address: Ip) | Net(net: Ip, prefix: u8)

  predicate Fits(e: Entry) { e.Net? ==> e.prefix <= Width(e.net) }

  // Blocks come from the CIDR parser, so their prefixes fit.
  type TrustedEntry = e: Entry | Fits(e) witness Exact(V4(0))

  datatype PeerTrust = Enumerated | AnyPeer

  datatype Proxies = Proxies(entries: seq<TrustedEntry>, peer: PeerTrust, realIp: bool)

  predicate Matches(e: TrustedEntry, a: Ip) {
    match e
    case Exact(address) => Canonical(address) == a
    case Net(net, prefix) => InNetwork(a, net, prefix)
  }

  predicate TrustsHop(t: Proxies, a: Ip) {
    exists e | e in t.entries :: Matches(e, Canonical(a))
  }

  predicate TrustsPeer(t: Proxies, peer: Ip) {
    t.peer.AnyPeer? || TrustsHop(t, peer)
  }

  // ---- Building the set ----

  // `r` is `t` with one block more per specification, in order.
  predicate Extends(r: Proxies, t: Proxies, specs: seq<string>, ip: Parser, number: string -> Option<u8>) {
    && r.peer == t.peer && r.realIp == t.realIp
    && |r.entries| == |t.entries| + |specs| && r.entries[..|t.entries|] == t.entries
    && (forall i | 0 <= i < |specs| ::
          && ParseCidr(specs[i], ip, number).Ok?
          && r.entries[|t.entries| + i] == BlockEntry(ParseCidr(specs[i], ip, number).value))
  }

  function BlockEntry(b: Block): Entry { Net(b.0, b.1) }

  // The first specification that does not parse is the error.
  method WithCidrs(t: Proxies, specs: seq<string>, ip: Parser, number: string -> Option<u8>)
    returns (r: Result<Proxies, CidrError>)
    ensures r.Err? ==> exists i | 0 <= i < |specs| ::
                ParseCidr(specs[i], ip, number) == Err(r.error)
                && forall j | 0 <= j < i :: ParseCidr(specs[j], ip, number).Ok?
    ensures r.Ok? ==> Extends(r.value, t, specs, ip, number)
  {
    var entries: seq<TrustedEntry> := t.entries;
    for i := 0 to |specs|
      invariant Extends(t.(entries := entries), t, specs[..i], ip, number)
    {
      var parsed := ParseCidr(specs[i], ip, number);
      if parsed.Err? {
        assert forall j | 0 <= j < i :: specs[..i][j] == specs[j];
        return Err(parsed.error);
      }
      ParsedFits(specs[i], ip, number);
      entries := entries + [BlockEntry(parsed.value)];
    }
    assert specs[..|specs|] == specs;
    r := Ok(t.(entries := entries));
  }

  // Whether `x` lies in the block a specification names: in its numeric
  // range, and of the family the block's canonical form has.
  predicate Covers(spec: string, ip: Parser, number: string -> Option<u8>, x: Ip)
    requires ParseCidr(spec, ip, number).Ok?
  {
    var (left, right) := SplitOnce(spec).value;
    var a, prefix := ip(Trim(left)).value, number(Trim(right)).value;
    && Canonical(x).V4? == Canonical(a).V4?
    && Wide(a) <= Wide(x) <= Wide(a) + Size(a, prefix) - 1
  }

  // Adding blocks trusts exactly the addresses they cover besides.
  lemma ExtendedTrust(r: Proxies, t: Proxies, specs: seq<string>, ip: Parser, number: string -> Option<u8>, x: Ip)
    requires Extends(r, t, specs, ip, number)
    ensures TrustsHop(r, x) <==>
              TrustsHop(t, x) || exists i | 0 <= i < |specs| :: Covers(specs[i], ip, number, x)
  {
    var n := |t.entries|;
    forall i | 0 <= i < |specs| ensures Matches(r.entries[n + i], Canonical(x)) <==> Covers(specs[i], ip, number, x) {
      ParsedCovers(specs[i], ip, number, x);
    }
    if TrustsHop(r, x) {
      var k :| 0 <= k < |r.entries| && Matches(r.entries[k], Canonical(x));
      if k < n {
        assert t.entries[k] == r.entries[k];
      } else {
        assert Covers(specs[k - n], ip, number, x);
      }
    }
    if TrustsHop(t, x) {
      var k :| 0 <= k < n && Matches(t.entries[k], Canonical(x));
      assert r.entries[k] == t.entries[k];
    }
  }

  lemma ParsedCovers(spec: string, ip: Parser, number: string -> Option<u8>, x: Ip)
    requires ParseCidr(spec, ip, number).Ok?
    ensures var b := ParseCidr(spec, ip, number).value;
            Fits(BlockEntry(b)) && (Matches(BlockEntry(b), Canonical(x)) <==> Covers(spec, ip, number, x))
  {
    var (left, right) := SplitOnce(spec).value;
    BlockTrustsRange(ip(Trim(left)).value, number(Trim(right)).value, x);
  }

  lemma ParsedFits(spec: string, ip: Parser, number: string -> Option<u8>)
    requires ParseCidr(spec, ip, number).Ok?
    ensures Fits(BlockEntry(ParseCidr(spec, ip, number).value))
  {
    ParsedCovers(spec, ip, number, V4(0));
  }

  // An address listed by itself trusts that address in either form, no other.
  lemma ExactTrust(address: Ip, x: Ip)
    ensures Matches(Exact(address), Canonical(x)) <==> Wide(address) == Wide(x)
  {
    WideCanonical(address);
    WideCanonical(x);
  }

  // ---- Lines and entries ----

  // One more character in front: a comma opens a new part.
  function Prepend(c: char, parts: seq<string>): (r: seq<string>)
    requires |parts| > 0
    ensures |r| > 0
  {
    if c == ',' then [""] + parts else [[c] + parts[0]] + parts[1..]
  }

  function Split(text: string): (parts: seq<string>)
    ensures |parts| > 0
  {
    if text == "" then [""] else Prepend(text[0], Split(text[1..]))
  }

  lemma PrependAppend(c: char, p: seq<string>, q: seq<string>)
    requires |p| > 0
    ensures Prepend(c, p + q) == Prepend(c, p) + q
  {
  }

  lemma Associative(a: seq<string>, b: seq<string>, c: seq<string>)
    ensures (a + b) + c == a + (b + c)
  {
  }

  function SplitAll(lines: seq<string>): seq<string> {
    if lines == [] then [] else Split(lines[0]) + SplitAll(lines[1..])
  }

  // Field lines as one comma-joined value (section 5.3 of RFC 9110).
  function Join(lines: seq<string>): string
    requires lines != []
  {
    if |lines| == 1 then lines[0] else lines[0] + "," + Join(lines[1..])
  }

  // The parts hold no comma, and joined by commas they are the text.
  lemma {:induction false} SplitExactly(text: string)
    ensures Join(Split(text)) == text && forall part | part in Split(text) :: ',' !in part
  {
    if text != "" {
      var rest := Split(text[1..]);
      SplitExactly(text[1..]);
      JoinPrepends(text[0], rest);
      assert text == [text[0]] + text[1..];
      assert forall part | part in Split(text)[1..] :: part in rest;
      assert Split(text) == [Split(text)[0]] + Split(text)[1..];
    }
  }

  lemma JoinPrepends(c: char, parts: seq<string>)
    requires |parts| > 0
    ensures Join(Prepend(c, parts)) == [c] + Join(parts)
  {
    var more := Prepend(c, parts);
    if c == ',' {
      JoinFirst(more, "", parts);
    } else if |parts| > 1 {
      JoinFirst(more, [c] + parts[0], parts[1..]);
      JoinFirst(parts, parts[0], parts[1..]);
      Regroup([c], parts[0], Join(parts[1..]));
    }
  }

  lemma JoinFirst(parts: seq<string>, first: string, rest: seq<string>)
    requires parts == [first] + rest && rest != []
    ensures Join(parts) == first + "," + Join(rest)
  {
    assert parts[1..] == rest;
  }

  lemma Regroup(a: string, b: string, c: string)
    ensures (a + b) + "," + c == a + (b + "," + c)
  {
  }

  lemma {:induction false} SplitJoined(a: string, b: string)
    ensures Split(a + "," + b) == Split(a) + Split(b)
  {
    var s := a + "," + b;
    if a == "" {
      assert s[1..] == b && s[0] == ',';
    } else {
      SplitJoined(a[1..], b);
      assert s[1..] == a[1..] + "," + b && s[0] == a[0];
      PrependAppend(a[0], Split(a[1..]), Split(b));
    }
  }

  lemma {:induction false} SplitAllJoined(lines: seq<string>)
    requires lines != []
    ensures SplitAll(lines) == Split(Join(lines))
  {
    if |lines| == 1 {
      assert SplitAll(lines[1..]) == [];
    } else {
      SplitAllJoined(lines[1..]);
      SplitJoined(lines[0], Join(lines[1..]));
    }
  }

  lemma {:induction false} SplitAllMore(lines: seq<string>, line: string)
    ensures SplitAll(lines + [line]) == SplitAll(lines) + Split(line)
  {
    if lines == [] {
      assert SplitAll(([line])[1..]) == [];
    } else {
      SplitAllMore(lines[1..], line);
      assert (lines + [line])[1..] == lines[1..] + [line];
      Associative(Split(lines[0]), SplitAll(lines[1..]), Split(line));
    }
  }

  // ---- The walk ----

  datatype Outcome = Client(addr: Ip) | NoAnswer

  function Read(ip: Parser, entry: string): Option<Ip> {
    match ip(Trim(entry))
    case Some(a) => Some(Canonical(a))
    case None => None
  }

  predicate Hop(t: Proxies, ip: Parser, entry: string) {
    Read(ip, entry).Some? && TrustsHop(t, Read(ip, entry).value)
  }

  // What an entry that is not a trusted hop settles.
  function Settles(ip: Parser, entry: string): Outcome {
    if Read(ip, entry).Some? then Client(Read(ip, entry).value) else NoAnswer
  }

  function Walk(t: Proxies, ip: Parser, entries: seq<string>): Outcome {
    if entries == [] then NoAnswer
    else
      var n := |entries| - 1;
      if Hop(t, ip, entries[n]) then Walk(t, ip, entries[..n]) else Settles(ip, entries[n])
  }

  method WalkBack(entries: seq<string>, t: Proxies, ip: Parser) returns (r: Outcome)
    ensures r == Walk(t, ip, entries)
  {
    var k := |entries|;
    assert entries[..k] == entries;
    while k > 0
      invariant 0 <= k <= |entries|
      invariant Walk(t, ip, entries) == Walk(t, ip, entries[..k])
    {
      k := k - 1;
      assert entries[..k + 1][..k] == entries[..k];
      var addr := Read(ip, entries[k]);
      match addr {
        case Some(a) =>
          if !TrustsHop(t, a) { return Client(a); }
        case None => return NoAnswer;
      }
    }
    r := NoAnswer;
  }

  // The rightmost entry that is not a trusted hop decides, whatever is to its
  // left; with no such entry there is no answer.
  lemma {:induction false} RightmostDecides(t: Proxies, ip: Parser, left: seq<string>, e: string, right: seq<string>)
    requires !Hop(t, ip, e) && forall x | x in right :: Hop(t, ip, x)
    ensures Walk(t, ip, left + [e] + right) == Settles(ip, e)
    ensures Walk(t, ip, right) == NoAnswer
  {
    var all := left + [e] + right;
    if right != [] {
      var n := |right| - 1;
      RightmostDecides(t, ip, left, e, right[..n]);
      assert all[..|all| - 1] == left + [e] + right[..n];
    }
  }

  // Header lines as received: None for a line that is not text.
  datatype Headers = Headers(forwarded: seq<Option<string>>, realIp: seq<Option<string>>)

  predicate Readable(lines: seq<Option<string>>) { forall i | 0 <= i < |lines| :: lines[i].Some? }

  function Texts(lines: seq<Option<string>>): seq<string>
    requires Readable(lines)
  {
    seq(|lines|, i requires 0 <= i < |lines| => lines[i].value)
  }

  function RealIp(t: Proxies, ip: Parser, lines: seq<Option<string>>): Outcome {
    if t.realIp && |lines| == 1 && lines[0].Some? then Settles(ip, lines[0].value) else NoAnswer
  }

  function Chain(t: Proxies, ip: Parser, h: Headers): Outcome {
    if h.forwarded == [] then RealIp(t, ip, h.realIp)
    else if !Readable(h.forwarded) then NoAnswer
    else Walk(t, ip, SplitAll(Texts(h.forwarded)))
  }

  method ClientFromChain(h: Headers, t: Proxies, ip: Parser) returns (r: Outcome)
    ensures r == Chain(t, ip, h)
  {
    var lines := h.forwarded;
    if lines != [] {
      var entries := [];
      for i := 0 to |lines|
        invariant Readable(lines[..i])
        invariant entries == SplitAll(Texts(lines[..i]))
      {
        if lines[i].None? { return NoAnswer; }
        entries := entries + Split(lines[i].value);
        assert Texts(lines[..i + 1]) == Texts(lines[..i]) + [lines[i].value];
        SplitAllMore(Texts(lines[..i]), lines[i].value);
      }
      assert lines[..|lines|] == lines;
      r := WalkBack(entries, t, ip);
      return;
    }
    if !t.realIp { return NoAnswer; }
    if |h.realIp| != 1 || h.realIp[0].None? { return NoAnswer; }
    r := Settles(ip, h.realIp[0].value);
  }

  // ---- The answer ----

  datatype Source = Unknown | Peer | Forwarded
  datatype Answer = Answer(addr: Option<Ip>, source: Source)

  const NOBODY: Answer := Answer(None, Unknown)

  function Resolve(t: Proxies, ip: Parser, h: Headers, peer: Option<Ip>): Answer {
    match peer
    case Some(p) =>
      if !TrustsPeer(t, Canonical(p)) then Answer(Some(Canonical(p)), Peer)
      else
        (match Chain(t, ip, h)
         case Client(a) => Answer(Some(a), Forwarded)
         case NoAnswer => Answer(Some(Canonical(p)), Peer))
    case None =>
      if !t.peer.AnyPeer? then NOBODY
      else
        match Chain(t, ip, h)
        case Client(a) => Answer(Some(a), Forwarded)
        case NoAnswer => NOBODY
  }

  // Headers with readable forwarded lines that say the same comma-joined text
  // resolve the same, however the lines are split.
  lemma SplittingIrrelevant(t: Proxies, ip: Parser, a: Headers, b: Headers, peer: Option<Ip>)
    requires a.forwarded != [] && b.forwarded != [] && Readable(a.forwarded) && Readable(b.forwarded)
    requires Join(Texts(a.forwarded)) == Join(Texts(b.forwarded))
    ensures Resolve(t, ip, a, peer) == Resolve(t, ip, b, peer)
  {
    SplitAllJoined(Texts(a.forwarded));
    SplitAllJoined(Texts(b.forwarded));
  }

  // Entries and lines to the left of the deciding entry change nothing.
  lemma LeftIrrelevant(t: Proxies, ip: Parser, a: Headers, b: Headers, peer: Option<Ip>,
                       left: seq<string>, left': seq<string>, e: string, right: seq<string>)
    requires a.forwarded != [] && b.forwarded != [] && Readable(a.forwarded) && Readable(b.forwarded)
    requires SplitAll(Texts(a.forwarded)) == left + [e] + right
    requires SplitAll(Texts(b.forwarded)) == left' + [e] + right
    requires !Hop(t, ip, e) && forall x | x in right :: Hop(t, ip, x)
    ensures Resolve(t, ip, a, peer) == Resolve(t, ip, b, peer)
  {
    RightmostDecides(t, ip, left, e, right);
    RightmostDecides(t, ip, left', e, right);
  }

  // The headers name `a` as the client: the chain decides it, or, without a
  // chain, the one `X-Real-IP` line the operator vouches for reads as it.
  ghost predicate Names(t: Proxies, ip: Parser, h: Headers, a: Ip) {
    if h.forwarded != [] then Readable(h.forwarded) && Decided(t, ip, SplitAll(Texts(h.forwarded)), a)
    else t.realIp && |h.realIp| == 1 && h.realIp[0].Some? && Read(ip, h.realIp[0].value) == Some(a)
  }

  // The headers may be read at all.
  predicate Believed(t: Proxies, peer: Option<Ip>) {
    t.peer.AnyPeer? || (peer.Some? && TrustsHop(t, peer.value))
  }

  lemma ChainExactly(t: Proxies, ip: Parser, h: Headers, a: Ip)
    ensures Chain(t, ip, h) == Client(a) <==> Names(t, ip, h, a)
  {
    if h.forwarded != [] && Readable(h.forwarded) { WalkExactly(t, ip, SplitAll(Texts(h.forwarded)), a); }
  }

  // An address is answered as forwarded exactly when the headers may be read
  // and name it.
  lemma ForwardedExactly(t: Proxies, ip: Parser, h: Headers, peer: Option<Ip>, a: Ip)
    ensures Resolve(t, ip, h, peer) == Answer(Some(a), Forwarded) <==> Believed(t, peer) && Names(t, ip, h, a)
  {
    if peer.Some? { CanonicalTwice(peer.value); }
    ChainExactly(t, ip, h, a);
  }

  // The peer is the source exactly when it is not trusted or the headers name
  // nobody; nobody knows exactly when the same holds without a peer.
  lemma PeerExactly(t: Proxies, ip: Parser, h: Headers, peer: Option<Ip>)
    ensures Resolve(t, ip, h, peer).source.Peer? <==>
              peer.Some? && (!Believed(t, peer) || forall a :: !Names(t, ip, h, a))
    ensures Resolve(t, ip, h, peer).source.Peer? ==> Resolve(t, ip, h, peer).addr == Some(Canonical(peer.value))
    ensures Resolve(t, ip, h, peer).source.Unknown? <==>
              peer.None? && (!Believed(t, peer) || forall a :: !Names(t, ip, h, a))
    ensures Resolve(t, ip, h, peer).source.Unknown? <==> Resolve(t, ip, h, peer).addr.None?
  {
    if peer.Some? { CanonicalTwice(peer.value); }
    forall a ensures Chain(t, ip, h) == Client(a) <==> Names(t, ip, h, a) {
      ChainExactly(t, ip, h, a);
    }
  }

  // So a trusted peer can be the source too: a loopback proxy that forwards
  // nothing, or a line with nothing in it.
  lemma TrustedPeerAnswers(ip: Parser)
    requires ip("").None?
    ensures var t, peer := Proxies([Exact(V4(0x7F00_0001))], Enumerated, false), V4(0x7F00_0001);
            && TrustsHop(t, peer)
            && Resolve(t, ip, Headers([], []), Some(peer)) == Answer(Some(peer), Peer)
            && Resolve(t, ip, Headers([Some("")], []), Some(peer)) == Answer(Some(peer), Peer)
  {
    var e: TrustedEntry, peer := Exact(V4(0x7F00_0001)), V4(0x7F00_0001);
    assert e in [e] && Matches(e, Canonical(peer));
    var texts := Texts([Some("")]);
    assert texts == [""] && SplitAll(texts[1..]) == [] && SplitAll(texts) == [""];
  }

  ghost predicate Decided(t: Proxies, ip: Parser, entries: seq<string>, a: Ip) {
    exists k | 0 <= k < |entries| ::
      && Read(ip, entries[k]) == Some(a) && !TrustsHop(t, a)
      && forall j | k < j < |entries| :: Hop(t, ip, entries[j])
  }

  lemma CanonicalTwice(a: Ip)
    ensures Canonical(Canonical(a)) == Canonical(a)
  {
  }

  lemma {:induction false} WalkExactly(t: Proxies, ip: Parser, entries: seq<string>, a: Ip)
    ensures Walk(t, ip, entries) == Client(a) <==> Decided(t, ip, entries, a)
  {
    if entries != [] {
      var n := |entries| - 1;
      if Hop(t, ip, entries[n]) {
        WalkExactly(t, ip, entries[..n], a);
        assert forall k | 0 <= k < n :: entries[..n][k] == entries[k];
      }
    }
  }

  // An untrusted peer is the answer itself, whatever the headers say.
  lemma UntrustedPeerAnswers(t: Proxies, ip: Parser, h: Headers, peer: Ip)
    requires t.peer.Enumerated? && !TrustsHop(t, peer)
    ensures Resolve(t, ip, h, Some(peer)) == Answer(Some(Canonical(peer)), Peer)
  {
    CanonicalTwice(peer);
  }
}
