// The associated data an encrypted event payload is sealed under, and the
// decoder that shows the encoding loses nothing.
module EnvelopeAad {
  import opened Bytes
  import opened Options

  datatype Subject =
    | User(id: Bytes)
    | Tenant(id: Bytes)
    | Device(id: Bytes)
    | Session(id: Bytes)
    | Other(kind: Bytes, id: Bytes)

  datatype Envelope = Envelope(id: Bytes, kind: Bytes, tenant: Option<Bytes>, subject: Option<Subject>)

  const U32_MAX: nat := 0xFFFF_FFFF

  // Bytes of a length prefix.
  const PREFIX: nat := 4

  const LABEL: string := "axess-events/envelope-aad/v1"

  // ---- Encoding ----

  // The length prefix of a field, or None when it does not fit.
  function FieldLen(n: nat): Option<nat> {
    if n <= U32_MAX then Some(n) else None
  }

  function Field(b: Bytes): Bytes
    requires |b| <= U32_MAX
  {
    BigEndian(|b|, PREFIX) + b
  }

  predicate SubjectFits(s: Option<Subject>) {
    s.Some? ==> |s.value.id| <= U32_MAX && (s.value.Other? ==> |s.value.kind| <= U32_MAX)
  }

  predicate Fits(e: Envelope) {
    && |e.id| <= U32_MAX && |e.kind| <= U32_MAX
    && (e.tenant.Some? ==> |e.tenant.value| <= U32_MAX)
    && SubjectFits(e.subject)
  }

  function TenantPart(t: Option<Bytes>): Bytes
    requires t.Some? ==> |t.value| <= U32_MAX
  {
    match t
    case Some(b) => [1] + Field(b)
    case None => [0]
  }

  function SubjectPart(s: Option<Subject>): Bytes
    requires SubjectFits(s)
  {
    match s
    case None => [0]
    case Some(User(b)) => [1] + Field(b)
    case Some(Tenant(b)) => [2] + Field(b)
    case Some(Device(b)) => [3] + Field(b)
    case Some(Session(b)) => [4] + Field(b)
    case Some(Other(k, b)) => [5] + (Field(k) + Field(b))
  }

  function Encode(e: Envelope): Bytes
    requires Fits(e)
  {
    Field(Ascii(LABEL)) + Field(e.id) + Field(e.kind) + TenantPart(e.tenant) + SubjectPart(e.subject)
  }

  // Appends one field; None where the source panics.
  method Put(buf: Bytes, b: Bytes) returns (r: Option<Bytes>)
    ensures r == if |b| <= U32_MAX then Some(buf + Field(b)) else None
  {
    var len := FieldLen(|b|);
    match len {
      case None => r := None;
      case Some(n) => r := Some(buf + BigEndian(n, PREFIX) + b);
        assert buf + BigEndian(n, PREFIX) + b == buf + (BigEndian(n, PREFIX) + b);
    }
  }

  method PutTagged(buf: Bytes, tag: byte, b: Bytes) returns (r: Option<Bytes>)
    ensures r == if |b| <= U32_MAX then Some(buf + ([tag] + Field(b))) else None
  {
    r := Put(buf + [tag], b);
    if r.Some? { Associative(buf, [tag], Field(b)); }
  }

  method PutSubject(buf: Bytes, s: Option<Subject>) returns (r: Option<Bytes>)
    ensures r.Some? <==> SubjectFits(s)
    ensures r.Some? ==> r.value == buf + SubjectPart(s)
  {
    match s {
      case None => r := Some(buf + [0]);
      case Some(User(b)) => r := PutTagged(buf, 1, b);
      case Some(Tenant(b)) => r := PutTagged(buf, 2, b);
      case Some(Device(b)) => r := PutTagged(buf, 3, b);
      case Some(Session(b)) => r := PutTagged(buf, 4, b);
      case Some(Other(k, b)) =>
        r := PutTagged(buf, 5, k);
        if r.None? { return; }
        r := Put(r.value, b);
        if r.Some? {
          Associative(buf, [5] + Field(k), Field(b));
          Associative([5], Field(k), Field(b));
        }
    }
  }

  // The associated data of an envelope; None where the source panics.
  method EnvelopeAad(e: Envelope) returns (r: Option<Bytes>)
    ensures r.Some? <==> Fits(e)
    ensures r.Some? ==> r.value == Encode(e)
  {
    r := Put([], Ascii(LABEL));
    r := Put(r.value, e.id);
    if r.None? { return; }
    r := Put(r.value, e.kind);
    if r.None? { return; }
    match e.tenant {
      case Some(t) => r := PutTagged(r.value, 1, t);
      case None => r := Some(r.value + [0]);
    }
    if r.None? { return; }
    r := PutSubject(r.value, e.subject);
  }

  lemma Associative(a: Bytes, b: Bytes, c: Bytes)
    ensures (a + b) + c == a + (b + c)
  {
  }

  lemma Regroup(a: Bytes, b: Bytes, c: Bytes, d: Bytes, e: Bytes, rest: Bytes)
    ensures a + b + c + d + e + rest == a + (b + (c + (d + (e + rest))))
  {
    Associative(a + b + c + d, e, rest);
    Associative(a + b + c, d, e + rest);
    Associative(a + b, c, d + (e + rest));
    Associative(a, b, c + (d + (e + rest)));
  }

  // ---- Decoding ----

  // The first field and what follows it.
  function TakeField(b: Bytes): Option<(Bytes, Bytes)> {
    if |b| < PREFIX then None
    else
      var end := PREFIX + Number(b[..PREFIX]);
      if |b| < end then None else Some((b[PREFIX..end], b[end..]))
  }

  function TakeTenant(b: Bytes): Option<(Option<Bytes>, Bytes)> {
    if b == [] then None
    else if b[0] == 0 then Some((None, b[1..]))
    else if b[0] != 1 then None
    else
      match TakeField(b[1..])
      case Some((t, rest)) => Some((Some(t), rest))
      case None => None
  }

  function TakeSubject(b: Bytes): Option<(Option<Subject>, Bytes)> {
    if b == [] then None
    else if b[0] == 0 then Some((None, b[1..]))
    else
      match TakeField(b[1..])
      case None => None
      case Some((f, rest)) =>
        if b[0] == 1 then Some((Some(User(f)), rest))
        else if b[0] == 2 then Some((Some(Tenant(f)), rest))
        else if b[0] == 3 then Some((Some(Device(f)), rest))
        else if b[0] == 4 then Some((Some(Session(f)), rest))
        else if b[0] != 5 then None
        else
          match TakeField(rest)
          case None => None
          case Some((g, rest2)) => Some((Some(Other(f, g)), rest2))
  }

  function Decode(b: Bytes): Option<(Envelope, Bytes)> {
    match TakeField(b)
    case None => None
    case Some((domain, b1)) =>
      if domain != Ascii(LABEL) then None
      else
        match TakeField(b1)
        case None => None
        case Some((id, b2)) =>
          match TakeField(b2)
          case None => None
          case Some((kind, b3)) =>
            match TakeTenant(b3)
            case None => None
            case Some((tenant, b4)) =>
              match TakeSubject(b4)
              case None => None
              case Some((subject, rest)) => Some((Envelope(id, kind, tenant, subject), rest))
  }

  lemma PrefixRange()
    ensures Power(256, PREFIX) == U32_MAX + 1
  {
  }

  lemma FieldRoundTrip(f: Bytes, rest: Bytes)
    requires |f| <= U32_MAX
    ensures TakeField(Field(f) + rest) == Some((f, rest))
  {
    var b := Field(f) + rest;
    PrefixRange();
    NumberOfBigEndian(|f|, PREFIX);
    assert b[..PREFIX] == BigEndian(|f|, PREFIX);
    assert b[PREFIX..PREFIX + |f|] == f && b[PREFIX + |f|..] == rest;
  }

  lemma TakenField(b: Bytes)
    requires TakeField(b).Some?
    ensures var (f, rest) := TakeField(b).value; |f| <= U32_MAX && b == Field(f) + rest
  {
    PrefixRange();
    BigEndianOfNumber(b[..PREFIX]);
    var (f, rest) := TakeField(b).value;
    assert b == b[..PREFIX] + f + rest;
  }

  lemma TenantRoundTrip(t: Option<Bytes>, rest: Bytes)
    requires t.Some? ==> |t.value| <= U32_MAX
    ensures TakeTenant(TenantPart(t) + rest) == Some((t, rest))
  {
    var b := TenantPart(t) + rest;
    match t
    case None => assert b[1..] == rest;
    case Some(f) =>
      FieldRoundTrip(f, rest);
      Tagged(1, Field(f), rest);
  }

  lemma Tagged(tag: byte, b: Bytes, rest: Bytes)
    ensures var s := ([tag] + b) + rest; s[0] == tag && s[1..] == b + rest
  {
  }

  lemma SubjectRoundTrip(s: Option<Subject>, rest: Bytes)
    requires SubjectFits(s)
    ensures TakeSubject(SubjectPart(s) + rest) == Some((s, rest))
  {
    var b := SubjectPart(s) + rest;
    match s
    case None => assert b[1..] == rest;
    case Some(Other(k, f)) =>
      Tagged(5, Field(k) + Field(f), rest);
      Associative(Field(k), Field(f), rest);
      FieldRoundTrip(k, Field(f) + rest);
      FieldRoundTrip(f, rest);
    case Some(u) =>
      FieldRoundTrip(u.id, rest);
      Tagged(b[0], Field(u.id), rest);
  }

  // Decoding an encoding gives the envelope back and leaves what follows it.
  lemma DecodeEncode(e: Envelope, rest: Bytes)
    requires Fits(e)
    ensures Decode(Encode(e) + rest) == Some((e, rest))
  {
    var b4 := SubjectPart(e.subject) + rest;
    var b3 := TenantPart(e.tenant) + b4;
    var b2 := Field(e.kind) + b3;
    var b1 := Field(e.id) + b2;
    Regroup(Field(Ascii(LABEL)), Field(e.id), Field(e.kind), TenantPart(e.tenant), SubjectPart(e.subject), rest);
    FieldRoundTrip(Ascii(LABEL), b1);
    FieldRoundTrip(e.id, b2);
    FieldRoundTrip(e.kind, b3);
    TenantRoundTrip(e.tenant, b4);
    SubjectRoundTrip(e.subject, rest);
  }

  // And the decoder accepts nothing but encodings.
  lemma EncodeDecode(b: Bytes)
    requires Decode(b).Some?
    ensures var (e, rest) := Decode(b).value; Fits(e) && b == Encode(e) + rest
  {
    var (domain, b1) := TakeField(b).value;
    var (id, b2) := TakeField(b1).value;
    var (kind, b3) := TakeField(b2).value;
    var (tenant, b4) := TakeTenant(b3).value;
    var (subject, rest) := TakeSubject(b4).value;
    TakenField(b);
    TakenField(b1);
    TakenField(b2);
    TakenTenant(b3);
    TakenSubject(b4);
    Regroup(Field(domain), Field(id), Field(kind), TenantPart(tenant), SubjectPart(subject), rest);
  }

  lemma TakenTenant(b: Bytes)
    requires TakeTenant(b).Some?
    ensures var (t, rest) := TakeTenant(b).value;
            (t.Some? ==> |t.value| <= U32_MAX) && b == TenantPart(t) + rest
  {
    assert b == [b[0]] + b[1..];
    if b[0] == 1 { TakenField(b[1..]); }
  }

  lemma TakenSubject(b: Bytes)
    requires TakeSubject(b).Some?
    ensures var (s, rest) := TakeSubject(b).value;
            SubjectFits(s) && b == SubjectPart(s) + rest
  {
    assert b == [b[0]] + b[1..];
    if b[0] != 0 {
      TakenField(b[1..]);
      var (f, tail) := TakeField(b[1..]).value;
      Associative([b[0]], Field(f), tail);
      if b[0] == 5 {
        TakenField(tail);
        var (g, rest) := TakeField(tail).value;
        Associative([5] + Field(f), Field(g), rest);
        Associative([5], Field(f), Field(g));
      }
    }
  }

  // The bytes of the format, by example: a four-byte big-endian length before
  // each field, and a tag before each optional one.
  lemma ReferenceField(b: byte)
    ensures Field([b]) == [0, 0, 0, 1, b]
  {
    assert BigEndian(0, 1) == [0] && BigEndian(0, 2) == [0, 0] && BigEndian(0, 3) == [0, 0, 0];
    assert BigEndian(1, PREFIX) == [0, 0, 0, 1];
  }

  lemma ReferenceTags(b: byte, f: Bytes)
    requires f == [0, 0, 0, 1, b]
    ensures TenantPart(None) == [0] && TenantPart(Some([b])) == [1] + f
    ensures SubjectPart(None) == [0] && SubjectPart(Some(User([b]))) == [1] + f
    ensures SubjectPart(Some(Tenant([b]))) == [2] + f && SubjectPart(Some(Device([b]))) == [3] + f
    ensures SubjectPart(Some(Session([b]))) == [4] + f && SubjectPart(Some(Other([b], [b]))) == [5] + (f + f)
  {
    ReferenceField(b);
  }

  // The encoding is injective, and no encoding is a proper prefix of another.
  lemma Injective(a: Envelope, b: Envelope, rest: Bytes)
    requires Fits(a) && Fits(b) && Encode(a) + rest == Encode(b)
    ensures a == b && rest == []
  {
    DecodeEncode(a, rest);
    DecodeEncode(b, []);
    assert Encode(b) + [] == Encode(b);
  }
}
