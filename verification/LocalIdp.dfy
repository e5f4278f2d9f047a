// One replica of the in-process IdP: the keys it holds and the JWKS it serves,
// through construction, rotation, retirement and reload. What the key store
// answers is a parameter of each operation.
module LocalIdp {
  import opened Options

  // A key pair under its key id; `material` tells different pairs apart.
  datatype SigningKey = SigningKey(kid: string, material: nat)

  datatype Jwk = Jwk(kid: Option<string>, material: nat)

  datatype LoadedKeys = LoadedKeys(current: SigningKey, historical: seq<SigningKey>)

  datatype Fault<E> = KeyStore(error: E) | EmptyKeyId | DuplicateKeyId(kid: string) | RetireCurrentKey

  datatype Replica = Replica(signing: SigningKey, historical: seq<SigningKey>, extra: seq<Jwk>, jwks: seq<Jwk>)

  // A key's public half carries the key's own id.
  function JwkOf(k: SigningKey): Jwk {
    Jwk(Some(k.kid), k.material)
  }

  function AllKeys(l: LoadedKeys): seq<SigningKey> {
    [l.current] + l.historical
  }

  function Keys(r: Replica): seq<SigningKey> {
    [r.signing] + r.historical
  }

  ghost predicate Unambiguous(keys: seq<SigningKey>) {
    && (forall i | 0 <= i < |keys| :: keys[i].kid != "")
    && (forall i, j | 0 <= i < j < |keys| :: keys[i].kid != keys[j].kid)
  }

  function PublicKeys(keys: seq<SigningKey>): seq<Jwk> {
    seq(|keys|, i requires 0 <= i < |keys| => JwkOf(keys[i]))
  }

  // Current first, then historical, then extra.
  function JwksOf(current: SigningKey, historical: seq<SigningKey>, extra: seq<Jwk>): seq<Jwk> {
    PublicKeys([current] + historical) + extra
  }

  // A verifier that looks the key's id up finds it, and finds only the key's
  // own material under it.
  ghost predicate Verifies(jwks: seq<Jwk>, k: SigningKey) {
    && Jwk(Some(k.kid), k.material) in jwks
    && (forall i | 0 <= i < |jwks| && jwks[i].kid == Some(k.kid) :: jwks[i].material == k.material)
  }

  ghost predicate Sound(r: Replica) {
    Unambiguous(Keys(r)) && r.jwks == JwksOf(r.signing, r.historical, r.extra) && r.extra == []
  }

  function Without(keys: seq<SigningKey>, kid: string): seq<SigningKey> {
    if keys == [] then []
    else if keys[0].kid == kid then Without(keys[1..], kid)
    else [keys[0]] + Without(keys[1..], kid)
  }

  lemma {:induction false} WithoutKeys(keys: seq<SigningKey>, kid: string)
    ensures forall k | k in Without(keys, kid) :: k in keys && k.kid != kid
    ensures forall k | k in keys && k.kid != kid :: k in Without(keys, kid)
    ensures Unambiguous(keys) ==> Unambiguous(Without(keys, kid))
  {
    if keys != [] {
      WithoutKeys(keys[1..], kid);
      assert forall k | k in keys[1..] :: k in keys;
      var rest := Without(keys[1..], kid);
      assert forall i | 0 <= i < |rest| :: rest[i] in rest && rest[i] in keys[1..];
    }
  }

  lemma WithoutUnambiguous(first: SigningKey, keys: seq<SigningKey>, kid: string)
    requires Unambiguous([first] + keys)
    ensures Unambiguous([first] + Without(keys, kid))
  {
    WithoutKeys(keys, kid);
    var all := [first] + keys;
    assert all[0] == first && forall i | 0 <= i < |keys| :: all[i + 1] == keys[i];
    assert Unambiguous(keys);
    var left := Without(keys, kid);
    forall i | 0 <= i < |left| ensures left[i].kid != "" && left[i].kid != first.kid {
      assert left[i] in left;
      var j :| 0 <= j < |keys| && keys[j] == left[i];
      assert all[0].kid != all[j + 1].kid;
    }
    var rest := [first] + left;
    assert rest[0] == first && forall i | 0 < i < |rest| :: rest[i] == left[i - 1];
  }

  // ---- The state after each operation ----

  function Rebuilt(r: Replica): Replica {
    r.(jwks := JwksOf(r.signing, r.historical, r.extra))
  }

  function Adopted(r: Replica, l: LoadedKeys): Replica {
    Rebuilt(r.(signing := l.current, historical := l.historical))
  }

  function Constructed(l: LoadedKeys): Replica {
    Replica(l.current, l.historical, [], JwksOf(l.current, l.historical, []))
  }

  // A rotation or retirement the store made durable: adopt what it holds now,
  // or apply the change locally when the re-read gave nothing usable.
  function AfterRotate(r: Replica, newKey: SigningKey, reread: Option<LoadedKeys>): Replica {
    match reread
    case Some(l) => Adopted(r, l)
    case None => Rebuilt(r.(signing := newKey, historical := r.historical + [r.signing]))
  }

  function AfterRetire(r: Replica, kid: string, reread: Option<LoadedKeys>): Replica {
    match reread
    case Some(l) => Adopted(r, l)
    case None => Rebuilt(r.(historical := Without(r.historical, kid)))
  }

  // The local check before the store is asked to rotate.
  function RotateFault<E>(r: Replica, newKey: SigningKey): Option<Fault<E>> {
    if newKey.kid == "" then Some(EmptyKeyId)
    else if exists i | 0 <= i < |Keys(r)| :: Keys(r)[i].kid == newKey.kid then Some(DuplicateKeyId(newKey.kid))
    else None
  }

  lemma AdoptedIsSound(r: Replica, l: LoadedKeys)
    requires r.extra == [] && Unambiguous(AllKeys(l))
    ensures Sound(Adopted(r, l)) && Sound(Constructed(l))
  {
  }

  lemma RotateIsSound<E>(r: Replica, newKey: SigningKey, reread: Option<LoadedKeys>)
    requires Sound(r) && RotateFault<E>(r, newKey).None? && (reread.Some? ==> Unambiguous(AllKeys(reread.value)))
    ensures Sound(AfterRotate(r, newKey, reread))
  {
    var keys := [newKey] + (r.historical + [r.signing]);
    assert forall i | 0 < i < |keys| ::
        keys[i] == if i <= |r.historical| then Keys(r)[i] else Keys(r)[0];
  }

  lemma RetireIsSound(r: Replica, kid: string, reread: Option<LoadedKeys>)
    requires Sound(r) && r.signing.kid != kid && (reread.Some? ==> Unambiguous(AllKeys(reread.value)))
    ensures Sound(AfterRetire(r, kid, reread))
    ensures reread.None? ==>
              forall k :: k in Keys(AfterRetire(r, kid, reread)) <==> k in Keys(r) && k.kid != kid
  {
    WithoutKeys(r.historical, kid);
    WithoutUnambiguous(r.signing, r.historical, kid);
  }

  // A verifier that looks up the kid of a fresh token finds one entry, the
  // signing key's own.
  lemma MintKidOccursOnce(r: Replica, i: nat)
    requires Sound(r) && i < |r.jwks|
    ensures r.jwks[i].kid == Some(r.signing.kid) <==> i == 0
    ensures r.jwks[0] == Jwk(Some(r.signing.kid), r.signing.material)
  {
    assert r.jwks[i] == JwkOf(Keys(r)[i]) && r.jwks[0] == JwkOf(Keys(r)[0]);
    assert Keys(r)[0].kid == r.signing.kid;
  }

  // ---- The operations ----

  // Whether the keys can be told apart, and if not, the first that cannot.
  method CheckKeyIds<E>(l: LoadedKeys) returns (fault: Option<Fault<E>>)
    ensures fault.None? <==> Unambiguous(AllKeys(l))
    ensures fault.Some? ==> exists i ::
              && 0 <= i < |AllKeys(l)| && Unambiguous(AllKeys(l)[..i]) && !Unambiguous(AllKeys(l)[..i + 1])
              && fault == Some(if AllKeys(l)[i].kid == "" then EmptyKeyId else DuplicateKeyId(AllKeys(l)[i].kid))
  {
    var keys := AllKeys(l);
    var seen: set<string> := {};
    for i := 0 to |keys|
      invariant seen == set j | 0 <= j < i :: keys[j].kid
      invariant Unambiguous(keys[..i])
    {
      var kid := keys[i].kid;
      assert keys[..i + 1][i] == keys[i] && forall j | 0 <= j < i :: keys[..i + 1][j] == keys[j];
      if kid == "" {
        return Some(EmptyKeyId);
      }
      if kid in seen {
        return Some(DuplicateKeyId(kid));
      }
      seen := seen + {kid};
    }
    assert keys[..|keys|] == keys;
    fault := None;
  }

  method RebuildJwks(current: SigningKey, historical: seq<SigningKey>, extra: seq<Jwk>) returns (keys: seq<Jwk>)
    ensures keys == JwksOf(current, historical, extra)
    ensures |keys| == 1 + |historical| + |extra| && keys[0] == Jwk(Some(current.kid), current.material)
    ensures forall i | 0 <= i < |historical| :: keys[1 + i] == Jwk(Some(historical[i].kid), historical[i].material)
    ensures forall i | 0 <= i < |extra| :: keys[1 + |historical| + i] == extra[i]
  {
    keys := [JwkOf(current)];
    for i := 0 to |historical|
      invariant keys == PublicKeys([current] + historical[..i])
    {
      keys := keys + [JwkOf(historical[i])];
      assert [current] + historical[..i + 1] == [current] + historical[..i] + [historical[i]];
    }
    assert historical[..|historical|] == historical;
    keys := keys + extra;
  }

  // The store's answer, refused when its keys cannot be told apart.
  method LoadChecked<E>(load: Result<LoadedKeys, E>) returns (r: Result<LoadedKeys, Fault<E>>)
    ensures r.Ok? <==> load.Ok? && Unambiguous(AllKeys(load.value))
    ensures r.Ok? ==> r.value == load.value
    ensures load.Err? ==> r == Err(KeyStore(load.error))
  {
    match load {
      case Err(e) => r := Err(KeyStore(e));
      case Ok(l) =>
        var fault := CheckKeyIds<E>(l);
        r := if fault.Some? then Err(fault.value) else Ok(l);
    }
  }

  // What a checked load yields.
  ghost function Usable<E>(load: Result<LoadedKeys, E>): Option<LoadedKeys> {
    if load.Ok? && Unambiguous(AllKeys(load.value)) then Some(load.value) else None
  }

  class LocalIdp<E> {
    var signing: SigningKey
    var historical: seq<SigningKey>
    var extra: seq<Jwk>
    var jwks: seq<Jwk>

    ghost function View(): Replica
      reads this
    {
      Replica(signing, historical, extra, jwks)
    }

    // From a key set the caller has loaded and checked.
    constructor (l: LoadedKeys)
      requires Unambiguous(AllKeys(l))
      ensures View() == Constructed(l) && Sound(View())
    {
      signing, historical, extra := l.current, l.historical, [];
      new;
      jwks := RebuildJwks(signing, historical, extra);
      AdoptedIsSound(View(), l);
    }

    method ReplaceKeys(l: LoadedKeys)
      modifies this
      ensures View() == Adopted(old(View()), l)
    {
      signing, historical := l.current, l.historical;
      jwks := RebuildJwks(signing, historical, extra);
    }

    // The key id a mint puts in the token's header.
    method MintKid() returns (kid: string)
      requires Sound(View())
      ensures forall i | 0 <= i < |View().jwks| :: View().jwks[i].kid == Some(kid) <==> i == 0
    {
      kid := signing.kid;
      forall i | 0 <= i < |View().jwks| ensures View().jwks[i].kid == Some(kid) <==> i == 0 {
        MintKidOccursOnce(View(), i);
      }
    }

    method RotateSigningKey(newKey: SigningKey, rotated: Option<E>, reread: Result<LoadedKeys, E>)
      returns (fault: Option<Fault<E>>)
      requires Sound(View())
      modifies this
      ensures Sound(View())
      ensures fault == (var local := RotateFault<E>(old(View()), newKey);
                        if local.Some? then local else if rotated.Some? then Some(KeyStore(rotated.value)) else None)
      ensures View() == if fault.Some? then old(View()) else AfterRotate(old(View()), newKey, Usable(reread))
      ensures fault.None? <==>
                newKey.kid != "" && (forall k | k in old(Keys(View())) :: k.kid != newKey.kid) && rotated.None?
      ensures fault.None? ==> signing == if Usable(reread).Some? then reread.value.current else newKey
      ensures fault.None? ==>
                if Usable(reread).Some? then historical == reread.value.historical
                else
                  && historical == old(historical) + [old(signing)]
                  && forall k | k in old(Keys(View())) :: k in historical
    {
      if newKey.kid == "" {
        return Some(EmptyKeyId);
      }
      assert Keys(View())[0] == signing;
      assert forall i | 0 <= i < |historical| :: Keys(View())[i + 1] == historical[i];
      if signing.kid == newKey.kid || exists i | 0 <= i < |historical| :: historical[i].kid == newKey.kid {
        return Some(DuplicateKeyId(newKey.kid));
      }
      if rotated.Some? {
        return Some(KeyStore(rotated.value));
      }
      RotateIsSound<E>(View(), newKey, Usable(reread));
      var loaded := LoadChecked(reread);
      match loaded {
        case Ok(l) => ReplaceKeys(l);
        case Err(_) =>
          historical := historical + [signing];
          signing := newKey;
          jwks := RebuildJwks(signing, historical, extra);
      }
      fault := None;
    }

    method RetireHistoricalKey(kid: string, retired: Result<bool, E>, reread: Result<LoadedKeys, E>)
      returns (r: Result<bool, Fault<E>>)
      requires Sound(View())
      modifies this
      ensures Sound(View())
      ensures r == if old(signing).kid == kid then Err(RetireCurrentKey)
                   else if retired.Err? then Err(KeyStore(retired.error)) else Ok(retired.value)
      ensures View() == if r.Err? then old(View()) else AfterRetire(old(View()), kid, Usable(reread))
      ensures r.Ok? ==> signing == if Usable(reread).Some? then reread.value.current else old(signing)
      ensures r.Ok? && Usable(reread).None? ==>
                forall k :: k in historical <==> k in old(historical) && k.kid != kid
    {
      if signing.kid == kid {
        return Err(RetireCurrentKey);
      }
      if retired.Err? {
        return Err(KeyStore(retired.error));
      }
      RetireIsSound(View(), kid, Usable(reread));
      var loaded := LoadChecked(reread);
      match loaded {
        case Ok(l) => ReplaceKeys(l);
        case Err(_) =>
          WithoutKeys(historical, kid);
          historical := Without(historical, kid);
          jwks := RebuildJwks(signing, historical, extra);
      }
      r := Ok(retired.value);
    }

    method Reload(load: Result<LoadedKeys, E>) returns (fault: Option<Fault<E>>)
      requires Sound(View())
      modifies this
      ensures Sound(View()) && (fault.None? <==> Usable(load).Some?)
      ensures View() == if fault.Some? then old(View()) else Adopted(old(View()), load.value)
    {
      var loaded := LoadChecked(load);
      match loaded {
        case Ok(l) =>
          AdoptedIsSound(View(), l);
          ReplaceKeys(l);
          fault := None;
        case Err(e) => fault := Some(e);
      }
    }
  }

  method FromKeyStore<E>(load: Result<LoadedKeys, E>) returns (idp: LocalIdp?<E>, fault: Option<Fault<E>>)
    ensures fault.None? <==> Usable(load).Some?
    ensures fault.None? <==> idp != null
    ensures idp != null ==> fresh(idp) && idp.View() == Constructed(load.value) && Sound(idp.View())
  {
    var loaded := LoadChecked(load);
    match loaded {
      case Ok(l) =>
        idp := new LocalIdp(l);
        fault := None;
      case Err(e) => idp, fault := null, Some(e);
    }
  }
}
