// What each transaction on tokens and devices does to which row, when it succeeds, and for how
// long a token works (server/internal/enrollment, device and deviceinfo stores).
module EnrollmentOutcomes {
  import opened Wrappers
  import opened Enrollment

  // --- Tokens ------------------------------------------------------------------------------

  lemma IssueOutcome(s: State, h: Hash, tenant: string, expiresAt: Option<Time>, id: string, secret: string, now: Time)
    ensures var (s', r) := IssueToken(s, h, tenant, expiresAt, id, secret, now);
            && s'.devices == s.devices && s'.bindings == s.bindings
            && (tenant == "" || expiresAt.None? || expiresAt.value <= now ==> (s', r) == (s, Err(InvalidInput)))
            && (r.Ok? ==>
                  r == Ok(secret) && expiresAt.Some? &&
                  s'.tokens == s.tokens + [Token(id, tenant, h(secret), Issued, expiresAt.value, None, None, now)])
            && (r.Err? ==> s' == s)
            && (tenant != "" && expiresAt.Some? && now < expiresAt.value ==>
                  (r.Ok? <==> forall t :: t in s.tokens ==>
                     t.id != id && !(t.tenant == tenant && t.hash == h(secret))))
  {
    if tenant != "" && expiresAt.Some? && now < expiresAt.value {
      if TokenKeyTaken(s.tokens, tenant, id, h(secret)) {
        var i :| 0 <= i < |s.tokens| && (s.tokens[i].id == id ||
                   (s.tokens[i].tenant == tenant && s.tokens[i].hash == h(secret)));
        assert s.tokens[i] in s.tokens;
      }
    }
  }

  // What a token that is not issued any more is refused with.
  function Refusal(t: Token): Error {
    if t.status.Consumed? then TokenConsumed else if t.status.Revoked? then TokenRevoked else TokenExpired
  }

  // A token is accepted exactly while it is issued and not due; consuming it marks it, validating
  // it does not, and a due one is marked expired.
  lemma InspectOutcome(s: State, h: Hash, tenant: string, secret: string, consume: bool, now: Time, i: nat)
    requires UniqueKeys(s) && tenant != "" && secret != ""
    requires i < |s.tokens| && s.tokens[i].tenant == tenant && s.tokens[i].hash == h(secret)
    ensures var (s', r) := InspectToken(s, h, tenant, secret, consume, now);
            var t := s.tokens[i];
            if !t.status.Issued? then (s', r) == (s, Err(Refusal(t)))
            else if t.expiresAt <= now then
              r == Err(TokenExpired) &&
              s' == s.(tokens := s.tokens[i := t.(status := TokenStatus.Expired, updatedAt := now)])
            else
              r == Ok(t.id) &&
              s' == if consume
                    then s.(tokens := s.tokens[i := t.(status := Consumed, consumedAt := Some(now), updatedAt := now)])
                    else s
  {
    TokenFound(s, tenant, h(secret), i);
  }

  // A revocation succeeds exactly for an issued token, whatever its expiry, and marks it revoked.
  lemma RevokeOutcome(s: State, tenant: string, id: string, now: Time, i: nat)
    requires UniqueKeys(s) && tenant != "" && id != ""
    requires i < |s.tokens| && s.tokens[i].tenant == tenant && s.tokens[i].id == id
    ensures var (s', r) := RevokeToken(s, tenant, id, now);
            var t := s.tokens[i];
            if t.status.Issued? then
              r == Ok(id) &&
              s' == s.(tokens := s.tokens[i := t.(status := Revoked, revokedAt := Some(now), updatedAt := now)])
            else (s', r) == (s, Err(Refusal(t)))
  {
    var k := TokenById(s.tokens, tenant, id).value;
    assert k == i;
  }

  lemma ExpireOutcome(s: State, before: Time, now: Time, i: nat)
    requires i < |s.tokens|
    ensures var s' := ExpireTokens(s, before, now);
            var t := s.tokens[i];
            && |s'.tokens| == |s.tokens| && s'.devices == s.devices && s'.bindings == s.bindings
            && s'.tokens[i] == if t.status.Issued? && t.expiresAt <= before
                               then t.(status := TokenStatus.Expired, updatedAt := now) else t
  {
  }

  // --- How long a token works --------------------------------------------------------------

  // A token that is no longer issued is refused for ever, as what it is, by every call.
  lemma SpentForEver(s: State, h: Hash, i: nat, es: seq<Stamped>, secret: string, device: string,
                     extras: Option<string>, fresh_: string, consume: bool, now: Time)
    requires Consistent(s) && i < |s.tokens| && !s.tokens[i].status.Issued?
    requires s.tokens[i].tenant != "" && secret != "" && h(secret) == s.tokens[i].hash
    ensures var s', tenant := Run(s, h, es), s.tokens[i].tenant;
            && BindDevice(s', h, tenant, secret, device, extras, fresh_, now).0 == s'
            && BindDevice(s', h, tenant, secret, device, extras, fresh_, now).1.Err?
            && InspectToken(s', h, tenant, secret, consume, now) == (s', Err(Refusal(s.tokens[i])))
  {
    RunEvolves(s, h, es);
    var s' := Run(s, h, es);
    assert TokenEvolves(s.tokens[i], s'.tokens[i]);
    TokenFound(s', s.tokens[i].tenant, h(secret), i);
    InspectOutcome(s', h, s.tokens[i].tenant, secret, consume, now, i);
  }

  // So after a revocation no run lets the token bind, validate or be consumed again.
  lemma RevokedForEver(s: State, h: Hash, tenant: string, id: string, at: Time, es: seq<Stamped>, i: nat,
                       secret: string, device: string, extras: Option<string>, fresh_: string, consume: bool, now: Time)
    requires Consistent(s) && RevokeToken(s, tenant, id, at).1.Ok? && secret != ""
    requires i < |s.tokens| && s.tokens[i].tenant == tenant && s.tokens[i].id == id && h(secret) == s.tokens[i].hash
    ensures var s' := Run(RevokeToken(s, tenant, id, at).0, h, es);
            && BindDevice(s', h, tenant, secret, device, extras, fresh_, now).0 == s'
            && BindDevice(s', h, tenant, secret, device, extras, fresh_, now).1.Err?
            && InspectToken(s', h, tenant, secret, consume, now) == (s', Err(TokenRevoked))
  {
    RevokeOutcome(s, tenant, id, at, i);
    StepKeeps(s, h, At(at, DoRevoke(tenant, id)));
    SpentForEver(RevokeToken(s, tenant, id, at).0, h, i, es, secret, device, extras, fresh_, consume, now);
  }

  // Nor does a token work again that was consumed.
  lemma ConsumedForEver(s: State, h: Hash, tenant: string, secret: string, at: Time, es: seq<Stamped>,
                        device: string, extras: Option<string>, fresh_: string, consume: bool, now: Time)
    requires Consistent(s) && InspectToken(s, h, tenant, secret, true, at).1.Ok?
    ensures var s' := Run(InspectToken(s, h, tenant, secret, true, at).0, h, es);
            && BindDevice(s', h, tenant, secret, device, extras, fresh_, now).1.Err?
            && InspectToken(s', h, tenant, secret, consume, now) == (s', Err(TokenConsumed))
  {
    var i := TokenByHash(s.tokens, tenant, h(secret)).value;
    InspectOutcome(s, h, tenant, secret, true, at, i);
    StepKeeps(s, h, At(at, DoInspect(tenant, secret, true)));
    SpentForEver(InspectToken(s, h, tenant, secret, true, at).0, h, i, es, secret, device, extras, fresh_, consume,
                 now);
  }

  // The only ways in which an issued token stops being issued: it is consumed or bound by its
  // secret, revoked by its id, or due at the time of such a call or of a sweep.
  lemma WhatSpends(s: State, h: Hash, e: Stamped, i: nat)
    requires UniqueKeys(s) && i < |s.tokens| && s.tokens[i].status.Issued?
    requires !Step(s, h, e).tokens[i].status.Issued?
    ensures var t := s.tokens[i];
            match e.ev
            case DoInspect(tenant, secret, consume) =>
              tenant == t.tenant && h(secret) == t.hash && (consume || t.expiresAt <= e.now)
            case DoBind(tenant, token, _, _, _) => tenant == t.tenant && h(token) == t.hash
            case DoRevoke(tenant, id) => tenant == t.tenant && id == t.id
            case DoExpire(before) => t.expiresAt <= before
            case _ => false
  {
  }

  // Calls that name nothing, and secrets and ids that lead to no token.
  lemma NoSuchToken(s: State, h: Hash, tenant: string, id: string, secret: string, device: string,
                    extras: Option<string>, fresh_: string, consume: bool, now: Time)
    requires forall i :: 0 <= i < |s.tokens| ==>
               !(s.tokens[i].tenant == tenant && (s.tokens[i].hash == h(secret) || s.tokens[i].id == id))
    ensures InspectToken(s, h, tenant, secret, consume, now) ==
            (s, Err(if tenant == "" || secret == "" then InvalidInput else TokenNotFound))
    ensures BindDevice(s, h, tenant, secret, device, extras, fresh_, now) ==
            (s, Err(if tenant == "" || secret == "" || device == "" then InvalidInput else TokenNotFound))
    ensures RevokeToken(s, tenant, id, now) == (s, Err(if tenant == "" ||
                                                       id == "" then InvalidInput else TokenNotFound))
  {
  }

  lemma EmptyArguments(s: State, h: Hash, tenant: string, id: string, secret: string, device: string,
                       extras: Option<string>, fresh_: string, consume: bool, now: Time)
    ensures tenant == "" || secret == "" ==> InspectToken(s, h, tenant, secret, consume, now) == (s, Err(InvalidInput))
    ensures tenant == "" || secret == "" || device == "" ==>
      BindDevice(s, h, tenant, secret, device, extras, fresh_, now) == (s, Err(InvalidInput))
    ensures tenant == "" || id == "" ==> RevokeToken(s, tenant, id, now) == (s, Err(InvalidInput))
    ensures tenant == "" || device == "" || secret == "" ==>
      Authenticate(s, h, tenant, device, secret) == Err(InvalidInput) &&
      Upload(s, h, tenant, device, secret, false, now) == (s, Err(InvalidInput))
  {
  }

  // --- Devices -----------------------------------------------------------------------------

  lemma CreateOutcome(s: State, tenant: string, name: string, secretHash: string, groupsOk: bool, id: string, now: Time)
    ensures var (s', r) := CreateDevice(s, tenant, name, secretHash, groupsOk, id, now);
            && s'.tokens == s.tokens && s'.bindings == s.bindings
            && (r.Ok? ==>
                  r == Ok(id) &&
                  s'.devices == s.devices + [Device(id, tenant, name, secretHash, Pending, None, None, now)])
            && (r.Err? ==> s' == s)
            && (r.Ok? <==> name != "" && secretHash != "" && groupsOk && forall d :: d in s.devices ==> d.id != id)
            && (name == "" || secretHash == "" ==> r == Err(InvalidInput))
  {
    if DeviceKeyTaken(s.devices, id) {
      var j :| 0 <= j < |s.devices| && s.devices[j].id == id;
      assert s.devices[j] in s.devices;
    }
  }

  lemma UpdateOutcome(s: State, tenant: string, id: string, name: string, secretHash: string, groupsOk: bool, now: Time,
                      j: nat)
    requires UniqueKeys(s) && j < |s.devices| && s.devices[j].tenant == tenant && s.devices[j].id == id
    ensures var (s', r) := UpdateDevice(s, tenant, id, name, secretHash, groupsOk, now);
            var d := s.devices[j];
            if name == "" then (s', r) == (s, Err(InvalidInput))
            else if !groupsOk then (s', r) == (s, Err(NotFound))
            else
              && r == Ok(id) && |s'.devices| == |s.devices| && s' == s.(devices := s'.devices)
              && (forall k :: 0 <= k < |s.devices| && k != j ==> s'.devices[k] == s.devices[k])
              && s'.devices[j].name == name && s'.devices[j].updatedAt == now
              && s'.devices[j].secretHash == (if secretHash == "" then d.secretHash else secretHash)
              && s'.devices[j] == d.(name := s'.devices[j].name, secretHash := s'.devices[j].secretHash,
                                     updatedAt := now)
  {
    DeviceFound(s, tenant, id, j);
  }

  // A device of any status is retired, and only that device.
  lemma RetireOutcome(s: State, tenant: string, id: string, now: Time, j: nat)
    requires UniqueKeys(s) && j < |s.devices| && s.devices[j].tenant == tenant && s.devices[j].id == id
    ensures var (s', r) := RetireDevice(s, tenant, id, now);
            && r == Ok(id)
            && s' == s.(devices := s.devices[j := s.devices[j].(status := Retired, deletedAt := Some(now),
                                                                updatedAt := now)])
  {
    DeviceFound(s, tenant, id, j);
  }

  // Updating, retiring or asking for a device that the tenant does not have.
  lemma NoSuchDevice(s: State, h: Hash, tenant: string, id: string, name: string, secretHash: string, secret: string,
                     now: Time)
    requires forall j :: 0 <= j < |s.devices| ==> !(s.devices[j].tenant == tenant && s.devices[j].id == id)
    ensures name != "" ==> UpdateDevice(s, tenant, id, name, secretHash, true, now) == (s, Err(NotFound))
    ensures RetireDevice(s, tenant, id, now) == (s, Err(NotFound))
    ensures tenant != "" && id != "" && secret != "" ==>
      Authenticate(s, h, tenant, id, secret) == Err(NotFound) &&
      Upload(s, h, tenant, id, secret, false, now) == (s, Err(NotFound))
  {
  }

  // Why a binding is refused: the device's status comes first, then the token's.
  lemma BindRefused(s: State, h: Hash, tenant: string, token: string, device: string, extras: Option<string>,
                    secret: string, now: Time, i: nat, j: nat)
    requires UniqueKeys(s) && tenant != "" && token != "" && device != ""
    requires i < |s.tokens| && s.tokens[i].tenant == tenant && s.tokens[i].hash == h(token)
    requires j < |s.devices| && s.devices[j].tenant == tenant && s.devices[j].id == device
    ensures var (s', r) := BindDevice(s, h, tenant, token, device, extras, secret, now);
            var t := s.tokens[i];
            if !s.devices[j].status.Pending? then (s', r) == (s, Err(DeviceConflict))
            else if !t.status.Issued? then (s', r) == (s, Err(Refusal(t)))
            else if t.expiresAt <= now then
              r == Err(TokenExpired) &&
              s' == s.(tokens := s.tokens[i := t.(status := TokenStatus.Expired, updatedAt := now)])
            else r == Ok(secret) && s'.bindings == s.bindings + [(t.id, device)]
  {
    TokenFound(s, tenant, h(token), i);
    DeviceFound(s, tenant, device, j);
  }

  // Why an upload is refused.
  lemma UploadRefused(s: State, h: Hash, tenant: string, id: string, secret: string, empty: bool, now: Time, j: nat)
    requires UniqueKeys(s) && j < |s.devices| && s.devices[j].tenant == tenant && s.devices[j].id == id
    ensures var r := Upload(s, h, tenant, id, secret, empty, now).1;
            var d := s.devices[j];
            if tenant == "" || id == "" || secret == "" || empty then r == Err(InvalidInput)
            else if d.deletedAt.Some? then r == Err(NotFound)
            else if d.status.Retired? || d.status.Wiped? || d.secretHash != h(secret) then r == Err(Unauthorized)
            else r == Ok(id)
  {
    DeviceFound(s, tenant, id, j);
  }

  // Authentication accepts exactly the secret whose hash is stored, in every status but retired
  // and wiped, and returns the row.
  lemma AuthenticateOutcome(s: State, h: Hash, tenant: string, id: string, secret: string, j: nat)
    requires UniqueKeys(s) && tenant != "" && id != "" && secret != ""
    requires j < |s.devices| && s.devices[j].tenant == tenant && s.devices[j].id == id
    ensures var d := s.devices[j];
            Authenticate(s, h, tenant, id, secret) ==
            if d.secretHash == h(secret) && d.status in {Pending, Enrolled, Active, Locked, Suspended} then Ok(d)
            else Err(NotFound)
  {
    DeviceFound(s, tenant, id, j);
  }
}
