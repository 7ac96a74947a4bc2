// The enrollment, device and device-info stores as one object over the two tables: every method
// is a transaction that either commits or leaves the rows alone. Clock readings, drawn ids and
// drawn secrets are parameters.
module EnrollmentStore {
  import opened Wrappers
  import E = Enrollment

  class Store {
    var tokens: seq<E.Token>
    var devices: seq<E.Device>
    ghost var bindings: seq<(string, string)>
    const hash: E.Hash

    ghost function State(): E.State
      reads this
    {
      E.State(tokens, devices, bindings)
    }

    ghost predicate Valid()
      reads this
    {
      E.Consistent(State())
    }

    constructor (hash: E.Hash)
      ensures State() == E.EMPTY && Valid() && this.hash == hash
    {
      tokens, devices, bindings := [], [], [];
      this.hash := hash;
    }

    method IssueToken(tenant: string, expiresAt: Option<E.Time>, id: string, secret: string, now: E.Time)
      returns (r: Outcome<string>)
      requires Valid()
      modifies this
      ensures Valid()
      ensures (State(), r) == E.IssueToken(old(State()), hash, tenant, expiresAt, id, secret, now)
    {
      E.StepKeeps(State(), hash, E.At(now, E.DoIssue(tenant, expiresAt, id, secret)));
      if tenant == "" || expiresAt.None? { return Err(InvalidInput); }
      if expiresAt.value <= now { return Err(InvalidInput); }
      if E.TokenKeyTaken(tokens, tenant, id, hash(secret)) { return Err(Conflict); }
      tokens := tokens + [E.Token(id, tenant, hash(secret), E.Issued, expiresAt.value, None, None, now)];
      return Ok(secret);
    }

    // updateToken (353-363): of the tenant's token with this id, and of no other, it rewrites status,
    // consumed_at, revoked_at and updated_at, and leaves keys and expiry alone.
    method UpdateToken(row: E.Token)
      modifies this`tokens
      ensures |tokens| == |old(tokens)|
      ensures forall k :: 0 <= k < |tokens| ==> E.SameKey(tokens[k], old(tokens)[k])
      ensures forall k :: 0 <= k < |tokens| && !E.IsRow(old(tokens)[k], row) ==>
        tokens[k] == old(tokens)[k]
      ensures forall k :: 0 <= k < |tokens| && E.IsRow(old(tokens)[k], row) ==>
        E.SameMarks(tokens[k], row)
      ensures forall t, h :: E.TokenByHash(tokens, t, h) == E.TokenByHash(old(tokens), t, h)
    {
      tokens := seq(|tokens|, k requires 0 <= k < |tokens| reads this =>
        if !E.IsRow(tokens[k], row) then tokens[k]
        else tokens[k].(status := row.status, consumedAt := row.consumedAt, revokedAt := row.revokedAt,
                        updatedAt := row.updatedAt));
      forall t, h ensures E.TokenByHash(tokens, t, h) == E.TokenByHash(old(tokens), t, h) {
        E.KeysFind(old(tokens), tokens, t, h);
      }
    }

    method InspectToken(tenant: string, secret: string, consume: bool, now: E.Time) returns (r: Outcome<string>)
      requires Valid()
      modifies this
      ensures Valid()
      ensures (State(), r) == E.InspectToken(old(State()), hash, tenant, secret, consume, now)
    {
      E.StepKeeps(State(), hash, E.At(now, E.DoInspect(tenant, secret, consume)));
      if tenant == "" || secret == "" { return Err(InvalidInput); }
      var found := E.TokenByHash(tokens, tenant, hash(secret));
      if found.None? { return Err(TokenNotFound); }
      var i := found.value;
      var token := tokens[i];
      if token.status.Issued? && token.expiresAt <= now {
        ghost var was := tokens;
        UpdateToken(token.(status := E.Expired, updatedAt := now));
        E.OneToken(was, tokens, i, token.(status := E.Expired, updatedAt := now));
        return Err(TokenExpired);
      }
      match token.status {
        case Issued =>
          if consume {
            ghost var was := tokens;
            UpdateToken(token.(status := E.Consumed, consumedAt := Some(now), updatedAt := now));
            E.OneToken(was, tokens, i, token.(status := E.Consumed, consumedAt := Some(now), updatedAt := now));
          }
          return Ok(token.id);
        case Consumed => return Err(TokenConsumed);
        case Expired => return Err(TokenExpired);
        case Revoked => return Err(TokenRevoked);
      }
    }

    method BindDevice(tenant: string, token: string, device: string, extras: Option<string>, secret: string,
                      now: E.Time)
      returns (r: Outcome<string>)
      requires Valid()
      modifies this
      ensures Valid()
      ensures (State(), r) == E.BindDevice(old(State()), hash, tenant, token, device, extras, secret, now)
    {
      E.StepKeeps(State(), hash, E.At(now, E.DoBind(tenant, token, device, extras, secret)));
      if tenant == "" || token == "" || device == "" { return Err(InvalidInput); }
      var foundToken := E.TokenByHash(tokens, tenant, hash(token));
      if foundToken.None? { return Err(TokenNotFound); }
      var foundDevice := E.DeviceById(devices, tenant, device);
      if foundDevice.None? { return Err(NotFound); }
      var i, j := foundToken.value, foundDevice.value;
      var row := tokens[i];
      if !devices[j].status.Pending? { return Err(DeviceConflict); }
      if row.status.Issued? && row.expiresAt <= now {
        ghost var was := tokens;
        UpdateToken(row.(status := E.Expired, updatedAt := now));
        E.OneToken(was, tokens, i, row.(status := E.Expired, updatedAt := now));
        return Err(TokenExpired);
      }
      match row.status {
        case Consumed => return Err(TokenConsumed);
        case Expired => return Err(TokenExpired);
        case Revoked => return Err(TokenRevoked);
        case Issued =>
      }
      devices := devices[j := devices[j].(secretHash := hash(secret), status := E.Enrolled, extras := extras,
                                          updatedAt := now)];
      ghost var was := tokens;
      UpdateToken(row.(status := E.Consumed, consumedAt := Some(now), updatedAt := now));
      E.OneToken(was, tokens, i, row.(status := E.Consumed, consumedAt := Some(now), updatedAt := now));
      bindings := bindings + [(row.id, device)];
      return Ok(secret);
    }

    method RevokeToken(tenant: string, id: string, now: E.Time) returns (r: Outcome<string>)
      requires Valid()
      modifies this
      ensures Valid()
      ensures (State(), r) == E.RevokeToken(old(State()), tenant, id, now)
      ensures r.Err? ==> State() == old(State())
      ensures r.Ok? ==> exists i ::
        && 0 <= i < |old(tokens)| && old(tokens)[i].tenant == tenant && old(tokens)[i].id == id
        && old(tokens)[i].status.Issued?
        && tokens == old(tokens)[i := old(tokens)[i].(status := E.Revoked, revokedAt := Some(now), updatedAt := now)]
    {
      E.StepKeeps(State(), hash, E.At(now, E.DoRevoke(tenant, id)));
      if tenant == "" || id == "" { return Err(InvalidInput); }
      var found := E.TokenById(tokens, tenant, id);
      if found.None? { return Err(TokenNotFound); }
      var token := tokens[found.value];
      match token.status {
        case Issued =>
          ghost var was := tokens;
          UpdateToken(token.(status := E.Revoked, revokedAt := Some(now), updatedAt := now));
          E.OneToken(was, tokens, found.value, token.(status := E.Revoked, revokedAt := Some(now), updatedAt := now));
          return Ok(id);
        case Consumed => return Err(TokenConsumed);
        case Expired => return Err(TokenExpired);
        case Revoked => return Err(TokenRevoked);
      }
    }

    method ExpireTokens(before: E.Time, now: E.Time)
      requires Valid()
      modifies this
      ensures Valid()
      ensures State() == E.ExpireTokens(old(State()), before, now)
      ensures forall t :: t in tokens && t.expiresAt <= before ==> !t.status.Issued?
    {
      E.StepKeeps(State(), hash, E.At(now, E.DoExpire(before)));
      tokens := E.ExpireTokens(E.State(tokens, devices, []), before, now).tokens;
    }

    method CreateDevice(tenant: string, name: string, secretHash: string, groupsOk: bool, id: string, now: E.Time)
      returns (r: Outcome<string>)
      requires Valid()
      modifies this
      ensures Valid()
      ensures (State(), r) == E.CreateDevice(old(State()), tenant, name, secretHash, groupsOk, id, now)
    {
      E.StepKeeps(State(), hash, E.At(now, E.DoCreate(tenant, name, secretHash, groupsOk, id)));
      if name == "" || secretHash == "" { return Err(InvalidInput); }
      if !groupsOk { return Err(NotFound); }
      if E.DeviceKeyTaken(devices, id) { return Err(Conflict); }
      devices := devices + [E.Device(id, tenant, name, secretHash, E.Pending, None, None, now)];
      return Ok(id);
    }

    method UpdateDevice(tenant: string, id: string, name: string, secretHash: string, groupsOk: bool, now: E.Time)
      returns (r: Outcome<string>)
      requires Valid()
      modifies this
      ensures Valid()
      ensures (State(), r) == E.UpdateDevice(old(State()), tenant, id, name, secretHash, groupsOk, now)
    {
      E.StepKeeps(State(), hash, E.At(now, E.DoUpdate(tenant, id, name, secretHash, groupsOk)));
      if name == "" { return Err(InvalidInput); }
      if !groupsOk { return Err(NotFound); }
      var found := E.DeviceById(devices, tenant, id);
      if found.None? { return Err(NotFound); }
      var d := devices[found.value].(name := name, updatedAt := now);
      if secretHash != "" { d := d.(secretHash := secretHash); }
      devices := devices[found.value := d];
      return Ok(id);
    }

    method RetireDevice(tenant: string, id: string, now: E.Time) returns (r: Outcome<string>)
      requires Valid()
      modifies this
      ensures Valid()
      ensures (State(), r) == E.RetireDevice(old(State()), tenant, id, now)
    {
      E.StepKeeps(State(), hash, E.At(now, E.DoRetire(tenant, id)));
      var found := E.DeviceById(devices, tenant, id);
      if found.None? { return Err(NotFound); }
      devices := devices[found.value := devices[found.value].(status := E.Retired, deletedAt := Some(now),
                                                              updatedAt := now)];
      return Ok(id);
    }

    method Authenticate(tenant: string, id: string, secret: string) returns (r: Outcome<E.Device>)
      ensures r == E.Authenticate(State(), hash, tenant, id, secret)
    {
      if tenant == "" || id == "" || secret == "" { return Err(InvalidInput); }
      var found := E.DeviceById(devices, tenant, id);
      if found.None? || devices[found.value].secretHash != hash(secret) { return Err(NotFound); }
      match devices[found.value].status {
        case Retired => return Err(NotFound);
        case Wiped => return Err(NotFound);
        case _ => return Ok(devices[found.value]);
      }
    }

    method Upload(tenant: string, id: string, secret: string, empty: bool, now: E.Time) returns (r: Outcome<string>)
      requires Valid()
      modifies this
      ensures Valid()
      ensures (State(), r) == E.Upload(old(State()), hash, tenant, id, secret, empty, now)
    {
      E.StepKeeps(State(), hash, E.At(now, E.DoUpload(tenant, id, secret, empty)));
      if tenant == "" || id == "" || secret == "" { return Err(InvalidInput); }
      if empty { return Err(InvalidInput); }
      var found := E.DeviceById(devices, tenant, id);
      if found.None? || devices[found.value].deletedAt.Some? { return Err(NotFound); }
      var j := found.value;
      var d := devices[j];
      if d.status.Retired? || d.status.Wiped? { return Err(Unauthorized); }
      if d.secretHash != hash(secret) { return Err(Unauthorized); }
      devices := devices[j := devices[j].(updatedAt := now)];
      if d.status.Enrolled? {
        devices := devices[j := devices[j].(status := E.Active, updatedAt := now)];
      }
      assert devices == old(devices)[j := d.(updatedAt := now,
                                             status := if d.status.Enrolled? then E.Active else d.status)];
      return Ok(id);
    }
  }
}
