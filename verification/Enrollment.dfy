// Enrollment tokens and the device lifecycle over the two tables they share
// (server/internal/enrollment, device and deviceinfo stores). Each function is one transaction.
module Enrollment {
  import opened Wrappers

  type Time = int

  datatype TokenStatus = Issued | Consumed | Expired | Revoked

  datatype Token = Token(id: string, tenant: string, hash: string, status: TokenStatus, expiresAt: Time,
                         consumedAt: Option<Time>, revokedAt: Option<Time>, updatedAt: Time)

  datatype DeviceStatus = Pending | Enrolled | Active | Locked | Suspended | Retired | Wiped

  datatype Device = Device(id: string, tenant: string, name: string, secretHash: string, status: DeviceStatus,
                           extras: Option<string>, deletedAt: Option<Time>, updatedAt: Time)

  // `bindings` records (token id, device id) of every successful BindDevice; no code reads it.
  datatype State = State(tokens: seq<Token>, devices: seq<Device>, bindings: seq<(string, string)>)

  const EMPTY := State([], [], [])

  // HashToken.
  type Hash = string -> string

  // --- Queries -----------------------------------------------------------------------------

  function TokenByHash(ts: seq<Token>, tenant: string, hash: string): (r: Option<nat>)
    ensures r.Some? ==> r.value < |ts| && ts[r.value].tenant == tenant && ts[r.value].hash == hash
    ensures r.None? ==> forall i :: 0 <= i < |ts| ==> !(ts[i].tenant == tenant && ts[i].hash == hash)
  {
    if ts == [] then None
    else
      var n := |ts| - 1;
      if ts[n].tenant == tenant && ts[n].hash == hash then Some(n) else TokenByHash(ts[..n], tenant, hash)
  }

  function TokenById(ts: seq<Token>, tenant: string, id: string): (r: Option<nat>)
    ensures r.Some? ==> r.value < |ts| && ts[r.value].tenant == tenant && ts[r.value].id == id
    ensures r.None? ==> forall i :: 0 <= i < |ts| ==> !(ts[i].tenant == tenant && ts[i].id == id)
  {
    if ts == [] then None
    else
      var n := |ts| - 1;
      if ts[n].tenant == tenant && ts[n].id == id then Some(n) else TokenById(ts[..n], tenant, id)
  }

  function DeviceById(ds: seq<Device>, tenant: string, id: string): (r: Option<nat>)
    ensures r.Some? ==> r.value < |ds| && ds[r.value].tenant == tenant && ds[r.value].id == id
    ensures r.None? ==> forall i :: 0 <= i < |ds| ==> !(ds[i].tenant == tenant && ds[i].id == id)
  {
    if ds == [] then None
    else
      var n := |ds| - 1;
      if ds[n].tenant == tenant && ds[n].id == id then Some(n) else DeviceById(ds[..n], tenant, id)
  }

  // --- Columns of a token that updateToken leaves alone, and those that it writes ----------

  predicate SameKey(a: Token, b: Token) {
    a.id == b.id && a.tenant == b.tenant && a.hash == b.hash && a.expiresAt == b.expiresAt
  }

  predicate SameMarks(a: Token, b: Token) {
    a.status == b.status && a.consumedAt == b.consumedAt && a.revokedAt == b.revokedAt && a.updatedAt == b.updatedAt
  }

  // Where the keys stay, every secret leads to the row that it led to before.
  lemma {:induction false} KeysFind(before: seq<Token>, after: seq<Token>, tenant: string, hash: string)
    requires |after| == |before| && forall k :: 0 <= k < |after| ==> SameKey(after[k], before[k])
    ensures TokenByHash(after, tenant, hash) == TokenByHash(before, tenant, hash)
  {
    if after != [] {
      var n := |after| - 1;
      assert SameKey(after[n], before[n]);
      KeysFind(before[..n], after[..n], tenant, hash);
    }
  }

  // WHERE tenant_id = $1 AND id = $2.
  predicate IsRow(a: Token, row: Token) { a.tenant == row.tenant && a.id == row.id }

  // Ids being unique, one row changes.
  lemma OneToken(before: seq<Token>, after: seq<Token>, i: nat, row: Token)
    requires i < |before| && |after| == |before| && SameKey(row, before[i])
    requires forall a, b :: 0 <= a < b < |before| ==> before[a].id != before[b].id
    requires forall k :: 0 <= k < |after| ==> SameKey(after[k], before[k])
    requires forall k :: 0 <= k < |after| && !IsRow(before[k], row) ==> after[k] == before[k]
    requires forall k :: 0 <= k < |after| && IsRow(before[k], row) ==> SameMarks(after[k], row)
    ensures after == before[i := row]
  {
    forall k | 0 <= k < |after| ensures after[k] == before[i := row][k] {
      if k < i { assert before[k].id != before[i].id; }
      if k > i { assert before[i].id != before[k].id; }
    }
  }

  // --- Tokens (enrollment/postgres/store.go) -----------------------------------------------

  // The primary key and UNIQUE (tenant_id, token_hash).
  predicate TokenKeyTaken(ts: seq<Token>, tenant: string, id: string, hash: string) {
    exists i :: 0 <= i < |ts| && (ts[i].id == id || (ts[i].tenant == tenant && ts[i].hash == hash))
  }

  function IssueToken(s: State, h: Hash, tenant: string, expiresAt: Option<Time>, id: string, secret: string, now: Time)
    : (State, Outcome<string>)
  {
    if tenant == "" || expiresAt.None? || expiresAt.value <= now then (s, Err(InvalidInput))
    else if TokenKeyTaken(s.tokens, tenant, id, h(secret)) then (s, Err(Conflict))
    else (s.(tokens := s.tokens + [Token(id, tenant, h(secret), Issued, expiresAt.value, None, None, now)]), Ok(secret))
  }

  function SpentError(status: TokenStatus): Error
    requires !status.Issued?
  {
    match status
    case Consumed => TokenConsumed
    case Expired => TokenExpired
    case Revoked => TokenRevoked
  }

  function ExpireAt(s: State, i: nat, now: Time): State
    requires i < |s.tokens|
  {
    s.(tokens := s.tokens[i := s.tokens[i].(status := Expired, updatedAt := now)])
  }

  function ConsumeAt(s: State, i: nat, now: Time): State
    requires i < |s.tokens|
  {
    s.(tokens := s.tokens[i := s.tokens[i].(status := Consumed, consumedAt := Some(now), updatedAt := now)])
  }

  // inspectToken (256-305): ValidateToken and ConsumeToken.
  function InspectToken(s: State, h: Hash, tenant: string, secret: string, consume: bool, now: Time)
    : (State, Outcome<string>)
  {
    if tenant == "" || secret == "" then (s, Err(InvalidInput))
    else match TokenByHash(s.tokens, tenant, h(secret))
      case None => (s, Err(TokenNotFound))
      case Some(i) =>
        var token := s.tokens[i];
        if token.status.Issued? && token.expiresAt <= now then (ExpireAt(s, i, now), Err(TokenExpired))
        else if !token.status.Issued? then (s, Err(SpentError(token.status)))
        else (if consume then ConsumeAt(s, i, now) else s, Ok(token.id))
  }

  // BindDevice (78-172).
  function BindDevice(s: State, h: Hash, tenant: string, token: string, device: string, extras: Option<string>,
                      secret: string, now: Time): (State, Outcome<string>)
  {
    if tenant == "" || token == "" || device == "" then (s, Err(InvalidInput))
    else match TokenByHash(s.tokens, tenant, h(token))
      case None => (s, Err(TokenNotFound))
      case Some(i) =>
        match DeviceById(s.devices, tenant, device)
        case None => (s, Err(NotFound))
        case Some(j) =>
          var row := s.tokens[i];
          if !s.devices[j].status.Pending? then (s, Err(DeviceConflict))
          else if row.status.Issued? && row.expiresAt <= now then (ExpireAt(s, i, now), Err(TokenExpired))
          else if !row.status.Issued? then (s, Err(SpentError(row.status)))
          else
            (ConsumeAt(s, i, now).(
               devices := s.devices[j := s.devices[j].(secretHash := h(secret), status := Enrolled, extras := extras,
                                                       updatedAt := now)],
               bindings := s.bindings + [(row.id, device)]),
             Ok(secret))
  }

  // RevokeToken (205-241) does not look at expiry.
  function RevokeToken(s: State, tenant: string, id: string, now: Time): (State, Outcome<string>) {
    if tenant == "" || id == "" then (s, Err(InvalidInput))
    else match TokenById(s.tokens, tenant, id)
      case None => (s, Err(TokenNotFound))
      case Some(i) =>
        if !s.tokens[i].status.Issued? then (s, Err(SpentError(s.tokens[i].status)))
        else (s.(tokens := s.tokens[i := s.tokens[i].(status := Revoked, revokedAt := Some(now), updatedAt := now)]),
              Ok(id))
  }

  // ExpireTokens (243-254), over every tenant.
  function ExpireTokens(s: State, before: Time, now: Time): State {
    s.(tokens := seq(|s.tokens|, i requires 0 <= i < |s.tokens| =>
         if s.tokens[i].status.Issued? && s.tokens[i].expiresAt <= before
         then s.tokens[i].(status := Expired, updatedAt := now) else s.tokens[i]))
  }

  // --- Devices (device/postgres/store.go) --------------------------------------------------

  predicate DeviceKeyTaken(ds: seq<Device>, id: string) {
    exists j :: 0 <= j < |ds| && ds[j].id == id
  }

  // CreateDevice (45-91); the column default makes the row pending.
  function CreateDevice(s: State, tenant: string, name: string, secretHash: string, groupsOk: bool, id: string,
                        now: Time)
    : (State, Outcome<string>)
  {
    if name == "" || secretHash == "" then (s, Err(InvalidInput))
    else if !groupsOk then (s, Err(NotFound))
    else if DeviceKeyTaken(s.devices, id) then (s, Err(Conflict))
    else (s.(devices := s.devices + [Device(id, tenant, name, secretHash, Pending, None, None, now)]), Ok(id))
  }

  // UpdateDevice (300-352): an empty secret hash keeps the old one.
  function UpdateDevice(s: State, tenant: string, id: string, name: string, secretHash: string, groupsOk: bool,
                        now: Time)
    : (State, Outcome<string>)
  {
    if name == "" then (s, Err(InvalidInput))
    else if !groupsOk then (s, Err(NotFound))
    else match DeviceById(s.devices, tenant, id)
      case None => (s, Err(NotFound))
      case Some(j) =>
        var d := s.devices[j];
        (s.(devices := s.devices[j := d.(name := name, updatedAt := now,
                                         secretHash := if secretHash == "" then d.secretHash else secretHash)]),
         Ok(id))
  }

  // RetireDevice (354-379), from any status.
  function RetireDevice(s: State, tenant: string, id: string, now: Time): (State, Outcome<string>) {
    match DeviceById(s.devices, tenant, id)
    case None => (s, Err(NotFound))
    case Some(j) =>
      (s.(devices := s.devices[j := s.devices[j].(status := Retired, deletedAt := Some(now), updatedAt := now)]),
       Ok(id))
  }

  predicate CanAuthenticate(status: DeviceStatus) { !status.Retired? && !status.Wiped? }

  // Authenticate (381-395, 450-471).
  function Authenticate(s: State, h: Hash, tenant: string, id: string, secret: string): Outcome<Device> {
    if tenant == "" || id == "" || secret == "" then Err(InvalidInput)
    else match DeviceById(s.devices, tenant, id)
      case None => Err(NotFound)
      case Some(j) =>
        if s.devices[j].secretHash == h(secret) && CanAuthenticate(s.devices[j].status) then Ok(s.devices[j])
        else Err(NotFound)
  }

  // Upload and loadDeviceForSecret (deviceinfo/postgres/store.go 39-73, 185-209); logs and
  // telemetry uploads do the same to the device row.
  function Upload(s: State, h: Hash, tenant: string, id: string, secret: string, empty: bool, now: Time)
    : (State, Outcome<string>)
  {
    if tenant == "" || id == "" || secret == "" then (s, Err(InvalidInput))
    else if empty then (s, Err(InvalidInput))
    else match DeviceById(s.devices, tenant, id)
      case None => (s, Err(NotFound))
      case Some(j) =>
        var d := s.devices[j];
        if d.deletedAt.Some? then (s, Err(NotFound))
        else if !CanAuthenticate(d.status) || d.secretHash != h(secret) then (s, Err(Unauthorized))
        else (s.(devices := s.devices[j := d.(updatedAt := now,
                                              status := if d.status.Enrolled? then Active else d.status)]), Ok(id))
  }

  // --- Runs --------------------------------------------------------------------------------

  datatype Event =
    | DoIssue(tenant: string, expiresAt: Option<Time>, id: string, secret: string)
    | DoInspect(tenant: string, secret: string, consume: bool)
    | DoBind(tenant: string, token: string, device: string, extras: Option<string>, secret: string)
    | DoRevoke(tenant: string, id: string)
    | DoExpire(before: Time)
    | DoCreate(tenant: string, name: string, secretHash: string, groupsOk: bool, id: string)
    | DoUpdate(tenant: string, id: string, name: string, secretHash: string, groupsOk: bool)
    | DoRetire(tenant: string, id: string)
    | DoUpload(tenant: string, id: string, secret: string, empty: bool)

  datatype Stamped = At(now: Time, ev: Event)

  function Step(s: State, h: Hash, e: Stamped): State {
    match e.ev
    case DoIssue(tenant, expiresAt, id, secret) => IssueToken(s, h, tenant, expiresAt, id, secret, e.now).0
    case DoInspect(tenant, secret, consume) => InspectToken(s, h, tenant, secret, consume, e.now).0
    case DoBind(tenant, token, device, extras, secret) =>
      BindDevice(s, h, tenant, token, device, extras, secret, e.now).0
    case DoRevoke(tenant, id) => RevokeToken(s, tenant, id, e.now).0
    case DoExpire(before) => ExpireTokens(s, before, e.now)
    case DoCreate(tenant, name, secretHash, groupsOk, id) =>
      CreateDevice(s, tenant, name, secretHash, groupsOk, id, e.now).0
    case DoUpdate(tenant, id, name, secretHash, groupsOk) =>
      UpdateDevice(s, tenant, id, name, secretHash, groupsOk, e.now).0
    case DoRetire(tenant, id) => RetireDevice(s, tenant, id, e.now).0
    case DoUpload(tenant, id, secret, empty) => Upload(s, h, tenant, id, secret, empty, e.now).0
  }

  function Run(s: State, h: Hash, es: seq<Stamped>): State
    decreases es
  {
    if es == [] then s else Run(Step(s, h, es[0]), h, es[1..])
  }

  // --- Invariants --------------------------------------------------------------------------

  // Times on a token agree with its status, and it was consumed while it was valid.
  predicate TokenOk(t: Token) {
    && (t.consumedAt.Some? <==> t.status.Consumed?)
    && (t.revokedAt.Some? <==> t.status.Revoked?)
    && (t.consumedAt.Some? ==> t.consumedAt.value < t.expiresAt)
  }

  predicate DeviceOk(d: Device) {
    && (d.status.Pending? || d.status.Enrolled? || d.status.Active? || d.status.Retired?)
    && (d.status.Retired? <==> d.deletedAt.Some?)
  }

  // The i-th binding consumed its token, moved its device out of pending, and is the only
  // binding of either.
  ghost predicate BindingOk(s: State, k: int)
    requires 0 <= k < |s.bindings|
  {
    && (exists i :: 0 <= i < |s.tokens| && s.tokens[i].id == s.bindings[k].0 && s.tokens[i].status.Consumed?)
    && (exists j :: 0 <= j < |s.devices| && s.devices[j].id == s.bindings[k].1 && !s.devices[j].status.Pending?)
    && forall m :: 0 <= m < |s.bindings| && m != k ==>
         s.bindings[m].0 != s.bindings[k].0 && s.bindings[m].1 != s.bindings[k].1
  }

  ghost predicate Bound(s: State, device: string) {
    exists k :: 0 <= k < |s.bindings| && s.bindings[k].1 == device
  }

  ghost predicate UniqueKeys(s: State) {
    && (forall a, b :: 0 <= a < b < |s.tokens| ==> s.tokens[a].id != s.tokens[b].id)
    && (forall a, b :: 0 <= a < b < |s.tokens| ==>
          !(s.tokens[a].tenant == s.tokens[b].tenant && s.tokens[a].hash == s.tokens[b].hash))
    && (forall a, b :: 0 <= a < b < |s.devices| ==> s.devices[a].id != s.devices[b].id)
  }

  ghost predicate Consistent(s: State) {
    && UniqueKeys(s)
    && (forall i :: 0 <= i < |s.tokens| ==> TokenOk(s.tokens[i]))
    && (forall j :: 0 <= j < |s.devices| ==> DeviceOk(s.devices[j]))
    && (forall k :: 0 <= k < |s.bindings| ==> BindingOk(s, k))
    && (forall j :: 0 <= j < |s.devices| && (s.devices[j].status.Enrolled? || s.devices[j].status.Active?) ==>
          Bound(s, s.devices[j].id))
  }

  // A token leaves `issued` once and never changes again.
  predicate TokenEvolves(a: Token, b: Token) {
    && a.id == b.id && a.tenant == b.tenant && a.hash == b.hash && a.expiresAt == b.expiresAt
    && (!a.status.Issued? ==> a == b)
  }

  // A device never returns to pending, never goes back from active, and stays retired.
  predicate DeviceEvolves(a: Device, b: Device) {
    && a.id == b.id && a.tenant == b.tenant
    && (b.status.Pending? ==> a.status.Pending?)
    && (a.status.Active? ==> b.status.Active? || b.status.Retired?)
    && (a.status.Retired? ==> b.status.Retired?)
  }

  ghost predicate Evolves(s: State, s': State) {
    && |s.tokens| <= |s'.tokens| && |s.devices| <= |s'.devices| && s.bindings <= s'.bindings
    && (forall i :: 0 <= i < |s.tokens| ==> TokenEvolves(s.tokens[i], s'.tokens[i]))
    && (forall j :: 0 <= j < |s.devices| ==> DeviceEvolves(s.devices[j], s'.devices[j]))
  }

  lemma BindEvolves(s: State, h: Hash, tenant: string, token: string, device: string, extras: Option<string>,
                    secret: string, now: Time)
    ensures Evolves(s, BindDevice(s, h, tenant, token, device, extras, secret, now).0)
  {
  }

  lemma UploadEvolves(s: State, h: Hash, tenant: string, id: string, secret: string, empty: bool, now: Time)
    ensures Evolves(s, Upload(s, h, tenant, id, secret, empty, now).0)
  {
  }

  lemma StepEvolves(s: State, h: Hash, e: Stamped)
    ensures Evolves(s, Step(s, h, e))
  {
    match e.ev
    case DoBind(tenant, token, device, extras, secret) =>
      BindEvolves(s, h, tenant, token, device, extras, secret, e.now);
    case DoUpload(tenant, id, secret, empty) => UploadEvolves(s, h, tenant, id, secret, empty, e.now);
    case _ =>
  }

  lemma EvolvesTransitive(a: State, b: State, c: State)
    requires Evolves(a, b) && Evolves(b, c)
    ensures Evolves(a, c)
  {
    forall i | 0 <= i < |a.tokens| ensures TokenEvolves(a.tokens[i], c.tokens[i]) {
      assert TokenEvolves(a.tokens[i], b.tokens[i]) && TokenEvolves(b.tokens[i], c.tokens[i]);
    }
    forall j | 0 <= j < |a.devices| ensures DeviceEvolves(a.devices[j], c.devices[j]) {
      assert DeviceEvolves(a.devices[j], b.devices[j]) && DeviceEvolves(b.devices[j], c.devices[j]);
    }
  }

  lemma BindingLater(s: State, s': State, k: int)
    requires 0 <= k < |s.bindings| && BindingOk(s, k) && Evolves(s, s') && s'.bindings == s.bindings
    ensures BindingOk(s', k)
  {
    var i :| 0 <= i < |s.tokens| && s.tokens[i].id == s.bindings[k].0 && s.tokens[i].status.Consumed?;
    var j :| 0 <= j < |s.devices| && s.devices[j].id == s.bindings[k].1 && !s.devices[j].status.Pending?;
    assert TokenEvolves(s.tokens[i], s'.tokens[i]) && DeviceEvolves(s.devices[j], s'.devices[j]);
  }

  // Statements that bind nothing.
  lemma RowsMoved(s: State, s': State)
    requires Consistent(s) && Evolves(s, s') && s'.bindings == s.bindings
    requires |s'.tokens| == |s.tokens| && |s'.devices| == |s.devices|
    requires forall i :: 0 <= i < |s'.tokens| ==> TokenOk(s'.tokens[i])
    requires forall j :: 0 <= j < |s'.devices| ==> DeviceOk(s'.devices[j])
    requires forall j :: 0 <= j < |s'.devices| && (s'.devices[j].status.Enrolled? || s'.devices[j].status.Active?) ==>
               s.devices[j].status.Enrolled? || s.devices[j].status.Active?
    ensures Consistent(s')
  {
    SameKeys(s, s');
    forall k | 0 <= k < |s'.bindings| ensures BindingOk(s', k) { BindingLater(s, s', k); }
    forall j | 0 <= j < |s'.devices| && (s'.devices[j].status.Enrolled? || s'.devices[j].status.Active?)
      ensures Bound(s', s'.devices[j].id)
    {
      assert Bound(s, s.devices[j].id) && DeviceEvolves(s.devices[j], s'.devices[j]);
    }
  }

  lemma SameKeys(s: State, s': State)
    requires UniqueKeys(s) && Evolves(s, s')
    requires |s'.tokens| == |s.tokens| && |s'.devices| == |s.devices|
    ensures UniqueKeys(s')
  {
    forall i | 0 <= i < |s.tokens|
      ensures s'.tokens[i].id == s.tokens[i].id && s'.tokens[i].tenant == s.tokens[i].tenant &&
        s'.tokens[i].hash == s.tokens[i].hash
    {
      assert TokenEvolves(s.tokens[i], s'.tokens[i]);
    }
    forall j | 0 <= j < |s.devices| ensures s'.devices[j].id == s.devices[j].id {
      assert DeviceEvolves(s.devices[j], s'.devices[j]);
    }
  }

  lemma IssueKeeps(s: State, h: Hash, tenant: string, expiresAt: Option<Time>, id: string, secret: string, now: Time)
    requires Consistent(s)
    ensures Consistent(IssueToken(s, h, tenant, expiresAt, id, secret, now).0)
  {
    var s' := IssueToken(s, h, tenant, expiresAt, id, secret, now).0;
    if s' != s {
      forall k | 0 <= k < |s'.bindings| ensures BindingOk(s', k) { BindingLater(s, s', k); }
      forall j | 0 <= j < |s'.devices| && (s'.devices[j].status.Enrolled? || s'.devices[j].status.Active?)
        ensures Bound(s', s'.devices[j].id)
      {
        assert Bound(s, s.devices[j].id);
      }
    }
  }

  lemma CreateKeeps(s: State, tenant: string, name: string, secretHash: string, groupsOk: bool, id: string, now: Time)
    requires Consistent(s)
    ensures Consistent(CreateDevice(s, tenant, name, secretHash, groupsOk, id, now).0)
  {
    var s' := CreateDevice(s, tenant, name, secretHash, groupsOk, id, now).0;
    if s' != s {
      forall k | 0 <= k < |s'.bindings| ensures BindingOk(s', k) { BindingLater(s, s', k); }
      forall j | 0 <= j < |s'.devices| && (s'.devices[j].status.Enrolled? || s'.devices[j].status.Active?)
        ensures Bound(s', s'.devices[j].id)
      {
        assert Bound(s, s.devices[j].id);
      }
    }
  }

  // A successful binding, written out on its rows.
  lemma BindRows(s: State, i: nat, j: nat, s': State, now: Time)
    requires Consistent(s) && i < |s.tokens| && j < |s.devices|
    requires s.tokens[i].status.Issued? && now < s.tokens[i].expiresAt && s.devices[j].status.Pending?
    requires s'.tokens == s.tokens[i := s.tokens[i].(status := Consumed, consumedAt := Some(now), updatedAt := now)]
    requires |s'.devices| == |s.devices| && forall m :: 0 <= m < |s.devices| && m != j ==> s'.devices[m] == s.devices[m]
    requires s'.devices[j].id == s.devices[j].id && s'.devices[j].tenant == s.devices[j].tenant
    requires s'.devices[j].status.Enrolled? && s'.devices[j].deletedAt == s.devices[j].deletedAt
    requires s'.bindings == s.bindings + [(s.tokens[i].id, s.devices[j].id)]
    ensures Consistent(s')
  {
    var mid := s'.(bindings := s.bindings);
    assert Evolves(s, mid);
    SameKeys(s, mid);
    var n := |s.bindings|;
    forall k | 0 <= k < n
      ensures BindingOk(mid, k) && s.bindings[k].0 != s.tokens[i].id && s.bindings[k].1 != s.devices[j].id
    {
      BindingLater(s, mid, k);
      NotYetBound(s, k, i, j);
    }
    forall k | 0 <= k < |s'.bindings| ensures BindingOk(s', k) {
      if k < n {
        assert BindingOk(mid, k);
      } else {
        assert s'.tokens[i].id == s'.bindings[k].0 && s'.devices[j].id == s'.bindings[k].1;
      }
    }
    forall m | 0 <= m < |s'.devices| && (s'.devices[m].status.Enrolled? || s'.devices[m].status.Active?)
      ensures Bound(s', s'.devices[m].id)
    {
      if m == j {
        assert s'.bindings[n].1 == s'.devices[j].id;
      } else {
        assert Bound(s, s.devices[m].id);
        var k :| 0 <= k < n && s.bindings[k].1 == s.devices[m].id;
        assert s'.bindings[k] == s.bindings[k];
      }
    }
  }

  lemma NotYetBound(s: State, k: int, i: nat, j: nat)
    requires Consistent(s) && 0 <= k < |s.bindings| && i < |s.tokens| && j < |s.devices|
    requires s.tokens[i].status.Issued? && s.devices[j].status.Pending?
    ensures s.bindings[k].0 != s.tokens[i].id && s.bindings[k].1 != s.devices[j].id
  {
    assert BindingOk(s, k);
    var a :| 0 <= a < |s.tokens| && s.tokens[a].id == s.bindings[k].0 && s.tokens[a].status.Consumed?;
    var b :| 0 <= b < |s.devices| && s.devices[b].id == s.bindings[k].1 && !s.devices[b].status.Pending?;
    assert a != i && b != j;
  }

  lemma BindKeeps(s: State, h: Hash, tenant: string, token: string, device: string, extras: Option<string>,
                  secret: string, now: Time)
    requires Consistent(s)
    ensures Consistent(BindDevice(s, h, tenant, token, device, extras, secret, now).0)
  {
    var (s', r) := BindDevice(s, h, tenant, token, device, extras, secret, now);
    if r.Ok? {
      var i, j := TokenByHash(s.tokens, tenant, h(token)).value, DeviceById(s.devices, tenant, device).value;
      BindRows(s, i, j, s', now);
    } else if s' != s {
      StepEvolves(s, h, At(now, DoBind(tenant, token, device, extras, secret)));
      RowsMoved(s, s');
    }
  }

  lemma UploadKeeps(s: State, h: Hash, tenant: string, id: string, secret: string, empty: bool, now: Time)
    requires Consistent(s)
    ensures Consistent(Upload(s, h, tenant, id, secret, empty, now).0)
  {
    UploadEvolves(s, h, tenant, id, secret, empty, now);
    RowsMoved(s, Upload(s, h, tenant, id, secret, empty, now).0);
  }

  // Inspecting or revoking a token, expiring tokens, updating or retiring a device.
  lemma UpdateKeeps(s: State, h: Hash, e: Stamped)
    requires Consistent(s)
    requires e.ev.DoInspect? || e.ev.DoRevoke? || e.ev.DoExpire? || e.ev.DoUpdate? || e.ev.DoRetire?
    ensures Consistent(Step(s, h, e))
  {
    StepEvolves(s, h, e);
    RowsMoved(s, Step(s, h, e));
  }

  lemma StepKeeps(s: State, h: Hash, e: Stamped)
    requires Consistent(s)
    ensures Consistent(Step(s, h, e))
  {
    match e.ev
    case DoIssue(tenant, expiresAt, id, secret) => IssueKeeps(s, h, tenant, expiresAt, id, secret, e.now);
    case DoCreate(tenant, name, secretHash, groupsOk, id) =>
      CreateKeeps(s, tenant, name, secretHash, groupsOk, id, e.now);
    case DoBind(tenant, token, device, extras, secret) => BindKeeps(s, h, tenant, token, device, extras, secret, e.now);
    case DoUpload(tenant, id, secret, empty) => UploadKeeps(s, h, tenant, id, secret, empty, e.now);
    case _ => UpdateKeeps(s, h, e);
  }

  lemma {:induction false} RunEvolves(s: State, h: Hash, es: seq<Stamped>)
    ensures Evolves(s, Run(s, h, es))
    ensures Consistent(s) ==> Consistent(Run(s, h, es))
    decreases es
  {
    if es != [] {
      var s' := Step(s, h, es[0]);
      StepEvolves(s, h, es[0]);
      if Consistent(s) { StepKeeps(s, h, es[0]); }
      RunEvolves(s', h, es[1..]);
      EvolvesTransitive(s, s', Run(s', h, es[1..]));
    }
  }

  // Over every run from an empty database: tokens and devices are bound at most once, every
  // enrolled or active device was bound by a token that is consumed, and a consumed token was
  // consumed before it expired.
  lemma EnrollmentSafety(h: Hash, es: seq<Stamped>)
    ensures Consistent(Run(EMPTY, h, es))
  {
    RunEvolves(EMPTY, h, es);
  }

  // A retired device never authenticates or uploads again, whatever happens and whatever
  // secret is presented.
  lemma RetiredForEver(s: State, h: Hash, tenant: string, id: string, at: Time, es: seq<Stamped>, secret: string,
                       empty: bool, now: Time)
    requires Consistent(s) && RetireDevice(s, tenant, id, at).1.Ok?
    ensures var s' := Run(RetireDevice(s, tenant, id, at).0, h, es);
            Authenticate(s', h, tenant, id, secret).Err? && Upload(s', h, tenant, id, secret, empty, now).1.Err?
  {
    var r := RetireDevice(s, tenant, id, at).0;
    StepKeeps(s, h, At(at, DoRetire(tenant, id)));
    var j := DeviceById(s.devices, tenant, id).value;
    RunEvolves(r, h, es);
    var s' := Run(r, h, es);
    assert DeviceEvolves(r.devices[j], s'.devices[j]);
    DeviceFound(s', tenant, id, j);
  }

  lemma DeviceFound(s: State, tenant: string, id: string, j: nat)
    requires UniqueKeys(s) && j < |s.devices| && s.devices[j].tenant == tenant && s.devices[j].id == id
    ensures DeviceById(s.devices, tenant, id) == Some(j)
  {
  }

  lemma TokenFound(s: State, tenant: string, hash: string, i: nat)
    requires UniqueKeys(s) && i < |s.tokens| && s.tokens[i].tenant == tenant && s.tokens[i].hash == hash
    ensures TokenByHash(s.tokens, tenant, hash) == Some(i)
  {
  }

  // A binding succeeds exactly when the token is issued and not due and the device is pending;
  // it writes those two rows and no other. A refused one at most marks an overdue token expired.
  lemma BindOutcome(s: State, h: Hash, tenant: string, token: string, device: string, extras: Option<string>,
                    secret: string, now: Time, i: nat, j: nat)
    requires UniqueKeys(s) && tenant != "" && token != "" && device != ""
    requires i < |s.tokens| && s.tokens[i].tenant == tenant && s.tokens[i].hash == h(token)
    requires j < |s.devices| && s.devices[j].tenant == tenant && s.devices[j].id == device
    ensures var p := BindDevice(s, h, tenant, token, device, extras, secret, now);
            && (p.1.Ok? <==> s.devices[j].status.Pending? && s.tokens[i].status.Issued? && now < s.tokens[i].expiresAt)
            && |p.0.tokens| == |s.tokens| && |p.0.devices| == |s.devices|
            && (forall k :: 0 <= k < |s.tokens| && k != i ==> p.0.tokens[k] == s.tokens[k])
            && (forall k :: 0 <= k < |s.devices| && k != j ==> p.0.devices[k] == s.devices[k])
            && (p.1.Ok? ==>
                  p.1.value == secret && p.0.bindings == s.bindings + [(s.tokens[i].id, device)] &&
                  p.0.tokens[i] == s.tokens[i].(status := Consumed, consumedAt := Some(now), updatedAt := now) &&
                  p.0.devices[j] == s.devices[j].(secretHash := h(secret), status := Enrolled, extras := extras,
                                                  updatedAt := now))
            && (p.1.Err? ==>
                  p.0.devices == s.devices && p.0.bindings == s.bindings &&
                  (p.0.tokens[i] == s.tokens[i] || (p.1 == Err(TokenExpired) && p.0.tokens[i].status.Expired?)))
  {
    TokenFound(s, tenant, h(token), i);
    DeviceFound(s, tenant, device, j);
  }

  // An upload is accepted exactly from a device that is not deleted, retired or wiped and shows
  // its secret; it promotes enrolled to active, moves no other status and touches no other device.
  lemma UploadOutcome(s: State, h: Hash, tenant: string, id: string, secret: string, empty: bool, now: Time, j: nat)
    requires UniqueKeys(s) && tenant != "" && id != "" && secret != ""
    requires j < |s.devices| && s.devices[j].tenant == tenant && s.devices[j].id == id
    ensures var p := Upload(s, h, tenant, id, secret, empty, now);
            var d := s.devices[j];
            && (p.1.Ok? <==> !empty && d.deletedAt.None? && CanAuthenticate(d.status) && d.secretHash == h(secret))
            && |p.0.devices| == |s.devices|
            && (p.1.Ok? ==>
                  p.0.devices[j] == d.(status := if d.status.Enrolled? then Active else d.status, updatedAt := now))
            && (forall k :: 0 <= k < |s.devices| && (k != j || p.1.Err?) ==> p.0.devices[k] == s.devices[k])
            && p.0.tokens == s.tokens && p.0.bindings == s.bindings
  {
    DeviceFound(s, tenant, id, j);
  }

  // The token that bound a device is spent: no later call with it binds, consumes or validates.
  lemma TokenSpent(s: State, h: Hash, tenant: string, token: string, device: string, extras: Option<string>,
                   secret: string, at: Time,
                   es: seq<Stamped>, device2: string, extras2: Option<string>, secret2: string, now: Time,
                   consume: bool)
    requires Consistent(s) && BindDevice(s, h, tenant, token, device, extras, secret, at).1.Ok?
    ensures var s' := Run(BindDevice(s, h, tenant, token, device, extras, secret, at).0, h, es);
            && BindDevice(s', h, tenant, token, device2, extras2, secret2, now).0 == s'
            && BindDevice(s', h, tenant, token, device2, extras2, secret2, now).1.Err?
            && InspectToken(s', h, tenant, token, consume, now) == (s', Err(TokenConsumed))
  {
    var b := BindDevice(s, h, tenant, token, device, extras, secret, at).0;
    StepKeeps(s, h, At(at, DoBind(tenant, token, device, extras, secret)));
    var i := TokenByHash(s.tokens, tenant, h(token)).value;
    RunEvolves(b, h, es);
    var s' := Run(b, h, es);
    assert TokenEvolves(b.tokens[i], s'.tokens[i]);
    TokenFound(s', tenant, h(token), i);
  }

  // Neither retires the device nor gives it another secret.
  predicate KeepsSecret(e: Stamped, tenant: string, id: string) {
    match e.ev
    case DoRetire(t, i) => !(t == tenant && i == id)
    case DoUpdate(t, i, _, secretHash, _) => !(t == tenant && i == id && secretHash != "")
    case _ => true
  }

  predicate AllKeepSecret(es: seq<Stamped>, tenant: string, id: string) {
    forall k :: 0 <= k < |es| ==> KeepsSecret(es[k], tenant, id)
  }

  predicate Holds(s: State, j: nat, tenant: string, id: string, hash: string) {
    && j < |s.devices| && s.devices[j].tenant == tenant && s.devices[j].id == id
    && s.devices[j].secretHash == hash && (s.devices[j].status.Enrolled? || s.devices[j].status.Active?)
  }

  lemma StepHolds(s: State, h: Hash, e: Stamped, j: nat, tenant: string, id: string, hash: string)
    requires UniqueKeys(s) && Holds(s, j, tenant, id, hash) && KeepsSecret(e, tenant, id)
    ensures Holds(Step(s, h, e), j, tenant, id, hash)
  {
    DeviceFound(s, tenant, id, j);
  }

  lemma {:induction false} RunHolds(s: State, h: Hash, es: seq<Stamped>, j: nat, tenant: string, id: string,
                                    hash: string)
    requires Consistent(s) && Holds(s, j, tenant, id, hash) && AllKeepSecret(es, tenant, id)
    ensures Holds(Run(s, h, es), j, tenant, id, hash)
    decreases es
  {
    if es != [] {
      assert KeepsSecret(es[0], tenant, id);
      StepHolds(s, h, es[0], j, tenant, id, hash);
      StepKeeps(s, h, es[0]);
      assert AllKeepSecret(es[1..], tenant, id) by {
        forall k | 0 <= k < |es[1..]| ensures KeepsSecret(es[1..][k], tenant, id) {
          assert KeepsSecret(es[k + 1], tenant, id);
        }
      }
      RunHolds(Step(s, h, es[0]), h, es[1..], j, tenant, id, hash);
    }
  }

  // The secret that BindDevice returned is the device's credential, and the only one, until
  // the device is retired or an administrator sets another.
  lemma BoundSecretWorks(s: State, h: Hash, tenant: string, token: string, device: string, extras: Option<string>,
                         secret: string, at: Time, es: seq<Stamped>, presented: string)
    requires Consistent(s) && BindDevice(s, h, tenant, token, device, extras, secret, at).1.Ok?
    requires AllKeepSecret(es, tenant, device) && presented != ""
    ensures var s' := Run(BindDevice(s, h, tenant, token, device, extras, secret, at).0, h, es);
            Authenticate(s', h, tenant, device, presented).Ok? <==> h(presented) == h(secret)
  {
    var b := BindDevice(s, h, tenant, token, device, extras, secret, at).0;
    StepKeeps(s, h, At(at, DoBind(tenant, token, device, extras, secret)));
    var j := DeviceById(s.devices, tenant, device).value;
    RunHolds(b, h, es, j, tenant, device, h(secret));
    RunEvolves(b, h, es);
    DeviceFound(Run(b, h, es), tenant, device, j);
  }
}
