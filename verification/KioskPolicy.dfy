// Kiosk policies and their exit passcode: the dashboard's form guard
// (server/internal/admin/http/dashboard_policy.go 327-360), the store's merge
// (server/internal/policy/postgres/store.go 37-52, 147-210, 656-676) and the policy snapshot that
// devices receive (server/internal/enrollment/http/routes.go 342-398).
module KioskPolicy {
  import opened Wrappers
  import Text

  // The restrictions document; its JSON form drops empty fields and reads them back as empty.
  datatype Restrictions = Restrictions(
    allow: seq<string>, block: seq<string>, suspend: seq<string>,
    keepScreenOn: bool, stayAwake: bool, unlockOnBoot: bool, passcode: string, passcodeHash: string)

  datatype Upsert = Upsert(name: string, kioskMode: bool, app: string, restrictions: Restrictions)

  datatype Policy = Policy(name: string, version: nat, kioskMode: bool, app: string, restrictions: Restrictions,
                           retired: bool)

  type Table = map<string, Policy>

  datatype Form = Form(name: string, kioskMode: bool, app: string, allow: seq<string>, block: seq<string>,
                       suspend: seq<string>, keepScreenOn: bool, stayAwake: bool, unlockOnBoot: bool, passcode: string)

  // kioskExitPasscodeConfigured of the store.
  predicate Configured(r: Restrictions) {
    Text.TrimSpace(r.passcode) != "" || Text.TrimSpace(r.passcodeHash) != ""
  }

  // policyUpsertFromForm: None when the form is refused. The dashboard only looks at the passcode.
  function FromForm(form: Form, existing: Option<Policy>): Option<Upsert> {
    var r := Restrictions(form.allow, form.block, form.suspend, form.keepScreenOn, form.stayAwake, form.unlockOnBoot,
                          Text.TrimSpace(form.passcode), "");
    if form.kioskMode && Text.TrimSpace(r.passcode) == "" && (existing.None? || !existing.value.kioskMode) then None
    else Some(Upsert(Text.TrimSpace(form.name), form.kioskMode, Text.TrimSpace(form.app), r))
  }

  // mergeKioskExitPasscode (190-210).
  function Merge(current: Restrictions, updated: Restrictions): Restrictions {
    if Text.TrimSpace(updated.passcode) != "" then updated
    else
      var passcode := Text.TrimSpace(current.passcode);
      if passcode == "" then updated.(passcode := passcode, passcodeHash := Text.TrimSpace(current.passcodeHash))
      else updated.(passcode := passcode)
  }

  // CreatePolicy; `clash` is a violated unique constraint.
  function Create(t: Table, id: string, req: Upsert, clash: bool): (Table, Outcome<string>) {
    if req.name == "" then (t, Err(InvalidInput))
    else if clash || id in t then (t, Err(Conflict))
    else (t[id := Policy(req.name, 1, req.kioskMode, req.app, req.restrictions, false)], Ok(id))
  }

  // What UpdatePolicy's UPDATE stores, after its SELECT returned `read`. They are two statements
  // without a transaction, and the SELECT runs only for kiosk mode.
  function Stored(read: Option<Policy>, req: Upsert): Restrictions {
    if req.kioskMode && read.Some? && read.value.kioskMode && !Configured(req.restrictions)
    then Merge(read.value.restrictions, req.restrictions) else req.restrictions
  }

  // UpdatePolicy, whose UPDATE meets the table t.
  function Update(t: Table, id: string, read: Option<Policy>, req: Upsert, clash: bool): (Table, Outcome<string>) {
    if req.name == "" then (t, Err(InvalidInput))
    else if (req.kioskMode && read.None?) || id !in t then (t, Err(NotFound))
    else if clash then (t, Err(Conflict))
    else (t[id := t[id].(name := req.name, version := t[id].version + 1, kioskMode := req.kioskMode, app := req.app,
                         restrictions := Stored(read, req))],
          Ok(id))
  }

  function Get(t: Table, id: string): Option<Policy> { if id in t then Some(t[id]) else None }

  // The dashboard's update handler: the policy as the dashboard read it, as the store's SELECT
  // read it, and the table as the UPDATE finds it.
  function UpdateSeen(t: Table, id: string, form: Form, seen: Policy, read: Option<Policy>, clash: bool): Table {
    match FromForm(form, Some(seen))
    case None => t
    case Some(req) => Update(t, id, read, req, clash).0
  }

  // What the form's fields become: the row of a created policy, and of an updated one.
  lemma CreateStores(t: Table, id: string, form: Form)
    requires Text.TrimSpace(form.name) != "" && id !in t && (form.kioskMode ==> Text.TrimSpace(form.passcode) != "")
    ensures Step(t, DoCreate(id, form, false)) == t[id :=
              Policy(Text.TrimSpace(form.name), 1, form.kioskMode, Text.TrimSpace(form.app),
                     Restrictions(form.allow, form.block, form.suspend, form.keepScreenOn, form.stayAwake,
                                  form.unlockOnBoot, Text.TrimSpace(form.passcode), ""), false)]
  {
    Text.TrimIdempotent(form.passcode);
  }

  lemma UpdateStores(t: Table, id: string, form: Form, seen: Policy, read: Option<Policy>)
    requires Text.TrimSpace(form.name) != "" && id in t && read.Some?
    requires form.kioskMode && Text.TrimSpace(form.passcode) == "" ==> seen.kioskMode
    ensures var t', was := UpdateSeen(t, id, form, seen, read, false), t[id];
            && t'.Keys == t.Keys && (forall x :: x in t && x != id ==> t'[x] == t[x])
            && t'[id].name == Text.TrimSpace(form.name) && t'[id].version == was.version + 1
            && t'[id].kioskMode == form.kioskMode && t'[id].app == Text.TrimSpace(form.app)
            && t'[id].retired == was.retired
            && var r := t'[id].restrictions;
               && r.allow == form.allow && r.block == form.block && r.suspend == form.suspend
               && r.keepScreenOn == form.keepScreenOn && r.stayAwake == form.stayAwake
               && r.unlockOnBoot == form.unlockOnBoot
               && (Text.TrimSpace(form.passcode) != "" ==> r.passcode == Text.TrimSpace(form.passcode))
               && (!form.kioskMode ==> r.passcode == Text.TrimSpace(form.passcode) && r.passcodeHash == "")
               && (form.kioskMode && Text.TrimSpace(form.passcode) == "" && read.value.kioskMode ==>
                     r.passcode == Text.TrimSpace(read.value.restrictions.passcode))
  {
    Text.TrimIdempotent(form.passcode);
  }

  // What the store answers to a request that it refuses.
  lemma StoreRefuses(t: Table, id: string, read: Option<Policy>, req: Upsert, clash: bool)
    ensures req.name == "" ==>
      Create(t, id, req, clash) == (t, Err(InvalidInput)) && Update(t, id, read, req, clash) == (t, Err(InvalidInput))
    ensures req.name != "" && (clash || id in t) ==> Create(t, id, req, clash) == (t, Err(Conflict))
    ensures req.name != "" && (id !in t || (req.kioskMode && read.None?)) ==>
      Update(t, id, read, req, clash) == (t, Err(NotFound))
    ensures req.name != "" && id in t && clash && read.Some? ==> Update(t, id, read, req, clash) == (t, Err(Conflict))
    ensures req.name != "" && id !in t && !clash ==> Create(t, id, req, clash).1 == Ok(id)
    ensures req.name != "" && id in t && !clash && read.Some? ==> Update(t, id, read, req, clash).1 == Ok(id)
  {
  }

  // What is refused, and then changes nothing: a form without a name, and kiosk mode without a
  // passcode on a policy that was not in kiosk mode.
  lemma FormRefused(t: Table, id: string, form: Form, seen: Policy, read: Option<Policy>, clash: bool)
    requires Text.TrimSpace(form.name) == "" || clash ||
             (form.kioskMode && Text.TrimSpace(form.passcode) == "" && !seen.kioskMode)
    ensures UpdateSeen(t, id, form, seen, read, clash) == t
    ensures Text.TrimSpace(form.name) == "" || clash || (form.kioskMode && Text.TrimSpace(form.passcode) == "") ==>
      Step(t, DoCreate(id, form, clash)) == t
  {
    Text.TrimIdempotent(form.passcode);
  }

  datatype Event =
    | DoCreate(id: string, form: Form, clash: bool)
    | DoUpdate(id: string, form: Form, clash: bool)
    | DoRetire(id: string)

  // One dashboard request, its read and its write together.
  function Step(t: Table, e: Event): Table {
    match e
    case DoCreate(id, form, clash) =>
      (match FromForm(form, None)
       case None => t
       case Some(req) => Create(t, id, req, clash).0)
    case DoUpdate(id, form, clash) => if id in t then UpdateSeen(t, id, form, t[id], Get(t, id), clash) else t
    case DoRetire(id) => if id in t then t[id := t[id].(retired := true)] else t
  }

  lemma RetireStores(t: Table, id: string)
    ensures Step(t, DoRetire(id)) == if id in t then t[id := t[id].(retired := true)] else t
  {
  }

  function Run(t: Table, es: seq<Event>): Table
    decreases es
  {
    if es == [] then t else Run(Step(t, es[0]), es[1..])
  }

  ghost predicate Safe(t: Table) {
    forall id :: id in t && t[id].kioskMode ==> Configured(t[id].restrictions)
  }

  // The dashboard never writes a hash.
  ghost predicate PasscodesOnly(t: Table) {
    forall id :: id in t ==> t[id].restrictions.passcodeHash == ""
  }

  // --- The merge ---------------------------------------------------------------------------

  // The merge keeps every other new restriction, and its result is configured exactly when the
  // form gave a passcode or the old document was configured: a hash in the new document is lost.
  lemma MergeKeeps(current: Restrictions, updated: Restrictions)
    ensures var r := Merge(current, updated);
            && r == updated.(passcode := r.passcode, passcodeHash := r.passcodeHash)
            && (Configured(r) <==> Text.TrimSpace(updated.passcode) != "" || Configured(current))
  {
    Text.TrimIdempotent(current.passcode);
    Text.TrimIdempotent(current.passcodeHash);
  }

  // policySnapshotRestrictions: the hash a device is given, "" when there is none.
  function DeviceHash(h: string -> string, r: Restrictions): string {
    var hash := Text.TrimSpace(r.passcodeHash);
    if hash != "" then hash
    else if Text.TrimSpace(r.passcode) != "" then h(Text.TrimSpace(r.passcode))
    else ""
  }

  // An update that leaves the passcode blank keeps the device's exit code, exactly unless the old
  // document holds both a passcode and a hash that is not that passcode's.
  lemma MergeKeepsDeviceHash(h: string -> string, current: Restrictions, updated: Restrictions)
    requires !Configured(updated)
    ensures DeviceHash(h, Merge(current, updated)) == DeviceHash(h, current) <==>
            (Text.TrimSpace(current.passcode) == "" || Text.TrimSpace(current.passcodeHash) == "" ||
             h(Text.TrimSpace(current.passcode)) == Text.TrimSpace(current.passcodeHash))
  {
    Text.TrimIdempotent(current.passcode);
    Text.TrimIdempotent(current.passcodeHash);
  }

  // --- Safety ------------------------------------------------------------------------------

  // The one way to lose the passcode: the dashboard lets a blank passcode through because the
  // policy was in kiosk mode when it looked, and the store does not merge because it no longer was.
  predicate Loses(form: Form, seen: Policy, read: Option<Policy>) {
    form.kioskMode && Text.TrimSpace(form.passcode) == "" && seen.kioskMode && read.Some? && !read.value.kioskMode
  }

  predicate ConfiguredIfKiosk(p: Option<Policy>) {
    p.Some? && p.value.kioskMode ==> Configured(p.value.restrictions)
  }

  // What was stored is configured, where kiosk mode needs it, exactly unless the passcode is lost.
  lemma StoredConfigured(form: Form, seen: Policy, read: Option<Policy>)
    requires ConfiguredIfKiosk(read) && (form.kioskMode ==> read.Some?) && FromForm(form, Some(seen)).Some?
    ensures var req := FromForm(form, Some(seen)).value;
            (req.kioskMode ==> Configured(Stored(read, req))) <==> !Loses(form, seen, read)
  {
    Text.TrimIdempotent(form.passcode);
    var req := FromForm(form, Some(seen)).value;
    if read.Some? { MergeKeeps(read.value.restrictions, req.restrictions); }
  }

  // One update of a safe table, decided on two readings of the policy that may both be out of
  // date: whatever the row is by now, the table stays safe exactly unless the passcode is lost.
  lemma UpdateSeenSafe(t: Table, id: string, form: Form, seen: Policy, read: Option<Policy>)
    requires Safe(t) && id in t && Text.TrimSpace(form.name) != "" && ConfiguredIfKiosk(read)
    ensures Safe(UpdateSeen(t, id, form, seen, read, false)) <==> !Loses(form, seen, read)
  {
    Text.TrimIdempotent(form.passcode);
    var t' := UpdateSeen(t, id, form, seen, read, false);
    var req := FromForm(form, Some(seen));
    if req.Some? && !(form.kioskMode && read.None?) {
      StoredConfigured(form, seen, read);
      WriteSafe(t, t', id);
    }
  }

  lemma WriteSafe(t: Table, t': Table, id: string)
    requires Safe(t) && id in t && id in t' && t'.Keys == t.Keys && forall x :: x in t && x != id ==> t'[x] == t[x]
    ensures Safe(t') <==> (t'[id].kioskMode ==> Configured(t'[id].restrictions))
  {
  }

  lemma CreateSafe(t: Table, id: string, form: Form, clash: bool)
    requires Safe(t)
    ensures Safe(Step(t, DoCreate(id, form, clash)))
  {
    Text.TrimIdempotent(form.passcode);
  }

  lemma StepSafe(t: Table, e: Event)
    requires Safe(t)
    ensures Safe(Step(t, e))
  {
    match e
    case DoCreate(id, form, clash) => CreateSafe(t, id, form, clash);
    case DoUpdate(id, form, clash) =>
      if id in t && !clash && Text.TrimSpace(form.name) != "" { UpdateSeenSafe(t, id, form, t[id], Some(t[id])); }
    case DoRetire(id) =>
  }

  lemma RowPasscodesOnly(t: Table, id: string, p: Policy)
    requires PasscodesOnly(t) && p.restrictions.passcodeHash == ""
    ensures PasscodesOnly(t[id := p])
  {
  }

  lemma UpdatePasscodesOnly(t: Table, id: string, form: Form, clash: bool)
    requires PasscodesOnly(t) && id in t
    ensures PasscodesOnly(UpdateSeen(t, id, form, t[id], Some(t[id]), clash))
  {
    var t' := UpdateSeen(t, id, form, t[id], Some(t[id]), clash);
    if t' != t {
      StoredHash(t, id, form);
      RowPasscodesOnly(t, id, t'[id]);
    }
  }

  lemma StepPasscodesOnly(t: Table, e: Event)
    requires PasscodesOnly(t)
    ensures PasscodesOnly(Step(t, e))
  {
    match e
    case DoCreate(id, form, clash) =>
    case DoUpdate(id, form, clash) => if id in t { UpdatePasscodesOnly(t, id, form, clash); }
    case DoRetire(id) => if id in t { RowPasscodesOnly(t, id, t[id].(retired := true)); }
  }

  lemma StoredHash(t: Table, id: string, form: Form)
    requires PasscodesOnly(t) && id in t && FromForm(form, Some(t[id])).Some?
    ensures Stored(Some(t[id]), FromForm(form, Some(t[id])).value).passcodeHash == ""
  {
    assert Text.TrimSpace("") == "";
  }

  lemma {:induction false} RunSafe(t: Table, es: seq<Event>)
    requires Safe(t) && PasscodesOnly(t)
    ensures Safe(Run(t, es)) && PasscodesOnly(Run(t, es))
    decreases es
  {
    if es != [] {
      StepSafe(t, es[0]);
      StepPasscodesOnly(t, es[0]);
      RunSafe(Step(t, es[0]), es[1..]);
    }
  }

  // Over every sequence of atomic dashboard requests: a kiosk policy always has an exit passcode,
  // and the snapshot sent to devices then carries a non-empty hash.
  lemma KioskSafety(h: string -> string, es: seq<Event>, id: string)
    requires forall s :: h(s) != ""
    requires id in Run(map[], es) && Run(map[], es)[id].kioskMode
    ensures Configured(Run(map[], es)[id].restrictions) && DeviceHash(h, Run(map[], es)[id].restrictions) != ""
  {
    RunSafe(map[], es);
  }

  // An update with a blank passcode, in an atomic run, does not change the code that devices ask for.
  lemma BlankKeepsCode(h: string -> string, es: seq<Event>, id: string, form: Form)
    requires var t := Run(map[], es);
             id in t && t[id].kioskMode && form.kioskMode && Text.TrimSpace(form.passcode) == "" &&
             Text.TrimSpace(form.name) != ""
    ensures var t := Run(map[], es);
            var t' := Step(t, DoUpdate(id, form, false));
            id in t' && t'[id].kioskMode && t'[id].version == t[id].version + 1 &&
            DeviceHash(h, t'[id].restrictions) == DeviceHash(h, t[id].restrictions)
  {
    var t := Run(map[], es);
    RunSafe(map[], es);
    Text.TrimIdempotent(form.name);
    Text.TrimIdempotent(form.passcode);
    var req := FromForm(form, Some(t[id])).value;
    MergeKeepsDeviceHash(h, t[id].restrictions, req.restrictions);
  }

  // --- Requests that interleave ------------------------------------------------------------

  // An update reads the policy twice, at two earlier moments of the table's history.
  datatype Request =
    | Creating(id: string, form: Form, clash: bool)
    | Updating(id: string, form: Form, clash: bool, seenAt: nat, readAt: nat)
    | Retiring(id: string)

  function Serve(past: seq<Table>, r: Request): Table
    requires past != []
  {
    var t := past[|past| - 1];
    match r
    case Creating(id, form, clash) => Step(t, DoCreate(id, form, clash))
    case Retiring(id) => Step(t, DoRetire(id))
    case Updating(id, form, clash, seenAt, readAt) =>
      if seenAt <= readAt < |past| && id in past[seenAt]
      then UpdateSeen(t, id, form, past[seenAt][id], Get(past[readAt], id), clash) else t
  }

  // Every state of the table under a sequence of writes.
  function History(rs: seq<Request>): (h: seq<Table>)
    ensures |h| == |rs| + 1
  {
    if rs == [] then [map[]]
    else
      var past := History(rs[..|rs| - 1]);
      past + [Serve(past, rs[|rs| - 1])]
  }

  predicate LosesAt(past: seq<Table>, r: Request)
    requires past != []
  {
    r.Updating? && !r.clash && Text.TrimSpace(r.form.name) != "" && r.id in past[|past| - 1] &&
    r.seenAt <= r.readAt < |past| && r.id in past[r.seenAt] &&
    Loses(r.form, past[r.seenAt][r.id], Get(past[r.readAt], r.id))
  }

  ghost predicate AllSafe(h: seq<Table>) {
    forall k :: 0 <= k < |h| ==> Safe(h[k])
  }

  predicate LosesStep(rs: seq<Request>, n: nat)
    requires n < |rs|
  {
    LosesAt(History(rs[..n]), rs[n])
  }

  ghost predicate NoneLoses(rs: seq<Request>) {
    forall n :: 0 <= n < |rs| ==> !LosesStep(rs, n)
  }

  lemma ServeSafe(past: seq<Table>, r: Request)
    requires past != [] && AllSafe(past)
    ensures Safe(Serve(past, r)) <==> !LosesAt(past, r)
  {
    var t := past[|past| - 1];
    match r
    case Creating(id, form, clash) => CreateSafe(t, id, form, clash);
    case Retiring(id) =>
    case Updating(id, form, clash, seenAt, readAt) =>
      if seenAt <= readAt < |past| && id in past[seenAt] && id in t && !clash && Text.TrimSpace(form.name) != "" {
        assert Safe(past[readAt]);
        UpdateSeenSafe(t, id, form, past[seenAt][id], Get(past[readAt], id));
      }
  }

  lemma AllSafeSnoc(past: seq<Table>, t: Table)
    ensures AllSafe(past + [t]) <==> AllSafe(past) && Safe(t)
  {
    var h := past + [t];
    assert h[|past|] == t;
    assert forall k :: 0 <= k < |past| ==> h[k] == past[k];
  }

  lemma SameStep(rs: seq<Request>, k: nat)
    requires k < |rs| - 1
    ensures LosesStep(rs[..|rs| - 1], k) == LosesStep(rs, k)
  {
    assert rs[..|rs| - 1][..k] == rs[..k];
  }

  lemma NoneLosesSnoc(rs: seq<Request>)
    requires rs != []
    ensures var n := |rs| - 1; NoneLoses(rs) <==> NoneLoses(rs[..n]) && !LosesStep(rs, n)
  {
    var n := |rs| - 1;
    forall k | 0 <= k < n ensures LosesStep(rs[..n], k) == LosesStep(rs, k) { SameStep(rs, k); }
  }

  // Over every interleaving of dashboard requests: the table is safe at every moment exactly
  // when no update loses the passcode.
  lemma {:induction false} InterleavedSafeIff(rs: seq<Request>)
    ensures AllSafe(History(rs)) <==> NoneLoses(rs)
  {
    if rs != [] {
      var n := |rs| - 1;
      var past := History(rs[..n]);
      InterleavedSafeIff(rs[..n]);
      AllSafeSnoc(past, Serve(past, rs[n]));
      NoneLosesSnoc(rs);
      if AllSafe(past) { ServeSafe(past, rs[n]); }
    }
  }

  const ON := Form("p", true, "", [], [], [], false, false, false, "1234")
  const OFF := Form("p", false, "", [], [], [], false, false, false, "")
  const BLANK := Form("p", true, "", [], [], [], false, false, false, "")

  lemma HistoryNext(rs: seq<Request>, r: Request)
    ensures History(rs + [r]) == History(rs) + [Serve(History(rs), r)]
  {
    assert (rs + [r])[..|rs|] == rs;
  }

  lemma LossShows(rs: seq<Request>, r: Request)
    requires LosesAt(History(rs), r)
    ensures !AllSafe(History(rs + [r]))
  {
    assert (rs + [r])[..|rs|] == rs;
    assert LosesStep(rs + [r], |rs|);
    InterleavedSafeIff(rs + [r]);
  }

  const TURNED_OFF := [Creating("id", ON, false), Updating("id", OFF, false, 1, 1)]
  const BACK_ON := Updating("id", ON, false, 2, 2)
  const TOO_LATE := Updating("id", BLANK, false, 1, 2)

  // An update that the dashboard checked against a kiosk policy just before another request
  // turned kiosk mode off leaves a kiosk policy without any passcode.
  lemma StaleReadLosesPasscode()
    ensures LosesAt(History(TURNED_OFF), TOO_LATE) && !AllSafe(History(TURNED_OFF + [TOO_LATE]))
  {
    TurnedOff();
    LossShows(TURNED_OFF, TOO_LATE);
  }

  // So does one whose own SELECT ran while kiosk mode was off, even if it is on again, with a
  // passcode, by the time of the UPDATE.
  lemma SelectRaceLosesPasscode()
    ensures var rs := TURNED_OFF + [BACK_ON];
            && "id" in History(rs)[3] && History(rs)[3]["id"].kioskMode
            && LosesAt(History(rs), TOO_LATE) && !AllSafe(History(rs + [TOO_LATE]))
  {
    TurnedOff();
    HistoryNext(TURNED_OFF, BACK_ON);
    LossShows(TURNED_OFF + [BACK_ON], TOO_LATE);
  }

  lemma Trimmed()
    ensures Text.TrimSpace("p") == "p" && Text.TrimSpace("") == "" && Text.TrimSpace("1234") == "1234"
  {
  }

  lemma TurnedOn()
    ensures var h := History([Creating("id", ON, false)]); |h| == 2 && "id" in h[1] && h[1]["id"].kioskMode
  {
    Trimmed();
    HistoryNext([], Creating("id", ON, false));
    assert [] + [Creating("id", ON, false)] == [Creating("id", ON, false)];
  }

  // Kiosk mode on, then off.
  lemma TurnedOff()
    ensures var h := History(TURNED_OFF);
            && |h| == 3 && "id" in h[1] && h[1]["id"].kioskMode && "id" in h[2] && !h[2]["id"].kioskMode
    ensures Text.TrimSpace("p") == "p" && Text.TrimSpace("") == "" && Text.TrimSpace("1234") == "1234"
  {
    Trimmed();
    TurnedOn();
    var one, two := Creating("id", ON, false), Updating("id", OFF, false, 1, 1);
    assert [one] + [two] == TURNED_OFF;
    HistoryNext([one], two);
  }

  // --- The store object --------------------------------------------------------------------

  class Store {
    var policies: Table

    constructor ()
      ensures policies == map[]
    {
      policies := map[];
    }

    method CreatePolicy(id: string, req: Upsert, clash: bool) returns (r: Outcome<string>)
      modifies this
      ensures (policies, r) == Create(old(policies), id, req, clash)
      ensures r.Ok? ==> policies.Keys == old(policies).Keys + {r.value} && r.value !in old(policies)
      ensures r.Ok? && Safe(old(policies)) ==> (Safe(policies) <==> (req.kioskMode ==> Configured(req.restrictions)))
    {
      if req.name == "" { return Err(InvalidInput); }
      if clash || id in policies { return Err(Conflict); }
      policies := policies[id := Policy(req.name, 1, req.kioskMode, req.app, req.restrictions, false)];
      return Ok(id);
    }

    // UpdatePolicy: `meanwhile` is what other requests have made of the table between its
    // SELECT and its UPDATE.
    method UpdatePolicy(id: string, req: Upsert, clash: bool, meanwhile: Table) returns (r: Outcome<string>)
      modifies this
      ensures req.name == "" || (req.kioskMode && id !in old(policies)) ==> policies == old(policies) && r.Err?
      ensures !(req.name == "" || (req.kioskMode && id !in old(policies))) ==>
        (policies, r) == Update(meanwhile, id, Get(old(policies), id), req, clash)
      ensures r.Ok? && req.kioskMode && ConfiguredIfKiosk(Get(old(policies), id)) ==>
        old(policies)[id].kioskMode || Configured(req.restrictions) ==> Configured(policies[id].restrictions)
    {
      if req.name == "" { return Err(InvalidInput); }
      var restrictions := req.restrictions;
      if req.kioskMode {
        if id !in policies { return Err(NotFound); }
        if policies[id].kioskMode && !Configured(restrictions) {
          MergeKeeps(policies[id].restrictions, restrictions);
          restrictions := Merge(policies[id].restrictions, restrictions);
        }
      }
      policies := meanwhile;
      if id !in policies { return Err(NotFound); }
      if clash { return Err(Conflict); }
      var p := policies[id];
      policies := policies[id := p.(name := req.name, version := p.version + 1, kioskMode := req.kioskMode,
                                    app := req.app, restrictions := restrictions)];
      return Ok(id);
    }
  }
}
