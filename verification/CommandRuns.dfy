// Whole runs of the commands table: rows only move forward, the first acknowledgement wins,
// and expiry sweeps cannot be noticed by a device.
module CommandRuns {
  import opened Wrappers
  import opened Sorting
  import opened CommandTable
  import Pagination

  // --- Events and runs ---------------------------------------------------------------------

  // `skew` is the time between the two clock readings of one operation, negative where the clock
  // steps back. ListPending is two statements without a transaction, EvSweepDevice and EvSelect,
  // with anything in between.
  datatype Event =
    | EvEnqueue(tenant: string, targets: Outcome<seq<string>>, req: Request, ids: seq<string>)
    | EvMarkSent(tenant: string, device: string, id: string)
    | EvAck(tenant: string, device: string, id: string, ack: Ack, skew: int)
    | EvPoll(tenant: string, device: string)
    | EvSelect(tenant: string, device: string, page: Pagination.Params)
    | EvSweepTenant(tenant: string)
    | EvSweepDevice(tenant: string, device: string)

  datatype Stamped = At(now: Time, ev: Event)

  // What the caller of an operation is told. Sweeps and markSent answer no device.
  datatype Reply = Silent | Rows(rows: Outcome<seq<Row>>) | One(row: Outcome<Row>)

  predicate WellFormed(ev: Event) {
    ev.EvEnqueue? && ev.targets.Ok? ==> |ev.ids| == |ev.targets.value|
  }

  predicate IsSweep(ev: Event) { ev.EvSweepTenant? || ev.EvSweepDevice? }

  function Step(t: Table, e: Stamped): (Table, Reply)
    requires WellFormed(e.ev)
  {
    match e.ev
    case EvEnqueue(tenant, targets, req, ids) =>
      var p := Enqueue(t, tenant, targets, req, ids, e.now); (p.0, Rows(p.1))
    case EvMarkSent(tenant, device, id) => (MarkSent(t, tenant, device, id, e.now), Silent)
    case EvAck(tenant, device, id, ack, skew) =>
      var p := Acknowledge(t, tenant, device, id, ack, e.now, e.now + skew); (p.0, One(p.1))
    case EvPoll(tenant, device) => (t, Rows(ListPendingForDevice(t, tenant, device, e.now)))
    case EvSelect(tenant, device, page) => (t, Rows(SelectPage(t, tenant, device, page, e.now)))
    case EvSweepTenant(tenant) => (SweepTenant(t, tenant, e.now), Silent)
    case EvSweepDevice(tenant, device) => (SweepDevice(t, tenant, device, e.now), Silent)
  }

  predicate AllWellFormed(es: seq<Stamped>) {
    forall e :: e in es ==> WellFormed(e.ev)
  }

  function Final(t: Table, es: seq<Stamped>): Table
    requires AllWellFormed(es)
    decreases es
  {
    if es == [] then t else Final(Step(t, es[0]).0, es[1..])
  }

  // The replies of a run, one per event that is not a sweep.
  function Replies(t: Table, es: seq<Stamped>): seq<Reply>
    requires AllWellFormed(es)
    decreases es
  {
    if es == [] then []
    else
      var (t', reply) := Step(t, es[0]);
      (if IsSweep(es[0].ev) then [] else [reply]) + Replies(t', es[1..])
  }

  // --- Rows only move forward --------------------------------------------------------------

  predicate SameCommand(a: Row, b: Row) {
    a.id == b.id && a.tenant == b.tenant && a.device == b.device && a.kind == b.kind &&
    a.payload == b.payload && a.expiresAt == b.expiresAt && a.createdAt == b.createdAt
  }

  // b is a later state of a: queued, then sent, then one terminal state for ever.
  predicate RowEvolves(a: Row, b: Row) {
    SameCommand(a, b) && (Terminal(a) ==> a == b) && (a.status.Sent? ==> !b.status.Queued?)
  }

  ghost predicate Evolves(t: Table, t': Table) {
    |t| <= |t'| && forall i :: 0 <= i < |t| ==> RowEvolves(t[i], t'[i])
  }

  // acked_at and the result are set exactly on acknowledged rows, in time.
  predicate RowOk(r: Row) {
    && (r.ackedAt.Some? <==> Finished(r))
    && (r.result.Some? <==> Finished(r))
    && (r.status.Acked? ==> r.result.Some? && r.result.value.status == "acked")
    && (r.status.Failed? ==> r.result.Some? && r.result.value.status == "failed")
    && (r.ackedAt.Some? && r.expiresAt.Some? ==> r.ackedAt.value < r.expiresAt.value)
  }

  ghost predicate TableOk(t: Table) {
    && (forall r :: r in t ==> RowOk(r))
    && (forall i, j :: 0 <= i < j < |t| ==> t[i].id != t[j].id)
  }

  // One statement's effect on one row, whatever the statement.
  predicate RowStep(a: Row, b: Row) {
    || a == b
    || (Pending(a) && b == a.(status := Expired, updatedAt := b.updatedAt))
    || (a.status.Queued? && b == a.(status := Sent, updatedAt := b.updatedAt))
    || (b.result.Some? && b.ackedAt.Some? && AckStatus(b.result.value).Some? && Live(a, b.ackedAt.value) &&
        b == AckRow(b.result.value, b.ackedAt.value)(a))
  }

  lemma AckPointwise(t: Table, tenant: string, device: string, id: string, req: Ack,
                     now: Time, sweepNow: Time)
    ensures var t' := Acknowledge(t, tenant, device, id, req, now, sweepNow).0;
            |t'| == |t| && forall i :: 0 <= i < |t| ==> RowStep(t[i], t'[i])
  {
    var t' := Acknowledge(t, tenant, device, id, req, now, sweepNow).0;
    if t' != t {
      var swept := SweepOne(t, tenant, device, id, sweepNow);
      forall i | 0 <= i < |t| ensures RowStep(t[i], t'[i]) {
        if Is(swept[i], tenant, device, id) && Live(swept[i], now) {
          assert swept[i] == t[i];
          assert t'[i] == AckRow(req, now)(t[i]);
        }
      }
    }
  }

  lemma StepPointwise(t: Table, e: Stamped)
    requires WellFormed(e.ev)
    ensures var t' := Step(t, e).0;
            |t| <= |t'| && forall i :: 0 <= i < |t| ==> RowStep(t[i], t'[i])
  {
    match e.ev
    case EvAck(tenant, device, id, ack, skew) =>
      AckPointwise(t, tenant, device, id, ack, e.now, e.now + skew);
    case _ =>
  }

  lemma StepEvolves(t: Table, e: Stamped)
    requires WellFormed(e.ev)
    ensures Evolves(t, Step(t, e).0)
  {
    StepPointwise(t, e);
  }

  lemma PointwiseOk(t: Table, t': Table)
    requires TableOk(t) && |t'| == |t|
    requires forall i :: 0 <= i < |t| ==> RowStep(t[i], t'[i])
    ensures TableOk(t')
  {
    forall r | r in t' ensures RowOk(r) {
      var i :| 0 <= i < |t'| && t'[i] == r;
      assert t[i] in t && RowStep(t[i], t'[i]);
    }
    forall i, j | 0 <= i < j < |t'| ensures t'[i].id != t'[j].id {
      assert RowStep(t[i], t'[i]) && RowStep(t[j], t'[j]);
    }
  }

  lemma EnqueueOk(t: Table, rows: seq<Row>, ids: seq<string>)
    requires TableOk(t) && FreshIds(t, ids) && |rows| == |ids|
    requires forall k :: 0 <= k < |rows| ==> rows[k].id == ids[k] && RowOk(rows[k])
    ensures TableOk(t + rows)
  {
    var t' := t + rows;
    forall i, j | 0 <= i < j < |t'| ensures t'[i].id != t'[j].id {
      if j >= |t| {
        assert rows[j - |t|].id == ids[j - |t|] && ids[j - |t|] in ids;
        if i < |t| { assert t[i] in t; }
        else { assert rows[i - |t|].id == ids[i - |t|]; }
      }
    }
  }

  lemma StepOk(t: Table, e: Stamped)
    requires WellFormed(e.ev) && TableOk(t)
    ensures TableOk(Step(t, e).0)
  {
    StepPointwise(t, e);
    var t' := Step(t, e).0;
    if |t'| == |t| {
      PointwiseOk(t, t');
    } else {
      var ev := e.ev;
      assert ev.EvEnqueue? && ev.targets.Ok?;
      EnqueueOk(t, NewRows(ev.tenant, ev.targets.value, ev.req, ev.ids, e.now), ev.ids);
    }
  }

  lemma EvolvesTransitive(a: Table, b: Table, c: Table)
    requires Evolves(a, b) && Evolves(b, c)
    ensures Evolves(a, c)
  {
    forall i | 0 <= i < |a| ensures RowEvolves(a[i], c[i]) {
      assert RowEvolves(a[i], b[i]) && RowEvolves(b[i], c[i]);
    }
  }

  // Every interleaving of every operation, with any clock.
  lemma {:induction false} RunEvolves(t: Table, es: seq<Stamped>)
    requires AllWellFormed(es)
    ensures Evolves(t, Final(t, es))
    ensures TableOk(t) ==> TableOk(Final(t, es))
    decreases es
  {
    if es != [] {
      StepEvolves(t, es[0]);
      var t' := Step(t, es[0]).0;
      if TableOk(t) { StepOk(t, es[0]); }
      RunEvolves(t', es[1..]);
      EvolvesTransitive(t, t', Final(t', es[1..]));
    }
  }

  lemma {:induction false} FindUnique(t: Table, tenant: string, device: string, id: string, i: int)
    requires TableOk(t) && 0 <= i < |t| && Is(t[i], tenant, device, id)
    ensures Find(t, tenant, device, id) == Some(t[i])
  {
    var r := Find(t, tenant, device, id);
    assert t[i] in t;
    var j :| 0 <= j < |t| && t[j] == r.value;
  }

  // The row that the transaction finds after its lazy expiry.
  lemma FindSwept(t: Table, tenant: string, device: string, id: string, sweepNow: Time, i: int)
    requires TableOk(t) && 0 <= i < |t| && Is(t[i], tenant, device, id)
    ensures Find(SweepOne(t, tenant, device, id, sweepNow), tenant, device, id) ==
            Some(if Pending(t[i]) && Due(t[i], sweepNow) then ExpireRow(sweepNow)(t[i]) else t[i])
  {
    var swept := SweepOne(t, tenant, device, id, sweepNow);
    PointwiseOk(t, swept);
    FindUnique(swept, tenant, device, id, i);
  }

  // An acknowledgement of an existing command is accepted exactly when the row is finished
  // already, or live at both clock readings; it then writes that row alone, and nothing otherwise.
  lemma AckOutcome(t: Table, tenant: string, device: string, id: string, req: Ack, now: Time, sweepNow: Time, i: int)
    requires TableOk(t) && 0 <= i < |t| && Is(t[i], tenant, device, id)
    requires tenant != "" && device != "" && id != "" && req.status in {"acked", "failed"}
    ensures var p := Acknowledge(t, tenant, device, id, req, now, sweepNow);
            if Finished(t[i]) then p == (t, Ok(t[i]))
            else if Live(t[i], now) && !Due(t[i], sweepNow)
            then
              && p.1.Ok? && p.0 == t[i := p.1.value]
              && p.1.value == t[i].(status := if req.status == "acked" then Acked else Failed, ackedAt := Some(now),
                                    result := Some(req), updatedAt := now)
            else p == (t, Err(NotFound))
  {
    FindSwept(t, tenant, device, id, sweepNow, i);
    if Live(t[i], now) && !Due(t[i], sweepNow) {
      var t' := Acknowledge(t, tenant, device, id, req, now, sweepNow).0;
      forall k | 0 <= k < |t| ensures t'[k] == t[i := AckRow(req, now)(t[i])][k] {
        if k < i { assert t[k].id != t[i].id; }
        if k > i { assert t[i].id != t[k].id; }
      }
    }
  }

  lemma AckUnknown(t: Table, tenant: string, device: string, id: string, req: Ack, now: Time, sweepNow: Time)
    requires forall r :: r in t ==> !Is(r, tenant, device, id)
    requires tenant != "" && device != "" && id != "" && req.status in {"acked", "failed"}
    ensures Acknowledge(t, tenant, device, id, req, now, sweepNow) == (t, Err(NotFound))
  {
    var swept := SweepOne(t, tenant, device, id, sweepNow);
    forall r | r in swept ensures !Is(r, tenant, device, id) {
      var k :| 0 <= k < |swept| && swept[k] == r;
      assert t[k] in t;
    }
  }

  // First ack wins: whatever happens in between, a later acknowledgement of the same command,
  // with whatever status, gets the record that the first one stored, and changes nothing.
  lemma FirstAckWins(t: Table, tenant: string, device: string, id: string, first: Ack,
                     now: Time, sweepNow: Time, es: seq<Stamped>, again: Ack, now2: Time, sweepNow2: Time)
    requires TableOk(t) && AllWellFormed(es)
    requires Acknowledge(t, tenant, device, id, first, now, sweepNow).1.Ok?
    requires again.status in {"acked", "failed"}
    ensures var (t1, rec) := Acknowledge(t, tenant, device, id, first, now, sweepNow);
            var t2 := Final(t1, es);
            Acknowledge(t2, tenant, device, id, again, now2, sweepNow2) == (t2, rec)
  {
    var (t1, rec) := Acknowledge(t, tenant, device, id, first, now, sweepNow);
    var i := AckedIndex(t, tenant, device, id, first, now, sweepNow);
    RunEvolves(t1, es);
    var t2 := Final(t1, es);
    assert RowEvolves(t1[i], t2[i]);
    AckOutcome(t2, tenant, device, id, again, now2, sweepNow2, i);
  }

  lemma AckKeepsOk(t: Table, tenant: string, device: string, id: string, req: Ack, now: Time, sweepNow: Time)
    requires TableOk(t)
    ensures TableOk(Acknowledge(t, tenant, device, id, req, now, sweepNow).0)
  {
    AckPointwise(t, tenant, device, id, req, now, sweepNow);
    PointwiseOk(t, Acknowledge(t, tenant, device, id, req, now, sweepNow).0);
  }

  // A row that is live or finished was not swept.
  lemma NotSwept(t: Table, tenant: string, device: string, id: string, now: Time, sweepNow: Time, i: nat)
    requires i < |t|
    requires var r := SweepOne(t, tenant, device, id, sweepNow)[i]; Live(r, now) || Finished(r)
    ensures SweepOne(t, tenant, device, id, sweepNow)[i] == t[i]
  {
  }

  // A successful acknowledgement leaves its reply in the table, finished.
  lemma AckedIndex(t: Table, tenant: string, device: string, id: string, req: Ack,
                   now: Time, sweepNow: Time) returns (i: int)
    requires TableOk(t)
    requires Acknowledge(t, tenant, device, id, req, now, sweepNow).1.Ok?
    ensures var (t', rec) := Acknowledge(t, tenant, device, id, req, now, sweepNow);
            && TableOk(t') && 0 <= i < |t'| && t'[i] == rec.value
            && Is(t'[i], tenant, device, id) && Finished(t'[i])
            && (Live(t[i], now) ==> t'[i].result == Some(req) && t'[i].ackedAt == Some(now))
            && (!Live(t[i], now) ==> t' == t)
  {
    AckKeepsOk(t, tenant, device, id, req, now, sweepNow);
    var swept := SweepOne(t, tenant, device, id, sweepNow);
    var row := Find(swept, tenant, device, id).value;
    i :| 0 <= i < |swept| && swept[i] == row;
    NotSwept(t, tenant, device, id, now, sweepNow, i);
  }

  // --- Expiry sweeps cannot be noticed -----------------------------------------------------

  // No device operation at or after `now` can select this row any more.
  predicate Dead(r: Row, now: Time) { r.status.Expired? || (Pending(r) && Due(r, now)) }

  predicate RowSim(a: Row, b: Row, now: Time) {
    a == b || (Dead(a, now) && Dead(b, now) && b == a.(status := b.status, updatedAt := b.updatedAt))
  }

  // The tables differ only in whether overdue rows have been marked yet.
  ghost predicate Sim(t: Table, u: Table, now: Time) {
    |t| == |u| && forall i :: 0 <= i < |t| ==> RowSim(t[i], u[i], now)
  }

  lemma SweepSim(t: Table, u: Table, sel: Row -> bool, before: Time, now: Time)
    requires Sim(t, u, before) && before <= now
    requires forall r :: sel(r) ==> Pending(r) && Due(r, now)
    ensures Sim(Update(t, sel, ExpireRow(now)), u, now)
  {
    var t' := Update(t, sel, ExpireRow(now));
    forall i | 0 <= i < |t| ensures RowSim(t'[i], u[i], now) {
      assert RowSim(t[i], u[i], before);
    }
  }

  lemma {:induction false} SelectSim(t: Table, u: Table, tenant: string, device: string, before: Time, now: Time)
    requires Sim(t, u, before) && before <= now
    ensures Select(t, LiveFor(tenant, device, now)) == Select(u, LiveFor(tenant, device, now))
    decreases |t|
  {
    if t != [] {
      assert RowSim(t[0], u[0], before);
      forall i | 0 <= i < |t[1..]| ensures RowSim(t[1..][i], u[1..][i], before) {
        assert RowSim(t[i + 1], u[i + 1], before);
      }
      SelectSim(t[1..], u[1..], tenant, device, before, now);
    }
  }

  lemma FindSim(t: Table, u: Table, tenant: string, device: string, id: string, now: Time) returns (i: int)
    requires Sim(t, u, now) && TableOk(t) && TableOk(u)
    ensures Find(t, tenant, device, id).None? <==> Find(u, tenant, device, id).None?
    ensures Find(t, tenant, device, id).Some? ==>
      0 <= i < |t| && Find(t, tenant, device, id) == Some(t[i]) && Find(u, tenant, device, id) == Some(u[i])
  {
    if k :| 0 <= k < |t| && Is(t[k], tenant, device, id) {
      i := k;
      assert RowSim(t[k], u[k], now);
      FindUnique(t, tenant, device, id, k);
      FindUnique(u, tenant, device, id, k);
    } else {
      i := 0;
      forall x | x in u ensures !Is(x, tenant, device, id) {
        var k :| 0 <= k < |u| && u[k] == x;
        assert RowSim(t[k], u[k], now);
      }
    }
  }

  lemma SimLater(t: Table, u: Table, before: Time, now: Time)
    requires Sim(t, u, before) && before <= now
    ensures Sim(t, u, now)
  {
    forall i | 0 <= i < |t| ensures RowSim(t[i], u[i], now) { assert RowSim(t[i], u[i], before); }
  }

  lemma SweepOneSim(t: Table, u: Table, tenant: string, device: string, id: string, now: Time)
    requires Sim(t, u, now) && TableOk(t) && TableOk(u)
    ensures var ts, us := SweepOne(t, tenant, device, id, now), SweepOne(u, tenant, device, id, now);
            && Sim(ts, us, now) && TableOk(ts) && TableOk(us)
            && forall r :: (r in ts || r in us) && Is(r, tenant, device, id) ==> !(Pending(r) && Due(r, now))
  {
    var ts, us := SweepOne(t, tenant, device, id, now), SweepOne(u, tenant, device, id, now);
    PointwiseOk(t, ts);
    PointwiseOk(u, us);
    forall i | 0 <= i < |t| ensures RowSim(ts[i], us[i], now) { assert RowSim(t[i], u[i], now); }
  }

  // Acknowledgements answer alike and keep the tables alike.
  lemma AckSim(t: Table, u: Table, tenant: string, device: string, id: string, req: Ack,
               before: Time, now: Time, sweepNow: Time)
    requires Sim(t, u, before) && before <= now <= sweepNow && TableOk(t) && TableOk(u)
    ensures var p := Acknowledge(t, tenant, device, id, req, now, sweepNow);
            var q := Acknowledge(u, tenant, device, id, req, now, sweepNow);
            p.1 == q.1 && Sim(p.0, q.0, sweepNow)
  {
    SimLater(t, u, before, sweepNow);
    if tenant != "" && device != "" && id != "" && AckStatus(req).Some? {
      var ts, us := SweepOne(t, tenant, device, id, sweepNow), SweepOne(u, tenant, device, id, sweepNow);
      SweepOneSim(t, u, tenant, device, id, sweepNow);
      var k := FindSim(ts, us, tenant, device, id, sweepNow);
      if Find(ts, tenant, device, id).Some? {
        assert RowSim(ts[k], us[k], sweepNow);
        if Live(ts[k], now) {
          AckBothSim(ts, us, tenant, device, id, req, now, sweepNow);
        }
      }
    }
  }

  lemma AckBothSim(t: Table, u: Table, tenant: string, device: string, id: string, req: Ack,
                   now: Time, sweepNow: Time)
    requires Sim(t, u, sweepNow) && now <= sweepNow && AckStatus(req).Some?
    requires forall r :: (r in t || r in u) && Is(r, tenant, device, id) ==> !(Pending(r) && Due(r, sweepNow))
    ensures Sim(Update(t, r => Is(r, tenant, device, id) && Live(r, now), AckRow(req, now)),
                Update(u, r => Is(r, tenant, device, id) && Live(r, now), AckRow(req, now)), sweepNow)
  {
    var t' := Update(t, r => Is(r, tenant, device, id) && Live(r, now), AckRow(req, now));
    var u' := Update(u, r => Is(r, tenant, device, id) && Live(r, now), AckRow(req, now));
    forall i | 0 <= i < |t| ensures RowSim(t'[i], u'[i], sweepNow) {
      assert RowSim(t[i], u[i], sweepNow) && t[i] in t && u[i] in u;
    }
  }

  function EndOf(e: Stamped): Time {
    match e.ev
    case EvAck(_, _, _, _, skew) => e.now + skew
    case _ => e.now
  }

  lemma EnqueueSim(t: Table, u: Table, before: Time, e: Stamped)
    requires e.ev.EvEnqueue? && WellFormed(e.ev) && Sim(t, u, before) && before <= e.now
    ensures Step(t, e).1 == Step(u, e).1 && Sim(Step(t, e).0, Step(u, e).0, e.now)
  {
    var ids := e.ev.ids;
    forall i | 0 <= i < |t| ensures RowSim(t[i], u[i], e.now) && t[i].id == u[i].id {
      assert RowSim(t[i], u[i], before);
    }
    assert FreshIds(t, ids) <==> FreshIds(u, ids) by {
      if FreshIds(t, ids) {
        forall r, k | r in u && k in ids ensures r.id != k {
          var i :| 0 <= i < |u| && u[i] == r;
          assert t[i] in t;
        }
      }
      if FreshIds(u, ids) {
        forall r, k | r in t && k in ids ensures r.id != k {
          var i :| 0 <= i < |t| && t[i] == r;
          assert u[i] in u;
        }
      }
    }
  }

  lemma MarkSentSim(t: Table, u: Table, tenant: string, device: string, id: string, before: Time, now: Time)
    requires Sim(t, u, before) && before <= now
    ensures Sim(MarkSent(t, tenant, device, id, now), MarkSent(u, tenant, device, id, now), now)
  {
    var t', u' := MarkSent(t, tenant, device, id, now), MarkSent(u, tenant, device, id, now);
    forall i | 0 <= i < |t'| ensures RowSim(t'[i], u'[i], now) { assert RowSim(t[i], u[i], before); }
  }

  ghost predicate StepsAlike(t: Table, u: Table, e: Stamped)
    requires WellFormed(e.ev)
  {
    Step(t, e).1 == Step(u, e).1 && Sim(Step(t, e).0, Step(u, e).0, EndOf(e))
  }

  lemma StepAck(t: Table, e: Stamped)
    requires e.ev.EvAck?
    ensures var p := Acknowledge(t, e.ev.tenant, e.ev.device, e.ev.id, e.ev.ack, e.now, EndOf(e));
            Step(t, e) == (p.0, One(p.1))
  {
  }

  lemma PairsAlike(t: Table, u: Table, e: Stamped, p: (Table, Reply), q: (Table, Reply))
    requires WellFormed(e.ev) && Step(t, e) == p && Step(u, e) == q
    requires p.1 == q.1 && Sim(p.0, q.0, EndOf(e))
    ensures StepsAlike(t, u, e)
  {
  }

  lemma AckStepSim(t: Table, u: Table, before: Time, e: Stamped)
    requires e.ev.EvAck? && Sim(t, u, before) && before <= e.now <= EndOf(e) && TableOk(t) && TableOk(u)
    ensures StepsAlike(t, u, e)
  {
    var ev, end := e.ev, EndOf(e);
    AckSim(t, u, ev.tenant, ev.device, ev.id, ev.ack, before, e.now, end);
    StepAck(t, e);
    StepAck(u, e);
    var p := Acknowledge(t, ev.tenant, ev.device, ev.id, ev.ack, e.now, end);
    var q := Acknowledge(u, ev.tenant, ev.device, ev.id, ev.ack, e.now, end);
    PairsAlike(t, u, e, (p.0, One(p.1)), (q.0, One(q.1)));
  }

  lemma StepSim(t: Table, u: Table, before: Time, e: Stamped)
    requires WellFormed(e.ev) && Sim(t, u, before) && before <= e.now <= EndOf(e) && TableOk(t) && TableOk(u)
    requires !IsSweep(e.ev)
    ensures StepsAlike(t, u, e)
  {
    match e.ev
    case EvEnqueue(_, _, _, _) => EnqueueSim(t, u, before, e);
    case EvMarkSent(tenant, device, id) => MarkSentSim(t, u, tenant, device, id, before, e.now);
    case EvAck(_, _, _, _, _) => AckStepSim(t, u, before, e);
    case EvPoll(tenant, device) =>
      SelectSim(t, u, tenant, device, before, e.now);
      SimLater(t, u, before, e.now);
    case EvSelect(tenant, device, page) =>
      SelectSim(t, u, tenant, device, before, e.now);
      SimLater(t, u, before, e.now);
  }

  lemma SweepStepSim(t: Table, u: Table, before: Time, e: Stamped)
    requires IsSweep(e.ev) && Sim(t, u, before) && before <= e.now
    ensures Sim(Step(t, e).0, u, e.now)
  {
    match e.ev
    case EvSweepTenant(tenant) =>
      SweepSim(t, u, (r: Row) => r.tenant == tenant && Pending(r) && Due(r, e.now), before, e.now);
    case EvSweepDevice(tenant, device) =>
      SweepSim(t, u, r => ForDevice(r, tenant, device) && Pending(r) && Due(r, e.now), before, e.now);
  }

  function Erase(es: seq<Stamped>): (r: seq<Stamped>)
    ensures AllWellFormed(es) ==> AllWellFormed(r)
  {
    if es == [] then [] else (if IsSweep(es[0].ev) then [] else [es[0]]) + Erase(es[1..])
  }

  // The clock never goes back, within operations or between them.
  predicate Monotone(es: seq<Stamped>, from: Time) {
    es == [] || (from <= es[0].now <= EndOf(es[0]) && Monotone(es[1..], EndOf(es[0])))
  }

  lemma {:induction false} RunSim(t: Table, u: Table, from: Time, es: seq<Stamped>)
    requires AllWellFormed(es) && Monotone(es, from)
    requires Sim(t, u, from) && TableOk(t) && TableOk(u)
    ensures Replies(t, es) == Replies(u, Erase(es))
    decreases es
  {
    if es != [] {
      var e, rest := es[0], es[1..];
      var t' := Step(t, e).0;
      StepOk(t, e);
      if IsSweep(e.ev) {
        SweepStepSim(t, u, from, e);
        RunSim(t', u, EndOf(e), rest);
        assert Erase(es) == Erase(rest);
      } else {
        StepSim(t, u, from, e);
        StepOk(u, e);
        var u' := Step(u, e).0;
        RunSim(t', u', EndOf(e), rest);
        assert Erase(es) == [e] + Erase(rest);
        assert Erase(es)[1..] == Erase(rest);
      }
    }
  }

  // Two runs that differ only in the expiry sweeps inserted into them give every device the
  // same answers.
  lemma SweepsUnobservable(t: Table, from: Time, es: seq<Stamped>, fs: seq<Stamped>)
    requires AllWellFormed(es) && AllWellFormed(fs) && Monotone(es, from) && Monotone(fs, from)
    requires TableOk(t) && Erase(es) == Erase(fs)
    ensures Replies(t, es) == Replies(t, fs)
  {
    RunSim(t, t, from, es);
    RunSim(t, t, from, fs);
  }

  // --- Pages of ListPending ----------------------------------------------------------------

  // Whatever page is asked for, ListPending's own sweep neither shows in it nor shifts later pages.
  lemma PageIsSlice(t: Table, tenant: string, device: string, page: Pagination.Params, now: Time, selectNow: Time)
    requires tenant != "" && device != "" && now <= selectNow
    ensures var p := ListPending(t, tenant, device, page, now, selectNow);
            && p.1 == Ok(Pagination.StorePage(PendingRows(t, tenant, device, selectNow), page, PAGE_CAP))
            && PendingRows(p.0, tenant, device, selectNow) == PendingRows(t, tenant, device, selectNow)
  {
    var t' := SweepDevice(t, tenant, device, now);
    assert Sim(t, t, now);
    SweepSim(t, t, r => ForDevice(r, tenant, device) && Pending(r) && Due(r, now), now, now);
    SelectSim(t', t, tenant, device, now, selectNow);
  }

  // One call of ListPending for the page at an offset: the table after it, and the page.
  function PageOf(tenant: string, device: string, limit: nat, now: Time): (Table, nat) -> (Table, seq<Row>) {
    (t: Table, offset: nat) =>
      var p := ListPending(t, tenant, device, Pagination.Params(limit, offset), now, now);
      (p.0, if p.1.Ok? then p.1.value else [])
  }

  // Asking for consecutive pages at one instant, each call sweeping the table first.
  function PendingPages(t: Table, tenant: string, device: string, limit: nat, now: Time): seq<Row>
    requires limit >= 1
  {
    Pagination.Browse(PageOf(tenant, device, limit, now), |PendingRows(t, tenant, device, now)|, t, limit, 0)
  }

  // Rows of one page: the store clips the limit to its cap.
  function Shown(limit: nat): nat { if limit <= PAGE_CAP then limit else PAGE_CAP }

  lemma PageShows(t: Table, tenant: string, device: string, limit: nat, offset: nat, now: Time)
    requires tenant != "" && device != "" && limit >= 1
    ensures var p := PageOf(tenant, device, limit, now)(t, offset);
            && PendingRows(p.0, tenant, device, now) == PendingRows(t, tenant, device, now)
            && p.1 == Pagination.Slice(PendingRows(t, tenant, device, now), Shown(limit), offset)
  {
    var page := Pagination.Params(limit, offset);
    PageIsSlice(t, tenant, device, page, now, now);
    assert Pagination.Normalize(page, Pagination.DEFAULT_LIMIT, PAGE_CAP) == Pagination.Params(Shown(limit), offset);
  }

  // The pages of ListPending, end to end, are ListPendingForDevice at the same instant exactly
  // when the page size is within the cap or one page holds all rows.
  lemma PagesArePoll(t: Table, tenant: string, device: string, limit: nat, now: Time)
    requires tenant != "" && device != "" && limit >= 1
    ensures Ok(PendingPages(t, tenant, device, limit, now)) == ListPendingForDevice(t, tenant, device, now) <==>
            limit <= PAGE_CAP || |PendingRows(t, tenant, device, now)| <= PAGE_CAP
  {
    var rows := PendingRows(t, tenant, device, now);
    var page := PageOf(tenant, device, limit, now);
    var same := (u: Table) => PendingRows(u, tenant, device, now) == rows;
    forall u, o: nat ensures Pagination.ServesAt(page, same, rows, Shown(limit), u, o) {
      PageShows(u, tenant, device, limit, o, now);
    }
    Pagination.BrowseGives(page, same, rows, Shown(limit), t, limit, 0);
    Pagination.AllPagesIff(rows, Shown(limit), limit);
  }

  lemma {:induction false} SelectCounts(t: Table, sel: Row -> bool, r: Row)
    ensures multiset(Select(t, sel))[r] == if sel(r) then multiset(t)[r] else 0
  {
    if t != [] {
      SelectCounts(t[1..], sel, r);
      assert t == [t[0]] + t[1..];
    }
  }

  // A poll returns exactly the device's live rows, each once, oldest first.
  lemma PollExact(t: Table, tenant: string, device: string, now: Time, r: Row)
    ensures Sorted(RowLeq, PendingRows(t, tenant, device, now))
    ensures multiset(PendingRows(t, tenant, device, now))[r] ==
            if ForDevice(r, tenant, device) && Live(r, now) then multiset(t)[r] else 0
    ensures r in PendingRows(t, tenant, device, now) <==> r in t && ForDevice(r, tenant, device) && Live(r, now)
  {
    RowOrder();
    var picked := Select(t, LiveFor(tenant, device, now));
    SelectCounts(t, LiveFor(tenant, device, now), r);
    SortSorted(RowLeq, picked);
    assert multiset(Sort(RowLeq, picked)) == multiset(picked);
    assert r in PendingRows(t, tenant, device, now) <==> multiset(Sort(RowLeq, picked))[r] > 0;
    assert r in t <==> multiset(t)[r] > 0;
  }
}
