// What the operations on the commands table mean for their callers, column by column and without
// the statements they are made of (server/internal/commands/postgres/store.go).
module CommandOutcomes {
  import opened Wrappers
  import opened CommandTable
  import opened CommandRuns
  import Lexicographic
  import Pagination

  // --- Enqueue -----------------------------------------------------------------------------

  lemma FreshMeans(t: Table, ids: seq<string>)
    ensures FreshIds(t, ids) <==>
            (forall i, j :: 0 <= i < j < |ids| ==> ids[i] != ids[j]) &&
            (forall i, k :: 0 <= i < |t| && 0 <= k < |ids| ==> t[i].id != ids[k])
  {
    if forall i, k :: 0 <= i < |t| && 0 <= k < |ids| ==> t[i].id != ids[k] {
      forall r, k | r in t && k in ids ensures r.id != k {
        var i :| 0 <= i < |t| && t[i] == r;
        var j :| 0 <= j < |ids| && ids[j] == k;
        assert t[i].id != ids[j];
      }
    }
    if FreshIds(t, ids) {
      forall i, k | 0 <= i < |t| && 0 <= k < |ids| ensures t[i].id != ids[k] { assert t[i] in t && ids[k] in ids; }
    }
  }

  // Every target gets one row that holds exactly what was asked for.
  lemma EnqueueOutcome(t: Table, tenant: string, targets: Outcome<seq<string>>, req: Request, ids: seq<string>,
                       now: Time)
    requires targets.Ok? ==> |ids| == |targets.value|
    ensures var (t', r) := Enqueue(t, tenant, targets, req, ids, now);
            && (r.Ok? ==> targets.Ok? && t' == t + r.value && |r.value| == |targets.value|)
            && (r.Ok? ==> forall k :: 0 <= k < |r.value| ==>
                  r.value[k] == Row(ids[k], tenant, targets.value[k], req.kind, req.payload, Queued, req.expiresAt,
                                    None, None, now, now))
            && (r.Err? ==> t' == t)
  {
  }

  // When it succeeds, and what it answers otherwise.
  lemma EnqueueSucceeds(t: Table, tenant: string, targets: Outcome<seq<string>>, req: Request, ids: seq<string>,
                        now: Time)
    requires targets.Ok? ==> |ids| == |targets.value|
    ensures var r := Enqueue(t, tenant, targets, req, ids, now).1;
            if tenant == "" || req.kind == "" then r == Err(InvalidInput)
            else if targets.Err? then r == Err(targets.error)
            else if exists i, j :: 0 <= i < j < |ids| && ids[i] == ids[j] then r == Err(Conflict)
            else if exists i, k :: 0 <= i < |t| && 0 <= k < |ids| && t[i].id == ids[k] then r == Err(Conflict)
            else if targets.value == [] then r == Err(NotFound)
            else r.Ok?
  {
    FreshMeans(t, ids);
  }

  // --- Acknowledge -------------------------------------------------------------------------

  // The row reads as the request says: acked exactly for "acked", failed exactly for "failed".
  lemma AckStores(t: Table, tenant: string, device: string, id: string, req: Ack, now: Time, sweepNow: Time, i: nat)
    requires TableOk(t) && i < |t| && Is(t[i], tenant, device, id) && tenant != "" && device != "" && id != ""
    ensures var (t', r) := Acknowledge(t, tenant, device, id, req, now, sweepNow);
            var live := (t[i].status.Queued? || t[i].status.Sent?) && (t[i].expiresAt.Some? ==>
                          now < t[i].expiresAt.value && sweepNow < t[i].expiresAt.value);
            if req.status != "acked" && req.status != "failed" then (t', r) == (t, Err(InvalidInput))
            else if t[i].status.Acked? || t[i].status.Failed? then (t', r) == (t, Ok(t[i]))
            else if live then
              && t' == t[i := t[i].(status := if req.status == "acked" then Acked else Failed, ackedAt := Some(now),
                                    result := Some(req), updatedAt := now)]
              && r == Ok(t'[i])
            else (t', r) == (t, Err(NotFound))
  {
    if req.status == "acked" || req.status == "failed" { AckOutcome(t, tenant, device, id, req, now, sweepNow, i); }
  }

  // --- Polls -------------------------------------------------------------------------------

  // A poll returns a row exactly while it is queued or sent and not past its expiry, oldest first.
  lemma PollMeans(t: Table, tenant: string, device: string, now: Time)
    requires tenant != "" && device != ""
    ensures var r := ListPendingForDevice(t, tenant, device, now);
            && r.Ok?
            && (forall x :: x in r.value <==>
                  x in t && x.tenant == tenant && x.device == device && (x.status.Queued? || x.status.Sent?) &&
                  (x.expiresAt.None? || now < x.expiresAt.value))
            && (forall i, j :: 0 <= i < j < |r.value| ==>
                  r.value[i].createdAt < r.value[j].createdAt ||
                  (r.value[i].createdAt == r.value[j].createdAt && Lexicographic.Leq(r.value[i].id, r.value[j].id)))
  {
    forall x ensures x in PendingRows(t, tenant, device, now) <==>
        x in t && ForDevice(x, tenant, device) && Live(x, now)
    {
      PollExact(t, tenant, device, now, x);
    }
    if t != [] { PollExact(t, tenant, device, now, t[0]); }
  }

  // A page is a slice of that list: 25 rows unless asked for otherwise, 100 at most, from the first
  // row on for a negative offset.
  lemma PageMeans(t: Table, tenant: string, device: string, page: Pagination.Params, now: Time)
    requires tenant != "" && device != ""
    ensures var all := ListPendingForDevice(t, tenant, device, now);
            var limit := if page.limit <= 0 then 25 else if page.limit > 100 then 100 else page.limit;
            var from: nat := if page.offset < 0 then 0 else page.offset;
            && all.Ok?
            && SelectPage(t, tenant, device, page, now) ==
               Ok(if from >= |all.value| then []
                  else if from + limit >= |all.value| then all.value[from..]
                  else all.value[from..from + limit])
  {
    var rows := PendingRows(t, tenant, device, now);
    var limit: nat := if page.limit <= 0 then 25 else if page.limit > 100 then 100 else page.limit;
    var from: nat := if page.offset < 0 then 0 else page.offset;
    assert Pagination.Normalize(page, Pagination.DEFAULT_LIMIT, PAGE_CAP) == Pagination.Params(limit, from);
    Pagination.SliceIs(rows, limit, from);
  }

  // --- Sweeps ------------------------------------------------------------------------------

  // A sweep marks expired exactly the overdue rows in its reach, and changes nothing else.
  lemma SweepOutcome(t: Table, tenant: string, device: string, id: string, now: Time, i: nat)
    requires i < |t|
    ensures var due := (t[i].status.Queued? || t[i].status.Sent?) && t[i].expiresAt.Some? &&
                       t[i].expiresAt.value <= now;
            var expired := t[i].(status := Expired, updatedAt := now);
            && |SweepTenant(t, tenant, now)| == |t|
            && SweepTenant(t, tenant, now)[i] == (if t[i].tenant == tenant && due then expired else t[i])
            && |SweepDevice(t, tenant, device, now)| == |t|
            && SweepDevice(t, tenant, device, now)[i] ==
               (if t[i].tenant == tenant && t[i].device == device && due then expired else t[i])
  {
  }
}
