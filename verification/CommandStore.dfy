// The Store of server/internal/commands/postgres/store.go: an object over the commands table
// whose methods run the statements and commit or roll back. Clock readings, drawn uuids,
// resolved targets and the publisher's answers are parameters.
module CommandStore {
  import opened Wrappers
  import opened CommandTable
  import CommandOutcomes
  import CommandRuns
  import Pagination

  // What one iteration of publishEnqueued meets: the publisher's answer, the clock reading of
  // markSent, and whether that statement ran.
  datatype Publish = Publish(published: bool, now: Time, marked: bool)

  function AfterPublish(t: Table, items: seq<Row>, log: seq<Publish>): Table
    requires |log| == |items|
  {
    if items == [] then t
    else
      var last := |items| - 1;
      var before := AfterPublish(t, items[..last], log[..last]);
      if log[last].published && log[last].marked
      then MarkSent(before, items[last].tenant, items[last].device, items[last].id, log[last].now)
      else before
  }

  // INSERT number i violates the primary key exactly when the ids up to there are not fresh.
  lemma KeyClash(rows: Table, out: seq<Row>, ids: seq<string>, i: nat)
    requires i < |ids| && |out| == i && FreshIds(rows, ids[..i]) && forall k :: 0 <= k < i ==> out[k].id == ids[k]
    ensures (exists k :: 0 <= k < |rows + out| && (rows + out)[k].id == ids[i]) ==> !FreshIds(rows, ids)
    ensures !(exists k :: 0 <= k < |rows + out| && (rows + out)[k].id == ids[i]) ==> FreshIds(rows, ids[..i + 1])
  {
    if k :| 0 <= k < |rows + out| && (rows + out)[k].id == ids[i] {
      if k < |rows| { assert rows[k] in rows && ids[i] in ids; }
      else { assert out[k - |rows|].id == ids[k - |rows|]; }
    } else {
      assert ids[..i + 1] == ids[..i] + [ids[i]];
      forall x | x in rows ensures x.id != ids[i] {
        var k :| 0 <= k < |rows| && rows[k] == x;
        assert (rows + out)[k] == x;
      }
      forall k | 0 <= k < i ensures ids[k] != ids[i] {
        assert (rows + out)[|rows| + k] == out[k];
      }
    }
  }

  // The messages that went out.
  function Published(items: seq<Row>, log: seq<Publish>): seq<Row>
    requires |log| == |items|
  {
    if items == [] then []
    else
      var last := |items| - 1;
      Published(items[..last], log[..last]) + (if log[last].published then [items[last]] else [])
  }

  // Item ks[m] is message m, in order, and every published item is one.
  ghost predicate Sends(sent: seq<Row>, items: seq<Row>, log: seq<Publish>, ks: seq<nat>)
    requires |log| == |items|
  {
    && |ks| == |sent| && (forall m :: 0 <= m < |ks| ==> ks[m] < |items| && sent[m] == items[ks[m]])
    && (forall m, n :: 0 <= m < n < |ks| ==> ks[m] < ks[n])
    && (forall k: nat :: k in ks <==> k < |items| && log[k].published)
  }

  lemma SendsNext(sent: seq<Row>, items: seq<Row>, log: seq<Publish>, ks: seq<nat>, item: Row, p: Publish)
    requires |log| == |items| && Sends(sent, items, log, ks)
    ensures p.published ==> Sends(sent + [item], items + [item], log + [p], ks + [|items|])
    ensures !p.published ==> Sends(sent, items + [item], log + [p], ks)
  {
  }

  lemma {:induction false} PublishedExact(items: seq<Row>, log: seq<Publish>) returns (ks: seq<nat>)
    requires |log| == |items|
    ensures Sends(Published(items, log), items, log, ks)
  {
    ks := [];
    if items != [] {
      var last := |items| - 1;
      ks := PublishedExact(items[..last], log[..last]);
      SendsNext(Published(items[..last], log[..last]), items[..last], log[..last], ks, items[last], log[last]);
      assert items == items[..last] + [items[last]] && log == log[..last] + [log[last]];
      if log[last].published { ks := ks + [last]; }
    }
  }

  ghost predicate Marked(r: Row, items: seq<Row>, log: seq<Publish>)
    requires |log| == |items|
  {
    exists k :: 0 <= k < |items| && log[k].published && log[k].marked &&
      Is(r, items[k].tenant, items[k].device, items[k].id)
  }

  function Times(log: seq<Publish>): set<Time> { set p | p in log :: p.now }

  lemma MarkedLast(r: Row, items: seq<Row>, log: seq<Publish>)
    requires |log| == |items| && items != []
    ensures var n := |items| - 1;
            Marked(r, items, log) <==>
            Marked(r, items[..n], log[..n]) ||
            (log[n].published && log[n].marked && Is(r, items[n].tenant, items[n].device, items[n].id))
  {
    var n := |items| - 1;
    if Marked(r, items[..n], log[..n]) {
      var k :| 0 <= k < n && log[..n][k].published && log[..n][k].marked &&
          Is(r, items[..n][k].tenant, items[..n][k].device, items[..n][k].id);
      assert log[k].published;
    }
    if Marked(r, items, log) {
      var k :| 0 <= k < |items| && log[k].published && log[k].marked &&
          Is(r, items[k].tenant, items[k].device, items[k].id);
      if k < n { assert log[..n][k] == log[k] && items[..n][k] == items[k]; }
    }
  }

  // Publishing marks sent exactly the rows that are queued and whose publish and markSent both
  // went through; one failure spoils no other item.
  lemma {:induction false} PublishMarks(t: Table, items: seq<Row>, log: seq<Publish>, i: nat)
    requires |log| == |items| && i < |t|
    ensures |AfterPublish(t, items, log)| == |t|
    ensures var r := AfterPublish(t, items, log)[i];
            if t[i].status.Queued? && Marked(t[i], items, log)
            then r == t[i].(status := Sent, updatedAt := r.updatedAt) && r.updatedAt in Times(log)
            else r == t[i]
  {
    if items != [] {
      var n := |items| - 1;
      PublishMarks(t, items[..n], log[..n], i);
      MarkedLast(t[i], items, log);
      assert log[n] in log && Times(log[..n]) <= Times(log);
    }
  }

  class Store {
    var rows: Table

    constructor ()
      ensures rows == []
    {
      rows := [];
    }

    method Enqueue(tenant: string, targets: Outcome<seq<string>>, req: Request, ids: seq<string>, now: Time)
      returns (r: Outcome<seq<Row>>)
      requires targets.Ok? ==> |ids| == |targets.value|
      modifies this
      ensures (rows, r) == CommandTable.Enqueue(old(rows), tenant, targets, req, ids, now)
      ensures r.Ok? ==> r.value != [] && rows == old(rows) + r.value
      ensures r.Ok? ==> targets.Ok? && |r.value| == |targets.value| && forall k :: 0 <= k < |r.value| ==>
        r.value[k] == Row(ids[k], tenant, targets.value[k], req.kind, req.payload, Queued, req.expiresAt, None, None,
                          now, now)
      ensures r.Err? ==> rows == old(rows)
    {
      CommandOutcomes.EnqueueOutcome(rows, tenant, targets, req, ids, now);
      if tenant == "" || req.kind == "" { return Err(InvalidInput); }
      if targets.Err? { return Err(targets.error); }
      var tx, out := rows, [];
      for i := 0 to |targets.value|
        invariant rows == old(rows)
        invariant tx == rows + out && |out| == i
        invariant forall k :: 0 <= k < i ==> out[k] == NewRow(tenant, targets.value[k], req, ids[k], now)
        invariant FreshIds(rows, ids[..i])
      {
        KeyClash(rows, out, ids, i);
        if exists k :: 0 <= k < |tx| && tx[k].id == ids[i] { return Err(Conflict); }
        var rec := NewRow(tenant, targets.value[i], req, ids[i], now);
        tx, out := tx + [rec], out + [rec];
      }
      assert ids[..|targets.value|] == ids;
      if |out| == 0 { return Err(NotFound); }
      assert out == NewRows(tenant, targets.value, req, ids, now);
      rows := tx;
      return Ok(out);
    }

    // publishEnqueued (391-411): a failed publish or a failed markSent is only logged.
    method PublishEnqueued(items: seq<Row>, log: seq<Publish>) returns (published: seq<Row>)
      requires |log| == |items|
      modifies this
      ensures rows == AfterPublish(old(rows), items, log)
      ensures CommandRuns.Evolves(old(rows), rows) && |rows| == |old(rows)|
      ensures published == Published(items, log)
    {
      published := [];
      for i := 0 to |items|
        invariant rows == AfterPublish(old(rows), items[..i], log[..i])
        invariant CommandRuns.Evolves(old(rows), rows) && |rows| == |old(rows)|
        invariant published == Published(items[..i], log[..i])
      {
        assert items[..i + 1][..i] == items[..i] && log[..i + 1][..i] == log[..i];
        if log[i].published {
          published := published + [items[i]];
          if log[i].marked {
            var e := CommandRuns.At(log[i].now, CommandRuns.EvMarkSent(items[i].tenant, items[i].device, items[i].id));
            CommandRuns.StepEvolves(rows, e);
            CommandRuns.EvolvesTransitive(old(rows), rows, CommandRuns.Step(rows, e).0);
            rows := MarkSent(rows, items[i].tenant, items[i].device, items[i].id, log[i].now);
          }
        }
      }
      assert items[..|items|] == items && log[..|items|] == log;
    }

    method ListPendingForDevice(tenant: string, device: string, now: Time) returns (r: Outcome<seq<Row>>)
      ensures r == CommandTable.ListPendingForDevice(rows, tenant, device, now)
      ensures r.Ok? <==> tenant != "" && device != ""
      ensures r.Ok? ==> forall x :: x in r.value <==>
        x in rows && x.tenant == tenant && x.device == device && (x.status.Queued? || x.status.Sent?) &&
        (x.expiresAt.None? || now < x.expiresAt.value)
    {
      if tenant == "" || device == "" { return Err(InvalidInput); }
      CommandOutcomes.PollMeans(rows, tenant, device, now);
      return Ok(PendingRows(rows, tenant, device, now));
    }

    method ListPending(tenant: string, device: string, page: Pagination.Params, now: Time, selectNow: Time)
      returns (r: Outcome<seq<Row>>)
      modifies this
      ensures (rows, r) == CommandTable.ListPending(old(rows), tenant, device, page, now, selectNow)
      ensures r.Ok? <==> tenant != "" && device != ""
      ensures r.Err? ==> rows == old(rows) && r == Err(InvalidInput)
      ensures r.Ok? ==> forall x :: x in rows && ForDevice(x, tenant, device) ==> !(Pending(x) && Due(x, now))
      ensures r.Ok? ==> forall x :: x in r.value ==> x in rows && ForDevice(x, tenant, device) && Live(x, selectNow)
      ensures r.Ok? && now <= selectNow ==>
        r.value == Pagination.StorePage(PendingRows(old(rows), tenant, device, selectNow), page, PAGE_CAP)
    {
      if tenant == "" || device == "" { return Err(InvalidInput); }
      if now <= selectNow { CommandRuns.PageIsSlice(rows, tenant, device, page, now, selectNow); }
      rows := SweepDevice(rows, tenant, device, now);
      forall x ensures x in PendingRows(rows, tenant, device, selectNow) <==>
        x in rows && ForDevice(x, tenant, device) && Live(x, selectNow) {
        CommandRuns.PollExact(rows, tenant, device, selectNow, x);
      }
      return Ok(Pagination.StorePage(PendingRows(rows, tenant, device, selectNow), page, PAGE_CAP));
    }

    method ExpireDueCommands(tenant: string, now: Time) returns (r: Outcome<nat>)
      modifies this
      ensures tenant == "" ==> r == Err(InvalidInput) && rows == old(rows)
      ensures tenant != "" ==> rows == SweepTenant(old(rows), tenant, now) && r.Ok?
      ensures r.Ok? ==> r.value == |Select(old(rows), (x: Row) => x.tenant == tenant && Pending(x) && Due(x, now))|
      ensures r.Ok? ==> forall x :: x in rows && x.tenant == tenant ==> !(Pending(x) && Due(x, now))
      ensures |rows| == |old(rows)| && forall i :: 0 <= i < |rows| ==>
        var x := old(rows)[i];
        rows[i] == if r.Ok? && x.tenant == tenant && (x.status.Queued? || x.status.Sent?) && x.expiresAt.Some? &&
                      x.expiresAt.value <= now then x.(status := Expired, updatedAt := now) else x
    {
      if tenant == "" { return Err(InvalidInput); }
      var affected := |Select(rows, (x: Row) => x.tenant == tenant && Pending(x) && Due(x, now))|;
      rows := SweepTenant(rows, tenant, now);
      return Ok(affected);
    }

    // Acknowledge (284-348), inside one transaction.
    method Acknowledge(tenant: string, device: string, id: string, req: Ack, now: Time, sweepNow: Time)
      returns (r: Outcome<Row>)
      modifies this
      ensures (rows, r) == CommandTable.Acknowledge(old(rows), tenant, device, id, req, now, sweepNow)
      ensures r.Err? ==> rows == old(rows)
      ensures req.status != "acked" && req.status != "failed" ==> r == Err(InvalidInput)
      ensures r.Ok? ==> Is(r.value, tenant, device, id) && (rows == old(rows) || r.value.result == Some(req))
      ensures r.Ok? && rows != old(rows) ==>
        r.value.ackedAt == Some(now) && r.value.status == if req.status == "acked" then Acked else Failed
    {
      if tenant == "" || device == "" || id == "" || req.status == "" { return Err(InvalidInput); }
      if req.status != "acked" && req.status != "failed" { return Err(InvalidInput); }
      var tx := SweepOne(rows, tenant, device, id, sweepNow);
      var row := Find(tx, tenant, device, id);
      if row.Some? && Live(row.value, now) {
        tx := Update(tx, x => Is(x, tenant, device, id) && Live(x, now), AckRow(req, now));
        rows := tx;
        return Ok(AckRow(req, now)(row.value));
      }
      if row.None? { return Err(NotFound); }
      match row.value.status {
        case Acked => return Ok(row.value);
        case Failed => return Ok(row.value);
        case _ => return Err(NotFound);
      }
    }
  }
}
