// The commands table of server/internal/commands/postgres/store.go as a value: every SQL
// statement is a function from the rows before it to the rows after it, and every operation is
// composed from them inside one transaction.
module CommandTable {
  import opened Wrappers
  import opened Sorting
  import Lexicographic
  import Pagination

  type Time = int

  datatype Status = Queued | Sent | Acked | Failed | Expired

  datatype Ack = Ack(status: string, message: string, details: Option<map<string, string>>)

  datatype Row = Row(
    id: string, tenant: string, device: string, kind: string, payload: string,
    status: Status, expiresAt: Option<Time>, ackedAt: Option<Time>, result: Option<Ack>,
    createdAt: Time, updatedAt: Time)

  type Table = seq<Row>

  const PAGE_CAP := 100

  // --- Row predicates of the WHERE clauses -------------------------------------------------

  predicate Pending(r: Row) { r.status.Queued? || r.status.Sent? }

  predicate Due(r: Row, now: Time) { r.expiresAt.Some? && r.expiresAt.value <= now }

  predicate Live(r: Row, now: Time) { Pending(r) && !Due(r, now) }

  predicate ForDevice(r: Row, tenant: string, device: string) {
    r.tenant == tenant && r.device == device
  }

  predicate Is(r: Row, tenant: string, device: string, id: string) {
    ForDevice(r, tenant, device) && r.id == id
  }

  predicate Finished(r: Row) { r.status.Acked? || r.status.Failed? }

  predicate Terminal(r: Row) { Finished(r) || r.status.Expired? }

  // --- SQL statements ----------------------------------------------------------------------

  // UPDATE commands SET ... WHERE sel.
  function Update(t: Table, sel: Row -> bool, set_: Row -> Row): (r: Table)
    ensures |r| == |t|
    ensures forall i :: 0 <= i < |t| ==> r[i] == if sel(t[i]) then set_(t[i]) else t[i]
  {
    seq(|t|, i requires 0 <= i < |t| => if sel(t[i]) then set_(t[i]) else t[i])
  }

  // SELECT ... WHERE sel, in table order.
  function Select(t: Table, sel: Row -> bool): (r: seq<Row>)
    ensures forall x :: x in r <==> x in t && sel(x)
  {
    if t == [] then []
    else (if sel(t[0]) then [t[0]] else []) + Select(t[1..], sel)
  }

  function ExpireRow(now: Time): Row -> Row {
    (r: Row) => r.(status := Expired, updatedAt := now)
  }

  // ExpireDueCommands (264-282).
  function SweepTenant(t: Table, tenant: string, now: Time): Table {
    Update(t, (r: Row) => r.tenant == tenant && Pending(r) && Due(r, now), ExpireRow(now))
  }

  // expireDueCommands (360-373).
  function SweepDevice(t: Table, tenant: string, device: string, now: Time): Table {
    Update(t, r => ForDevice(r, tenant, device) && Pending(r) && Due(r, now), ExpireRow(now))
  }

  // expireDueCommand (375-389).
  function SweepOne(t: Table, tenant: string, device: string, id: string, now: Time): Table {
    Update(t, r => Is(r, tenant, device, id) && Pending(r) && Due(r, now), ExpireRow(now))
  }

  // markSent (413-422).
  function MarkSent(t: Table, tenant: string, device: string, id: string, now: Time): Table {
    Update(t, r => Is(r, tenant, device, id) && r.status.Queued?, (r: Row) => r.(status := Sent, updatedAt := now))
  }

  // --- Enqueue (40-89) ---------------------------------------------------------------------

  datatype Request = Request(kind: string, payload: string, expiresAt: Option<Time>)

  function NewRow(tenant: string, device: string, req: Request, id: string, now: Time): Row {
    Row(id, tenant, device, req.kind, req.payload, Queued, req.expiresAt, None, None, now, now)
  }

  function NewRows(tenant: string, targets: seq<string>, req: Request, ids: seq<string>, now: Time): (r: seq<Row>)
    requires |ids| == |targets|
    ensures |r| == |targets|
    ensures forall i :: 0 <= i < |r| ==> r[i] == NewRow(tenant, targets[i], req, ids[i], now)
  {
    seq(|targets|, i requires 0 <= i < |targets| => NewRow(tenant, targets[i], req, ids[i], now))
  }

  predicate Distinct(s: seq<string>) {
    forall i, j :: 0 <= i < j < |s| ==> s[i] != s[j]
  }

  predicate FreshIds(t: Table, ids: seq<string>) {
    Distinct(ids) && forall r, k :: r in t && k in ids ==> r.id != k
  }

  // `targets` is what resolveTargets returned; `ids` are the drawn uuids. A primary-key clash
  // fails the INSERT and rolls the whole transaction back.
  function Enqueue(t: Table, tenant: string, targets: Outcome<seq<string>>, req: Request,
                   ids: seq<string>, now: Time): (Table, Outcome<seq<Row>>)
    requires targets.Ok? ==> |ids| == |targets.value|
  {
    if tenant == "" || req.kind == "" then (t, Err(InvalidInput))
    else if targets.Err? then (t, Err(targets.error))
    else if !FreshIds(t, ids) then (t, Err(Conflict))
    else if |targets.value| == 0 then (t, Err(NotFound))
    else
      var rows := NewRows(tenant, targets.value, req, ids, now);
      (t + rows, Ok(rows))
  }

  // --- Polling (193-262) -------------------------------------------------------------------

  // ORDER BY created_at, id.
  predicate RowLeq(a: Row, b: Row) {
    a.createdAt < b.createdAt || (a.createdAt == b.createdAt && Lexicographic.Leq(a.id, b.id))
  }

  lemma RowOrder()
    ensures TotalPreorder(RowLeq)
  {
    forall a, b ensures RowLeq(a, b) || RowLeq(b, a) { Lexicographic.LeqTotal(a.id, b.id); }
    forall a, b, c | RowLeq(a, b) && RowLeq(b, c) ensures RowLeq(a, c) {
      if a.createdAt == b.createdAt == c.createdAt {
        Lexicographic.LeqTransitive(a.id, b.id, c.id);
      }
    }
  }

  function LiveFor(tenant: string, device: string, now: Time): Row -> bool {
    r => ForDevice(r, tenant, device) && Live(r, now)
  }

  function PendingRows(t: Table, tenant: string, device: string, now: Time): seq<Row> {
    Sort(RowLeq, Select(t, LiveFor(tenant, device, now)))
  }

  function ListPendingForDevice(t: Table, tenant: string, device: string, now: Time): Outcome<seq<Row>> {
    if tenant == "" || device == "" then Err(InvalidInput)
    else Ok(PendingRows(t, tenant, device, now))
  }

  // The SELECT of ListPending.
  function SelectPage(t: Table, tenant: string, device: string, page: Pagination.Params, now: Time): Outcome<seq<Row>> {
    if tenant == "" || device == "" then Err(InvalidInput)
    else Ok(Pagination.StorePage(PendingRows(t, tenant, device, now), page, PAGE_CAP))
  }

  // The sweep reads the clock before the SELECT does.
  function ListPending(t: Table, tenant: string, device: string, page: Pagination.Params,
                       now: Time, selectNow: Time): (Table, Outcome<seq<Row>>)
  {
    if tenant == "" || device == "" then (t, Err(InvalidInput))
    else
      var swept := SweepDevice(t, tenant, device, now);
      (swept, SelectPage(swept, tenant, device, page, selectNow))
  }

  // --- Acknowledge (284-348) ---------------------------------------------------------------

  function AckStatus(req: Ack): Option<Status> {
    if req.status == "acked" then Some(Acked)
    else if req.status == "failed" then Some(Failed)
    else None
  }

  function AckRow(req: Ack, now: Time): Row -> Row
    requires AckStatus(req).Some?
  {
    (r: Row) => r.(status := AckStatus(req).value, ackedAt := Some(now), result := Some(req), updatedAt := now)
  }

  // The row a query by (tenant, device, id) returns; ids are unique, so the first is the only one.
  function Find(t: Table, tenant: string, device: string, id: string): (r: Option<Row>)
    ensures r.Some? ==> r.value in t && Is(r.value, tenant, device, id)
    ensures r.None? ==> forall x :: x in t ==> !Is(x, tenant, device, id)
  {
    if t == [] then None
    else if Is(t[0], tenant, device, id) then Some(t[0])
    else Find(t[1..], tenant, device, id)
  }

  // `now` is read before the transaction, `sweepNow` inside expireDueCommand. Only the branch
  // that acknowledges commits; the others roll back, the lazy expiry included.
  function Acknowledge(t: Table, tenant: string, device: string, id: string, req: Ack,
                       now: Time, sweepNow: Time): (Table, Outcome<Row>)
  {
    if tenant == "" || device == "" || id == "" || AckStatus(req).None? then (t, Err(InvalidInput))
    else
      var swept := SweepOne(t, tenant, device, id, sweepNow);
      match Find(swept, tenant, device, id)
      case None => (t, Err(NotFound))
      case Some(row) =>
        if Live(row, now) then
          var t' := Update(swept, r => Is(r, tenant, device, id) && Live(r, now), AckRow(req, now));
          (t', Ok(AckRow(req, now)(row)))
        else if Finished(row) then (t, Ok(row))
        else (t, Err(NotFound))
  }
}
