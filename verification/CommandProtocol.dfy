// End to end: the server's table, two transports that may drop, duplicate, delay and reorder,
// and devices that handle one delivery at a time. A packet once sent stays available for ever:
// never delivering it is loss, delivering it again is duplication, later is delay.
module CommandProtocol {
  import opened Wrappers
  import opened CommandTable
  import opened CommandRuns
  import opened CommandCoordinator
  import CommandOutcomes
  import J = ResultJournal
  import Text

  type Endpoint = (string, string)  // tenant, device

  datatype Packet = Packet(to: Endpoint, cmd: Command)

  datatype AckPacket = AckPacket(from: Endpoint, id: string, ack: Ack)

  datatype Device = Device(journal: seq<J.Entry>, runs: seq<Run>)

  datatype World = World(now: Time, table: Table, wire: set<Packet>, acks: set<AckPacket>,
                         devices: map<Endpoint, Device>)

  // The journal bound of the devices and the timestamp text of the poll response.
  datatype Config = Config(maxEntries: nat, stamp: Time -> string)

  const INITIAL := World(0, [], {}, {}, map[])

  // An empty payload is left out of both JSON forms.
  function PayloadOf(r: Row): Option<string> {
    if r.payload == "{}" then None else Some(r.payload)
  }

  // push.CommandMessage as the device parses it: no status, no expiry.
  function Pushed(r: Row): Packet {
    Packet((r.tenant, r.device), Command(r.id, r.kind, "", PayloadOf(r), None))
  }

  function StatusText(s: Status): string {
    match s
    case Queued => "queued"
    case Sent => "sent"
    case Acked => "acked"
    case Failed => "failed"
    case Expired => "expired"
  }

  // One element of the poll response.
  function Polled(c: Config, r: Row): Packet {
    Packet((r.tenant, r.device),
           Command(r.id, r.kind, StatusText(r.status), PayloadOf(r),
                   if r.expiresAt.Some? then Some(c.stamp(r.expiresAt.value)) else None))
  }

  // Clocks may step back: `elapsed` and `skew` are any integers.
  datatype Action =
    | Tick(elapsed: int)
    | Enqueue(tenant: string, targets: Outcome<seq<string>>, req: Request, ids: seq<string>)
    | Publish(row: nat)
    | MarkedSent(tenant: string, device: string, id: string)
    | Poll(tenant: string, device: string)
    | SweptTenant(tenant: string)
    | SweptDevice(tenant: string, device: string)
    | Deliver(packet: Packet, source: string, env: Env)
    | AckArrives(report: AckPacket, skew: int)

  function DeviceAt(w: World, at: Endpoint): Device {
    if at in w.devices then w.devices[at] else Device([], [])
  }

  // uuid.NewString never draws a blank string.
  predicate DrawsIds(s: Action) {
    s.Enqueue? ==>
      (forall k :: k in s.ids ==> !Text.IsBlank(k)) && (s.targets.Ok? ==> |s.ids| == |s.targets.value|)
  }

  // The operation on the table that a step performs, if it performs one: Enqueue, markSent, a
  // sweep, or Acknowledge for an acknowledgement that some device really sent.
  function TableEvent(w: World, s: Action): (e: Option<Stamped>)
    ensures e.Some? ==> WellFormed(e.value.ev)
  {
    match s
    case Enqueue(tenant, targets, req, ids) =>
      if DrawsIds(s) then Some(At(w.now, EvEnqueue(tenant, targets, req, ids))) else None
    case MarkedSent(tenant, device, id) => Some(At(w.now, EvMarkSent(tenant, device, id)))
    case SweptTenant(tenant) => Some(At(w.now, EvSweepTenant(tenant)))
    case SweptDevice(tenant, device) => Some(At(w.now, EvSweepDevice(tenant, device)))
    case AckArrives(p, skew) =>
      if p in w.acks then Some(At(w.now, EvAck(p.from.0, p.from.1, p.id, p.ack, skew))) else None
    case _ => None
  }

  // A step that the world does not allow changes nothing.
  function Next(c: Config, w: World, s: Action): World {
    var e := TableEvent(w, s);
    if e.Some? then w.(now := EndOf(e.value), table := Step(w.table, e.value).0)
    else match s
      case Tick(elapsed) => w.(now := w.now + elapsed)
      case Publish(row) => if row < |w.table| then w.(wire := w.wire + {Pushed(w.table[row])}) else w
      case Poll(tenant, device) =>
        var r := ListPendingForDevice(w.table, tenant, device, w.now);
        if r.Ok? then w.(wire := w.wire + (set x | x in r.value :: Polled(c, x))) else w
      case Deliver(packet, source, env) => if packet in w.wire then Delivered(c, w, packet, source, env) else w
      case _ => w
  }

  function Delivered(c: Config, w: World, packet: Packet, source: string, env: Env): World {
    var h := Handle(DeviceAt(w, packet.to).journal, c.maxEntries, packet.cmd, env);
    w.(devices := w.devices[packet.to := Device(h.journal, Extend(DeviceAt(w, packet.to).runs, h.run))],
       acks := if h.reply.Some? then
                 w.acks + {AckPacket(packet.to, packet.cmd.id, AckOf(packet.cmd, h.reply.value, source))}
               else w.acks)
  }

  function Execute(c: Config, w: World, steps: seq<Action>): World
    decreases steps
  {
    if steps == [] then w else Execute(c, Next(c, w, steps[0]), steps[1..])
  }

  // --- The invariant -----------------------------------------------------------------------

  // The command a device sees is the one that was enqueued for it, with the payload left out where
  // it is the empty object, and with the expiry as text or left out.
  ghost predicate Describes(c: Config, at: Endpoint, cmd: Command, r: Row) {
    && r.tenant == at.0 && r.device == at.1 && r.id == cmd.id && r.kind == cmd.kind
    && cmd.payload == (if r.payload == "{}" then None else Some(r.payload))
    && (cmd.expiresAt.Some? ==> r.expiresAt.Some? && cmd.expiresAt.value == c.stamp(r.expiresAt.value))
    && cmd.status in {"", "queued", "sent"}
  }

  ghost predicate FromTable(c: Config, t: Table, at: Endpoint, cmd: Command) {
    exists i :: 0 <= i < |t| && Describes(c, at, cmd, t[i])
  }

  ghost predicate DeviceOk(c: Config, t: Table, at: Endpoint, d: Device) {
    && d.journal == J.Bounded(Entries(d.runs), c.maxEntries)
    && Justified(d.runs, c.maxEntries) && AllTold(d.runs)
    && forall k :: 0 <= k < |d.runs| ==> FromTable(c, t, at, d.runs[k].command)
  }

  // The acknowledgement reports a completed run of this command on this device.
  ghost predicate Backed(d: Device, p: AckPacket) {
    exists cmd: Command, source: string :: cmd.id == p.id && Reports(p.ack, cmd, source, d.runs)
  }

  ghost predicate Inv(c: Config, w: World) {
    && TableOk(w.table)
    && (forall r :: r in w.table ==> !Text.IsBlank(r.id))
    && (forall p :: p in w.wire ==> FromTable(c, w.table, p.to, p.cmd))
    && (forall at :: at in w.devices ==> DeviceOk(c, w.table, at, w.devices[at]))
    && (forall p :: p in w.acks ==> Backed(DeviceAt(w, p.from), p))
    && (forall r :: r in w.table && Finished(r) ==>
          r.result.Some? && AckPacket((r.tenant, r.device), r.id, r.result.value) in w.acks)
  }

  lemma FromTableLater(c: Config, t: Table, t': Table, at: Endpoint, cmd: Command)
    requires FromTable(c, t, at, cmd) && Evolves(t, t')
    ensures FromTable(c, t', at, cmd)
  {
    var i :| 0 <= i < |t| && Describes(c, at, cmd, t[i]);
    assert RowEvolves(t[i], t'[i]);
    assert Describes(c, at, cmd, t'[i]);
  }

  lemma DeviceOkLater(c: Config, t: Table, t': Table, at: Endpoint, d: Device)
    requires DeviceOk(c, t, at, d) && Evolves(t, t')
    ensures DeviceOk(c, t', at, d)
  {
    forall k | 0 <= k < |d.runs| ensures FromTable(c, t', at, d.runs[k].command) {
      FromTableLater(c, t, t', at, d.runs[k].command);
    }
  }

  lemma BackedLater(d: Device, d': Device, p: AckPacket)
    requires Backed(d, p) && d.runs <= d'.runs
    ensures Backed(d', p)
  {
    var cmd: Command, source: string :| cmd.id == p.id && Reports(p.ack, cmd, source, d.runs);
    ReportsLater([p.ack], [cmd], source, d.runs, d'.runs);
    assert AllReport([p.ack], [cmd], source, d'.runs);
    assert Reports([p.ack][0], [cmd][0], source, d'.runs);
  }

  lemma NextTable(c: Config, w: World, s: Action)
    ensures Evolves(w.table, Next(c, w, s).table)
    ensures TableOk(w.table) ==> TableOk(Next(c, w, s).table)
  {
    var e := TableEvent(w, s);
    if e.Some? {
      StepEvolves(w.table, e.value);
      if TableOk(w.table) { StepOk(w.table, e.value); }
    }
  }

  // A row that a statement finishes was acknowledged, and carries the acknowledgement.
  lemma FinishedBy(t: Table, e: Stamped, r: Row)
    requires WellFormed(e.ev) && r in Step(t, e).0 && Finished(r)
    ensures r in t || (e.ev.EvAck? && Is(r, e.ev.tenant, e.ev.device, e.ev.id) && r.result == Some(e.ev.ack))
  {
    var t' := Step(t, e).0;
    var i :| 0 <= i < |t'| && t'[i] == r;
    if i < |t| {
      match e.ev
      case EvAck(tenant, device, id, ack, skew) => AckFinishes(t, tenant, device, id, ack, e.now, e.now + skew, i);
      case _ =>
    }
  }

  lemma AckFinishes(t: Table, tenant: string, device: string, id: string, req: Ack, now: Time, sweepNow: Time, i: nat)
    requires i < |t|
    ensures var t' := Acknowledge(t, tenant, device, id, req, now, sweepNow).0;
            && |t'| == |t|
            && (Finished(t'[i]) ==> t'[i] == t[i] || (Is(t'[i], tenant, device, id) && t'[i].result == Some(req)))
  {
    AckPointwise(t, tenant, device, id, req, now, sweepNow);
  }

  lemma NewRowIds(t: Table, e: Stamped, r: Row)
    requires WellFormed(e.ev) && r in Step(t, e).0
    ensures (exists x :: x in t && x.id == r.id) || (e.ev.EvEnqueue? && r.id in e.ev.ids)
  {
    var t' := Step(t, e).0;
    var i :| 0 <= i < |t'| && t'[i] == r;
    if i < |t| {
      StepEvolves(t, e);
      assert RowEvolves(t[i], t'[i]) && t[i] in t;
    } else {
      var ev := e.ev;
      assert r == NewRows(ev.tenant, ev.targets.value, ev.req, ev.ids, e.now)[i - |t|];
    }
  }

  lemma FinishedWasSent(c: Config, w: World, s: Action, r: Row)
    requires Inv(c, w) && TableEvent(w, s).Some? && r in Next(c, w, s).table && Finished(r)
    ensures r.result.Some? && AckPacket((r.tenant, r.device), r.id, r.result.value) in w.acks
  {
    NextTable(c, w, s);
    FinishedBy(w.table, TableEvent(w, s).value, r);
    if r !in w.table { assert AckPacket((r.tenant, r.device), r.id, r.result.value) == s.report; }
  }

  // Statements on the table keep the invariant.
  lemma TableActionInv(c: Config, w: World, s: Action)
    requires Inv(c, w) && TableEvent(w, s).Some?
    ensures Inv(c, Next(c, w, s))
  {
    var w' := Next(c, w, s);
    var e := TableEvent(w, s).value;
    NextTable(c, w, s);
    forall p | p in w'.wire ensures FromTable(c, w'.table, p.to, p.cmd) {
      FromTableLater(c, w.table, w'.table, p.to, p.cmd);
    }
    forall at | at in w'.devices ensures DeviceOk(c, w'.table, at, w'.devices[at]) {
      DeviceOkLater(c, w.table, w'.table, at, w.devices[at]);
    }
    forall p | p in w'.acks ensures Backed(DeviceAt(w', p.from), p) {
      assert DeviceAt(w', p.from) == DeviceAt(w, p.from);
    }
    forall r | r in w'.table ensures !Text.IsBlank(r.id) { NewRowIds(w.table, e, r); }
    forall r | r in w'.table && Finished(r)
      ensures r.result.Some? && AckPacket((r.tenant, r.device), r.id, r.result.value) in w'.acks
    {
      FinishedWasSent(c, w, s, r);
    }
  }

  // Sending describes rows of the table.
  lemma SendInv(c: Config, w: World, w': World)
    requires Inv(c, w) && w' == w.(wire := w'.wire)
    requires forall p :: p in w'.wire && p !in w.wire ==> FromTable(c, w.table, p.to, p.cmd)
    ensures Inv(c, w')
  {
    forall at | at in w'.devices ensures DeviceOk(c, w'.table, at, w'.devices[at]) {
      DeviceOkLater(c, w.table, w'.table, at, w.devices[at]);
    }
    forall p | p in w'.acks ensures Backed(DeviceAt(w', p.from), p) {
      assert DeviceAt(w', p.from) == DeviceAt(w, p.from);
    }
  }

  lemma PollDescribes(c: Config, w: World, tenant: string, device: string, p: Packet)
    requires p in (set x | x in PendingRows(w.table, tenant, device, w.now) :: Polled(c, x))
    ensures FromTable(c, w.table, p.to, p.cmd)
  {
    var x :| x in PendingRows(w.table, tenant, device, w.now) && p == Polled(c, x);
    PollExact(w.table, tenant, device, w.now, x);
    var i :| 0 <= i < |w.table| && w.table[i] == x;
    assert Describes(c, p.to, p.cmd, w.table[i]);
  }

  lemma MakeDeviceOk(c: Config, t: Table, at: Endpoint, journal: seq<J.Entry>, runs: seq<Run>)
    requires journal == J.Bounded(Entries(runs), c.maxEntries) && Justified(runs, c.maxEntries) && AllTold(runs)
    requires forall k :: 0 <= k < |runs| ==> FromTable(c, t, at, runs[k].command)
    ensures DeviceOk(c, t, at, Device(journal, runs))
  {
  }

  lemma HandleKeepsDevice(c: Config, t: Table, at: Endpoint, d: Device, cmd: Command, env: Env)
    requires DeviceOk(c, t, at, d) && FromTable(c, t, at, cmd)
    ensures var h := Handle(d.journal, c.maxEntries, cmd, env);
            DeviceOk(c, t, at, Device(h.journal, Extend(d.runs, h.run)))
  {
    var h := Handle(d.journal, c.maxEntries, cmd, env);
    HandleKeepsLog(d.journal, c.maxEntries, d.runs, cmd, env);
    RunsFromTable(c, t, at, d.runs, h.run, cmd);
    MakeDeviceOk(c, t, at, h.journal, Extend(d.runs, h.run));
  }

  lemma RunsFromTable(c: Config, t: Table, at: Endpoint, runs: seq<Run>, run: Option<Run>, cmd: Command)
    requires FromTable(c, t, at, cmd) && (run.Some? ==> run.value.command == cmd)
    requires forall k :: 0 <= k < |runs| ==> FromTable(c, t, at, runs[k].command)
    ensures forall k :: 0 <= k < |Extend(runs, run)| ==> FromTable(c, t, at, Extend(runs, run)[k].command)
  {
  }

  lemma DeliverDevices(c: Config, w: World, packet: Packet, source: string, env: Env)
    requires Inv(c, w) && packet in w.wire
    ensures var w' := Delivered(c, w, packet, source, env);
            forall a :: a in w'.devices ==> DeviceOk(c, w'.table, a, w'.devices[a])
  {
    var d := DeviceAt(w, packet.to);
    assert DeviceOk(c, w.table, packet.to, d);
    HandleKeepsDevice(c, w.table, packet.to, d, packet.cmd, env);
  }

  lemma DeliverAcks(c: Config, w: World, packet: Packet, source: string, env: Env, p: AckPacket)
    requires Inv(c, w) && p in Delivered(c, w, packet, source, env).acks
    ensures Backed(DeviceAt(Delivered(c, w, packet, source, env), p.from), p)
  {
    var w' := Delivered(c, w, packet, source, env);
    var d, d' := DeviceAt(w, packet.to), DeviceAt(w', packet.to);
    assert d.journal == J.Bounded(Entries(d.runs), c.maxEntries) by {
      if packet.to in w.devices { assert DeviceOk(c, w.table, packet.to, d); }
    }
    if p in w.acks {
      assert Backed(DeviceAt(w, p.from), p);
      if p.from == packet.to { BackedLater(d, d', p); }
    } else {
      AckReports(d.journal, c.maxEntries, d.runs, packet.cmd, env, source);
      assert packet.cmd.id == p.id && Reports(p.ack, packet.cmd, source, d'.runs);
    }
  }

  lemma DeliverInv(c: Config, w: World, packet: Packet, source: string, env: Env)
    requires Inv(c, w) && packet in w.wire
    ensures Inv(c, Delivered(c, w, packet, source, env))
  {
    var w' := Delivered(c, w, packet, source, env);
    DeliverDevices(c, w, packet, source, env);
    forall p | p in w'.acks ensures Backed(DeviceAt(w', p.from), p) {
      DeliverAcks(c, w, packet, source, env, p);
    }
  }

  lemma NextInv(c: Config, w: World, s: Action)
    requires Inv(c, w)
    ensures Inv(c, Next(c, w, s))
  {
    if TableEvent(w, s).Some? {
      TableActionInv(c, w, s);
    } else {
      var w' := Next(c, w, s);
      match s
      case Publish(row) =>
        if row < |w.table| {
          assert Describes(c, Pushed(w.table[row]).to, Pushed(w.table[row]).cmd, w.table[row]);
          SendInv(c, w, w');
        }
      case Poll(tenant, device) =>
        if w'.wire != w.wire {
          forall p | p in w'.wire && p !in w.wire ensures FromTable(c, w.table, p.to, p.cmd) {
            PollDescribes(c, w, tenant, device, p);
          }
          SendInv(c, w, w');
        }
      case Deliver(packet, source, env) => if packet in w.wire { DeliverInv(c, w, packet, source, env); }
      case _ => ClockInv(c, w, w');
    }
  }

  lemma ClockInv(c: Config, w: World, w': World)
    requires Inv(c, w) && w' == w.(now := w'.now)
    ensures Inv(c, w')
  {
    SendInv(c, w, w.(wire := w.wire));
    forall at | at in w'.devices ensures DeviceOk(c, w'.table, at, w'.devices[at]) {
      DeviceOkLater(c, w.table, w'.table, at, w.devices[at]);
    }
    forall p | p in w'.acks ensures Backed(DeviceAt(w', p.from), p) {
      assert DeviceAt(w', p.from) == DeviceAt(w, p.from);
    }
  }

  lemma {:induction false} ExecuteInv(c: Config, w: World, steps: seq<Action>)
    requires Inv(c, w)
    ensures Inv(c, Execute(c, w, steps))
    decreases steps
  {
    if steps != [] {
      NextInv(c, w, steps[0]);
      ExecuteInv(c, Next(c, w, steps[0]), steps[1..]);
    }
  }

  // --- The end-to-end theorems -------------------------------------------------------------

  // Over every run: a row that reads acked or failed has the status, the message and the
  // command-overridden details of an actual executor run of that same command on the device
  // it was addressed to. It reads acked exactly if that executor returned "acked", and failed
  // exactly if it returned "failed" or threw.
  lemma AckedMeansExecuted(c: Config, steps: seq<Action>, r: Row) returns (k: nat, cmd: Command, source: string)
    requires var w := Execute(c, INITIAL, steps); r in w.table && Finished(r)
    ensures var w := Execute(c, INITIAL, steps);
            var runs := DeviceAt(w, (r.tenant, r.device)).runs;
            && k < |runs|
            && Describes(c, (r.tenant, r.device), runs[k].command, r)
            && runs[k].outcome.Some?
            && cmd.id == r.id
            && r.result == Some(AckOf(cmd, runs[k].outcome.value, source))
            && r.result.value.status == runs[k].outcome.value.status
            && r.result.value.message == runs[k].outcome.value.message
            && (r.status.Acked? <==> runs[k].exec.Returned? && runs[k].exec.result.status == "acked")
            && (r.status.Failed? <==>
                  runs[k].exec.Threw? || (runs[k].exec.Returned? && runs[k].exec.result.status == "failed"))
  {
    ExecuteInv(c, INITIAL, steps);
    var w := Execute(c, INITIAL, steps);
    var at := (r.tenant, r.device);
    var d := DeviceAt(w, at);
    var p := AckPacket(at, r.id, r.result.value);
    assert Backed(d, p);
    cmd, source :| cmd.id == p.id && Reports(p.ack, cmd, source, d.runs);
    k :| 0 <= k < |d.runs| && d.runs[k].command.id == cmd.id && d.runs[k].outcome.Some? &&
         p.ack == AckOf(cmd, d.runs[k].outcome.value, source);
    RunDescribes(c, w, at, k, r);
    RunTold(c, w, at, k);
  }

  // Ids are unique, so a run of the row's id on its device is a run of that very command.
  lemma RunDescribes(c: Config, w: World, at: Endpoint, k: nat, r: Row)
    requires Inv(c, w) && r in w.table
    requires k < |DeviceAt(w, at).runs| && DeviceAt(w, at).runs[k].command.id == r.id
    ensures Describes(c, at, DeviceAt(w, at).runs[k].command, r)
  {
    assert DeviceOk(c, w.table, at, DeviceAt(w, at));
    assert FromTable(c, w.table, at, DeviceAt(w, at).runs[k].command);
    var i :| 0 <= i < |w.table| && Describes(c, at, DeviceAt(w, at).runs[k].command, w.table[i]);
    var j :| 0 <= j < |w.table| && w.table[j] == r;
    assert i == j;
  }

  lemma RunTold(c: Config, w: World, at: Endpoint, k: nat)
    requires Inv(c, w) && k < |DeviceAt(w, at).runs|
    ensures Told(DeviceAt(w, at).runs[k])
  {
    assert DeviceOk(c, w.table, at, DeviceAt(w, at));
  }

  // --- What was asked for ------------------------------------------------------------------

  // Step j enqueued this command, as target m.
  ghost predicate Asked(c: Config, steps: seq<Action>, j: nat, m: nat, r: Row)
    requires j < |steps|
  {
    && DrawsIds(steps[j]) && steps[j].Enqueue? && steps[j].targets.Ok? && m < |steps[j].targets.value|
    && steps[j].tenant == r.tenant && steps[j].targets.value[m] == r.device && steps[j].ids[m] == r.id
    && steps[j].req == Request(r.kind, r.payload, r.expiresAt)
    && CommandTable.Enqueue(Execute(c, INITIAL, steps[..j]).table, steps[j].tenant, steps[j].targets, steps[j].req,
                            steps[j].ids, Execute(c, INITIAL, steps[..j]).now).1.Ok?
  }

  lemma {:induction false} ExecuteSnoc(c: Config, w: World, steps: seq<Action>, s: Action)
    ensures Execute(c, w, steps + [s]) == Next(c, Execute(c, w, steps), s)
    decreases steps
  {
    if steps == [] {
      assert [s][1..] == [];
    } else {
      assert (steps + [s])[1..] == steps[1..] + [s];
      ExecuteSnoc(c, Next(c, w, steps[0]), steps[1..], s);
    }
  }

  // A row behind the old table is one that this step enqueued.
  lemma AppendedWasAsked(c: Config, w: World, s: Action, i: nat)
    requires |w.table| <= i < |Next(c, w, s).table|
    ensures var r := Next(c, w, s).table[i];
            && DrawsIds(s) && s.Enqueue? && s.targets.Ok? && i - |w.table| < |s.targets.value|
            && s.tenant == r.tenant && s.targets.value[i - |w.table|] == r.device && s.ids[i - |w.table|] == r.id
            && s.req == Request(r.kind, r.payload, r.expiresAt)
            && CommandTable.Enqueue(w.table, s.tenant, s.targets, s.req, s.ids, w.now).1.Ok?
  {
    if DrawsIds(s) && s.Enqueue? { CommandOutcomes.EnqueueOutcome(w.table, s.tenant, s.targets, s.req, s.ids, w.now); }
  }

  lemma AskedLater(c: Config, front: seq<Action>, s: Action, j: nat, m: nat, r: Row, r': Row)
    requires j < |front| && Asked(c, front, j, m, r) && SameCommand(r, r')
    ensures Asked(c, front + [s], j, m, r')
  {
    assert (front + [s])[..j] == front[..j] && (front + [s])[j] == front[j];
  }

  // Every row of every reachable table was asked for.
  lemma {:induction false} RowWasAsked(c: Config, steps: seq<Action>, i: nat) returns (j: nat, m: nat)
    requires i < |Execute(c, INITIAL, steps).table|
    ensures j < |steps| && Asked(c, steps, j, m, Execute(c, INITIAL, steps).table[i])
    decreases |steps|
  {
    var n := |steps| - 1;
    var front, s := steps[..n], steps[n];
    var w := Execute(c, INITIAL, front);
    assert steps == front + [s];
    ExecuteSnoc(c, INITIAL, front, s);
    NextTable(c, w, s);
    if i < |w.table| {
      j, m := RowWasAsked(c, front, i);
      assert RowEvolves(w.table[i], Next(c, w, s).table[i]);
      AskedLater(c, front, s, j, m, w.table[i], Next(c, w, s).table[i]);
    } else {
      AppendedWasAsked(c, w, s, i);
      j, m := n, i - |w.table|;
    }
  }

  // Over every run: what an executor runs on a device under an id is the type and the payload of
  // a successful request that addressed this device and drew this id.
  lemma ExecutedAsRequested(c: Config, steps: seq<Action>, at: Endpoint, k: nat) returns (j: nat, m: nat)
    requires k < |DeviceAt(Execute(c, INITIAL, steps), at).runs|
    ensures var cmd := DeviceAt(Execute(c, INITIAL, steps), at).runs[k].command;
            && j < |steps| && DrawsIds(steps[j]) && steps[j].Enqueue? && steps[j].targets.Ok?
            && m < |steps[j].targets.value|
            && (steps[j].tenant, steps[j].targets.value[m]) == at && steps[j].ids[m] == cmd.id
            && cmd.kind == steps[j].req.kind
            && cmd.payload == (if steps[j].req.payload == "{}" then None else Some(steps[j].req.payload))
            && var w := Execute(c, INITIAL, steps[..j]);
               CommandTable.Enqueue(w.table, at.0, steps[j].targets, steps[j].req, steps[j].ids, w.now).1.Ok?
  {
    ExecuteInv(c, INITIAL, steps);
    var w := Execute(c, INITIAL, steps);
    var d := DeviceAt(w, at);
    assert DeviceOk(c, w.table, at, d);
    assert FromTable(c, w.table, at, d.runs[k].command);
    var i :| 0 <= i < |w.table| && Describes(c, at, d.runs[k].command, w.table[i]);
    j, m := RowWasAsked(c, steps, i);
  }

  // --- Once, or rarely ---------------------------------------------------------------------

  // Over every run: an acknowledged command whose first run was remembered, with fewer than
  // maxEntries other commands remembered on that device since, was executed exactly once.
  lemma ExecutedExactlyOnce(c: Config, steps: seq<Action>, r: Row, first: nat)
    requires var w := Execute(c, INITIAL, steps); r in w.table && Finished(r)
    requires var runs := DeviceAt(Execute(c, INITIAL, steps), (r.tenant, r.device)).runs;
             && first < |runs| && runs[first].command.id == r.id
             && (forall k :: 0 <= k < first ==> runs[k].command.id != r.id)
             && runs[first].persisted && runs[first].outcome.Some?
             && |RememberedIds(runs[first + 1..]) - {r.id}| < c.maxEntries
    ensures var runs := DeviceAt(Execute(c, INITIAL, steps), (r.tenant, r.device)).runs;
            && (forall k :: 0 <= k < |runs| && runs[k].command.id == r.id ==> k == first)
            && r.result.Some? && r.result.value.status == runs[first].outcome.value.status
  {
    ExecuteInv(c, INITIAL, steps);
    var w := Execute(c, INITIAL, steps);
    var d := DeviceAt(w, (r.tenant, r.device));
    assert DeviceOk(c, w.table, (r.tenant, r.device), d);
    forall k | 0 <= k < |d.runs| && d.runs[k].command.id == r.id ensures k == first {
      RanOnce(d.runs, c.maxEntries, first, k);
    }
    var k, cmd, source := AckedMeansExecuted(c, steps, r);
  }

  // Over every run, whatever failed or was cancelled on the way: two executions of one command
  // on one device, the first of them remembered, are separated by maxEntries others.
  lemma ReexecutionIsRare(c: Config, steps: seq<Action>, at: Endpoint, i: nat, j: nat)
    requires var runs := DeviceAt(Execute(c, INITIAL, steps), at).runs;
             && i < j < |runs| && runs[i].command.id == runs[j].command.id
             && runs[i].persisted && runs[i].outcome.Some?
    ensures var runs := DeviceAt(Execute(c, INITIAL, steps), at).runs;
            |RememberedIds(runs[i + 1..j]) - {runs[i].command.id}| >= c.maxEntries
  {
    ExecuteInv(c, INITIAL, steps);
    var w := Execute(c, INITIAL, steps);
    var d := DeviceAt(w, at);
    assert DeviceOk(c, w.table, at, d);
    assert FromTable(c, w.table, at, d.runs[i].command);
    RerunsFarApart(d.runs, c.maxEntries, i, j);
  }
}
