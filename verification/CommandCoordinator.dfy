// The device's command coordinator
// (app/src/main/java/com/xmdm/launcher/commands/DeviceCommandCoordinator.kt): look the command
// up in the journal, else execute and remember it, then acknowledge. Calls are serialised.
module CommandCoordinator {
  import opened Wrappers
  import Text
  import J = ResultJournal
  import CommandTable

  datatype Command = Command(id: string, kind: string, status: string,
                             payload: Option<string>, expiresAt: Option<string>)

  datatype ExecOutcome = Returned(result: J.Result) | Threw(message: string) | Cancelled

  // What one call of handleIncomingCommand meets: a journal that cannot be read, the executor's
  // outcome, whether the journal write took effect, whether it was cancelled, and the clock.
  datatype Env = Env(lookupFails: bool, exec: ExecOutcome, persisted: bool, recordCancelled: bool, at: int)

  // One run of the executor: what it did, and the outcome made of that. A cancelled run has none.
  datatype Run = Run(command: Command, exec: ExecOutcome, outcome: Option<J.Result>, persisted: bool, at: int)

  // `reply` is the result that goes into the acknowledgement; without one the call threw.
  datatype Handled = Handled(journal: seq<J.Entry>, run: Option<Run>, reply: Option<J.Result>)

  function ResultOf(cmd: Command, exec: ExecOutcome): J.Result
    requires !exec.Cancelled?
  {
    match exec
    case Returned(result) => result
    case Threw(message) =>
      J.Result("failed", message,
               Some(map["commandId" := cmd.id, "commandType" := cmd.kind, "error" := message]))
  }

  function Handle(journal: seq<J.Entry>, max: nat, cmd: Command, env: Env): Handled {
    if env.lookupFails then Handled(journal, None, None)
    else match J.Lookup(journal, cmd.id)
      case Some(result) => Handled(journal, None, Some(result))
      case None =>
        if env.exec.Cancelled? then Handled(journal, Some(Run(cmd, env.exec, None, false, env.at)), None)
        else
          var result := ResultOf(cmd, env.exec);
          Handled(if env.persisted then J.Record(journal, max, J.Entry(cmd.id, result, env.at)) else journal,
                  Some(Run(cmd, env.exec, Some(result), env.persisted, env.at)),
                  if env.recordCancelled then None else Some(result))
  }

  // What a returning executor returned is the outcome as it is; a throwing one failed, with its
  // message; a cancelled one has no outcome.
  predicate Told(run: Run) {
    match run.exec
    case Returned(result) => run.outcome == Some(result)
    case Threw(message) =>
      run.outcome == Some(J.Result("failed", message, Some(map["commandId" := run.command.id,
                                                                "commandType" := run.command.kind,
                                                                    "error" := message])))
    case Cancelled => run.outcome == None
  }

  ghost predicate AllTold(runs: seq<Run>) { forall k :: 0 <= k < |runs| ==> Told(runs[k]) }

  // One call, case by case: a journal that cannot be read stops it; a remembered result is given
  // again without a run; else the command runs once and its outcome is remembered and given.
  lemma HandleOutcome(journal: seq<J.Entry>, max: nat, cmd: Command, env: Env)
    ensures var h := Handle(journal, max, cmd, env);
            && (env.lookupFails ==> h == Handled(journal, None, None))
            && (!env.lookupFails && J.Lookup(journal, cmd.id).Some? ==>
                  h == Handled(journal, None, J.Lookup(journal, cmd.id)))
            && (!env.lookupFails && J.Lookup(journal, cmd.id).None? ==>
                  && h.run.Some? && h.run.value.command == cmd && h.run.value.exec == env.exec && Told(h.run.value)
                  && (h.reply.Some? ==> h.reply == h.run.value.outcome)
                  && (h.reply.Some? <==> !env.exec.Cancelled? && !env.recordCancelled)
                  && (!env.persisted ==> h.journal == journal)
                  && (env.persisted && !Text.IsBlank(cmd.id) && max >= 1 ==>
                        J.Lookup(h.journal, cmd.id) == h.run.value.outcome))
  {
    if !env.exec.Cancelled? && max >= 1 && !Text.IsBlank(cmd.id) {
      J.LookupRecorded(journal, max, J.Entry(cmd.id, ResultOf(cmd, env.exec), env.at));
    }
  }

  // --- Acknowledgements (62-73) ------------------------------------------------------------

  function CommandDetails(cmd: Command, source: string): map<string, string> {
    var base := map["commandId" := cmd.id, "commandType" := cmd.kind, "transportSource" := source];
    var base := if cmd.payload.Some? then base["payload" := cmd.payload.value] else base;
    if cmd.expiresAt.Some? then base["expiresAt" := cmd.expiresAt.value] else base
  }

  // The command's own details override the executor's.
  function AckDetails(cmd: Command, result: J.Result, source: string): map<string, string> {
    (if result.details.Some? then result.details.value else map[]) + CommandDetails(cmd, source)
  }

  function AckOf(cmd: Command, result: J.Result, source: string): CommandTable.Ack {
    CommandTable.Ack(result.status, result.message, Some(AckDetails(cmd, result, source)))
  }

  // What an acknowledgement carries: status and message of the result, its details, and over them
  // the command's own.
  lemma AckCarries(cmd: Command, result: J.Result, source: string, key: string)
    ensures var ack := AckOf(cmd, result, source);
            && ack.status == result.status && ack.message == result.message && ack.details.Some?
            && var got := if key in ack.details.value then Some(ack.details.value[key]) else None;
               if key == "commandId" then got == Some(cmd.id)
               else if key == "commandType" then got == Some(cmd.kind)
               else if key == "transportSource" then got == Some(source)
               else if key == "payload" && cmd.payload.Some? then got == cmd.payload
               else if key == "expiresAt" && cmd.expiresAt.Some? then got == cmd.expiresAt
               else if result.details.Some? && key in result.details.value then got == Some(result.details.value[key])
               else got == None
  {
  }

  // --- Logs of executor runs ---------------------------------------------------------------

  function Extend(runs: seq<Run>, run: Option<Run>): seq<Run> {
    if run.Some? then runs + [run.value] else runs
  }

  // The journal writes that a log of runs left behind.
  function Entries(runs: seq<Run>): seq<J.Entry> {
    if runs == [] then []
    else
      var r := runs[|runs| - 1];
      Entries(runs[..|runs| - 1]) +
      (if r.persisted && r.outcome.Some? then [J.Entry(r.command.id, r.outcome.value, r.at)] else [])
  }

  function RememberedIds(runs: seq<Run>): set<string> {
    J.Recorded(Entries(runs))
  }

  // Every run in the log happened because the journal at that moment did not know the command.
  ghost predicate Justified(runs: seq<Run>, max: nat) {
    forall k :: 0 <= k < |runs| ==> JustifiedAt(runs, max, k)
  }

  ghost predicate JustifiedAt(runs: seq<Run>, max: nat, k: int)
    requires 0 <= k < |runs|
  {
    J.Lookup(J.Bounded(Entries(runs[..k]), max), runs[k].command.id).None?
  }

  lemma {:induction false} EntriesSplit(a: seq<Run>, b: seq<Run>)
    ensures Entries(a + b) == Entries(a) + Entries(b)
  {
    if b == [] {
      assert a + b == a;
    } else {
      var n := |b| - 1;
      assert (a + b)[..|a + b| - 1] == a + b[..n];
      EntriesSplit(a, b[..n]);
    }
  }

  // Two runs of one command are separated by at least maxEntries other remembered commands,
  // once the first of them was remembered.
  lemma RerunsFarApart(runs: seq<Run>, max: nat, i: nat, j: nat)
    requires Justified(runs, max) && i < j < |runs|
    requires runs[i].command.id == runs[j].command.id && !Text.IsBlank(runs[i].command.id)
    requires runs[i].persisted && runs[i].outcome.Some?
    ensures |RememberedIds(runs[i + 1..j]) - {runs[i].command.id}| >= max
  {
    var id := runs[i].command.id;
    assert JustifiedAt(runs, max, j);
    var a, b := Entries(runs[..i + 1]), Entries(runs[i + 1..j]);
    assert runs[..j] == runs[..i + 1] + runs[i + 1..j];
    EntriesSplit(runs[..i + 1], runs[i + 1..j]);
    assert runs[..i + 1][..i] == runs[..i];
    assert a[|a| - 1].id == id;
    J.ForgetNeedsMany(a, b, max, id);
  }

  lemma RememberedGrows(a: seq<Run>, b: seq<Run>)
    ensures RememberedIds(a) <= RememberedIds(a + b)
  {
    EntriesSplit(a, b);
  }

  lemma RememberedBetween(runs: seq<Run>, i: nat, j: nat, id: string)
    requires i < j < |runs|
    ensures |RememberedIds(runs[i + 1..j]) - {id}| <= |RememberedIds(runs[i + 1..]) - {id}|
  {
    assert runs[i + 1..] == runs[i + 1..j] + runs[j..];
    RememberedGrows(runs[i + 1..j], runs[j..]);
    J.SubsetSize(RememberedIds(runs[i + 1..j]) - {id}, RememberedIds(runs[i + 1..]) - {id});
  }

  // Exactly one run: nothing forgot it, because fewer than maxEntries others came after it.
  lemma RanOnce(runs: seq<Run>, max: nat, i: nat, j: nat)
    requires Justified(runs, max) && i < |runs| && j < |runs|
    requires runs[i].command.id == runs[j].command.id && !Text.IsBlank(runs[i].command.id)
    requires forall k :: 0 <= k < i ==> runs[k].command.id != runs[i].command.id
    requires runs[i].persisted && runs[i].outcome.Some?
    requires |RememberedIds(runs[i + 1..]) - {runs[i].command.id}| < max
    ensures i == j
  {
    if i < j {
      RerunsFarApart(runs, max, i, j);
      RememberedBetween(runs, i, j, runs[i].command.id);
    }
  }

  // One call keeps the log justified and the journal equal to what the log wrote.
  lemma HandleKeepsLog(journal: seq<J.Entry>, max: nat, runs: seq<Run>, cmd: Command, env: Env)
    requires journal == J.Bounded(Entries(runs), max) && Justified(runs, max)
    ensures var h := Handle(journal, max, cmd, env);
            var runs' := Extend(runs, h.run);
            h.journal == J.Bounded(Entries(runs'), max) && Justified(runs', max) && (AllTold(runs) ==> AllTold(runs'))
  {
    var h := Handle(journal, max, cmd, env);
    HandleOutcome(journal, max, cmd, env);
    if h.run.Some? {
      var runs' := runs + [h.run.value];
      assert runs'[..|runs|] == runs;
      forall k | 0 <= k < |runs'| ensures JustifiedAt(runs', max, k) {
        if k < |runs| { assert runs'[..k] == runs[..k] && JustifiedAt(runs, max, k); }
      }
      if h.run.value.persisted {
        var e := J.Entry(cmd.id, h.run.value.outcome.value, env.at);
        var es := Entries(runs);
        assert Entries(runs') == es + [e];
        assert (es + [e])[..|es|] == es;
      } else {
        assert Entries(runs') == Entries(runs);
      }
    }
  }

  // The result that is acknowledged is the result of a run of that same command.
  lemma {:induction false} RememberedWasRun(runs: seq<Run>, e: J.Entry) returns (k: int)
    requires e in Entries(runs)
    ensures 0 <= k < |runs| && runs[k].command.id == e.id && runs[k].outcome == Some(e.result)
  {
    var n := |runs| - 1;
    if e in Entries(runs[..n]) {
      k := RememberedWasRun(runs[..n], e);
    } else {
      k := n;
    }
  }

  lemma {:induction false} BoundedKeepsOnlyRecords(es: seq<J.Entry>, max: nat, e: J.Entry)
    requires e in J.Bounded(es, max)
    ensures e in es
  {
    var n := |es| - 1;
    var before := J.Bounded(es[..n], max);
    if e in before {
      BoundedKeepsOnlyRecords(es[..n], max, e);
    } else if e != es[n] {
      assert e in J.Without(before, es[n].id) + [es[n]];
      J.WithoutMember(before, es[n].id, e);
    }
  }

  lemma JournalWasRun(journal: seq<J.Entry>, max: nat, runs: seq<Run>, id: string) returns (k: int)
    requires journal == J.Bounded(Entries(runs), max)
    requires J.Lookup(journal, id).Some?
    ensures 0 <= k < |runs| && runs[k].command.id == id && runs[k].outcome == J.Lookup(journal, id)
  {
    var result := J.LastMatch(journal, id).value;
    var i :| 0 <= i < |journal| && journal[i].id == id && journal[i].result == result;
    BoundedKeepsOnlyRecords(Entries(runs), max, journal[i]);
    k := RememberedWasRun(runs, journal[i]);
  }

  lemma ReplyWasRun(journal: seq<J.Entry>, max: nat, runs: seq<Run>, cmd: Command, env: Env) returns (k: int)
    requires journal == J.Bounded(Entries(runs), max)
    requires Handle(journal, max, cmd, env).reply.Some?
    ensures var h := Handle(journal, max, cmd, env);
            var runs' := Extend(runs, h.run);
            0 <= k < |runs'| && runs'[k].command.id == cmd.id && runs'[k].outcome == h.reply
  {
    if J.Lookup(journal, cmd.id).Some? {
      k := JournalWasRun(journal, max, runs, cmd.id);
    } else {
      k := |runs|;
    }
  }

  // The acknowledgement reports a run of this command.
  ghost predicate Reports(ack: CommandTable.Ack, cmd: Command, source: string, runs: seq<Run>) {
    exists k :: 0 <= k < |runs| && runs[k].command.id == cmd.id && runs[k].outcome.Some? &&
                ack == AckOf(cmd, runs[k].outcome.value, source)
  }

  lemma AckReports(journal: seq<J.Entry>, max: nat, runs: seq<Run>, cmd: Command, env: Env, source: string)
    requires journal == J.Bounded(Entries(runs), max)
    requires Handle(journal, max, cmd, env).reply.Some?
    ensures var h := Handle(journal, max, cmd, env);
            Reports(AckOf(cmd, h.reply.value, source), cmd, source, Extend(runs, h.run))
  {
    var k := ReplyWasRun(journal, max, runs, cmd, env);
  }

  // --- Polling (85-112) --------------------------------------------------------------------

  // `handled` counts the commands of the poll that went through.
  datatype Polling = Polling(journal: seq<J.Entry>, runs: seq<Run>, acks: seq<CommandTable.Ack>, handled: nat)

  // One command of a poll, up to its acknowledgement.
  function Called(p: Polling, max: nat, cmd: Command, source: string, env: Env): Polling {
    var h := Handle(p.journal, max, cmd, env);
    Polling(h.journal, Extend(p.runs, h.run),
            if h.reply.Some? then p.acks + [AckOf(cmd, h.reply.value, source)] else p.acks, p.handled)
  }

  // The other commands, one after the other, up to the first call or acknowledgement that throws.
  function Poll(p: Polling, max: nat, cmds: seq<Command>, source: string, envs: seq<Env>, ackOk: seq<bool>): Polling
    requires |envs| == |ackOk| == |cmds| && p.handled <= |cmds|
    decreases |cmds| - p.handled
  {
    if p.handled == |cmds| then p
    else
      var q := Called(p, max, cmds[p.handled], source, envs[p.handled]);
      if |q.acks| == |p.acks| || !ackOk[p.handled] then q
      else Poll(q.(handled := p.handled + 1), max, cmds, source, envs, ackOk)
  }

  ghost predicate AllReport(acks: seq<CommandTable.Ack>, cmds: seq<Command>, source: string, runs: seq<Run>) {
    |acks| <= |cmds| && forall k :: 0 <= k < |acks| ==> Reports(acks[k], cmds[k], source, runs)
  }

  lemma ReportsLater(acks: seq<CommandTable.Ack>, cmds: seq<Command>, source: string, runs: seq<Run>, runs': seq<Run>)
    requires AllReport(acks, cmds, source, runs) && runs <= runs'
    ensures AllReport(acks, cmds, source, runs')
  {
    forall k | 0 <= k < |acks| ensures Reports(acks[k], cmds[k], source, runs') {
      assert Reports(acks[k], cmds[k], source, runs);
      var i :| 0 <= i < |runs| && runs[i].command.id == cmds[k].id && runs[i].outcome.Some? &&
               acks[k] == AckOf(cmds[k], runs[i].outcome.value, source);
      assert runs'[i] == runs[i];
    }
  }

  lemma ReportsSnoc(acks: seq<CommandTable.Ack>, ack: CommandTable.Ack, cmds: seq<Command>, source: string,
                    runs: seq<Run>)
    requires AllReport(acks, cmds, source, runs) && |acks| < |cmds| && Reports(ack, cmds[|acks|], source, runs)
    ensures AllReport(acks + [ack], cmds, source, runs)
  {
  }

  // The journal is what the log of runs wrote, and an acknowledgement went out for every
  // command handled, each reporting a run of its command.
  ghost predicate PollOk(p: Polling, max: nat, cmds: seq<Command>, source: string) {
    && p.journal == J.Bounded(Entries(p.runs), max) && Justified(p.runs, max) && AllTold(p.runs)
    && p.handled <= |p.acks| <= p.handled + 1
    && AllReport(p.acks, cmds, source, p.runs)
  }

  lemma CalledOk(p: Polling, max: nat, cmds: seq<Command>, source: string, env: Env)
    requires PollOk(p, max, cmds, source) && |p.acks| == p.handled < |cmds|
    ensures PollOk(Called(p, max, cmds[p.handled], source, env), max, cmds, source)
    ensures p.runs <= Called(p, max, cmds[p.handled], source, env).runs
  {
    var cmd := cmds[p.handled];
    var h := Handle(p.journal, max, cmd, env);
    HandleKeepsLog(p.journal, max, p.runs, cmd, env);
    ReportsLater(p.acks, cmds, source, p.runs, Extend(p.runs, h.run));
    if h.reply.Some? {
      AckReports(p.journal, max, p.runs, cmd, env, source);
      ReportsSnoc(p.acks, AckOf(cmd, h.reply.value, source), cmds, source, Extend(p.runs, h.run));
    }
  }

  // A property of the poll that each of its calls keeps.
  ghost predicate KeptAt(ok: Polling -> bool, max: nat, cmds: seq<Command>, source: string, envs: seq<Env>, p: Polling)
    requires |envs| == |cmds|
  {
    ok(p) && |p.acks| == p.handled < |cmds| ==>
      var q := Called(p, max, cmds[p.handled], source, envs[p.handled]);
      && ok(q) && q.handled == p.handled
      && (|q.acks| != |p.acks| ==> |q.acks| == |p.acks| + 1 && ok(q.(handled := p.handled + 1)))
  }

  ghost predicate Kept(ok: Polling -> bool, max: nat, cmds: seq<Command>, source: string, envs: seq<Env>)
    requires |envs| == |cmds|
  {
    forall p :: KeptAt(ok, max, cmds, source, envs, p)
  }

  // Why a call sends no acknowledgement.
  predicate MayThrow(env: Env) { env.lookupFails || env.exec.Cancelled? || env.recordCancelled }

  lemma NoAck(p: Polling, max: nat, cmd: Command, source: string, env: Env)
    requires |Called(p, max, cmd, source, env).acks| == |p.acks|
    ensures MayThrow(env)
  {
    HandleOutcome(p.journal, max, cmd, env);
  }

  lemma PollStops(p: Polling, q: Polling, max: nat, cmds: seq<Command>, source: string, envs: seq<Env>,
                  ackOk: seq<bool>)
    requires |envs| == |ackOk| == |cmds| && p.handled < |cmds|
    requires q == Called(p, max, cmds[p.handled], source, envs[p.handled])
    requires |q.acks| == |p.acks| || !ackOk[p.handled]
    ensures Poll(p, max, cmds, source, envs, ackOk) == q
  {
  }

  lemma PollGoesOn(p: Polling, q: Polling, max: nat, cmds: seq<Command>, source: string, envs: seq<Env>,
                   ackOk: seq<bool>)
    requires |envs| == |ackOk| == |cmds| && p.handled < |cmds|
    requires q == Called(p, max, cmds[p.handled], source, envs[p.handled])
    requires |q.acks| != |p.acks| && ackOk[p.handled]
    ensures Poll(p, max, cmds, source, envs, ackOk) ==
            Poll(q.(handled := p.handled + 1), max, cmds, source, envs, ackOk)
  {
  }

  // One call of the poll, in terms of the property.
  lemma KeptTurn(ok: Polling -> bool, p: Polling, q: Polling, max: nat, cmds: seq<Command>, source: string,
                 envs: seq<Env>)
    requires |envs| == |cmds| && KeptAt(ok, max, cmds, source, envs, p) && ok(p) && |p.acks| == p.handled < |cmds|
    requires q == Called(p, max, cmds[p.handled], source, envs[p.handled])
    ensures ok(q) && q.handled == p.handled
    ensures |q.acks| == |p.acks| ==> MayThrow(envs[p.handled])
    ensures |q.acks| != |p.acks| ==> |q.acks| == |p.acks| + 1 && ok(q.(handled := p.handled + 1))
  {
    if |q.acks| == |p.acks| { NoAck(p, max, cmds[p.handled], source, envs[p.handled]); }
  }

  // Where a poll that started at `from` may end.
  ghost predicate EndsWell(q: Polling, from: nat, cmds: seq<Command>, envs: seq<Env>, ackOk: seq<bool>)
    requires |envs| == |ackOk| == |cmds|
  {
    && from <= q.handled <= |cmds| && (forall k :: from <= k < q.handled ==> ackOk[k])
    && (q.handled == |cmds| || (|q.acks| == q.handled && MayThrow(envs[q.handled])) || !ackOk[q.handled])
  }

  // It holds at the end of the poll, which stops short only where a call sent no
  // acknowledgement or the acknowledgement threw.
  lemma {:induction false} PollKeeps(ok: Polling -> bool, p: Polling, max: nat, cmds: seq<Command>, source: string,
                                     envs: seq<Env>, ackOk: seq<bool>)
    requires |envs| == |ackOk| == |cmds| && Kept(ok, max, cmds, source, envs)
    requires ok(p) && |p.acks| == p.handled <= |cmds|
    ensures var q := Poll(p, max, cmds, source, envs, ackOk); ok(q) && EndsWell(q, p.handled, cmds, envs, ackOk)
    decreases |cmds| - p.handled
  {
    if p.handled < |cmds| {
      assert KeptAt(ok, max, cmds, source, envs, p);
      var q := Called(p, max, cmds[p.handled], source, envs[p.handled]);
      KeptTurn(ok, p, q, max, cmds, source, envs);
      if |q.acks| == |p.acks| || !ackOk[p.handled] {
        PollStops(p, q, max, cmds, source, envs, ackOk);
      } else {
        PollGoesOn(p, q, max, cmds, source, envs, ackOk);
        PollKeeps(ok, q.(handled := p.handled + 1), max, cmds, source, envs, ackOk);
      }
    }
  }

  // Whatever fails on the way, every acknowledgement sent by a poll reports a run of its own
  // command, and the poll stops short only where a call sent no acknowledgement or the
  // acknowledgement threw.
  lemma PollReports(p: Polling, max: nat, cmds: seq<Command>, source: string, envs: seq<Env>, ackOk: seq<bool>)
    requires |envs| == |ackOk| == |cmds|
    requires PollOk(p, max, cmds, source) && |p.acks| == p.handled <= |cmds|
    ensures var q := Poll(p, max, cmds, source, envs, ackOk);
            && PollOk(q, max, cmds, source) && p.runs <= q.runs
            && q.handled <= |cmds|
            && (q.handled == |cmds| || (|q.acks| == q.handled && MayThrow(envs[q.handled])) || !ackOk[q.handled])
            && (forall k :: p.handled <= k < q.handled ==> ackOk[k])
  {
    var ok := (q: Polling) => PollOk(q, max, cmds, source) && p.runs <= q.runs;
    forall q ensures KeptAt(ok, max, cmds, source, envs, q) {
      if ok(q) && |q.acks| == q.handled < |cmds| { CalledOk(q, max, cmds, source, envs[q.handled]); }
    }
    PollKeeps(ok, p, max, cmds, source, envs, ackOk);
  }

  lemma OneMore<T>(s: seq<T>, i: nat)
    requires i < |s|
    ensures s[..i] + [s[i]] == s[..i + 1]
  {
  }

  // --- The objects -------------------------------------------------------------------------

  // DeviceCommandResultStore: one list, rewritten whole.
  class JournalStore {
    const maxEntries: nat
    var entries: seq<J.Entry>

    constructor (maxEntries: nat)
      ensures this.maxEntries == maxEntries && entries == []
    {
      this.maxEntries := maxEntries;
      entries := [];
    }

    method Lookup(id: string) returns (r: Option<J.Result>)
      ensures r == J.Lookup(entries, id)
      ensures r.Some? <==> !Text.IsBlank(id) && exists i :: 0 <= i < |entries| && entries[i].id == id
      ensures r.Some? ==> exists i :: 0 <= i < |entries| && entries[i].id == id && entries[i].result == r.value
    {
      if Text.IsBlank(id) { return None; }
      return J.LastMatch(entries, id);
    }

    method Record(id: string, result: J.Result, at: int)
      modifies this`entries
      ensures entries == J.Record(old(entries), maxEntries, J.Entry(id, result, at))
      ensures |old(entries)| <= maxEntries ==> |entries| <= maxEntries
    {
      if Text.IsBlank(id) { return; }
      var next := J.Without(entries, id);
      next := next + [J.Entry(id, result, at)];
      entries := J.TakeLast(next, maxEntries);
    }
  }

  class Coordinator {
    const history: JournalStore
    ghost var runs: seq<Run>

    ghost predicate Valid()
      reads this, history
    {
      history.entries == J.Bounded(Entries(runs), history.maxEntries) && Justified(runs, history.maxEntries) &&
      AllTold(runs)
    }

    constructor (history: JournalStore)
      requires history.entries == []
      ensures Valid() && this.history == history && runs == []
    {
      this.history := history;
      runs := [];
    }

    // handleIncomingCommand (10-60) up to the gateway call: None when it throws before that.
    method HandleIncomingCommand(cmd: Command, source: string, env: Env) returns (ack: Option<CommandTable.Ack>)
      requires Valid()
      modifies this`runs, history`entries
      ensures Valid()
      ensures var h := Handle(old(history.entries), history.maxEntries, cmd, env);
              && history.entries == h.journal
              && runs == Extend(old(runs), h.run)
              && ack == if h.reply.Some? then Some(AckOf(cmd, h.reply.value, source)) else None
      ensures runs == old(runs) || (|runs| == |old(runs)| + 1 && old(runs) < runs)
      ensures |runs| > |old(runs)| ==>
        var run := runs[|old(runs)|];
        && run.command == cmd && run.exec == env.exec
        && (ack.Some? ==> run.outcome.Some? && ack.value.status == run.outcome.value.status &&
                          ack.value.message == run.outcome.value.message)
    {
      HandleOutcome(history.entries, history.maxEntries, cmd, env);
      HandleKeepsLog(history.entries, history.maxEntries, runs, cmd, env);
      if env.lookupFails { return None; }
      var known := history.Lookup(cmd.id);
      var result;
      if known.Some? {
        result := known.value;
      } else {
        match env.exec {
          case Cancelled =>
            runs := runs + [Run(cmd, env.exec, None, false, env.at)];
            return None;
          case Returned(r) =>
            result := r;
          case Threw(message) =>
            result := J.Result("failed", message,
                               Some(map["commandId" := cmd.id, "commandType" := cmd.kind, "error" := message]));
        }
        runs := runs + [Run(cmd, env.exec, Some(result), env.persisted, env.at)];
        if env.persisted {
          history.Record(cmd.id, result, env.at);
        }
        if env.recordCancelled { return None; }
      }
      return Some(AckOf(cmd, result, source));
    }

    // pollAndExecute (85-112).
    method PollAndExecute(commands: seq<Command>, source: string, envs: seq<Env>, ackOk: seq<bool>)
      returns (handled: seq<Command>, ghost acks: seq<CommandTable.Ack>)
      requires Valid() && |envs| == |ackOk| == |commands|
      modifies this`runs, history`entries
      ensures Valid()
      ensures var p := Poll(Polling(old(history.entries), old(runs), [], 0), history.maxEntries, commands, source,
                            envs, ackOk);
              && history.entries == p.journal && runs == p.runs && acks == p.acks
              && p.handled <= |commands| && handled == commands[..p.handled]
    {
      ghost var start := Polling(history.entries, runs, [], 0);
      handled, acks := [], [];
      for i := 0 to |commands|
        invariant Valid() && handled == commands[..i]
        invariant Poll(start, history.maxEntries, commands, source, envs, ackOk) ==
                  Poll(Polling(history.entries, runs, acks, i), history.maxEntries, commands, source, envs, ackOk)
      {
        var ack := HandleIncomingCommand(commands[i], source, envs[i]);
        if ack.None? { return; }
        acks := acks + [ack.value];
        if !ackOk[i] { return; }
        OneMore(commands, i);
        handled := handled + [commands[i]];
      }
    }
  }
}
