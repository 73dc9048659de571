/** The message handler of the SQL queue (services/db-writer/main.py): validation, the Redis
    dedup cache in front of the ledger, and the status each task is told. */
module DbWriter {

  import opened Wrappers
  import opened WriteLedger
  import Ledger = WriteLedger

  type Message = string

  /** A decoded payload.  `taskId` is empty when the payload has none; `allowed` is the verdict
      of the path and grant checks. */
  datatype Payload = Payload(taskId: string, path: Path, command: Command, allowed: bool)

  datatype Status = Success | Failed

  datatype Report = Report(task: TaskId, payload: Option<Payload>, status: Status)

  /** `parse` fails on text that is not a JSON object. */
  datatype Handler = Handler(cfg: Config, parse: Message -> Option<Payload>)

  /** What the environment does to one delivery. */
  datatype Faults = Faults(wall: int, after: int, mono: int, connects: bool, pruneWorks: bool,
                           dedupReads: bool, dedupWrites: bool)

  datatype State = State(w: Writer, dedup: set<TaskId>, reports: seq<Report>)

  const UNKNOWN := "unknown"

  function TaskOf(p: Payload): TaskId { if p.taskId == "" then UNKNOWN else p.taskId }

  function CallOf(p: Payload, f: Faults): Call {
    Call(p.path, TaskOf(p), p.command, f.wall, f.after, f.mono, f.connects, f.pruneWorks)
  }

  function Tell(s: State, task: TaskId, p: Option<Payload>, status: Status): State {
    s.(reports := s.reports + [Report(task, p, status)])
  }

  /** The clock moves on even when nothing is written. */
  function Pass(s: State, f: Faults): State { s.(w := s.w.(now := f.after)) }

  /** `_handle_typed_command`.  Writing the dedup key is not guarded: when it fails the outer
      handler reports "failed", for a command that is committed and, when the ledger had it
      already, after "success" was reported. */
  function HandleTyped(h: Handler, s: State, p: Payload, f: Faults, useCache: bool): State {
    var task := TaskOf(p);
    if useCache && f.dedupReads && task in s.dedup then Tell(Pass(s, f), task, Some(p), Success)
    else if !p.allowed then Tell(Pass(s, f), task, Some(p), Failed)
    else
      var c := CallOf(p, f);
      var t := s.(w := Exec(h.cfg, s.w, c));
      match OutcomeOf(h.cfg, s.w, c)
      case Raised => Tell(t, task, Some(p), Failed)
      case AlreadyCompleted =>
        var told := Tell(t, task, Some(p), Success);
        if f.dedupWrites then told.(dedup := told.dedup + {task}) else Tell(told, task, Some(p), Failed)
      case Completed =>
        if f.dedupWrites then Tell(t.(dedup := t.dedup + {task}), task, Some(p), Success)
        else Tell(t, task, Some(p), Failed)
  }

  /** Payloads without command_type: no dedup key, same ledger. */
  function HandleLegacy(h: Handler, s: State, p: Payload, f: Faults): State {
    var task := TaskOf(p);
    if p.command.query == "" || !p.allowed then Tell(Pass(s, f), task, Some(p), Failed)
    else
      var c := CallOf(p, f);
      Tell(s.(w := Exec(h.cfg, s.w, c)), task, Some(p),
           if OutcomeOf(h.cfg, s.w, c) == Raised then Failed else Success)
  }

  /** `execute_write`: one delivery of one message, run to its end. */
  function ExecuteWrite(h: Handler, s: State, m: Message, f: Faults, useCache: bool): State {
    match h.parse(m)
    case None => Tell(Pass(s, f), UNKNOWN, None, Failed)
    case Some(p) => if p.command.Typed? then HandleTyped(h, s, p, f, useCache) else HandleLegacy(h, s, p, f)
  }

  /** `execute_write` as it runs, over a writer process and the Redis keys. */
  class WriterService {
    const h: Handler
    const process: WriterProcess
    var dedup: set<TaskId>
    var reports: seq<Report>

    function View(): State
      reads this, process
    {
      State(process.State(), dedup, reports)
    }

    constructor (h: Handler, process: WriterProcess)
      requires process.cfg == h.cfg
      ensures this.h == h && this.process == process && View() == State(process.State(), {}, [])
    {
      this.h, this.process, this.dedup, this.reports := h, process, {}, [];
    }

    method PublishTaskStatus(task: TaskId, p: Option<Payload>, status: Status)
      modifies this`reports
      ensures View() == Tell(old(View()), task, p, status)
    {
      reports := reports + [Report(task, p, status)];
    }

    method ExecuteWriteMessage(m: Message, f: Faults)
      requires process.cfg == h.cfg
      modifies this, process
      ensures View() == ExecuteWrite(h, old(View()), m, f, true)
    {
      var parsed := h.parse(m);
      if parsed.None? {
        process.now := f.after;
        PublishTaskStatus(UNKNOWN, None, Failed);
        return;
      }
      var p, task := parsed.value, TaskOf(parsed.value);
      if p.command.Typed? && f.dedupReads && task in dedup {
        process.now := f.after;
        PublishTaskStatus(task, Some(p), Success);
        return;
      }
      if !p.allowed || (p.command.Legacy? && p.command.query == "") {
        process.now := f.after;
        PublishTaskStatus(task, Some(p), Failed);
        return;
      }
      var outcome := process.RunCommand(CallOf(p, f));
      if outcome == Raised {
        PublishTaskStatus(task, Some(p), Failed);
        return;
      }
      if p.command.Typed? && outcome == AlreadyCompleted { PublishTaskStatus(task, Some(p), Success); }
      if p.command.Typed? && !f.dedupWrites {
        PublishTaskStatus(task, Some(p), Failed);
        return;
      }
      if p.command.Typed? { dedup := dedup + {task}; }
      if p.command.Legacy? || outcome == Completed { PublishTaskStatus(task, Some(p), Success); }
    }
  }

  // ---- Runs ----

  /** `Killed` is a delivery whose process dies after the transaction, `written` telling whether
      the first of its two Redis writes got through; a kill before COMMIT is a plain
      `RestartWriter`, one after both writes a `Deliver` and a `RestartWriter`. */
  datatype Event =
    | Deliver(m: Message, f: Faults)
    | Killed(m: Message, f: Faults, written: bool)
    | RestartWriter
    | Expire(task: TaskId)

  /** The payload that would reach the ledger, past every check but the dedup cache. */
  function Accepted(h: Handler, m: Message): Option<Payload> {
    match h.parse(m)
    case None => None
    case Some(p) => if p.allowed && (p.command.Legacy? ==> p.command.query != "") then Some(p) else None
  }

  predicate CacheHit(h: Handler, s: State, m: Message, f: Faults) {
    match h.parse(m)
    case None => false
    case Some(p) => p.command.Typed? && f.dedupReads && TaskOf(p) in s.dedup
  }

  /** After COMMIT the typed path writes the dedup key and then the status, after finding the task
      completed it writes the status and then the key. */
  function KilledAfterCommit(h: Handler, s: State, m: Message, f: Faults, written: bool, useCache: bool): State {
    if Accepted(h, m).None? || (useCache && CacheHit(h, s, m, f)) then s.(w := s.w.(now := f.after, prunedAt := map[]))
    else
      var p := Accepted(h, m).value;
      var c := CallOf(p, f);
      var t := s.(w := Exec(h.cfg, s.w, c).(prunedAt := map[]));
      if p.command.Legacy? || !written then t
      else
        match OutcomeOf(h.cfg, s.w, c)
        case Raised => t
        case AlreadyCompleted => Tell(t, TaskOf(p), Some(p), Success)
        case Completed => t.(dedup := t.dedup + {TaskOf(p)})
  }

  function Step(h: Handler, s: State, e: Event, useCache: bool): State {
    match e
    case Deliver(m, f) => ExecuteWrite(h, s, m, f, useCache)
    case Killed(m, f, written) => KilledAfterCommit(h, s, m, f, written, useCache)
    case RestartWriter => s.(w := s.w.(prunedAt := map[]))
    case Expire(t) => s.(dedup := s.dedup - {t})
  }

  function Run(h: Handler, s: State, events: seq<Event>, useCache: bool): State
    decreases |events|
  {
    if events == [] then s else Run(h, Step(h, s, events[0], useCache), events[1..], useCache)
  }

  predicate TimeOk(now: int, events: seq<Event>)
    decreases |events|
  {
    events == [] ||
    match events[0]
    case Deliver(_, f) => now <= f.wall <= f.after && TimeOk(f.after, events[1..])
    case Killed(_, f, _) => now <= f.wall <= f.after && TimeOk(f.after, events[1..])
    case _ => TimeOk(now, events[1..])
  }

  // ---- Every run of the handler is a run of the ledger ----

  function LedgerEvents(h: Handler, s: State, e: Event, useCache: bool): seq<Ledger.Event> {
    match e
    case Deliver(m, f) =>
      if Accepted(h, m).None? || (useCache && CacheHit(h, s, m, f)) then [Ledger.Wait(f.after)]
      else [Ledger.Run(CallOf(Accepted(h, m).value, f))]
    case Killed(m, f, _) =>
      [if Accepted(h, m).None? || (useCache && CacheHit(h, s, m, f)) then Ledger.Wait(f.after)
       else Ledger.Run(CallOf(Accepted(h, m).value, f)), Ledger.Restart]
    case RestartWriter => [Ledger.Restart]
    case Expire(_) => []
  }

  function LedgerRun(h: Handler, s: State, events: seq<Event>, useCache: bool): seq<Ledger.Event>
    decreases |events|
  {
    if events == [] then []
    else LedgerEvents(h, s, events[0], useCache) + LedgerRun(h, Step(h, s, events[0], useCache), events[1..], useCache)
  }

  lemma {:induction false} RunAllAppend(cfg: Config, w: Writer, a: seq<Ledger.Event>, b: seq<Ledger.Event>)
    ensures RunAll(cfg, w, a + b) == RunAll(cfg, RunAll(cfg, w, a), b)
    ensures ClockOk(w.now, a) && ClockOk(RunAll(cfg, w, a).now, b) ==> ClockOk(w.now, a + b)
    decreases |a|
  {
    if a == [] {
      assert a + b == b;
    } else {
      assert (a + b)[1..] == a[1..] + b;
      RunAllAppend(cfg, Ledger.Step(cfg, w, a[0]), a[1..], b);
    }
  }

  lemma StepIsLedgerRun(h: Handler, s: State, e: Event, useCache: bool)
    ensures Step(h, s, e, useCache).w == RunAll(h.cfg, s.w, LedgerEvents(h, s, e, useCache))
    ensures TimeOk(s.w.now, [e]) ==> ClockOk(s.w.now, LedgerEvents(h, s, e, useCache))
  {
    var trace := LedgerEvents(h, s, e, useCache);
    if |trace| == 1 {
      assert trace[1..] == [];
    } else if |trace| == 2 {
      assert trace == [trace[0], trace[1]];
      RunAll2(h.cfg, s.w, trace[0], trace[1]);
    }
  }

  lemma RunAll2(cfg: Config, w: Writer, a: Ledger.Event, b: Ledger.Event)
    ensures RunAll(cfg, w, [a, b]) == Ledger.Step(cfg, Ledger.Step(cfg, w, a), b)
    ensures ClockOk(w.now, [a]) && ClockOk(Ledger.Step(cfg, w, a).now, [b]) ==> ClockOk(w.now, [a, b])
  {
    assert [a, b][1..] == [b] && [b][1..] == [] && [a][1..] == [];
    assert RunAll(cfg, w, [a, b]) == RunAll(cfg, Ledger.Step(cfg, w, a), [b]);
    assert RunAll(cfg, Ledger.Step(cfg, w, a), [b]) == RunAll(cfg, Ledger.Step(cfg, Ledger.Step(cfg, w, a), b), []);
  }

  lemma {:induction false} RunIsLedgerRun(h: Handler, s: State, events: seq<Event>, useCache: bool)
    requires TimeOk(s.w.now, events)
    ensures Run(h, s, events, useCache).w == RunAll(h.cfg, s.w, LedgerRun(h, s, events, useCache))
    ensures ClockOk(s.w.now, LedgerRun(h, s, events, useCache))
    decreases |events|
  {
    if events != [] {
      var t := Step(h, s, events[0], useCache);
      StepIsLedgerRun(h, s, events[0], useCache);
      RunIsLedgerRun(h, t, events[1..], useCache);
      RunAllAppend(h.cfg, s.w, LedgerEvents(h, s, events[0], useCache), LedgerRun(h, t, events[1..], useCache));
    }
  }

  function Boot(start: map<Path, Vault>, now: int): State { State(Fresh(start, now), {}, []) }

  /** Whatever is delivered, redelivered, killed or expired, and with or without the cache, the
      ledger guarantees hold: replay in commit order, no key twice within the retention. */
  lemma HandlerKeepsLedger(h: Handler, start: map<Path, Vault>, now: int, events: seq<Event>, useCache: bool)
    requires NoneCompleted(start) && TimeOk(now, events)
    ensures Inv(h.cfg, start, Run(h, Boot(start, now), events, useCache).w)
  {
    RunIsLedgerRun(h, Boot(start, now), events, useCache);
    LedgerTheorem(h.cfg, start, now, LedgerRun(h, Boot(start, now), events, useCache));
  }

  // ---- What a delivery tells ----

  /** A delivery whose command commits is reported once: "success", except that a typed command
      whose dedup key cannot be written is reported "failed". */
  lemma CommittedReport(h: Handler, s: State, m: Message, f: Faults, p: Payload)
    requires Accepted(h, m) == Some(p) && Commits(h.cfg, s.w, CallOf(p, f)) && !CacheHit(h, s, m, f)
    ensures var t := Step(h, s, Deliver(m, f), true);
            && t.reports == s.reports + [Report(TaskOf(p), Some(p), if p.command.Legacy? || f.dedupWrites then Success
                                                                    else Failed)]
            && t.w.log == s.w.log + [Commit(p.path, TaskOf(p), p.command, f.wall)]
  {}

  /** A delivery commits and reports a failure in one case only. */
  lemma ToldFailedThoughCommitted(h: Handler, s: State, m: Message, f: Faults)
    ensures var t := Step(h, s, Deliver(m, f), true);
            (t.w.log != s.w.log && exists i :: |s.reports| <= i < |t.reports| && t.reports[i].status == Failed) <==>
            && Accepted(h, m).Some? && Accepted(h, m).value.command.Typed? && !f.dedupWrites
            && !CacheHit(h, s, m, f) && Commits(h.cfg, s.w, CallOf(Accepted(h, m).value, f))
  {
    var t := Step(h, s, Deliver(m, f), true);
    if Accepted(h, m).Some? && !CacheHit(h, s, m, f) && Commits(h.cfg, s.w, CallOf(Accepted(h, m).value, f)) {
      CommittedReport(h, s, m, f, Accepted(h, m).value);
      assert |t.w.log| == |s.w.log| + 1;
      assert t.reports[|s.reports|].status == Failed <==> Accepted(h, m).value.command.Typed? && !f.dedupWrites;
    } else {
      assert t.w.log == s.w.log;
    }
  }

  /** A report for message `m`: under the payload's own id, or under "unknown" when it has none or the
      text is no payload. */
  predicate Addressed(h: Handler, m: Message, r: Report) {
    match h.parse(m)
    case None => r.task == "unknown" && r.payload == None
    case Some(p) => r.task == (if p.taskId == "" then "unknown" else p.taskId) && r.payload == Some(p)
  }

  /** The delivery of `p` gets to the ledger: the checks allow it, a legacy one has SQL, and the dedup
      cache does not answer for a typed one. */
  predicate PastChecks(h: Handler, s: State, m: Message, f: Faults, p: Payload) {
    && h.parse(m) == Some(p) && p.allowed && (p.command.Legacy? ==> p.command.query != "")
    && !(p.command.Typed? && f.dedupReads && (if p.taskId == "" then "unknown" else p.taskId) in s.dedup)
  }

  lemma ChecksAreThese(h: Handler, s: State, m: Message, f: Faults, p: Payload)
    ensures PastChecks(h, s, m, f, p) <==> Accepted(h, m) == Some(p) && !CacheHit(h, s, m, f)
  {}

  /** What a delivery that gets past the checks asks of the ledger. */
  function Asked(p: Payload, f: Faults): Call {
    Call(p.path, if p.taskId == "" then "unknown" else p.taskId, p.command, f.wall, f.after, f.mono,
         f.connects, f.pruneWorks)
  }

  /** The delivery commits: it gets past the checks and its command goes through on its own vault. */
  ghost predicate Lands(h: Handler, s: State, m: Message, f: Faults) {
    exists p :: PastChecks(h, s, m, f, p)
                && GoesThrough(h.cfg, if p.path in s.w.vaults then s.w.vaults[p.path] else Vault(map[], map[]),
                               Asked(p, f))
  }

  /** The delivery gets past the checks, and the ledger has its task as completed. */
  ghost predicate FoundDone(h: Handler, s: State, m: Message, f: Faults) {
    exists p :: PastChecks(h, s, m, f, p) && f.connects && p.path in s.w.vaults
                && Asked(p, f).task in s.w.vaults[p.path].ledger
                && s.w.vaults[p.path].ledger[Asked(p, f).task].status == "completed"
  }

  /** The log behind a delivery, or behind one cut short after its transaction. */
  ghost predicate LogRight(h: Handler, s: State, m: Message, f: Faults, log: seq<Commit>) {
    if Lands(h, s, m, f) then
      exists p :: PastChecks(h, s, m, f, p)
                  && log == s.w.log + [Commit(p.path, Asked(p, f).task, p.command, f.wall)]
    else log == s.w.log
  }

  lemma PastChecksCommits(h: Handler, s: State, m: Message, f: Faults, p: Payload)
    requires PastChecks(h, s, m, f, p)
    ensures LogRight(h, s, m, f, Exec(h.cfg, s.w, CallOf(p, f)).log)
  {
    assert CallOf(p, f) == Asked(p, f);
    CallEffect(h.cfg, s.w, Asked(p, f));
  }

  lemma LogIsLedgers(h: Handler, s: State, m: Message, f: Faults, written: bool, p: Payload)
    requires PastChecks(h, s, m, f, p)
    ensures Step(h, s, Deliver(m, f), true).w.log == Exec(h.cfg, s.w, CallOf(p, f)).log
    ensures Step(h, s, Killed(m, f, written), true).w.log == Exec(h.cfg, s.w, CallOf(p, f)).log
  {
    ChecksAreThese(h, s, m, f, p);
  }

  /** A delivery, or one cut short behind its transaction, adds to the commit log exactly when it
      lands, and then its own command. */
  lemma DeliveryCommits(h: Handler, s: State, m: Message, f: Faults, written: bool)
    ensures LogRight(h, s, m, f, Step(h, s, Deliver(m, f), true).w.log)
    ensures Step(h, s, Killed(m, f, written), true).w.log == Step(h, s, Deliver(m, f), true).w.log
  {
    if p :| PastChecks(h, s, m, f, p) {
      PastChecksCommits(h, s, m, f, p);
      LogIsLedgers(h, s, m, f, written, p);
    } else if h.parse(m).Some? {
      ChecksAreThese(h, s, m, f, h.parse(m).value);
    }
  }

  /** The outcome of the ledger in these terms. */
  lemma LedgerAnswer(h: Handler, s: State, m: Message, f: Faults, p: Payload)
    requires PastChecks(h, s, m, f, p)
    ensures OutcomeOf(h.cfg, s.w, CallOf(p, f)) == Completed <==> Lands(h, s, m, f)
    ensures OutcomeOf(h.cfg, s.w, CallOf(p, f)) == AlreadyCompleted <==> FoundDone(h, s, m, f)
  {
    assert CallOf(p, f) == Asked(p, f);
    CallEffect(h.cfg, s.w, Asked(p, f));
  }

  /** The dedup cache has the id of a typed payload and can be read. */
  predicate CacheAnswers(h: Handler, s: State, m: Message, f: Faults) {
    h.parse(m).Some? && h.parse(m).value.command.Typed? && f.dedupReads
    && (if h.parse(m).value.taskId == "" then "unknown" else h.parse(m).value.taskId) in s.dedup
  }

  /** What a caller is told: one or two reports under its own id and payload, the first of them
      "success" in three cases, a second one, "failed" after "success", in one. */
  ghost predicate ToldRight(h: Handler, s: State, m: Message, f: Faults, t: State) {
    var typed := h.parse(m).Some? && h.parse(m).value.command.Typed?;
    && s.reports <= t.reports && 1 <= |t.reports| - |s.reports| <= 2
    && (forall i :: |s.reports| <= i < |t.reports| ==> Addressed(h, m, t.reports[i]))
    && (t.reports[|s.reports|].status == Success <==>
          CacheAnswers(h, s, m, f) || FoundDone(h, s, m, f) || (Lands(h, s, m, f) && (typed ==> f.dedupWrites)))
    && (|t.reports| - |s.reports| == 2 <==> typed && !f.dedupWrites && FoundDone(h, s, m, f))
    && (|t.reports| - |s.reports| == 2 ==>
          t.reports[|s.reports|].status == Success && t.reports[|s.reports| + 1].status == Failed)
  }

  lemma PastChecksTells(h: Handler, s: State, m: Message, f: Faults, p: Payload)
    requires PastChecks(h, s, m, f, p)
    ensures ToldRight(h, s, m, f, Step(h, s, Deliver(m, f), true))
  {
    ChecksAreThese(h, s, m, f, p);
    LedgerAnswer(h, s, m, f, p);
  }

  lemma StoppedTells(h: Handler, s: State, m: Message, f: Faults)
    requires forall p :: !PastChecks(h, s, m, f, p)
    ensures ToldRight(h, s, m, f, Step(h, s, Deliver(m, f), true))
  {
    if h.parse(m).Some? { assert !PastChecks(h, s, m, f, h.parse(m).value); }
  }

  /** Every delivery tells its caller something, each time under its own id and payload.  The first
      thing is "success" exactly when the cache answers, the ledger has the task, or the command
      lands and, if it is typed, its dedup key is written; a second one, "failed" after "success",
      comes exactly when the ledger had the task and the dedup key cannot be written. */
  lemma DeliveryTells(h: Handler, s: State, m: Message, f: Faults)
    ensures ToldRight(h, s, m, f, Step(h, s, Deliver(m, f), true))
  {
    if p :| PastChecks(h, s, m, f, p) { PastChecksTells(h, s, m, f, p); } else { StoppedTells(h, s, m, f); }
  }

  /** The dedup cache gains the id of a typed command that lands or is found done, if its key can be
      written, and nothing else; it loses nothing. */
  lemma DeliveryRemembers(h: Handler, s: State, m: Message, f: Faults)
    ensures var t := Step(h, s, Deliver(m, f), true);
            t.dedup == if h.parse(m).Some? && h.parse(m).value.command.Typed? && f.dedupWrites
                          && (Lands(h, s, m, f) || FoundDone(h, s, m, f))
                       then s.dedup + {Asked(h.parse(m).value, f).task} else s.dedup
  {
    if h.parse(m).Some? {
      var p := h.parse(m).value;
      ChecksAreThese(h, s, m, f, p);
      if PastChecks(h, s, m, f, p) { LedgerAnswer(h, s, m, f, p); }
    }
  }

  /** What a delivery cut short behind its transaction leaves of the full one. */
  ghost predicate IsPart(h: Handler, s: State, m: Message, f: Faults, written: bool, k: State, t: State) {
    && k.w == t.w.(prunedAt := map[])
    && s.reports <= k.reports && |k.reports| - |s.reports| <= 1 && |t.reports| > |s.reports|
    && (k.reports == s.reports || k.reports[|s.reports|] == t.reports[|s.reports|])
    && (k.reports != s.reports <==> written && FoundDone(h, s, m, f) && h.parse(m).value.command.Typed?)
    && k.dedup == if written && Lands(h, s, m, f) && h.parse(m).value.command.Typed?
                  then s.dedup + {Asked(h.parse(m).value, f).task} else s.dedup
  }

  lemma PastChecksKilled(h: Handler, s: State, m: Message, f: Faults, written: bool, p: Payload)
    requires PastChecks(h, s, m, f, p)
    ensures IsPart(h, s, m, f, written, Step(h, s, Killed(m, f, written), true), Step(h, s, Deliver(m, f), true))
  {
    ChecksAreThese(h, s, m, f, p);
    LedgerAnswer(h, s, m, f, p);
  }

  /** A process that dies behind the transaction leaves the vaults and the log of the full delivery,
      no prune throttle, and of its reports and dedup keys the one that was written. */
  lemma KilledIsPart(h: Handler, s: State, m: Message, f: Faults, written: bool)
    ensures IsPart(h, s, m, f, written, Step(h, s, Killed(m, f, written), true), Step(h, s, Deliver(m, f), true))
  {
    if p :| PastChecks(h, s, m, f, p) {
      PastChecksKilled(h, s, m, f, written, p);
    } else if h.parse(m).Some? {
      assert !PastChecks(h, s, m, f, h.parse(m).value);
    }
  }

  // ---- A reported success is a committed effect ----

  /** What a task is to do, and where. */
  datatype Work = Work(path: Path, command: Command)

  function WorkOf(p: Payload): Work { Work(p.path, p.command) }

  /** Each task id is used for one command on one vault only. */
  ghost predicate OwnIds(h: Handler, owner: TaskId -> Work, events: seq<Event>) {
    forall e :: e in events && (e.Deliver? || e.Killed?) && h.parse(e.m).Some? ==>
      owner(TaskOf(h.parse(e.m).value)) == WorkOf(h.parse(e.m).value)
  }

  predicate InLog(log: seq<Commit>, task: TaskId, work: Work) {
    exists k :: 0 <= k < |log| && log[k].task == task && Work(log[k].path, log[k].command) == work
  }

  predicate Done(log: seq<Commit>, p: Payload) { InLog(log, TaskOf(p), WorkOf(p)) }

  ghost predicate SuccessIsCommitted(s: State) {
    forall i :: 0 <= i < |s.reports| && s.reports[i].status == Success ==>
      s.reports[i].payload.Some? && Done(s.w.log, s.reports[i].payload.value)
  }

  ghost predicate CacheIsCommitted(owner: TaskId -> Work, s: State) {
    forall t :: t in s.dedup ==> InLog(s.w.log, t, owner(t))
  }

  ghost predicate LogIsOwned(owner: TaskId -> Work, log: seq<Commit>) {
    forall k :: 0 <= k < |log| ==> Work(log[k].path, log[k].command) == owner(log[k].task)
  }

  lemma InLogGrows(log: seq<Commit>, c: Commit, task: TaskId, work: Work)
    ensures InLog(log + [c], task, work) <==>
            InLog(log, task, work) || (c.task == task && Work(c.path, c.command) == work)
  {
    var more := log + [c];
    assert forall k :: 0 <= k < |log| ==> more[k] == log[k];
    assert more[|log|] == c;
  }

  lemma ExecCommits(h: Handler, owner: TaskId -> Work, w: Writer, p: Payload, f: Faults)
    requires LedgerIsBacked(w) && LogIsOwned(owner, w.log) && owner(TaskOf(p)) == WorkOf(p)
    ensures LogIsOwned(owner, Exec(h.cfg, w, CallOf(p, f)).log)
    ensures OutcomeOf(h.cfg, w, CallOf(p, f)) != Raised ==> Done(Exec(h.cfg, w, CallOf(p, f)).log, p)
  {
    var c := CallOf(p, f);
    var log := Exec(h.cfg, w, c).log;
    if Commits(h.cfg, w, c) {
      assert log[|w.log|] == Commit(p.path, TaskOf(p), p.command, f.wall);
    }
  }

  /** What a call adds to the log keeps every fact about the log. */
  lemma ExecGrowsLog(h: Handler, w: Writer, p: Payload, f: Faults, task: TaskId, work: Work)
    requires InLog(w.log, task, work)
    ensures InLog(Exec(h.cfg, w, CallOf(p, f)).log, task, work)
  {
    InLogGrows(w.log, Commit(p.path, TaskOf(p), p.command, f.wall), task, work);
  }

  lemma ExecKeepsSuccess(h: Handler, owner: TaskId -> Work, s: State, p: Payload, f: Faults)
    requires SuccessIsCommitted(s) && CacheIsCommitted(owner, s)
    ensures var t := s.(w := Exec(h.cfg, s.w, CallOf(p, f))); SuccessIsCommitted(t) && CacheIsCommitted(owner, t)
  {
    var t := s.(w := Exec(h.cfg, s.w, CallOf(p, f)));
    forall i | 0 <= i < |t.reports| && t.reports[i].status == Success
      ensures t.reports[i].payload.Some? && Done(t.w.log, t.reports[i].payload.value)
    {
      var q := s.reports[i].payload.value;
      ExecGrowsLog(h, s.w, p, f, TaskOf(q), WorkOf(q));
    }
    forall k | k in t.dedup ensures InLog(t.w.log, k, owner(k)) { ExecGrowsLog(h, s.w, p, f, k, owner(k)); }
  }

  /** The facts a step keeps. */
  ghost predicate Sound(owner: TaskId -> Work, s: State) {
    LogIsOwned(owner, s.w.log) && SuccessIsCommitted(s) && CacheIsCommitted(owner, s)
  }

  lemma TellSound(owner: TaskId -> Work, s: State, task: TaskId, p: Option<Payload>, status: Status)
    requires Sound(owner, s) && (status == Success ==> p.Some? && Done(s.w.log, p.value))
    ensures Sound(owner, Tell(s, task, p, status))
  {}

  lemma CacheSound(owner: TaskId -> Work, s: State, p: Payload)
    requires Sound(owner, s) && owner(TaskOf(p)) == WorkOf(p) && Done(s.w.log, p)
    ensures Sound(owner, s.(dedup := s.dedup + {TaskOf(p)}))
  {}

  lemma ExecSound(h: Handler, owner: TaskId -> Work, s: State, p: Payload, f: Faults)
    requires LedgerIsBacked(s.w) && Sound(owner, s) && owner(TaskOf(p)) == WorkOf(p)
    ensures Sound(owner, s.(w := Exec(h.cfg, s.w, CallOf(p, f))))
    ensures OutcomeOf(h.cfg, s.w, CallOf(p, f)) != Raised ==> Done(Exec(h.cfg, s.w, CallOf(p, f)).log, p)
  {
    ExecCommits(h, owner, s.w, p, f);
    ExecKeepsSuccess(h, owner, s, p, f);
  }

  lemma TypedSound(h: Handler, owner: TaskId -> Work, s: State, p: Payload, f: Faults)
    requires LedgerIsBacked(s.w) && Sound(owner, s) && owner(TaskOf(p)) == WorkOf(p)
    ensures Sound(owner, HandleTyped(h, s, p, f, true))
  {
    var task, c := TaskOf(p), CallOf(p, f);
    ExecSound(h, owner, s, p, f);
    if f.dedupReads && task in s.dedup {
      TellSound(owner, Pass(s, f), task, Some(p), Success);
    } else if !p.allowed {
      TellSound(owner, Pass(s, f), task, Some(p), Failed);
    } else {
      var t := s.(w := Exec(h.cfg, s.w, c));
      match OutcomeOf(h.cfg, s.w, c) {
        case Raised => TellSound(owner, t, task, Some(p), Failed);
        case AlreadyCompleted =>
          var told := Tell(t, task, Some(p), Success);
          TellSound(owner, t, task, Some(p), Success);
          CacheSound(owner, told, p);
          TellSound(owner, told, task, Some(p), Failed);
        case Completed =>
          CacheSound(owner, t, p);
          TellSound(owner, t.(dedup := t.dedup + {task}), task, Some(p), Success);
          TellSound(owner, t, task, Some(p), Failed);
      }
    }
  }

  lemma LegacySound(h: Handler, owner: TaskId -> Work, s: State, p: Payload, f: Faults)
    requires LedgerIsBacked(s.w) && Sound(owner, s) && owner(TaskOf(p)) == WorkOf(p)
    ensures Sound(owner, HandleLegacy(h, s, p, f))
  {
    ExecSound(h, owner, s, p, f);
    TellSound(owner, Pass(s, f), TaskOf(p), Some(p), Failed);
    TellSound(owner, s.(w := Exec(h.cfg, s.w, CallOf(p, f))), TaskOf(p), Some(p),
              if OutcomeOf(h.cfg, s.w, CallOf(p, f)) == Raised then Failed else Success);
  }

  lemma KilledSound(h: Handler, owner: TaskId -> Work, s: State, m: Message, f: Faults, written: bool)
    requires LedgerIsBacked(s.w) && Sound(owner, s)
    requires Accepted(h, m).Some? && owner(TaskOf(Accepted(h, m).value)) == WorkOf(Accepted(h, m).value)
    ensures Sound(owner, KilledAfterCommit(h, s, m, f, written, true))
  {
    var p := Accepted(h, m).value;
    var t := s.(w := Exec(h.cfg, s.w, CallOf(p, f)));
    var u := t.(w := t.w.(prunedAt := map[]));
    ExecSound(h, owner, s, p, f);
    assert Sound(owner, u);
    if OutcomeOf(h.cfg, s.w, CallOf(p, f)) != Raised {
      TellSound(owner, u, TaskOf(p), Some(p), Success);
      CacheSound(owner, u, p);
    }
  }

  lemma StepSuccess(h: Handler, owner: TaskId -> Work, s: State, e: Event)
    requires LedgerIsBacked(s.w) && Sound(owner, s) && OwnIds(h, owner, [e])
    ensures Sound(owner, Step(h, s, e, true))
  {
    assert e in [e];
    match e
    case Deliver(m, f) =>
      if h.parse(m).None? {
        TellSound(owner, Pass(s, f), UNKNOWN, None, Failed);
      } else if h.parse(m).value.command.Typed? {
        TypedSound(h, owner, s, h.parse(m).value, f);
      } else {
        LegacySound(h, owner, s, h.parse(m).value, f);
      }
    case Killed(m, f, written) => if Accepted(h, m).Some? { KilledSound(h, owner, s, m, f, written); }
    case _ =>
  }

  lemma {:induction false} RunSuccess(h: Handler, owner: TaskId -> Work, start: map<Path, Vault>, s: State,
                                      events: seq<Event>)
    requires Inv(h.cfg, start, s.w) && TimeOk(s.w.now, events) && Sound(owner, s) && OwnIds(h, owner, events)
    ensures Sound(owner, Run(h, s, events, true))
    decreases |events|
  {
    if events != [] {
      var e := events[0];
      StepSuccess(h, owner, s, e);
      StepIsLedgerRun(h, s, e, true);
      RunInv(h.cfg, start, s.w, LedgerEvents(h, s, e, true));
      RunSuccess(h, owner, start, Step(h, s, e, true), events[1..]);
    }
  }

  /** When a task id always stands for one command on one vault, every success a caller is told and
      every id in the dedup cache stands for a committed effect of that very command. */
  lemma SuccessMeansCommitted(h: Handler, owner: TaskId -> Work, start: map<Path, Vault>, now: int, events: seq<Event>)
    requires NoneCompleted(start) && TimeOk(now, events) && OwnIds(h, owner, events)
    ensures SuccessIsCommitted(Run(h, Boot(start, now), events, true))
    ensures CacheIsCommitted(owner, Run(h, Boot(start, now), events, true))
  {
    RunSuccess(h, owner, start, Boot(start, now), events);
  }

  /** The condition is exact.  Of two typed commands under one id, missing ids being one, the second
      is told "success" from the cache; its effect is committed if and only if it is the same
      command on the same vault. */
  lemma OneIdOneSuccess(h: Handler, s: State, p: Payload, q: Payload, m: Message, n: Message, f: Faults, g: Faults)
    requires h.parse(m) == Some(p) && h.parse(n) == Some(q) && TaskOf(p) == TaskOf(q)
    requires p.command.Typed? && q.command.Typed? && p.allowed
    requires !CacheHit(h, s, m, f) && Commits(h.cfg, s.w, CallOf(p, f)) && f.dedupWrites && g.dedupReads
    requires !Done(s.w.log, q)
    ensures var t := Run(h, s, [Deliver(m, f), Deliver(n, g)], true);
            && t.reports == s.reports + [Report(TaskOf(p), Some(p), Success), Report(TaskOf(q), Some(q), Success)]
            && (Done(t.w.log, q) <==> WorkOf(q) == WorkOf(p))
  {
    var t1 := Step(h, s, Deliver(m, f), true);
    Run2(h, s, Deliver(m, f), Deliver(n, g), true);
    CommittedReport(h, s, m, f, p);
    InLogGrows(s.w.log, Commit(p.path, TaskOf(p), p.command, f.wall), TaskOf(q), WorkOf(q));
    assert CacheHit(h, t1, n, g);
  }

  /** The row of a commit outlives the prune that follows it. */
  predicate RowSurvives(cfg: Config, f: Faults) {
    cfg.retentionDays <= 0 || f.after - cfg.retentionDays * DAY <= f.wall
  }

  /** What an accepted delivery that the cache does not answer is told first, and whether it commits. */
  lemma LedgerAnswers(h: Handler, s: State, n: Message, g: Faults, q: Payload)
    requires Accepted(h, n) == Some(q) && !CacheHit(h, s, n, g)
    ensures var t, o := Step(h, s, Deliver(n, g), true), OutcomeOf(h.cfg, s.w, CallOf(q, g));
            && |t.reports|
               == |s.reports| + (if o == AlreadyCompleted && q.command.Typed? && !g.dedupWrites then 2 else 1)
            && t.reports[|s.reports|].payload == Some(q)
            && (t.reports[|s.reports|].status == Success <==>
                  o == AlreadyCompleted || (o == Completed && (q.command.Legacy? || g.dedupWrites)))
            && t.w.log == s.w.log + if o == Completed then [Commit(q.path, TaskOf(q), q.command, g.wall)] else []
  {}

  /** The outcome of a second call under the id of one that has just committed. */
  lemma SecondOutcome(cfg: Config, w: Writer, p: Payload, q: Payload, f: Faults, g: Faults)
    requires TaskOf(p) == TaskOf(q) && Commits(cfg, w, CallOf(p, f)) && RowSurvives(cfg, f) && g.connects
    requires q.path != p.path ==> TaskOf(q) !in VaultAt(w.vaults, q.path).ledger
    ensures OutcomeOf(cfg, Exec(cfg, w, CallOf(p, f)), CallOf(q, g)) ==
            if q.path == p.path then AlreadyCompleted
            else if Apply(cfg, VaultAt(w.vaults, q.path).tables, q.command).ok then Completed
            else Raised
  {
    var u := Exec(cfg, w, CallOf(p, f));
    if q.path == p.path {
      assert IsCompleted(VaultAt(u.vaults, q.path), TaskOf(q));
    } else {
      assert VaultAt(u.vaults, q.path) == VaultAt(w.vaults, q.path);
    }
  }

  /** Where the cache does not answer it is the ledger that does, and it knows only its own vault: a
      second command, typed or not, is told "success" and not committed if and only if it is a
      different command for the same vault.  For another vault it is executed, and told how that
      went.  `told` is the first thing it is told; a failing dedup write may add "failed". */
  lemma OneIdOneSuccessByLedger(h: Handler, s: State, p: Payload, q: Payload, m: Message, n: Message, f: Faults,
                                g: Faults)
    requires Accepted(h, m) == Some(p) && Accepted(h, n) == Some(q) && TaskOf(p) == TaskOf(q)
    requires !CacheHit(h, s, m, f) && Commits(h.cfg, s.w, CallOf(p, f)) && RowSurvives(h.cfg, f) && g.connects
    requires !CacheHit(h, Step(h, s, Deliver(m, f), true), n, g)
    requires !Done(s.w.log, q) && (q.path != p.path ==> TaskOf(q) !in VaultAt(s.w.vaults, q.path).ledger)
    ensures |Run(h, s, [Deliver(m, f), Deliver(n, g)], true).reports|
            == |s.reports| + 2 + if q.command.Typed? && q.path == p.path && !g.dedupWrites then 1 else 0
    ensures var t := Run(h, s, [Deliver(m, f), Deliver(n, g)], true);
            var told := t.reports[|s.reports| + 1];
            && told.payload == Some(q)
            && (told.status == Success && !Done(t.w.log, q) <==> q.path == p.path && q.command != p.command)
            && (q.path == p.path ==> told.status == Success && (Done(t.w.log, q) <==> q.command == p.command))
            && (q.path != p.path ==>
                  && (Done(t.w.log, q) <==> Apply(h.cfg, VaultAt(s.w.vaults, q.path).tables, q.command).ok)
                  && (told.status == Success <==> Done(t.w.log, q) && (q.command.Legacy? || g.dedupWrites)))
  {
    var t1 := Step(h, s, Deliver(m, f), true);
    Run2(h, s, Deliver(m, f), Deliver(n, g), true);
    CommittedReport(h, s, m, f, p);
    assert t1.w == Exec(h.cfg, s.w, CallOf(p, f));
    SecondOutcome(h.cfg, s.w, p, q, f, g);
    LedgerAnswers(h, t1, n, g, q);
    InLogGrows(s.w.log, Commit(p.path, TaskOf(p), p.command, f.wall), TaskOf(q), WorkOf(q));
    InLogGrows(t1.w.log, Commit(q.path, TaskOf(q), q.command, g.wall), TaskOf(q), WorkOf(q));
  }

  lemma Run2(h: Handler, s: State, a: Event, b: Event, useCache: bool)
    ensures Run(h, s, [a, b], useCache) == Step(h, Step(h, s, a, useCache), b, useCache)
  {
    assert [a, b][1..] == [b] && [b][1..] == [];
    assert Run(h, s, [a, b], useCache) == Run(h, Step(h, s, a, useCache), [b], useCache);
    assert Run(h, Step(h, s, a, useCache), [b], useCache)
      == Run(h, Step(h, Step(h, s, a, useCache), b, useCache), [], useCache);
  }

  // ---- The dedup cache refines the ledger ----

  /** Each task id is used for one vault only. */
  ghost predicate OneVault(h: Handler, home: TaskId -> Path, events: seq<Event>) {
    forall e :: e in events && (e.Deliver? || e.Killed?) && h.parse(e.m).Some? ==>
      home(TaskOf(h.parse(e.m).value)) == h.parse(e.m).value.path
  }

  /** No ledger row of the run is old enough to be pruned before the given time. */
  predicate KeepsRows(cfg: Config, since: int, until: int) {
    cfg.retentionDays <= 0 || until <= since + cfg.retentionDays * DAY
  }

  ghost predicate CacheBacked(home: TaskId -> Path, since: int, s: State) {
    forall t :: t in s.dedup ==>
      IsCompleted(VaultAt(s.w.vaults, home(t)), t) && since <= VaultAt(s.w.vaults, home(t)).ledger[t].createdAt
  }

  ghost predicate RowsSince(since: int, w: Writer) {
    forall p, t :: IsCompleted(VaultAt(w.vaults, p), t) ==> since <= VaultAt(w.vaults, p).ledger[t].createdAt
  }

  lemma ExecKeepsRows(cfg: Config, since: int, w: Writer, c: Call)
    requires RowsSince(since, w) && since <= w.now <= c.wall <= c.after && KeepsRows(cfg, since, c.after)
    ensures RowsSince(since, Exec(cfg, w, c))
    ensures forall p, t :: IsCompleted(VaultAt(w.vaults, p), t) ==> IsCompleted(VaultAt(Exec(cfg, w, c).vaults, p), t)
    ensures OutcomeOf(cfg, w, c) != Raised ==> IsCompleted(VaultAt(Exec(cfg, w, c).vaults, c.path), c.task)
  {
    var u := Exec(cfg, w, c);
    forall p, t | IsCompleted(VaultAt(u.vaults, p), t) ensures since <= VaultAt(u.vaults, p).ledger[t].createdAt {
      assert (p == c.path && t == c.task && Commits(cfg, w, c)) || IsCompleted(VaultAt(w.vaults, p), t);
    }
  }

  /** The step at which they part: from equal vaults a delivery has the same effect with and without
      the cache, except exactly when the cache answers for a command that the ledger would commit. */
  lemma CacheChangesStep(h: Handler, s: State, u: State, m: Message, f: Faults)
    requires s.w == u.w
    ensures Step(h, s, Deliver(m, f), true).w == Step(h, u, Deliver(m, f), false).w <==>
            !(CacheHit(h, s, m, f) && Accepted(h, m).Some? && Commits(h.cfg, s.w, CallOf(Accepted(h, m).value, f)))
  {
    if CacheHit(h, s, m, f) && Accepted(h, m).Some? && Commits(h.cfg, s.w, CallOf(Accepted(h, m).value, f)) {
      assert |Step(h, u, Deliver(m, f), false).w.log| == |u.w.log| + 1;
    }
  }

  /** A call keeps what backs the cache, and adds its own row. */
  lemma ExecBacks(h: Handler, home: TaskId -> Path, since: int, s: State, p: Payload, f: Faults)
    requires since <= s.w.now <= f.wall <= f.after && KeepsRows(h.cfg, since, f.after) && home(TaskOf(p)) == p.path
    requires RowsSince(since, s.w) && CacheBacked(home, since, s)
    ensures var t := s.(w := Exec(h.cfg, s.w, CallOf(p, f)));
            && RowsSince(since, t.w) && CacheBacked(home, since, t)
            && (OutcomeOf(h.cfg, s.w, CallOf(p, f)) != Raised ==>
               CacheBacked(home, since, t.(dedup := t.dedup + {TaskOf(p)})))
  {
    ExecKeepsRows(h.cfg, since, s.w, CallOf(p, f));
  }

  lemma DeliverKeepsBacked(h: Handler, home: TaskId -> Path, since: int, s: State, m: Message, f: Faults)
    requires since <= s.w.now <= f.wall <= f.after && KeepsRows(h.cfg, since, f.after)
    requires h.parse(m).Some? ==> home(TaskOf(h.parse(m).value)) == h.parse(m).value.path
    requires RowsSince(since, s.w) && CacheBacked(home, since, s)
    ensures RowsSince(since, Step(h, s, Deliver(m, f), true).w)
            && CacheBacked(home, since, Step(h, s, Deliver(m, f), true))
  {
    if h.parse(m).Some? { ExecBacks(h, home, since, s, h.parse(m).value, f); }
  }

  lemma DeliverRefines(h: Handler, home: TaskId -> Path, since: int, s: State, u: State, m: Message, f: Faults)
    requires s.w == u.w && since <= s.w.now <= f.wall <= f.after && KeepsRows(h.cfg, since, f.after)
    requires h.parse(m).Some? ==> home(TaskOf(h.parse(m).value)) == h.parse(m).value.path
    requires RowsSince(since, s.w) && CacheBacked(home, since, s)
    ensures Step(h, s, Deliver(m, f), true).w == Step(h, u, Deliver(m, f), false).w
    ensures RowsSince(since, Step(h, s, Deliver(m, f), true).w)
            && CacheBacked(home, since, Step(h, s, Deliver(m, f), true))
  {
    CacheChangesStep(h, s, u, m, f);
    CacheHidesNothing(h, home, since, s, m, f);
    DeliverKeepsBacked(h, home, since, s, m, f);
  }

  /** What the cache answers for the ledger has. */
  lemma CacheHidesNothing(h: Handler, home: TaskId -> Path, since: int, s: State, m: Message, f: Faults)
    requires CacheBacked(home, since, s)
    requires h.parse(m).Some? ==> home(TaskOf(h.parse(m).value)) == h.parse(m).value.path
    ensures CacheHit(h, s, m, f) && Accepted(h, m).Some? ==> !Commits(h.cfg, s.w, CallOf(Accepted(h, m).value, f))
  {}

  lemma KilledRefines(h: Handler, home: TaskId -> Path, since: int, s: State, u: State, m: Message, f: Faults,
                      written: bool)
    requires s.w == u.w && since <= s.w.now <= f.wall <= f.after && KeepsRows(h.cfg, since, f.after)
    requires h.parse(m).Some? ==> home(TaskOf(h.parse(m).value)) == h.parse(m).value.path
    requires RowsSince(since, s.w) && CacheBacked(home, since, s)
    ensures var t := KilledAfterCommit(h, s, m, f, written, true);
            && t.w == KilledAfterCommit(h, u, m, f, written, false).w
            && RowsSince(since, t.w) && CacheBacked(home, since, t)
  {
    if h.parse(m).Some? { ExecBacks(h, home, since, s, h.parse(m).value, f); }
  }

  lemma StepRefines(h: Handler, home: TaskId -> Path, since: int, s: State, u: State, e: Event)
    requires s.w == u.w && since <= s.w.now && TimeOk(s.w.now, [e]) && OneVault(h, home, [e])
    requires RowsSince(since, s.w) && CacheBacked(home, since, s)
    requires e.Deliver? || e.Killed? ==> KeepsRows(h.cfg, since, e.f.after)
    ensures Step(h, s, e, true).w == Step(h, u, e, false).w
    ensures RowsSince(since, Step(h, s, e, true).w) && CacheBacked(home, since, Step(h, s, e, true))
  {
    assert e in [e];
    match e
    case Deliver(m, f) => DeliverRefines(h, home, since, s, u, m, f);
    case Killed(m, f, written) => KilledRefines(h, home, since, s, u, m, f, written);
    case _ =>
  }

  /** The clock at the end of the run. */
  function EndTime(now: int, events: seq<Event>): int
    decreases |events|
  {
    if events == [] then now
    else EndTime(if events[0].Deliver? || events[0].Killed? then events[0].f.after else now, events[1..])
  }

  lemma {:induction false} EndIsLast(now: int, events: seq<Event>)
    requires TimeOk(now, events)
    ensures now <= EndTime(now, events)
    decreases |events|
  {
    if events != [] {
      EndIsLast(if events[0].Deliver? || events[0].Killed? then events[0].f.after else now, events[1..]);
    }
  }

  lemma {:induction false} RunRefines(h: Handler, home: TaskId -> Path, since: int, s: State, u: State,
                                      events: seq<Event>)
    requires s.w == u.w && since <= s.w.now && TimeOk(s.w.now, events) && OneVault(h, home, events)
    requires RowsSince(since, s.w) && CacheBacked(home, since, s)
    requires KeepsRows(h.cfg, since, EndTime(s.w.now, events))
    ensures Run(h, s, events, true).w == Run(h, u, events, false).w
    decreases |events|
  {
    if events != [] {
      var e := events[0];
      var t := Step(h, s, e, true);
      EndIsLast(if e.Deliver? || e.Killed? then e.f.after else s.w.now, events[1..]);
      StepRefines(h, home, since, s, u, e);
      RunRefines(h, home, since, t, Step(h, u, e, false), events[1..]);
    }
  }

  /** With keys expiring and reads failing at any moment, the run with the cache reaches the
      vaults, ledgers and commit log of the run without it, while no ledger row can have aged
      out and a task id always names the same vault. */
  lemma CacheRefinesLedger(h: Handler, home: TaskId -> Path, start: map<Path, Vault>, now: int, events: seq<Event>)
    requires NoneCompleted(start) && TimeOk(now, events) && OneVault(h, home, events)
    requires KeepsRows(h.cfg, now, EndTime(now, events))
    ensures Run(h, Boot(start, now), events, true).w == Run(h, Boot(start, now), events, false).w
  {
    RunRefines(h, home, now, Boot(start, now), Boot(start, now), events);
  }

  // ---- The retention is the bound ----

  function ExampleParse(m: Message): Option<Payload> {
    Some(Payload(m, "vault", Typed("upsert", "", m), true))
  }

  function ExampleDispatch(t: Tables, c: Command): Effect { Effect(t, true) }

  function ExampleHandler(days: int): Handler { Handler(Config(ExampleDispatch, days), ExampleParse) }

  function At(second: int): Faults { Faults(second, second, second, true, true, true, true) }

  /** "a" commits, its cache entry expires, and it is redelivered when the retention ends, which
      renews the entry. */
  function RenewedEntry(days: nat): seq<Event> { [Deliver("a", At(0)), Expire("a")] + [Deliver("a", At(days * DAY))] }

  /** A second later "b" commits and prunes, and "a" comes once more. */
  function PruneAndRepeat(days: nat): seq<Event> {
    [Deliver("b", At(days * DAY + 1)), Deliver("a", At(days * DAY + 1))]
  }

  lemma {:induction false} RunAppend(h: Handler, s: State, a: seq<Event>, b: seq<Event>, useCache: bool)
    ensures Run(h, s, a + b, useCache) == Run(h, Run(h, s, a, useCache), b, useCache)
    decreases |a|
  {
    if a == [] {
      assert a + b == b;
    } else {
      assert (a + b)[1..] == a[1..] + b;
      RunAppend(h, Step(h, s, a[0], useCache), a[1..], b, useCache);
    }
  }

  function CommitAt(m: Message, second: int): Commit { Commit("vault", m, Typed("upsert", "", m), second) }

  lemma Run1(h: Handler, s: State, a: Event, useCache: bool)
    ensures Run(h, s, [a], useCache) == Step(h, s, a, useCache)
  {
    assert [a][1..] == [];
  }

  lemma ExamplePrefix(days: nat, useCache: bool)
    requires days > 0
    ensures var s := Run(ExampleHandler(days), Boot(map[], 0), RenewedEntry(days), useCache);
            && s.w.log == [CommitAt("a", 0)] && s.dedup == {"a"} && s.w.prunedAt == map["vault" := 0]
            && s.w.vaults == map["vault" := Vault(map[], map["a" := Row(COMPLETED, 0)])]
  {
    var h := ExampleHandler(days);
    var first := [Deliver("a", At(0)), Expire("a")];
    Run2(h, Boot(map[], 0), Deliver("a", At(0)), Expire("a"), useCache);
    var s := Run(h, Boot(map[], 0), first, useCache);
    assert PruneLedger(Vault(map[], map["a" := Row(COMPLETED, 0)]), 0 - days * DAY)
      == Vault(map[], map["a" := Row(COMPLETED, 0)]);
    assert s.w.log == [CommitAt("a", 0)] && s.dedup == {} && s.w.prunedAt == map["vault" := 0];
    assert s.w.vaults["vault"] == Vault(map[], map["a" := Row(COMPLETED, 0)]);
    Run1(h, s, Deliver("a", At(days * DAY)), useCache);
    RunAppend(h, Boot(map[], 0), first, [Deliver("a", At(days * DAY))], useCache);
  }

  lemma ExampleEnd(days: nat, s: State, useCache: bool)
    requires days > 0
    requires s.w.log == [CommitAt("a", 0)] && s.dedup == {"a"} && s.w.prunedAt == map["vault" := 0]
    requires s.w.vaults == map["vault" := Vault(map[], map["a" := Row(COMPLETED, 0)])]
    ensures Run(ExampleHandler(days), s, PruneAndRepeat(days), useCache).w.log ==
            [CommitAt("a", 0), CommitAt("b", days * DAY + 1)] + if useCache then [] else [CommitAt("a", days * DAY + 1)]
  {
    var h := ExampleHandler(days);
    var f := At(days * DAY + 1);
    var t := Step(h, s, Deliver("b", f), useCache);
    Run2(h, s, Deliver("b", f), Deliver("a", f), useCache);
    assert PruneDue(h.cfg, s.w, "vault", f.mono);
    assert t.w.log == [CommitAt("a", 0), CommitAt("b", days * DAY + 1)];
    assert "a" in t.dedup && "a" !in VaultAt(t.w.vaults, "vault").ledger;
  }

  /** The bound of CacheRefinesLedger cannot be moved: for every retention there is a run, with one
      payload per id and a single second longer than the retention, in which "a" commits once
      with the cache and twice without it. */
  lemma CacheOutlivesLedger(days: nat)
    requires days > 0
    ensures var h, events := ExampleHandler(days), RenewedEntry(days) + PruneAndRepeat(days);
            && TimeOk(0, events) && EndTime(0, events) == days * DAY + 1
            && KeepsRows(h.cfg, 0, EndTime(0, events) - 1) && !KeepsRows(h.cfg, 0, EndTime(0, events))
            && Run(h, Boot(map[], 0), events, true).w.log == [CommitAt("a", 0), CommitAt("b", days * DAY + 1)] + []
            && Run(h, Boot(map[], 0), events, false).w.log
               == [CommitAt("a", 0), CommitAt("b", days * DAY + 1)] + [CommitAt("a", days * DAY + 1)]
  {
    var h := ExampleHandler(days);
    ExamplePrefix(days, true);
    ExamplePrefix(days, false);
    ExampleEnd(days, Run(h, Boot(map[], 0), RenewedEntry(days), true), true);
    ExampleEnd(days, Run(h, Boot(map[], 0), RenewedEntry(days), false), false);
    RunAppend(h, Boot(map[], 0), RenewedEntry(days), PruneAndRepeat(days), true);
    RunAppend(h, Boot(map[], 0), RenewedEntry(days), PruneAndRepeat(days), false);
    ExampleTime(days);
  }

  lemma ExampleTime(days: nat)
    ensures var events := RenewedEntry(days) + PruneAndRepeat(days);
            TimeOk(0, events) && EndTime(0, events) == days * DAY + 1
  {
    var late, last := days * DAY, days * DAY + 1;
    var events := RenewedEntry(days) + PruneAndRepeat(days);
    assert events == [Deliver("a", At(0)), Expire("a"), Deliver("a", At(late)), Deliver("b", At(last)),
      Deliver("a", At(last))];
    assert events[1..] == [Expire("a"), Deliver("a", At(late)), Deliver("b", At(last)), Deliver("a", At(last))];
    assert events[1..][1..] == [Deliver("a", At(late)), Deliver("b", At(last)), Deliver("a", At(last))];
    assert events[2..][1..] == [Deliver("b", At(last)), Deliver("a", At(last))];
    assert events[3..][1..] == [Deliver("a", At(last))];
    assert TimeOk(last, events[4..]) && EndTime(last, events[4..]) == last;
    assert TimeOk(late, events[3..]) && EndTime(late, events[3..]) == last;
    assert TimeOk(0, events[2..]) && EndTime(0, events[2..]) == last;
    assert TimeOk(0, events[1..]) && EndTime(0, events[1..]) == last;
  }
}
