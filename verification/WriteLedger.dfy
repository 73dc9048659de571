/** The transactional ledger of the DB writer (services/db-writer/main.py): a command runs
    in one transaction together with the ledger row that makes its task id idempotent. */
module WriteLedger {

  type TaskId = string
  type Path = string
  type Tables = map<string, string>

  datatype Row = Row(status: string, createdAt: int)
  datatype Vault = Vault(tables: Tables, ledger: map<TaskId, Row>)

  /** `kind` is the payload's command_type; the legacy path has none. */
  datatype Command = Typed(kind: string, query: string, payload: string) | Legacy(query: string, payload: string)

  /** What a command handler leaves behind; a handler that raises may have written before. */
  datatype Effect = Effect(tables: Tables, ok: bool)

  /** The command handlers, and DUCKCLAW_LEDGER_RETENTION_DAYS. */
  datatype Config = Config(dispatch: (Tables, Command) -> Effect, retentionDays: int)

  datatype Outcome = Completed | AlreadyCompleted | Raised

  /** One call: what it writes, the wall clock at BEGIN and after COMMIT, the monotonic
      clock, and whether opening the file and pruning succeed. */
  datatype Call = Call(path: Path, task: TaskId, command: Command, wall: int, after: int, mono: int,
                       connects: bool, pruneWorks: bool)

  datatype Commit = Commit(path: Path, task: TaskId, command: Command, at: int)

  datatype Writer = Writer(vaults: map<Path, Vault>, prunedAt: map<Path, int>,
                           log: seq<Commit>, // history: committed commands, in commit order
                           now: int)

  const DAY := 86400
  const PRUNE_INTERVAL := 3600
  const COMPLETED := "completed"

  function VaultAt(vaults: map<Path, Vault>, path: Path): Vault {
    if path in vaults then vaults[path] else Vault(map[], map[])
  }

  predicate IsCompleted(v: Vault, task: TaskId) {
    task in v.ledger && v.ledger[task].status == COMPLETED
  }

  /** The command body: an empty raw_sql query raises before any handler runs. */
  function Apply(cfg: Config, tables: Tables, command: Command): Effect {
    if command.Typed? && command.kind == "raw_sql" && command.query == "" then Effect(tables, false)
    else cfg.dispatch(tables, command)
  }

  function PruneLedger(v: Vault, cutoff: int): Vault {
    v.(ledger := map t | t in v.ledger && v.ledger[t].createdAt >= cutoff :: v.ledger[t])
  }

  predicate PruneDue(cfg: Config, w: Writer, path: Path, mono: int) {
    cfg.retentionDays > 0 &&
    mono - (if path in w.prunedAt then w.prunedAt[path] else -PRUNE_INTERVAL) >= PRUNE_INTERVAL
  }

  predicate Commits(cfg: Config, w: Writer, c: Call) {
    c.connects && c.task !in VaultAt(w.vaults, c.path).ledger
    && Apply(cfg, VaultAt(w.vaults, c.path).tables, c.command).ok
  }

  /** The effect of one call on everything the writer keeps. */
  function Exec(cfg: Config, w: Writer, c: Call): Writer {
    if !Commits(cfg, w, c) then w.(now := c.after)
    else
      var v := VaultAt(w.vaults, c.path);
      var v1 := Vault(Apply(cfg, v.tables, c.command).tables, v.ledger[c.task := Row(COMPLETED, c.wall)]);
      var due := PruneDue(cfg, w, c.path, c.mono);
      var v2 := if due && c.pruneWorks then PruneLedger(v1, c.after - cfg.retentionDays * DAY) else v1;
      Writer(w.vaults[c.path := v2], if due then w.prunedAt[c.path := c.mono] else w.prunedAt,
             w.log + [Commit(c.path, c.task, c.command, c.wall)], c.after)
  }

  function OutcomeOf(cfg: Config, w: Writer, c: Call): Outcome {
    if Commits(cfg, w, c) then Completed
    else if c.connects && IsCompleted(VaultAt(w.vaults, c.path), c.task) then AlreadyCompleted
    else Raised
  }

  // ---- What one call does, said without the functions above ----

  /** The call opens the file, finds no ledger row under its id, and its command goes through: an
      empty raw_sql query never does. */
  predicate GoesThrough(cfg: Config, v: Vault, c: Call) {
    && c.connects && c.task !in v.ledger
    && !(c.command.Typed? && c.command.kind == "raw_sql" && c.command.query == "")
    && cfg.dispatch(v.tables, c.command).ok
  }

  /** A prune is tried behind a commit: retention is on and the last try for this file, if this
      process has made one, is an hour ago. */
  predicate Prunes(cfg: Config, w: Writer, c: Call) {
    cfg.retentionDays > 0 && (if c.path in w.prunedAt then c.mono - w.prunedAt[c.path] >= 3600 else c.mono >= 0)
  }

  /** A commit leaves the tables of its command, and of the ledger its own row and every other one,
      except, when it prunes, those more than the retention in seconds old. */
  ghost predicate LedgerBehind(before: Vault, after: Vault, c: Call, pruned: bool, days: int) {
    forall t :: t in before.ledger || t == c.task || t in after.ledger ==>
      var row := if t == c.task || t !in before.ledger then Row("completed", c.wall) else before.ledger[t];
      && (t in after.ledger <==>
            (t in before.ledger || t == c.task) && !(pruned && row.createdAt < c.after - days * 86400))
      && (t in after.ledger ==> after.ledger[t] == row)
  }

  /** One call in full: when it commits, what it then leaves in its vault, that it leaves every other
      vault alone, and everything when it does not commit; and what it answers. */
  lemma CallEffect(cfg: Config, w: Writer, c: Call)
    ensures var u := Exec(cfg, w, c);
            var v := if c.path in w.vaults then w.vaults[c.path] else Vault(map[], map[]);
            && u.now == c.after
            && (forall p :: p != c.path ==>
                  (p in u.vaults <==> p in w.vaults) && (p in w.vaults ==> u.vaults[p] == w.vaults[p]))
            && (if GoesThrough(cfg, v, c) then
                  && u.log == w.log + [Commit(c.path, c.task, c.command, c.wall)]
                  && c.path in u.vaults && u.vaults[c.path].tables == cfg.dispatch(v.tables, c.command).tables
                  && LedgerBehind(v, u.vaults[c.path], c, Prunes(cfg, w, c) && c.pruneWorks, cfg.retentionDays)
                  && u.prunedAt == (if Prunes(cfg, w, c) then w.prunedAt[c.path := c.mono] else w.prunedAt)
                else u.log == w.log && u.vaults == w.vaults && u.prunedAt == w.prunedAt)
            && (OutcomeOf(cfg, w, c) == Completed <==> GoesThrough(cfg, v, c))
            && (OutcomeOf(cfg, w, c) == AlreadyCompleted <==>
                  c.connects && c.task in v.ledger && v.ledger[c.task].status == "completed")
  {}

  /** A restart forgets the throttle: the first commit behind it prunes its file again. */
  lemma PrunedAfterRestart(cfg: Config, w: Writer, c: Call, t: TaskId)
    requires cfg.retentionDays > 0 && c.pruneWorks && c.mono >= 0 && t != c.task
    requires GoesThrough(cfg, VaultAt(w.vaults, c.path), c) && t in VaultAt(w.vaults, c.path).ledger
    ensures var u := RunAll(cfg, w, [Restart, Run(c)]);
            t in VaultAt(u.vaults, c.path).ledger <==>
            VaultAt(w.vaults, c.path).ledger[t].createdAt >= c.after - cfg.retentionDays * 86400
  {
    var r := Step(cfg, w, Restart);
    assert [Restart, Run(c)][1..] == [Run(c)] && [Run(c)][1..] == [];
    assert RunAll(cfg, w, [Restart, Run(c)]) == RunAll(cfg, r, [Run(c)]) == RunAll(cfg, Exec(cfg, r, c), []);
    CallEffect(cfg, r, c);
    assert LedgerBehind(VaultAt(w.vaults, c.path), Exec(cfg, r, c).vaults[c.path], c, true, cfg.retentionDays);
  }

  // ---- The transaction as the code performs it ----

  /** A DuckDB connection: BEGIN remembers the vault, ROLLBACK restores it. */
  class Connection {
    var vault: Vault
    var saved: Vault
    var inTransaction: bool

    constructor (v: Vault)
      ensures vault == v && !inTransaction
    {
      vault, saved, inTransaction := v, v, false;
    }

    method Begin()
      modifies this
      ensures vault == old(vault) && saved == vault && inTransaction
    {
      saved, inTransaction := vault, true;
    }

    method Rollback()
      modifies this
      ensures !inTransaction && vault == if old(inTransaction) then old(saved) else old(vault)
    {
      if inTransaction { vault, inTransaction := saved, false; }
    }

    method Execute(cfg: Config, command: Command) returns (ok: bool)
      modifies this`vault
      ensures ok == Apply(cfg, old(vault).tables, command).ok
      ensures vault == old(vault).(tables := Apply(cfg, old(vault).tables, command).tables)
    {
      var effect := Apply(cfg, vault.tables, command);
      vault, ok := vault.(tables := effect.tables), effect.ok;
    }

    /** INSERT of a completed row; task_id is the primary key. */
    method LedgerInsertCompleted(task: TaskId, wall: int) returns (ok: bool)
      modifies this`vault
      ensures ok == (task !in old(vault).ledger)
      ensures vault == if ok then old(vault).(ledger := old(vault).ledger[task := Row(COMPLETED, wall)]) else old(vault)
    {
      ok := task !in vault.ledger;
      if ok { vault := vault.(ledger := vault.ledger[task := Row(COMPLETED, wall)]); }
    }
  }

  /** The writer process: its vault files and its prune throttle. */
  class WriterProcess {
    const cfg: Config
    var vaults: map<Path, Vault>
    var prunedAt: map<Path, int>
    var log: seq<Commit>
    var now: int

    function State(): Writer
      reads this
    {
      Writer(vaults, prunedAt, log, now)
    }

    constructor (cfg: Config, vaults: map<Path, Vault>, now: int)
      ensures this.cfg == cfg && State() == Writer(vaults, map[], [], now)
    {
      this.cfg, this.vaults, this.prunedAt, this.log, this.now := cfg, vaults, map[], [], now;
    }

    /** `_run_typed_command_sync` and `_run_legacy_sql_sync`: everything between open and close. */
    method RunCommand(c: Call) returns (outcome: Outcome)
      modifies this
      ensures State() == Exec(cfg, old(State()), c)
      ensures outcome == OutcomeOf(cfg, old(State()), c)
      ensures outcome == Completed ==> log == old(log) + [Commit(c.path, c.task, c.command, c.wall)]
      ensures outcome != Completed ==> vaults == old(vaults) && log == old(log) && prunedAt == old(prunedAt)
      ensures forall p :: p != c.path ==> VaultAt(vaults, p) == VaultAt(old(vaults), p)
    {
      now := c.after;
      if !c.connects { return Raised; }
      var conn := new Connection(VaultAt(vaults, c.path));
      conn.Begin();
      if IsCompleted(conn.vault, c.task) {
        conn.Rollback();
        return AlreadyCompleted;
      }
      var ok := conn.Execute(cfg, c.command);
      if ok { ok := conn.LedgerInsertCompleted(c.task, c.wall); }
      if !ok {
        conn.Rollback();
        assert conn.vault == VaultAt(vaults, c.path);
        return Raised;
      }
      log := log + [Commit(c.path, c.task, c.command, c.wall)]; // COMMIT
      LedgerPrune(conn, c);
      vaults := vaults[c.path := conn.vault];
      return Completed;
    }

    method LedgerPrune(conn: Connection, c: Call)
      modifies this`prunedAt, conn`vault
      ensures prunedAt
              == if PruneDue(cfg, old(State()), c.path, c.mono) then old(prunedAt)[c.path := c.mono] else old(prunedAt)
      ensures conn.vault == if PruneDue(cfg, old(State()), c.path, c.mono) && c.pruneWorks
                            then PruneLedger(old(conn.vault), c.after - cfg.retentionDays * DAY) else old(conn.vault)
    {
      if !PruneDue(cfg, State(), c.path, c.mono) { return; }
      prunedAt := prunedAt[c.path := c.mono];
      if c.pruneWorks { conn.vault := PruneLedger(conn.vault, c.after - cfg.retentionDays * DAY); }
    }
  }

  // ---- Runs ----

  /** A kill before COMMIT leaves nothing (the transaction is gone), one after it leaves the
      commit; both then restart, which forgets the prune throttle in process memory. */
  datatype Event = Run(call: Call) | Restart | Wait(until: int)

  function Step(cfg: Config, w: Writer, e: Event): Writer {
    match e
    case Run(c) => Exec(cfg, w, c)
    case Restart => w.(prunedAt := map[])
    case Wait(t) => w.(now := t)
  }

  function RunAll(cfg: Config, w: Writer, events: seq<Event>): Writer
    decreases |events|
  {
    if events == [] then w else RunAll(cfg, Step(cfg, w, events[0]), events[1..])
  }

  /** The wall clock never goes back. */
  predicate ClockOk(now: int, events: seq<Event>)
    decreases |events|
  {
    events == [] ||
    match events[0]
    case Run(c) => now <= c.wall <= c.after && ClockOk(c.after, events[1..])
    case Restart => ClockOk(now, events[1..])
    case Wait(t) => now <= t && ClockOk(t, events[1..])
  }

  /** The commands of one vault replayed from its first tables, in commit order. */
  function Replay(cfg: Config, tables: Tables, path: Path, log: seq<Commit>): Effect {
    if log == [] then Effect(tables, true)
    else
      var n := |log| - 1;
      var before := Replay(cfg, tables, path, log[..n]);
      if log[n].path != path then before
      else
        var e := Apply(cfg, before.tables, log[n].command);
        Effect(e.tables, before.ok && e.ok)
  }

  predicate SameKey(a: Commit, b: Commit) { a.path == b.path && a.task == b.task }

  ghost predicate NoneCompleted(vaults: map<Path, Vault>) {
    forall p, t :: !IsCompleted(VaultAt(vaults, p), t)
  }

  /** Every vault is the replay of its committed commands. */
  ghost predicate TablesAreReplay(cfg: Config, start: map<Path, Vault>, w: Writer) {
    forall p :: Replay(cfg, VaultAt(start, p).tables, p, w.log) == Effect(VaultAt(w.vaults, p).tables, true)
  }

  ghost predicate LedgerIsBacked(w: Writer) {
    forall p, t :: IsCompleted(VaultAt(w.vaults, p), t) ==>
      exists k :: 0 <= k < |w.log| && w.log[k].path == p && w.log[k].task == t
                  && w.log[k].at == VaultAt(w.vaults, p).ledger[t].createdAt
  }

  /** A committed task is in its vault's ledger, with no older date, until its commit is older
      than the retention. */
  ghost predicate LedgerRemembers(cfg: Config, w: Writer) {
    forall k :: 0 <= k < |w.log| ==>
      && w.log[k].at <= w.now
      && (Remembered(VaultAt(w.vaults, w.log[k].path), w.log[k])
          || (cfg.retentionDays > 0 && w.log[k].at < w.now - cfg.retentionDays * DAY))
  }

  predicate Remembered(v: Vault, c: Commit) {
    IsCompleted(v, c.task) && c.at <= v.ledger[c.task].createdAt
  }

  /** Two commits of one task in one vault are more than the retention apart. */
  ghost predicate KeysApart(cfg: Config, log: seq<Commit>) {
    forall i, j :: 0 <= i < j < |log| && SameKey(log[i], log[j]) ==>
      cfg.retentionDays > 0 && log[i].at + cfg.retentionDays * DAY < log[j].at
  }

  ghost predicate Inv(cfg: Config, start: map<Path, Vault>, w: Writer) {
    TablesAreReplay(cfg, start, w) && LedgerIsBacked(w) && LedgerRemembers(cfg, w) && KeysApart(cfg, w.log)
  }

  lemma ExecReplays(cfg: Config, start: map<Path, Vault>, w: Writer, c: Call)
    requires TablesAreReplay(cfg, start, w)
    ensures TablesAreReplay(cfg, start, Exec(cfg, w, c))
  {
    var u := Exec(cfg, w, c);
    if Commits(cfg, w, c) {
      assert u.log[..|u.log| - 1] == w.log;
    }
  }

  lemma ExecBacked(cfg: Config, w: Writer, c: Call)
    requires LedgerIsBacked(w)
    ensures LedgerIsBacked(Exec(cfg, w, c))
  {
    var u := Exec(cfg, w, c);
    if Commits(cfg, w, c) {
      forall p, t | IsCompleted(VaultAt(u.vaults, p), t)
        ensures exists k :: 0 <= k < |u.log| && u.log[k].path == p && u.log[k].task == t
                            && u.log[k].at == VaultAt(u.vaults, p).ledger[t].createdAt
      {
        if p == c.path && t == c.task {
          assert u.log[|w.log|] == Commit(c.path, c.task, c.command, c.wall);
        } else {
          assert IsCompleted(VaultAt(w.vaults, p), t);
          var k :| 0 <= k < |w.log| && w.log[k].path == p && w.log[k].task == t
                   && w.log[k].at == VaultAt(w.vaults, p).ledger[t].createdAt;
          assert u.log[k] == w.log[k];
        }
      }
    }
  }

  lemma ExecRemembers(cfg: Config, w: Writer, c: Call)
    requires w.now <= c.wall <= c.after
    requires LedgerRemembers(cfg, w)
    ensures LedgerRemembers(cfg, Exec(cfg, w, c))
  {
    var u := Exec(cfg, w, c);
    forall k | 0 <= k < |u.log|
      ensures u.log[k].at <= u.now
      ensures Remembered(VaultAt(u.vaults, u.log[k].path), u.log[k])
           || (cfg.retentionDays > 0 && u.log[k].at < u.now - cfg.retentionDays * DAY)
    {
      if k < |w.log| {
        assert u.log[k] == w.log[k];
        assert w.log[k].at <= w.now;
      }
    }
  }

  lemma ExecKeepsApart(cfg: Config, w: Writer, c: Call)
    requires w.now <= c.wall <= c.after
    requires LedgerRemembers(cfg, w) && KeysApart(cfg, w.log)
    ensures KeysApart(cfg, Exec(cfg, w, c).log)
  {
    var u := Exec(cfg, w, c);
    forall i, j | 0 <= i < j < |u.log| && SameKey(u.log[i], u.log[j])
      ensures cfg.retentionDays > 0 && u.log[i].at + cfg.retentionDays * DAY < u.log[j].at
    {
      assert u.log[i] == w.log[i];
      if j < |w.log| { assert u.log[j] == w.log[j]; }
    }
  }

  lemma ExecInv(cfg: Config, start: map<Path, Vault>, w: Writer, c: Call)
    requires w.now <= c.wall <= c.after && Inv(cfg, start, w)
    ensures Inv(cfg, start, Exec(cfg, w, c))
  {
    ExecReplays(cfg, start, w, c);
    ExecBacked(cfg, w, c);
    ExecRemembers(cfg, w, c);
    ExecKeepsApart(cfg, w, c);
  }

  lemma {:induction false} RunInv(cfg: Config, start: map<Path, Vault>, w: Writer, events: seq<Event>)
    requires ClockOk(w.now, events) && Inv(cfg, start, w)
    ensures Inv(cfg, start, RunAll(cfg, w, events))
    decreases |events|
  {
    if events != [] {
      if events[0].Run? {
        ExecInv(cfg, start, w, events[0].call);
      } else {
        assert LedgerIsBacked(Step(cfg, w, events[0]));
      }
      RunInv(cfg, start, Step(cfg, w, events[0]), events[1..]);
    }
  }

  function Fresh(vaults: map<Path, Vault>, now: int): Writer { Writer(vaults, map[], [], now) }

  /** Over any deliveries, redeliveries, failures and restarts: each vault is the replay of its
      committed commands, the completed ledger rows are exactly backed by commits, no committed
      task is forgotten before the retention, and so a task commits again in the same vault only
      when its earlier commit is older than the retention. */
  lemma LedgerTheorem(cfg: Config, start: map<Path, Vault>, now: int, events: seq<Event>)
    requires NoneCompleted(start) && ClockOk(now, events)
    ensures Inv(cfg, start, RunAll(cfg, Fresh(start, now), events))
  {
    assert Inv(cfg, start, Fresh(start, now));
    RunInv(cfg, start, Fresh(start, now), events);
  }

  /** At most one effect per (vault, task id) while the run is no longer than the retention,
      or for ever when pruning is off. */
  lemma AtMostOnceWithinRetention(cfg: Config, start: map<Path, Vault>, now: int, events: seq<Event>)
    requires NoneCompleted(start) && ClockOk(now, events)
    requires cfg.retentionDays <= 0 || RunAll(cfg, Fresh(start, now), events).now <= now + cfg.retentionDays * 86400
    ensures var log := RunAll(cfg, Fresh(start, now), events).log;
            forall i, j :: 0 <= i < j < |log| ==> !SameKey(log[i], log[j])
  {
    LedgerTheorem(cfg, start, now, events);
    LogAfter(cfg, Fresh(start, now), events);
  }

  lemma {:induction false} LogAfter(cfg: Config, w: Writer, events: seq<Event>)
    requires ClockOk(w.now, events)
    ensures w.log <= RunAll(cfg, w, events).log
    ensures forall k :: |w.log| <= k < |RunAll(cfg, w, events).log| ==> w.now <= RunAll(cfg, w, events).log[k].at
    decreases |events|
  {
    if events != [] { LogAfter(cfg, Step(cfg, w, events[0]), events[1..]); }
  }
}
