/** The infrastructure thermostat: telemetry sweep, distance, rule plan, dispatch
    (harness_core/), and the purge it queues for the DB writer.  Each stage cuts its list of
    task ids at 200, so bringing the stale tasks down takes several cycles. */
module HomeostasisLoop {

  import opened Sequences
  import opened StateDelta
  import opened Wrappers

  // ---- Telemetry sweep (fetch_system_telemetry.py) ----

  /** What the stale scan of one source table yields: the table or a column is missing, the query
      raised (logged and skipped), or up to 200 ids. */
  datatype Scan = Missing | Raised | Rows(ids: seq<Id>)

  /** One of the attempts of the sweep.  A lock error may come before or after the stale scan;
      the out-lists keep what the failed attempt appended. */
  datatype Attempt =
    | LockedEarly
    | LockedLate(scans: seq<Scan>, memory: seq<Id>)
    | Broken
    | Fine(scans: seq<Scan>, memory: seq<Id>, errorRate: real, latency: real, fragmentation: real)

  datatype Metrics = Metrics(errorRate: real, latency: real, stale: int, fragmentation: real, locks: int)

  datatype Sweep = Swept(metrics: Metrics, staleIds: seq<Id>, memoryIds: seq<Id>) | SweepFailed

  const ATTEMPTS := 3
  const BREAKER_RATE := 50.0

  /** Python's str.strip on ids. */
  type Strip = Id -> Id

  function Kept(ids: seq<Id>, strip: Strip): seq<Id> {
    if ids == [] then []
    else (if strip(ids[0]) == "" then [] else [strip(ids[0])]) + Kept(ids[1..], strip)
  }

  function ScanIds(scans: seq<Scan>, strip: Strip): seq<Id> {
    if scans == [] then []
    else (if scans[0].Rows? then Kept(scans[0].ids, strip) else []) + ScanIds(scans[1..], strip)
  }

  function ScanTotal(scans: seq<Scan>): nat {
    if scans == [] then 0 else (if scans[0].Rows? then |scans[0].ids| else 0) + ScanTotal(scans[1..])
  }

  /** The row loop of `_stale_tasks`: appends the stripped non-blank ids. */
  method AppendRows(rows: seq<Id>, strip: Strip, staleIds: seq<Id>) returns (ids: seq<Id>)
    ensures ids == staleIds + Kept(rows, strip)
  {
    ids := staleIds;
    var j := 0;
    while j < |rows|
      invariant 0 <= j <= |rows|
      invariant ids + Kept(rows[j..], strip) == staleIds + Kept(rows, strip)
    {
      assert rows[j..][1..] == rows[j + 1..];
      var rid := strip(rows[j]);
      if rid != "" { ids := ids + [rid]; }
      j := j + 1;
    }
  }

  /** `_stale_tasks`: appends to the caller's list and counts every row, blank ids included. */
  method StaleTasks(scans: seq<Scan>, strip: Strip, staleIds: seq<Id>) returns (ids: seq<Id>, total: nat)
    ensures ids == staleIds + ScanIds(scans, strip) && total == ScanTotal(scans)
  {
    ids, total := staleIds, 0;
    var i := 0;
    while i < |scans|
      invariant 0 <= i <= |scans|
      invariant ids + ScanIds(scans[i..], strip) == staleIds + ScanIds(scans, strip)
      invariant total + ScanTotal(scans[i..]) == ScanTotal(scans)
    {
      assert scans[i..][1..] == scans[i + 1..];
      ghost var rest := ScanIds(scans[i + 1..], strip);
      if scans[i].Rows? {
        Assoc(ids, Kept(scans[i].ids, strip), rest);
        ids := AppendRows(scans[i].ids, strip, ids);
        total := total + |scans[i].ids|;
      } else {
        assert [] + rest == rest;
      }
      i := i + 1;
    }
  }

  /** The sweep from attempt `k` on, with what earlier attempts left in the lists. */
  function Fetch(attempts: seq<Attempt>, strip: Strip, k: nat, ids: seq<Id>, memory: seq<Id>, locks: nat): Sweep
    decreases |attempts| - k
  {
    if k >= |attempts| then SweepFailed
    else match attempts[k]
      case LockedEarly => Fetch(attempts, strip, k + 1, ids, memory, locks + 1)
      case LockedLate(scans, m) => Fetch(attempts, strip, k + 1, ids + ScanIds(scans, strip), memory + m, locks + 1)
      case Broken => SweepFailed
      case Fine(scans, m, e, l, f) =>
        Swept(Metrics(e, l, ScanTotal(scans), f, locks), ids + ScanIds(scans, strip), memory + m)
  }

  method FetchSystemTelemetry(attempts: seq<Attempt>, strip: Strip) returns (r: Sweep)
    requires |attempts| == ATTEMPTS
    ensures r == Fetch(attempts, strip, 0, [], [], 0)
  {
    var ids, memory, locks := [], [], 0;
    var k := 0;
    while k < |attempts|
      invariant 0 <= k <= |attempts|
      invariant Fetch(attempts, strip, k, ids, memory, locks) == Fetch(attempts, strip, 0, [], [], 0)
    {
      match attempts[k] {
        case LockedEarly =>
        case LockedLate(scans, m) =>
          var uncounted;
          ids, uncounted := StaleTasks(scans, strip, ids);
          memory := memory + m;
        case Broken => return SweepFailed;
        case Fine(scans, m, e, l, f) =>
          var total;
          ids, total := StaleTasks(scans, strip, ids);
          return Swept(Metrics(e, l, total, f, locks), ids, memory + m);
      }
      locks, k := locks + 1, k + 1;
    }
    return SweepFailed;
  }

  // ---- Distance, plan, dispatch (strix_compute_delta.py, loop_graph.py) ----

  datatype Targets = Targets(errorRate: real, latency: real, stale: int, fragmentation: real, locks: int)

  datatype Distance = Distance(errorRate: real, latency: real, stale: real, fragmentation: real, locks: real)

  function ComputeDistance(m: Metrics, t: Targets): Distance {
    Distance(m.errorRate - t.errorRate, m.latency - t.latency, m.stale as real - t.stale as real,
             m.fragmentation - t.fragmentation, m.locks as real - t.locks as real)
  }

  /** `Unlisted` is an action type outside the allowlist. */
  datatype Kind =
    | PurgeStale | QuarantineMemory | RequestCompaction | AlertAdmin | CircuitBreaker | Noop
    | Unlisted(name: string)

  datatype Action = Action(kind: Kind, hitl: bool)

  predicate NeedsHuman(k: Kind) { k in {RequestCompaction, AlertAdmin, CircuitBreaker} }

  /** `normalize_corrective_action`; it raises on a type outside the allowlist. */
  function Normalize(a: Action): Option<Action> {
    if a.kind.Unlisted? then None else Some(Action(a.kind, NeedsHuman(a.kind)))
  }

  /** What the dispatcher makes of a planned action: an error counts as a noop. */
  function Dispatchable(a: Action): Action {
    match Normalize(a) case Some(b) => b case None => Action(Noop, false)
  }

  /** When the rule planner wants an action of this kind. */
  predicate Wanted(k: Kind, d: Distance, errorRate: real) {
    match k
    case PurgeStale => d.stale > 0.0
    case QuarantineMemory => d.fragmentation > 0.0
    case RequestCompaction => d.fragmentation > 0.0
    case CircuitBreaker => errorRate > BREAKER_RATE
    case AlertAdmin => errorRate > BREAKER_RATE || d.locks > 0.0 || d.errorRate > 0.0
    case Unlisted(_) => false
    case Noop =>
      !(d.stale > 0.0 || d.fragmentation > 0.0 || errorRate > BREAKER_RATE || d.locks > 0.0 || d.errorRate > 0.0)
  }

  function When(b: bool, kinds: seq<Kind>): seq<Kind> { if b then kinds else [] }

  /** The kinds of the rule plan, in the order the rules append them. */
  function RuleKinds(d: Distance, errorRate: real): seq<Kind> {
    var kinds := When(errorRate > BREAKER_RATE, [CircuitBreaker, AlertAdmin]) + When(d.stale > 0.0, [PurgeStale])
                 + When(d.fragmentation > 0.0, [QuarantineMemory, RequestCompaction])
                 + When(d.locks > 0.0, [AlertAdmin])
                 + When(d.errorRate > 0.0 && errorRate <= BREAKER_RATE, [AlertAdmin]);
    if kinds == [] then [Noop] else kinds
  }

  /** Corrective actions of these kinds, each with the requires_hitl flag the rules give it. */
  function AsActions(kinds: seq<Kind>): (r: seq<Action>)
    ensures |r| == |kinds| && forall i :: 0 <= i < |r| ==> r[i] == Action(kinds[i], NeedsHuman(kinds[i]))
  {
    seq(|kinds|, i requires 0 <= i < |kinds| => Action(kinds[i], NeedsHuman(kinds[i])))
  }

  method PlanRules(d: Distance, m: Metrics) returns (actions: seq<Action>)
    ensures actions == AsActions(RuleKinds(d, m.errorRate))
  {
    var raw := RawPlan(d, m.errorRate);
    PlanIsWanted(d, m.errorRate);
    AllListed(RuleKinds(d, m.errorRate));
    var normalized := NormalizeAll(raw);
    actions := normalized.value;
  }

  /** The plan before normalization: one rule after the other. */
  method RawPlan(d: Distance, err: real) returns (raw: seq<Action>)
    ensures raw == AsActions(RuleKinds(d, err))
  {
    raw := [];
    ghost var kinds: seq<Kind> := When(err > BREAKER_RATE, [CircuitBreaker, AlertAdmin]);
    if err > BREAKER_RATE { raw := AsActions([CircuitBreaker, AlertAdmin]); }
    assert raw == AsActions(kinds);
    if d.stale > 0.0 { raw := raw + AsActions([PurgeStale]); }
    kinds := ExtendPlan(kinds, d.stale > 0.0, [PurgeStale], raw);
    if d.fragmentation > 0.0 { raw := raw + AsActions([QuarantineMemory, RequestCompaction]); }
    kinds := ExtendPlan(kinds, d.fragmentation > 0.0, [QuarantineMemory, RequestCompaction], raw);
    if d.locks > 0.0 { raw := raw + AsActions([AlertAdmin]); }
    kinds := ExtendPlan(kinds, d.locks > 0.0, [AlertAdmin], raw);
    if d.errorRate > 0.0 && err <= BREAKER_RATE { raw := raw + AsActions([AlertAdmin]); }
    kinds := ExtendPlan(kinds, d.errorRate > 0.0 && err <= BREAKER_RATE, [AlertAdmin], raw);
    if raw == [] { raw := AsActions([Noop]); }
  }

  /** Bookkeeping for one rule: the raw list still mirrors the kinds. */
  lemma ExtendPlan(kinds: seq<Kind>, b: bool, more: seq<Kind>, raw: seq<Action>) returns (r: seq<Kind>)
    requires raw == if b then AsActions(kinds) + AsActions(more) else AsActions(kinds)
    ensures r == kinds + When(b, more) && raw == AsActions(r)
  {
    r := kinds + When(b, more);
  }

  lemma AllListed(kinds: seq<Kind>)
    requires forall k :: k in kinds ==> !k.Unlisted?
    ensures forall i :: 0 <= i < |AsActions(kinds)| ==> !AsActions(kinds)[i].kind.Unlisted?
  {
    forall i | 0 <= i < |kinds| ensures !AsActions(kinds)[i].kind.Unlisted? { assert kinds[i] in kinds; }
  }

  /** All of the list, or nothing when one of them raises. */
  method NormalizeAll(raw: seq<Action>) returns (actions: Option<seq<Action>>)
    ensures actions.None? <==> exists i :: 0 <= i < |raw| && raw[i].kind.Unlisted?
    ensures actions.Some? ==>
              |actions.value| == |raw| && forall i :: 0 <= i < |raw| ==> Some(actions.value[i]) == Normalize(raw[i])
  {
    var done: seq<Action> := [];
    for i := 0 to |raw|
      invariant |done| == i
      invariant forall j :: 0 <= j < i ==> Some(done[j]) == Normalize(raw[j])
    {
      var n := Normalize(raw[i]);
      if n.None? { return None; }
      done := done + [n.value];
    }
    return Some(done);
  }

  lemma PlanIsWanted(d: Distance, errorRate: real)
    ensures forall k :: k in RuleKinds(d, errorRate) <==> Wanted(k, d, errorRate)
    ensures forall k :: (exists a :: a in AsActions(RuleKinds(d, errorRate)) && a.kind == k) <==>
            Wanted(k, d, errorRate)
  {
    var kinds, actions := RuleKinds(d, errorRate), AsActions(RuleKinds(d, errorRate));
    forall k ensures k in kinds <==> exists a :: a in actions && a.kind == k {
      if k in kinds {
        var i :| 0 <= i < |kinds| && kinds[i] == k;
        assert actions[i] in actions;
      }
    }
  }

  datatype Entry = Entry(kind: Kind, executed: bool)

  /** `emit_*`: nothing to send counts as sent; otherwise the first 200 ids are pushed. */
  function EmitPurge(ids: seq<Id>, queueUp: bool): seq<Delta> {
    if ids == [] || !queueUp then [] else [Purge(Capped(ids))]
  }

  function EmitQuarantine(ids: seq<Id>, queueUp: bool): seq<Delta> {
    if ids == [] || !queueUp then [] else [Quarantine(Capped(ids))]
  }

  function EmittedBy(a: Action, stale: seq<Id>, memory: seq<Id>, queueUp: bool): seq<Delta> {
    match Dispatchable(a).kind
    case PurgeStale => EmitPurge(stale, queueUp)
    case QuarantineMemory => EmitQuarantine(memory, queueUp)
    case _ => []
  }

  function Emitted(planned: seq<Action>, stale: seq<Id>, memory: seq<Id>, queueUp: bool): seq<Delta> {
    if planned == [] then []
    else EmittedBy(planned[0], stale, memory, queueUp) + Emitted(planned[1..], stale, memory, queueUp)
  }

  /** Whether the audit entry of an action says it was executed. */
  predicate Executed(a: Action, stale: seq<Id>, memory: seq<Id>, queueUp: bool) {
    match Dispatchable(a).kind
    case PurgeStale => stale == [] || queueUp
    case QuarantineMemory => memory == [] || queueUp
    case _ => true
  }

  /** ids[:200] */
  function First200(ids: seq<Id>): seq<Id> { if |ids| <= 200 then ids else ids[..200] }

  predicate Plans(planned: seq<Action>, k: Kind) { exists i :: 0 <= i < |planned| && planned[i].kind == k }

  /** What a dispatch may push and must: a purge of the first 200 stale ids, a quarantine of the first
      200 memory ids, each exactly when it is planned, has an id and the queue is up. */
  predicate PushedRight(planned: seq<Action>, stale: seq<Id>, memory: seq<Id>, queueUp: bool, pushed: seq<Delta>) {
    && (forall d :: d in pushed ==> d == Purge(First200(stale)) || d == Quarantine(First200(memory)))
    && (Purge(First200(stale)) in pushed <==> Plans(planned, PurgeStale) && stale != [] && queueUp)
    && (Quarantine(First200(memory)) in pushed <==> Plans(planned, QuarantineMemory) && memory != [] && queueUp)
  }

  lemma {:induction false} EmittedRight(planned: seq<Action>, stale: seq<Id>, memory: seq<Id>, queueUp: bool)
    ensures PushedRight(planned, stale, memory, queueUp, Emitted(planned, stale, memory, queueUp))
  {
    if planned != [] {
      EmittedRight(planned[1..], stale, memory, queueUp);
      PlansCons(planned, PurgeStale);
      PlansCons(planned, QuarantineMemory);
    }
  }

  lemma PlansCons(planned: seq<Action>, k: Kind)
    requires planned != []
    ensures Plans(planned, k) <==> planned[0].kind == k || Plans(planned[1..], k)
  {
    if Plans(planned[1..], k) {
      var i :| 0 <= i < |planned[1..]| && planned[1..][i].kind == k;
      assert planned[i + 1].kind == k;
    }
    if Plans(planned, k) && planned[0].kind != k {
      var i :| 0 <= i < |planned| && planned[i].kind == k;
      assert planned[1..][i - 1].kind == k;
    }
  }

  /** The audit entry of an action: an unlisted kind is a noop, and only a purge or a quarantine that
      has an id and finds the queue down is not executed. */
  predicate Audited(a: Action, stale: seq<Id>, memory: seq<Id>, queueUp: bool, entry: Entry) {
    && entry.kind == (if a.kind.Unlisted? then Noop else a.kind)
    && (!entry.executed <==>
          !queueUp && ((a.kind == PurgeStale && stale != []) || (a.kind == QuarantineMemory && memory != [])))
  }

  method DispatchActions(planned: seq<Action>, stale: seq<Id>, memory: seq<Id>, queueUp: bool)
      returns (dispatched: seq<Entry>, pushed: seq<Delta>)
    ensures pushed == Emitted(planned, stale, memory, queueUp)
    ensures |dispatched| == |planned|
    ensures forall i :: 0 <= i < |planned| ==>
              dispatched[i] == Entry(Dispatchable(planned[i]).kind, Executed(planned[i], stale, memory, queueUp))
    ensures PushedRight(planned, stale, memory, queueUp, pushed)
    ensures forall i :: 0 <= i < |planned| ==> Audited(planned[i], stale, memory, queueUp, dispatched[i])
  {
    EmittedRight(planned, stale, memory, queueUp);
    dispatched, pushed := [], [];
    var i := 0;
    while i < |planned|
      invariant 0 <= i <= |planned| && |dispatched| == i
      invariant pushed + Emitted(planned[i..], stale, memory, queueUp) == Emitted(planned, stale, memory, queueUp)
      invariant forall j :: 0 <= j < i ==>
                  dispatched[j] == Entry(Dispatchable(planned[j]).kind, Executed(planned[j], stale, memory, queueUp))
    {
      var entry, more := DispatchOne(planned[i], stale, memory, queueUp);
      EmittedStep(planned, i, pushed, stale, memory, queueUp);
      dispatched, pushed := dispatched + [entry], pushed + more;
      i := i + 1;
    }
  }

  lemma EmittedStep(planned: seq<Action>, i: nat, pushed: seq<Delta>, stale: seq<Id>, memory: seq<Id>, queueUp: bool)
    requires i < |planned|
    ensures pushed + Emitted(planned[i..], stale, memory, queueUp)
         == (pushed + EmittedBy(planned[i], stale, memory, queueUp)) + Emitted(planned[i + 1..], stale, memory, queueUp)
  {
    assert planned[i..][1..] == planned[i + 1..];
    Assoc(pushed, EmittedBy(planned[i], stale, memory, queueUp), Emitted(planned[i + 1..], stale, memory, queueUp));
  }

  /** One turn of the loop. */
  method DispatchOne(planned: Action, stale: seq<Id>, memory: seq<Id>, queueUp: bool)
      returns (entry: Entry, pushed: seq<Delta>)
    ensures entry == Entry(Dispatchable(planned).kind, Executed(planned, stale, memory, queueUp))
    ensures pushed == EmittedBy(planned, stale, memory, queueUp)
  {
    var normalized := Normalize(planned);
    var action := if normalized.Some? then normalized.value else Action(Noop, false);
    var ok := true;
    pushed := [];
    if action.kind == Noop || (action.hitl && NeedsHuman(action.kind)) {
      // a notification, and for the breaker a Redis key: neither enters the queue
    } else if action.kind == PurgeStale {
      ok := stale == [] || queueUp;
      if stale != [] && queueUp { pushed := [Purge(Capped(stale))]; }
    } else {
      ok := memory == [] || queueUp;
      if memory != [] && queueUp { pushed := [Quarantine(Capped(memory))]; }
    }
    entry := Entry(action.kind, ok);
  }

  // ---- The graph ----

  datatype RunStatus = NotStarted | Sweeping | Calculating | Planning | Dispatching | Completed | Failed

  datatype LoopState = LoopState(status: RunStatus, vault: string, metrics: Metrics, distance: Distance,
                                 planned: seq<Action>, staleIds: seq<Id>, memoryIds: seq<Id>, pushed: seq<Delta>)

  /** What the outside world does to one run. */
  datatype Env = Env(attempts: seq<Attempt>, strixRaises: bool, queueUp: bool)

  function NodeSweep(s: LoopState, env: Env, strip: Strip): LoopState {
    if s.vault == "" then s.(status := Failed)
    else match Fetch(env.attempts, strip, 0, [], [], 0)
      case SweepFailed => s.(status := Failed)
      case Swept(m, ids, mem) => s.(status := Sweeping, metrics := m, staleIds := ids, memoryIds := mem)
  }

  function NodeDistance(s: LoopState, env: Env, t: Targets): LoopState {
    if s.status == Failed then s.(status := Calculating)
    else if env.strixRaises then s.(status := Failed)
    else s.(status := Calculating, distance := ComputeDistance(s.metrics, t))
  }

  function NodePlan(s: LoopState): LoopState {
    if s.status == Failed then s.(status := Planning)
    else s.(status := Planning, planned := AsActions(RuleKinds(s.distance, s.metrics.errorRate)))
  }

  function NodeDispatch(s: LoopState, env: Env): LoopState {
    if s.status == Failed then s
    else s.(status := Completed, pushed := Emitted(s.planned, s.staleIds, s.memoryIds, env.queueUp))
  }

  function RunLoop(s: LoopState, env: Env, t: Targets, strip: Strip): LoopState {
    NodeDispatch(NodePlan(NodeDistance(NodeSweep(s, env, strip), env, t)), env)
  }

  const NO_METRICS := Metrics(0.0, 0.0, 0, 0.0, 0)
  const NO_DISTANCE := Distance(0.0, 0.0, 0.0, 0.0, 0.0)

  function Initial(vault: string): LoopState {
    LoopState(NotStarted, vault, NO_METRICS, NO_DISTANCE, [], [], [], [])
  }

  /** A failed node is forgotten: the next node overwrites the status, so every run, also one
      whose sweep failed, is audited as completed, and a failed sweep purges nothing. */
  lemma EveryRunEndsCompleted(s: LoopState, env: Env, t: Targets, strip: Strip)
    ensures RunLoop(s, env, t, strip).status == Completed
    ensures s == Initial(s.vault) && Fetch(env.attempts, strip, 0, [], [], 0).SweepFailed? ==>
            RunLoop(s, env, t, strip).pushed == []
  {
    assert RuleKinds(NO_DISTANCE, 0.0) == [Noop];
    var noop := AsActions([Noop]);
    assert noop[1..] == [] && Emitted(noop, [], [], env.queueUp) == [];
  }

  // ---- Convergence ----

  predicate IsStale(r: Row) { r.status in {Pending, Active, PendingHitl} && r.aged }

  function StaleSet(rows: Table): set<Id> { set i | i in rows && IsStale(rows[i]) }

  /** What `SELECT ... LIMIT 200` may return: that many stale ids, each once, in any order. */
  ghost predicate IsBatch(rows: Table, ids: seq<Id>) {
    && (forall i, j :: 0 <= i < j < |ids| ==> ids[i] != ids[j])
    && Members(ids) <= StaleSet(rows)
    && |ids| == Min(CAP, |StaleSet(rows)|)
  }

  ghost predicate GoodScan(rows: Table, scans: seq<Scan>) {
    |scans| == 1 && scans[0].Rows? && IsBatch(rows, scans[0].ids)
  }

  /** A sweep of the one default source that reads the table and gets through in time. */
  ghost predicate GoodSweep(rows: Table, attempts: seq<Attempt>, strip: Strip) {
    && (forall k :: 0 <= k < |attempts| ==>
          match attempts[k]
          case LockedLate(scans, _) => GoodScan(rows, scans)
          case Fine(scans, _, _, _, _) => GoodScan(rows, scans)
          case _ => true)
    && Fetch(attempts, strip, 0, [], [], 0).Swept?
  }

  ghost predicate TrimmedIds(rows: Table, strip: Strip) {
    forall i :: i in rows ==> i != "" && strip(i) == i
  }

  lemma {:induction false} KeptAll(ids: seq<Id>, strip: Strip)
    requires forall i :: i in ids ==> i != "" && strip(i) == i
    ensures Kept(ids, strip) == ids
  {
    if ids != [] {
      assert ids[0] in ids && forall i :: i in ids[1..] ==> i in ids;
      KeptAll(ids[1..], strip);
      assert ids == [ids[0]] + ids[1..];
    }
  }

  lemma GoodScanIds(rows: Table, scans: seq<Scan>, strip: Strip)
    requires GoodScan(rows, scans) && TrimmedIds(rows, strip)
    ensures ScanIds(scans, strip) == scans[0].ids && ScanTotal(scans) == |scans[0].ids|
  {
    assert scans[1..] == [];
    forall i | i in scans[0].ids ensures i != "" && strip(i) == i { assert i in Members(scans[0].ids); }
    KeptAll(scans[0].ids, strip);
    assert scans[0].ids + [] == scans[0].ids;
  }

  /** Some batch is a prefix of the list, and nothing but stale ids follows. */
  ghost predicate StartsWithBatch(rows: Table, ids: seq<Id>) {
    Members(ids) <= StaleSet(rows) && exists b :: IsBatch(rows, b) && b <= ids
  }

  lemma AppendBatch(rows: Table, ids: seq<Id>, b: seq<Id>)
    requires (ids == [] || StartsWithBatch(rows, ids)) && IsBatch(rows, b)
    ensures StartsWithBatch(rows, ids + b)
  {}

  lemma {:induction false} FetchBatches(rows: Table, attempts: seq<Attempt>, strip: Strip, k: nat, ids: seq<Id>,
                                        memory: seq<Id>, locks: nat)
    requires TrimmedIds(rows, strip) && k <= |attempts| && (ids == [] || StartsWithBatch(rows, ids))
    requires forall j :: k <= j < |attempts| ==>
          match attempts[j]
          case LockedLate(scans, _) => GoodScan(rows, scans)
          case Fine(scans, _, _, _, _) => GoodScan(rows, scans)
          case _ => true
    requires Fetch(attempts, strip, k, ids, memory, locks).Swept?
    ensures var r := Fetch(attempts, strip, k, ids, memory, locks);
            StartsWithBatch(rows, r.staleIds) && r.metrics.stale == Min(CAP, |StaleSet(rows)|)
    decreases |attempts| - k
  {
    match attempts[k]
    case LockedEarly => FetchBatches(rows, attempts, strip, k + 1, ids, memory, locks + 1);
    case LockedLate(scans, m) =>
      GoodScanIds(rows, scans, strip);
      AppendBatch(rows, ids, scans[0].ids);
      FetchBatches(rows, attempts, strip, k + 1, ids + scans[0].ids, memory + m, locks + 1);
    case Fine(scans, m, e, l, f) =>
      GoodScanIds(rows, scans, strip);
      AppendBatch(rows, ids, scans[0].ids);
    case Broken =>
  }

  lemma {:induction false} DistinctCount(ids: seq<Id>)
    requires forall i, j :: 0 <= i < j < |ids| ==> ids[i] != ids[j]
    ensures |Members(ids)| == |ids|
  {
    if ids != [] {
      var n := |ids| - 1;
      DistinctCount(ids[..n]);
      assert ids == ids[..n] + [ids[n]];
      assert Members(ids) == Members(ids[..n]) + {ids[n]};
      assert ids[n] !in Members(ids[..n]);
    }
  }

  lemma SubsetCount(a: set<Id>, b: set<Id>)
    requires a <= b
    ensures |a| <= |b| && (|a| == |b| ==> a == b)
    ensures |b - a| == |b| - |a|
  {
    assert b == a + (b - a);
    if |a| == |b| { assert |b - a| == 0; }
  }

  /** The first 200 of a list that starts with a batch hit exactly min(200, n) stale rows, with
      whatever duplicates and later batches the retries appended. */
  lemma CappedHits(rows: Table, ids: seq<Id>)
    requires StartsWithBatch(rows, ids)
    ensures Members(Capped(ids)) <= StaleSet(rows) && |Members(Capped(ids))| == Min(CAP, |StaleSet(rows)|)
  {
    var b :| IsBatch(rows, b) && b <= ids;
    DistinctCount(b);
    assert b <= Capped(ids);
    forall i | i in Members(b) ensures i in Members(Capped(ids)) { assert i in Capped(ids); }
    forall i | i in Members(Capped(ids)) ensures i in StaleSet(rows) { assert i in Members(ids); }
    SubsetCount(Members(b), StaleSet(rows));
    if |b| == CAP {
      assert Capped(ids) == b;
    } else {
      assert Members(b) == StaleSet(rows) == Members(Capped(ids));
    }
  }

  /** What the queued purges of a run do once the DB writer has applied them. */
  function AfterPurges(rows: Table, pushed: seq<Delta>): Table {
    if pushed == [] then rows
    else
      var next := if pushed[0].Purge? then SetStatus(rows, Members(Capped(pushed[0].ids)), Cancelled) else rows;
      AfterPurges(next, pushed[1..])
  }

  /** One sweep-plan-dispatch-apply cycle over a vault. */
  function Cycle(rows: Table, vault: string, env: Env, t: Targets, strip: Strip): Table {
    AfterPurges(rows, RunLoop(Initial(vault), env, t, strip).pushed)
  }

  lemma CancelledAreNotStale(rows: Table, ids: set<Id>)
    ensures StaleSet(SetStatus(rows, ids, Cancelled)) == StaleSet(rows) - ids
    ensures SetStatus(rows, ids, Cancelled).Keys == rows.Keys
  {}

  lemma {:induction false} EmittedPurges(rows: Table, kinds: seq<Kind>, stale: seq<Id>, memory: seq<Id>)
    ensures AfterPurges(rows, Emitted(AsActions(kinds), stale, memory, true)).Keys == rows.Keys
    ensures StaleSet(AfterPurges(rows, Emitted(AsActions(kinds), stale, memory, true)))
         == StaleSet(rows) - if PurgeStale in kinds then Members(Capped(stale)) else {}
  {
    var actions := AsActions(kinds);
    if kinds != [] {
      assert actions[1..] == AsActions(kinds[1..]);
      assert kinds == [kinds[0]] + kinds[1..];
      var rest := Emitted(actions[1..], stale, memory, true);
      var first :=
        match kinds[0]
        case PurgeStale => EmitPurge(stale, true)
        case QuarantineMemory => EmitQuarantine(memory, true)
        case _ => [];
      assert Emitted(actions, stale, memory, true) == first + rest;
      if first == [] {
        assert first + rest == rest;
        EmittedPurges(rows, kinds[1..], stale, memory);
      } else {
        assert first == [first[0]] && (first + rest)[1..] == rest;
        var next := if first[0].Purge? then SetStatus(rows, Members(Capped(first[0].ids)), Cancelled) else rows;
        CancelledAreNotStale(rows, Members(Capped(stale)));
        EmittedPurges(next, kinds[1..], stale, memory);
      }
    }
  }

  /** One cycle: nothing when the capped count is within the target, else min(200, n) fewer. */
  function NextCount(n: nat, target: nat): nat {
    if Min(CAP, n) > target then n - Min(CAP, n) else n
  }

  lemma RunLoopPushes(vault: string, env: Env, t: Targets, strip: Strip)
    requires vault != "" && !env.strixRaises && env.queueUp
    requires Fetch(env.attempts, strip, 0, [], [], 0).Swept?
    ensures var r := Fetch(env.attempts, strip, 0, [], [], 0);
            RunLoop(Initial(vault), env, t, strip).pushed
              == Emitted(AsActions(RuleKinds(ComputeDistance(r.metrics, t), r.metrics.errorRate)),
                         r.staleIds, r.memoryIds, true)
  {}

  lemma CyclePurges(rows: Table, vault: string, env: Env, t: Targets, strip: Strip)
    requires vault != "" && !env.strixRaises && env.queueUp
    requires Fetch(env.attempts, strip, 0, [], [], 0).Swept?
    ensures var r := Fetch(env.attempts, strip, 0, [], [], 0);
            && Cycle(rows, vault, env, t, strip).Keys == rows.Keys
            && StaleSet(Cycle(rows, vault, env, t, strip))
               == StaleSet(rows) - if r.metrics.stale as real > t.stale as real then Members(Capped(r.staleIds)) else {}
  {
    RunLoopPushes(vault, env, t, strip);
    var r := Fetch(env.attempts, strip, 0, [], [], 0);
    var d := ComputeDistance(r.metrics, t);
    EmittedPurges(rows, RuleKinds(d, r.metrics.errorRate), r.staleIds, r.memoryIds);
    PlanIsWanted(d, r.metrics.errorRate);
  }

  lemma CycleCount(rows: Table, vault: string, env: Env, t: Targets, strip: Strip)
    requires vault != "" && t.stale >= 0 && !env.strixRaises && env.queueUp
    requires TrimmedIds(rows, strip) && GoodSweep(rows, env.attempts, strip)
    ensures |StaleSet(Cycle(rows, vault, env, t, strip))| == NextCount(|StaleSet(rows)|, t.stale)
    ensures TrimmedIds(Cycle(rows, vault, env, t, strip), strip)
  {
    var r := Fetch(env.attempts, strip, 0, [], [], 0);
    FetchBatches(rows, env.attempts, strip, 0, [], [], 0);
    CappedHits(rows, r.staleIds);
    CyclePurges(rows, vault, env, t, strip);
    SubsetCount(Members(Capped(r.staleIds)), StaleSet(rows));
  }

  // ---- Many cycles ----

  /** A cycle with a working queue and a sweep that gets through turns one table into the next. */
  ghost predicate CycleStep(rows: Table, vault: string, env: Env, t: Targets, strip: Strip, next: Table) {
    && !env.strixRaises && env.queueUp && GoodSweep(rows, env.attempts, strip)
    && next == Cycle(rows, vault, env, t, strip)
  }

  /** The tables of successive cycles, nothing new becoming stale in between. */
  ghost predicate IsHistory(tables: seq<Table>, vault: string, envs: seq<Env>, t: Targets, strip: Strip) {
    && |tables| == |envs| + 1
    && (forall k :: 0 <= k < |envs| ==> CycleStep(tables[k], vault, envs[k], t, strip, tables[k + 1]))
  }

  function CountAfter(n: nat, target: nat, cycles: nat): nat
    decreases cycles
  {
    if cycles == 0 then n else CountAfter(NextCount(n, target), target, cycles - 1)
  }

  lemma {:induction false} CountsFollow(counts: seq<nat>, target: nat)
    requires |counts| > 0 && forall k :: 0 <= k < |counts| - 1 ==> counts[k + 1] == NextCount(counts[k], target)
    ensures counts[|counts| - 1] == CountAfter(counts[0], target, |counts| - 1)
    decreases |counts|
  {
    if |counts| > 1 { CountsFollow(counts[1..], target); }
  }

  lemma {:induction false} HistoryTrimmed(tables: seq<Table>, vault: string, envs: seq<Env>, t: Targets, strip: Strip,
                                          k: nat)
    requires vault != "" && t.stale >= 0 && IsHistory(tables, vault, envs, t, strip) && TrimmedIds(tables[0], strip)
             && k <= |envs|
    ensures TrimmedIds(tables[k], strip)
  {
    if k > 0 {
      HistoryTrimmed(tables, vault, envs, t, strip, k - 1);
      assert CycleStep(tables[k - 1], vault, envs[k - 1], t, strip, tables[k]);
      CycleCount(tables[k - 1], vault, envs[k - 1], t, strip);
    }
  }

  lemma HistoryCount(tables: seq<Table>, vault: string, envs: seq<Env>, t: Targets, strip: Strip)
    requires vault != "" && t.stale >= 0 && IsHistory(tables, vault, envs, t, strip) && TrimmedIds(tables[0], strip)
    ensures |StaleSet(tables[|envs|])| == CountAfter(|StaleSet(tables[0])|, t.stale, |envs|)
  {
    var counts := seq(|tables|, k requires 0 <= k < |tables| => |StaleSet(tables[k])|);
    forall k | 0 <= k < |counts| - 1 ensures counts[k + 1] == NextCount(counts[k], t.stale) {
      HistoryTrimmed(tables, vault, envs, t, strip, k);
      assert CycleStep(tables[k], vault, envs[k], t, strip, tables[k + 1]);
      CycleCount(tables[k], vault, envs[k], t, strip);
    }
    CountsFollow(counts, t.stale);
  }

  function CeilDiv(n: nat, d: nat): nat
    requires d > 0
  {
    (n + d - 1) / d
  }

  lemma {:induction false} CountSettles(n: nat, target: nat, cycles: nat)
    requires target < CAP && n <= cycles * CAP
    ensures CountAfter(n, target, cycles) <= target
    decreases cycles
  {
    if cycles > 0 {
      if Min(CAP, n) > target {
        CountSettles(n - Min(CAP, n), target, cycles - 1);
      } else {
        CountStays(n, target, cycles);
      }
    }
  }

  lemma {:induction false} CountStays(n: nat, target: nat, cycles: nat)
    requires Min(CAP, n) <= target
    ensures CountAfter(n, target, cycles) == n
    decreases cycles
  {
    if cycles > 0 { CountStays(n, target, cycles - 1); }
  }

  /** Given enough cycles for the backlog at 200 each, the stale tasks end at or under the target
      if and only if the target is below the cap or was met from the start.  A target of 200 or
      more never triggers a purge, however many tasks are stale: the sweep cannot count past 200. */
  lemma StaleTasksConverge(tables: seq<Table>, vault: string, envs: seq<Env>, t: Targets, strip: Strip)
    requires vault != "" && t.stale >= 0 && IsHistory(tables, vault, envs, t, strip) && TrimmedIds(tables[0], strip)
    requires |envs| >= CeilDiv(|StaleSet(tables[0])|, CAP)
    ensures |StaleSet(tables[|envs|])| <= t.stale <==> t.stale < CAP || |StaleSet(tables[0])| <= t.stale
  {
    HistoryCount(tables, vault, envs, t, strip);
    if t.stale < CAP {
      CountSettles(|StaleSet(tables[0])|, t.stale, |envs|);
    } else {
      CountStays(|StaleSet(tables[0])|, t.stale, |envs|);
    }
  }
}
