/** What one run of the thermostat does (harness_core/ and the state-delta handler behind it), from the
    attempts of its sweep to the rows of the vault. */
module LoopEffects {

  import opened HomeostasisLoop
  import opened Sequences
  import opened StateDelta

  // ---- The sweep ----

  /** The ids of the rows, stripped, the blank ones left out: row by row. */
  lemma {:induction false} KeptAppend(a: seq<Id>, b: seq<Id>, strip: Strip)
    ensures Kept(a + b, strip) == Kept(a, strip) + Kept(b, strip)
  {
    if a == [] {
      assert a + b == b;
    } else {
      assert (a + b)[1..] == a[1..] + b;
      KeptAppend(a[1..], b, strip);
    }
  }

  lemma KeptRow(id: Id, strip: Strip)
    ensures Kept([id], strip) == if strip(id) == "" then [] else [strip(id)]
  {
    assert [id][1..] == [];
  }

  /** Source by source: ids and rows of every table that could be read add up, blank ids counting. */
  lemma {:induction false} ScansAppend(a: seq<Scan>, b: seq<Scan>, strip: Strip)
    ensures ScanIds(a + b, strip) == ScanIds(a, strip) + ScanIds(b, strip)
    ensures ScanTotal(a + b) == ScanTotal(a) + ScanTotal(b)
  {
    if a == [] {
      assert a + b == b;
    } else {
      assert (a + b)[1..] == a[1..] + b;
      ScansAppend(a[1..], b, strip);
    }
  }

  lemma OneScan(scan: Scan, strip: Strip)
    ensures ScanIds([scan], strip) == if scan.Rows? then Kept(scan.ids, strip) else []
    ensures ScanTotal([scan]) == if scan.Rows? then |scan.ids| else 0
  {
    assert [scan][1..] == [];
  }

  predicate Locked(a: Attempt) { a.LockedEarly? || a.LockedLate? }

  /** What attempts that met a lock have left in the lists. */
  function LeftIds(attempts: seq<Attempt>, strip: Strip): seq<Id> {
    if attempts == [] then []
    else
      var last := attempts[|attempts| - 1];
      LeftIds(attempts[..|attempts| - 1], strip) + if last.LockedLate? then ScanIds(last.scans, strip) else []
  }

  function LeftMemory(attempts: seq<Attempt>): seq<Id> {
    if attempts == [] then []
    else
      var last := attempts[|attempts| - 1];
      LeftMemory(attempts[..|attempts| - 1]) + if last.LockedLate? then last.memory else []
  }

  lemma {:induction false} FetchPastLocks(attempts: seq<Attempt>, strip: Strip, k: nat)
    requires k <= |attempts| && forall j :: 0 <= j < k ==> Locked(attempts[j])
    ensures Fetch(attempts, strip, 0, [], [], 0)
         == Fetch(attempts, strip, k, LeftIds(attempts[..k], strip), LeftMemory(attempts[..k]), k)
  {
    if k > 0 {
      FetchPastLocks(attempts, strip, k - 1);
      assert attempts[..k][..k - 1] == attempts[..k - 1];
      var ids, memory := LeftIds(attempts[..k - 1], strip), LeftMemory(attempts[..k - 1]);
      assert ids + [] == ids && memory + [] == memory;
    }
  }

  /** The sweep that gets through behind `k` locks: error rate, latency, fragmentation and row count
      are those of its own attempt, the locks are counted, and the ids of the failed attempts stay in
      front. */
  lemma SweepIs(attempts: seq<Attempt>, strip: Strip, k: nat)
    requires k < |attempts| && attempts[k].Fine? && forall j :: 0 <= j < k ==> Locked(attempts[j])
    ensures var a := attempts[k];
            Fetch(attempts, strip, 0, [], [], 0)
            == Swept(Metrics(a.errorRate, a.latency, ScanTotal(a.scans), a.fragmentation, k),
                     LeftIds(attempts[..k], strip) + ScanIds(a.scans, strip), LeftMemory(attempts[..k]) + a.memory)
  {
    FetchPastLocks(attempts, strip, k);
  }

  /** It fails exactly when the first attempt that meets no lock is broken, or there is none. */
  lemma SweepFails(attempts: seq<Attempt>, strip: Strip)
    ensures Fetch(attempts, strip, 0, [], [], 0).SweepFailed? <==>
            !exists k :: 0 <= k < |attempts| && attempts[k].Fine? && forall j :: 0 <= j < k ==> Locked(attempts[j])
  {
    var k := FirstUnlocked(attempts);
    FetchPastLocks(attempts, strip, k);
    if k < |attempts| && attempts[k].Fine? { SweepIs(attempts, strip, k); }
  }

  lemma FirstUnlocked(attempts: seq<Attempt>) returns (k: nat)
    ensures k <= |attempts| && (forall j :: 0 <= j < k ==> Locked(attempts[j]))
    ensures k < |attempts| ==> !Locked(attempts[k])
  {
    k := 0;
    while k < |attempts| && Locked(attempts[k])
      invariant k <= |attempts| && forall j :: 0 <= j < k ==> Locked(attempts[j])
    {
      k := k + 1;
    }
  }

  // ---- The plan ----

  /** When the rules call for an action of this kind: which metric is above which target. */
  predicate CalledFor(k: Kind, m: Metrics, t: Targets) {
    match k
    case PurgeStale => m.stale > t.stale
    case QuarantineMemory => m.fragmentation > t.fragmentation
    case RequestCompaction => m.fragmentation > t.fragmentation
    case CircuitBreaker => m.errorRate > 50.0
    case AlertAdmin => m.errorRate > 50.0 || m.locks > t.locks || m.errorRate > t.errorRate
    case Noop =>
      m.stale <= t.stale && m.fragmentation <= t.fragmentation && m.errorRate <= 50.0
      && m.locks <= t.locks && m.errorRate <= t.errorRate
    case Unlisted(_) => false
  }

  function Plan(m: Metrics, t: Targets): seq<Action> { AsActions(RuleKinds(ComputeDistance(m, t), m.errorRate)) }

  lemma PlansWhatIsCalledFor(m: Metrics, t: Targets, k: Kind)
    ensures Plans(Plan(m, t), k) <==> CalledFor(k, m, t)
  {
    var kinds := RuleKinds(ComputeDistance(m, t), m.errorRate);
    PlanIsWanted(ComputeDistance(m, t), m.errorRate);
    if k in kinds {
      var i :| 0 <= i < |kinds| && kinds[i] == k;
      assert Plan(m, t)[i].kind == k;
    }
  }

  /** Compaction, alert and breaker ask for a human, and nothing else does. */
  lemma PlanAsksFor(m: Metrics, t: Targets, i: nat)
    requires i < |Plan(m, t)|
    ensures var a := Plan(m, t)[i];
            a.hitl <==> a.kind == RequestCompaction || a.kind == AlertAdmin || a.kind == CircuitBreaker
  {}

  /** With everything above its target the plan is this. */
  lemma FullPlan(m: Metrics, t: Targets)
    requires m.errorRate > 50.0 && m.stale > t.stale && m.fragmentation > t.fragmentation && m.locks > t.locks
    ensures RuleKinds(ComputeDistance(m, t), m.errorRate)
         == [CircuitBreaker, AlertAdmin, PurgeStale, QuarantineMemory, RequestCompaction, AlertAdmin]
  {}

  // ---- The effect ----

  /** What the handler makes of the queued deltas, each applied to its end. */
  function Deliver(v: Vault, pushed: seq<Delta>): Vault {
    if pushed == [] then v
    else Apply(Deliver(v, pushed[..|pushed| - 1]), pushed[|pushed| - 1], Members(Processed(pushed[|pushed| - 1], 200)))
  }

  lemma MarkTwice(a: Table, b: Table, c: Table, ids: seq<Id>, status: Status)
    requires (b == a || Marked(a, b, ids, 200, status)) && Marked(b, c, ids, 200, status)
    ensures Marked(a, c, ids, 200, status)
  {}

  lemma FirstOfFirst(ids: seq<Id>, i: Id)
    ensures Among(First200(ids), 200, i) <==> Among(ids, 200, i)
  {
    if Among(ids, 200, i) {
      var k :| 0 <= k < |ids| && k < 200 && ids[k] == i;
      assert First200(ids)[k] == i;
    }
  }

  lemma MarkedFirst(a: Table, b: Table, ids: seq<Id>, status: Status)
    requires Marked(a, b, First200(ids), 200, status)
    ensures Marked(a, b, ids, 200, status)
  {
    forall i ensures Among(First200(ids), 200, i) <==> Among(ids, 200, i) { FirstOfFirst(ids, i); }
  }

  /** Marked, or not touched. */
  predicate MarkedIf(b: bool, before: Table, after: Table, ids: seq<Id>, status: Status) {
    if b then Marked(before, after, ids, 200, status) else after == before
  }

  lemma MarkedMore(b: bool, v: Table, u: Table, w: Table, ids: seq<Id>, status: Status)
    requires MarkedIf(b, v, u, ids, status) && Marked(u, w, First200(ids), 200, status)
    ensures Marked(v, w, ids, 200, status)
  {
    MarkedFirst(u, w, ids, status);
    MarkTwice(v, u, w, ids, status);
  }

  lemma InSnoc(front: seq<Delta>, d: Delta, e: Delta)
    ensures e in front + [d] <==> e in front || e == d
  {}

  /** Purges of the same ids mark their tasks, quarantines their memories, however often. */
  lemma {:induction false} DeliverMarks(v: Vault, pushed: seq<Delta>, stale: seq<Id>, memory: seq<Id>)
    requires forall d :: d in pushed ==> d == Purge(First200(stale)) || d == Quarantine(First200(memory))
    ensures var w := Deliver(v, pushed);
            && MarkedIf(Purge(First200(stale)) in pushed, v.tasks, w.tasks, stale, Cancelled)
            && MarkedIf(Quarantine(First200(memory)) in pushed, v.memories, w.memories, memory, Quarantined)
  {
    if pushed != [] {
      var front, d := pushed[..|pushed| - 1], pushed[|pushed| - 1];
      assert pushed == front + [d] && d in pushed;
      InSnoc(front, d, Purge(First200(stale)));
      InSnoc(front, d, Quarantine(First200(memory)));
      forall e | e in front ensures e in pushed { InSnoc(front, d, e); }
      DeliverMarks(v, front, stale, memory);
      var u, w := Deliver(v, front), Deliver(v, pushed);
      assert w == Apply(u, d, Members(Processed(d, 200)));
      ApplyMarks(u, d, 200);
      if d.Purge? {
        MarkedMore(Purge(First200(stale)) in front, v.tasks, u.tasks, w.tasks, stale, Cancelled);
      } else {
        MarkedMore(Quarantine(First200(memory)) in front, v.memories, u.memories, w.memories, memory, Quarantined);
      }
    }
  }

  lemma RunPlans(vault: string, env: Env, t: Targets, strip: Strip, m: Metrics, stale: seq<Id>, memory: seq<Id>)
    requires vault != "" && !env.strixRaises && Fetch(env.attempts, strip, 0, [], [], 0) == Swept(m, stale, memory)
    ensures var s := RunLoop(Initial(vault), env, t, strip);
            s.planned == Plan(m, t) && s.pushed == Emitted(Plan(m, t), stale, memory, env.queueUp)
  {}

  /** Without a sweep, or when the distance cannot be computed, a run changes nothing. */
  lemma NoDistanceNoEffect(v: Vault, vault: string, env: Env, t: Targets, strip: Strip)
    requires vault == "" || env.strixRaises || Fetch(env.attempts, strip, 0, [], [], 0).SweepFailed?
    ensures Deliver(v, RunLoop(Initial(vault), env, t, strip).pushed) == v
  {
    var noop := AsActions([Noop]);
    assert RuleKinds(NO_DISTANCE, 0.0) == [Noop];
    assert noop[1..] == [] && Emitted(noop, [], [], env.queueUp) == [];
  }

  /** One run end to end, when the sweep gets through behind `k` locks: once the queue is worked off,
      exactly the tasks among the first 200 stale ids found are cancelled, if more rows than the target
      were stale, and exactly the memories among the first 200 found are quarantined, if fragmentation
      was above its target; and nothing when the queue is down. */
  lemma RunEffects(v: Vault, vault: string, env: Env, t: Targets, strip: Strip, k: nat)
    requires vault != "" && !env.strixRaises
    requires k < |env.attempts| && env.attempts[k].Fine? && forall j :: 0 <= j < k ==> Locked(env.attempts[j])
    ensures var a := env.attempts[k];
            var stale := LeftIds(env.attempts[..k], strip) + ScanIds(a.scans, strip);
            var memory := LeftMemory(env.attempts[..k]) + a.memory;
            var w := Deliver(v, RunLoop(Initial(vault), env, t, strip).pushed);
            && MarkedIf(env.queueUp && stale != [] && ScanTotal(a.scans) > t.stale,
                        v.tasks, w.tasks, stale, Cancelled)
            && MarkedIf(env.queueUp && memory != [] && a.fragmentation > t.fragmentation,
                        v.memories, w.memories, memory, Quarantined)
  {
    SweepIs(env.attempts, strip, k);
    var r := Fetch(env.attempts, strip, 0, [], [], 0);
    RunPlans(vault, env, t, strip, r.metrics, r.staleIds, r.memoryIds);
    var plan := Plan(r.metrics, t);
    EmittedRight(plan, r.staleIds, r.memoryIds, env.queueUp);
    PlansWhatIsCalledFor(r.metrics, t, PurgeStale);
    PlansWhatIsCalledFor(r.metrics, t, QuarantineMemory);
    DeliverMarks(v, Emitted(plan, r.staleIds, r.memoryIds, env.queueUp), r.staleIds, r.memoryIds);
  }
}
