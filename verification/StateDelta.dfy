/** The status updates of the loop state-delta handler
    (services/db-writer/loop_state_delta_handler.py): purge and quarantine. */
module StateDelta {

  type Id = string

  datatype Status = Pending | Active | PendingHitl | Cancelled | Quarantined | Other(name: string)

  /** `aged`: the row's timestamp lies before the 24 h cutoff of the sweep. */
  datatype Row = Row(status: Status, aged: bool)

  type Table = map<Id, Row>

  const CAP := 200

  /** ids[:200] */
  function Capped(ids: seq<Id>): (r: seq<Id>)
    ensures |r| <= CAP && r <= ids
  {
    if |ids| <= CAP then ids else ids[..CAP]
  }

  function Members(ids: seq<Id>): set<Id> { set i | i in ids }

  /** The table with the given rows moved to `status`; unknown ids match no row. */
  function SetStatus(rows: Table, ids: set<Id>, status: Status): Table {
    map i | i in rows :: if i in ids then rows[i].(status := status) else rows[i]
  }

  datatype Delta = Purge(ids: seq<Id>) | Quarantine(ids: seq<Id>)

  function Target(d: Delta): Status { if d.Purge? then Cancelled else Quarantined }

  /** One vault: the task table and the semantic memory. */
  datatype Vault = Vault(tasks: Table, memories: Table)

  function Apply(v: Vault, d: Delta, ids: set<Id>): Vault {
    if d.Purge? then v.(tasks := SetStatus(v.tasks, ids, Cancelled))
    else v.(memories := SetStatus(v.memories, ids, Quarantined))
  }

  /** `i` is one of the first `n` ids. */
  predicate Among(ids: seq<Id>, n: nat, i: Id) { exists k :: 0 <= k < |ids| && k < n && ids[k] == i }

  /** The rows named by one of the first 200 ids, and of the first `limit`, have the new status; all
      else is as before. */
  predicate Marked(before: Table, after: Table, ids: seq<Id>, limit: nat, status: Status) {
    && after.Keys == before.Keys
    && (forall i :: i in before ==>
          after[i] == Row(if Among(ids, if limit < 200 then limit else 200, i) then status else before[i].status,
                          before[i].aged))
  }

  lemma ProcessedAre(d: Delta, limit: nat, i: Id)
    ensures i in Members(Processed(d, limit)) <==> Among(d.ids, if limit < 200 then limit else 200, i)
  {
    var ids := Processed(d, limit);
    assert ids <= d.ids;
    if Among(d.ids, if limit < 200 then limit else 200, i) {
      var k :| 0 <= k < |d.ids| && k < (if limit < 200 then limit else 200) && d.ids[k] == i;
      assert ids[k] == i;
    }
  }

  lemma ApplyMarks(v: Vault, d: Delta, limit: nat)
    ensures var w := Apply(v, d, Members(Processed(d, limit)));
            && (d.Purge? ==> w.memories == v.memories && Marked(v.tasks, w.tasks, d.ids, limit, Cancelled))
            && (d.Quarantine? ==> w.tasks == v.tasks && Marked(v.memories, w.memories, d.ids, limit, Quarantined))
  {
    forall i ensures i in Members(Processed(d, limit)) <==> Among(d.ids, if limit < 200 then limit else 200, i) {
      ProcessedAre(d, limit, i);
    }
  }

  class VaultTables {
    var tasks: Table
    var memories: Table

    function View(): Vault
      reads this
    {
      Vault(tasks, memories)
    }

    constructor (v: Vault)
      ensures View() == v
    {
      tasks, memories := v.tasks, v.memories;
    }

    /** One UPDATE per id, autocommitted: a kill after `limit` of them leaves those done.  Of the ids
        the first 200 count. */
    method ApplyDelta(d: Delta, limit: nat)
      modifies this
      ensures View() == Apply(old(View()), d, Members(Processed(d, limit)))
      ensures d.Purge? ==> memories == old(memories) && Marked(old(tasks), tasks, d.ids, limit, Cancelled)
      ensures d.Quarantine? ==> tasks == old(tasks) && Marked(old(memories), memories, d.ids, limit, Quarantined)
    {
      var ids := Processed(d, limit);
      var i := 0;
      ghost var v := View();
      NoIds(v, d);
      while i < |ids|
        invariant 0 <= i <= |ids|
        invariant View() == Apply(v, d, Members(ids[..i]))
      {
        OneMoreId(v, d, ids, i);
        if d.Purge? {
          if ids[i] in tasks { tasks := tasks[ids[i] := tasks[ids[i]].(status := Cancelled)]; }
        } else {
          if ids[i] in memories { memories := memories[ids[i] := memories[ids[i]].(status := Quarantined)]; }
        }
        i := i + 1;
      }
      assert ids[..|ids|] == ids;
      ApplyMarks(v, d, limit);
    }
  }

  lemma NoIds(v: Vault, d: Delta)
    ensures Apply(v, d, {}) == v
  {}

  /** The UPDATE of one id. */
  function Updated(rows: Table, id: Id, status: Status): Table {
    if id in rows then rows[id := rows[id].(status := status)] else rows
  }

  lemma OneMoreId(v: Vault, d: Delta, ids: seq<Id>, i: nat)
    requires i < |ids|
    ensures var w := Apply(v, d, Members(ids[..i]));
            Apply(v, d, Members(ids[..i + 1])) ==
            if d.Purge? then w.(tasks := Updated(w.tasks, ids[i], Cancelled))
            else w.(memories := Updated(w.memories, ids[i], Quarantined))
  {}

  /** The ids whose UPDATE ran when the handler was stopped after `limit` of them. */
  function Processed(d: Delta, limit: nat): seq<Id> {
    var ids := Capped(d.ids);
    if limit < |ids| then ids[..limit] else ids
  }

  // ---- Confluence ----

  /** One application of a delta, possibly cut short. */
  datatype Application = Application(d: Delta, limit: nat)

  predicate IsComplete(a: Application) { a.limit >= |Capped(a.d.ids)| }

  function Replay(v: Vault, history: seq<Application>): Vault {
    if history == [] then v
    else
      var n := |history| - 1;
      Apply(Replay(v, history[..n]), history[n].d, Members(Processed(history[n].d, history[n].limit)))
  }

  /** All ids of one kind that some application of the history reached. */
  function Reached(history: seq<Application>, purge: bool): set<Id> {
    if history == [] then {}
    else
      var n := |history| - 1;
      Reached(history[..n], purge)
      + if history[n].d.Purge? == purge then Members(Processed(history[n].d, history[n].limit)) else {}
  }

  /** Both tables with the given rows set. */
  function Outcome(v: Vault, tasks: set<Id>, memories: set<Id>): Vault {
    Vault(SetStatus(v.tasks, tasks, Cancelled), SetStatus(v.memories, memories, Quarantined))
  }

  lemma ApplyOutcome(v: Vault, tasks: set<Id>, memories: set<Id>, d: Delta, ids: set<Id>)
    ensures Apply(Outcome(v, tasks, memories), d, ids) ==
            Outcome(v, tasks + if d.Purge? then ids else {}, memories + if d.Purge? then {} else ids)
  {}

  /** The tables after any history depend only on which ids it reached. */
  lemma {:induction false} ReplayIsUnion(v: Vault, history: seq<Application>)
    ensures Replay(v, history) == Outcome(v, Reached(history, true), Reached(history, false))
  {
    if history == [] {
      assert SetStatus(v.tasks, {}, Cancelled) == v.tasks && SetStatus(v.memories, {}, Quarantined) == v.memories;
    } else {
      var n := |history| - 1;
      var d, ids := history[n].d, Members(Processed(history[n].d, history[n].limit));
      ReplayIsUnion(v, history[..n]);
      ApplyOutcome(v, Reached(history[..n], true), Reached(history[..n], false), d, ids);
    }
  }

  /** The ids a set of deltas names, each list cut at 200. */
  ghost function Named(deltas: set<Delta>, purge: bool): set<Id> {
    set d, i | d in deltas && d.Purge? == purge && i in Capped(d.ids) :: i
  }

  /** Only these deltas were applied, each to its end at least once. */
  ghost predicate Delivers(history: seq<Application>, deltas: set<Delta>) {
    && (forall a :: a in history ==> a.d in deltas)
    && (forall d :: d in deltas ==> exists a :: a in history && a.d == d && IsComplete(a))
  }

  predicate Hits(a: Application, purge: bool, i: Id) { a.d.Purge? == purge && i in Processed(a.d, a.limit) }

  lemma {:induction false} ReachedBy(history: seq<Application>, purge: bool, i: Id)
    ensures i in Reached(history, purge) <==> exists a :: a in history && Hits(a, purge, i)
  {
    if history != [] {
      var n := |history| - 1;
      ReachedBy(history[..n], purge, i);
      assert history == history[..n] + [history[n]];
      if i in Reached(history[..n], purge) {
        var a :| a in history[..n] && Hits(a, purge, i);
        assert a in history;
      } else if i in Reached(history, purge) {
        assert history[n] in history && Hits(history[n], purge, i);
      }
    }
  }

  lemma ReachedIdIsNamed(history: seq<Application>, deltas: set<Delta>, purge: bool, i: Id)
    requires Delivers(history, deltas)
    ensures i in Reached(history, purge) <==> exists d :: d in deltas && d.Purge? == purge && i in Capped(d.ids)
  {
    ReachedBy(history, purge, i);
    if i in Reached(history, purge) {
      var a :| a in history && Hits(a, purge, i);
      assert a.d in deltas && i in Capped(a.d.ids);
    }
    if d :| d in deltas && d.Purge? == purge && i in Capped(d.ids) {
      var a :| a in history && a.d == d && IsComplete(a);
      assert Hits(a, purge, i);
    }
  }

  lemma ReachedIsNamed(history: seq<Application>, deltas: set<Delta>, purge: bool)
    requires Delivers(history, deltas)
    ensures Reached(history, purge) == Named(deltas, purge)
  {
    forall i ensures i in Reached(history, purge) <==> i in Named(deltas, purge) {
      ReachedIdIsNamed(history, deltas, purge, i);
    }
  }

  /** Any two histories that deliver the same deltas, in any order, with any duplicates,
      redeliveries and interrupted attempts, leave the same statuses: those of the union of the
      truncated id lists. */
  lemma DeltasAreConfluent(v: Vault, one: seq<Application>, two: seq<Application>, deltas: set<Delta>)
    requires Delivers(one, deltas) && Delivers(two, deltas)
    ensures Replay(v, one) == Replay(v, two)
    ensures Replay(v, one) == Outcome(v, Named(deltas, true), Named(deltas, false))
  {
    ReplayIsUnion(v, one);
    ReplayIsUnion(v, two);
    ReachedIsNamed(one, deltas, true);
    ReachedIsNamed(one, deltas, false);
    ReachedIsNamed(two, deltas, true);
    ReachedIsNamed(two, deltas, false);
  }
}
