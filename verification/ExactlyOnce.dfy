/** The whole SQL write path: producers, the reliable queue, its reclaimers, and the handler
    with its ledger, under kills and shutdowns at any await.  At-least-once delivery of
    `ReliableQueue` and the idempotent ledger of `DbWriter` together give one effect. */
module ExactlyOnce {

  import opened WriteLedger
  import C = QueueConservation
  import L = QueueDelivery
  import Q = ReliableQueue
  import D = DbWriter

  /** How a delivery left the handler: at its end, by a shutdown, or with the process. */
  datatype How = Handled | Cancelled | Died

  /** One delivery and what was reported for it. */
  datatype Delivery = Delivery(c: Q.Copy, how: How, told: seq<D.Report>)

  /** `deliveries` is history: every delivery that got through or past its transaction. */
  datatype System = System(q: Q.State, s: D.State, deliveries: seq<Delivery>)

  datatype Event =
    | Queue(e: Q.Event)                  // a step of a producer, the consume loop or a reclaimer
    | Handle(f: D.Faults)                // the handler runs to its end
    | Cancel(ran: bool, f: D.Faults, written: bool)      // shutdown cancels it; `finally` still acks
    | Kill                               // the process dies with no transaction committed
    | HandleThenKill(f: D.Faults, written: bool)         // it dies between COMMIT and the last report
    | Expire(task: TaskId)

  predicate OutsideHandler(e: Q.Event) { !e.HandlerExit? && !e.Requeue? && !e.Kill? }

  /** What an event is to the queue, and what it is to the handler. */
  ghost function QueueEvents(x: System, e: Event): seq<Q.Event> {
    match e
    case Queue(g) => if OutsideHandler(g) then [g] else []
    case Handle(_) => if x.q.consumer.Handling? then [Q.HandlerExit] else []
    case Cancel(_, _, _) => if x.q.consumer.Handling? then [Q.HandlerExit] else []
    case Kill => [Q.Kill]
    case HandleThenKill(_, _) => if x.q.consumer.Handling? then [Q.Kill] else []
    case Expire(_) => []
  }

  ghost function WriterEvents(x: System, e: Event): seq<D.Event> {
    match e
    case Handle(f) => if x.q.consumer.Handling? then [D.Deliver(x.q.consumer.c.text, f)] else []
    case Cancel(ran, f, written) =>
      if x.q.consumer.Handling? && ran then [D.Killed(x.q.consumer.c.text, f, written)] else []
    case Kill => [D.RestartWriter]
    case HandleThenKill(f, written) =>
      if x.q.consumer.Handling? then [D.Killed(x.q.consumer.c.text, f, written)] else []
    case Expire(t) => [D.Expire(t)]
    case Queue(_) => []
  }

  function HowOf(e: Event): How { match e case Handle(_) => Handled case Cancel(_, _, _) => Cancelled case _ => Died }

  predicate HasFaults(e: Event) { e.Handle? || e.Cancel? || e.HandleThenKill? }

  function NewReports(s: D.State, t: D.State): seq<D.Report> {
    if |s.reports| <= |t.reports| then t.reports[|s.reports|..] else []
  }

  ghost function Step(h: D.Handler, x: System, e: Event): System {
    var t := D.Run(h, x.s, WriterEvents(x, e), true);
    System(Q.Run(x.q, QueueEvents(x, e)), t,
           if HasFaults(e) && x.q.consumer.Handling? then
             x.deliveries + [Delivery(x.q.consumer.c, HowOf(e), NewReports(x.s, t))]
           else x.deliveries)
  }

  ghost function Run(h: D.Handler, x: System, events: seq<Event>): System
    decreases |events|
  {
    if events == [] then x else Run(h, Step(h, x, events[0]), events[1..])
  }

  /** The wall clock never goes back. */
  predicate TimeOk(now: int, events: seq<Event>)
    decreases |events|
  {
    events == [] ||
    if HasFaults(events[0]) then now <= events[0].f.wall <= events[0].f.after && TimeOk(events[0].f.after, events[1..])
    else TimeOk(now, events[1..])
  }

  function Start(vaults: map<Path, Vault>, now: int): System { System(Q.Init(), D.Boot(vaults, now), []) }

  /** A system step is at most one queue step. */
  lemma QueueStep(h: D.Handler, x: System, e: Event)
    ensures Step(h, x, e).q == if QueueEvents(x, e) == [] then x.q else Q.Step(x.q, QueueEvents(x, e)[0])
  {
    var events := QueueEvents(x, e);
    if events != [] {
      Q.RunSnoc(x.q, [], events[0]);
      assert [] + [events[0]] == events;
    }
  }

  lemma WriterStep(h: D.Handler, x: System, e: Event)
    ensures Step(h, x, e).s == if WriterEvents(x, e) == [] then x.s else D.Step(h, x.s, WriterEvents(x, e)[0], true)
  {
    var events := WriterEvents(x, e);
    if events != [] { D.Run1(h, x.s, events[0], true); }
  }

  // ---- Every copy in the queue carries a produced text ----

  /** Every produced message uses its task id for its own command and vault. */
  ghost predicate Good(h: D.Handler, owner: TaskId -> D.Work, m: D.Message) {
    h.parse(m).Some? ==> owner(D.TaskOf(h.parse(m).value)) == D.WorkOf(h.parse(m).value)
  }

  ghost predicate AllGood(h: D.Handler, owner: TaskId -> D.Work, s: seq<Q.Copy>) {
    forall c :: c in s ==> Good(h, owner, c.text)
  }

  function InConsumer(c: Q.Consumer): seq<Q.Copy> {
    match c
    case StartPush(x) => [x]
    case StartZrem(x) => [x]
    case Leasing(x) => [x]
    case Handling(x) => [x]
    case Acking(x) => [x]
    case Unleasing(x) => [x]
    case _ => []
  }

  ghost predicate QueueGood(h: D.Handler, owner: TaskId -> D.Work, q: Q.State) {
    && AllGood(h, owner, q.source) && AllGood(h, owner, q.processing)
    && AllGood(h, owner, InConsumer(q.consumer)) && AllGood(h, owner, Q.ReclaimerHand(q.reclaimer))
  }

  lemma {:induction false} LRemKeeps(s: seq<Q.Copy>, text: Q.Message)
    ensures forall c :: c in Q.LRem(s, text) || c in Q.Removed(s, text) ==> c in s
  {
    if s != [] {
      assert s == [s[0]] + s[1..];
      if s[0].text != text { LRemKeeps(s[1..], text); }
    }
  }

  lemma ListsGood(h: D.Handler, owner: TaskId -> D.Work, q: Q.State, text: Q.Message)
    requires AllGood(h, owner, q.processing)
    ensures AllGood(h, owner, Q.LRem(q.processing, text)) && AllGood(h, owner, Q.Removed(q.processing, text))
  {
    LRemKeeps(q.processing, text);
  }

  lemma ReclaimerGood(h: D.Handler, owner: TaskId -> D.Work, q: Q.State, e: Q.Event)
    requires QueueGood(h, owner, q)
    ensures QueueGood(h, owner, Q.ReclaimerStep(q, e))
  {
    if e.ReclaimLRem? && q.reclaimer.Removing? && q.reclaimer.todo != [] {
      ListsGood(h, owner, q, q.reclaimer.todo[0]);
    }
  }

  lemma ConsumerGood(h: D.Handler, owner: TaskId -> D.Work, q: Q.State, e: Q.Event)
    requires QueueGood(h, owner, q)
    ensures QueueGood(h, owner, Q.ConsumerStep(q, e))
  {
    if e.AckLRem? && q.consumer.Acking? { ListsGood(h, owner, q, q.consumer.c.text); }
  }

  lemma StepGood(h: D.Handler, owner: TaskId -> D.Work, q: Q.State, e: Q.Event)
    requires QueueGood(h, owner, q) && (e.Produce? ==> Good(h, owner, e.text))
    ensures QueueGood(h, owner, Q.Step(q, e))
  {
    match e
    case Produce(_) =>
    case Tick(_) =>
    case Kill =>
    case _ =>
      ConsumerGood(h, owner, q, e);
      ReclaimerGood(h, owner, q, e);
  }

  // ---- An acknowledged copy has been through the handler ----

  /** The copies whose delivery did not end with the process. */
  function Left(deliveries: seq<Delivery>): seq<Q.Copy> {
    if deliveries == [] then []
    else
      var n := |deliveries| - 1;
      Left(deliveries[..n]) + if deliveries[n].how == Died then [] else [deliveries[n].c]
  }

  ghost predicate AckedWereDelivered(x: System) {
    && Left(x.deliveries) == x.q.done
    && (x.q.consumer.Acking? ==> x.q.consumer.c in x.q.done)
    && (forall c :: c in x.q.acked ==> c in x.q.done)
  }

  lemma LeftSnoc(deliveries: seq<Delivery>, d: Delivery)
    ensures Left(deliveries + [d]) == Left(deliveries) + if d.how == Died then [] else [d.c]
  {
    assert (deliveries + [d])[..|deliveries|] == deliveries;
  }

  /** What the queue alone can do to the acknowledged: add the consumer's own copy. */
  lemma OutsideHandlerAcks(q: Q.State, e: Q.Event)
    requires L.SingleInFlight(q) && OutsideHandler(e)
    ensures var t := Q.Step(q, e);
            && t.done == q.done
            && (t.consumer.Acking? ==> t.consumer == q.consumer)
            && (forall c :: c in t.acked ==> c in q.acked || (q.consumer.Acking? && c == q.consumer.c))
  {
    if e == Q.AckLRem && q.consumer.Acking? { L.AckRemoves(q); }
  }

  /** What a step is to the queue and to the list of deliveries. */
  lemma HandlerStep(h: D.Handler, x: System, e: Event)
    requires HasFaults(e) && x.q.consumer.Handling?
    ensures var y := Step(h, x, e);
            && y.deliveries == x.deliveries + [Delivery(x.q.consumer.c, HowOf(e), NewReports(x.s, y.s))]
            && y.q == Q.Step(x.q, if e.HandleThenKill? then Q.Kill else Q.HandlerExit)
  {
    QueueStep(h, x, e);
  }

  lemma OtherStep(h: D.Handler, x: System, e: Event)
    requires !(HasFaults(e) && x.q.consumer.Handling?)
    ensures var y := Step(h, x, e);
            && y.deliveries == x.deliveries
            && y.q == (if e.Queue? && OutsideHandler(e.e) then Q.Step(x.q, e.e)
                       else if e.Kill? then Q.Step(x.q, Q.Kill) else x.q)
  {
    QueueStep(h, x, e);
  }

  lemma ExitAcks(x: System, y: System, how: How, told: seq<D.Report>)
    requires AckedWereDelivered(x) && x.q.consumer.Handling?
    requires y.deliveries == x.deliveries + [Delivery(x.q.consumer.c, how, told)]
    requires y.q == Q.Step(x.q, if how == Died then Q.Kill else Q.HandlerExit)
    ensures AckedWereDelivered(y)
  {
    LeftSnoc(x.deliveries, Delivery(x.q.consumer.c, how, told));
  }

  lemma StepAcked(h: D.Handler, x: System, e: Event)
    requires L.SingleInFlight(x.q) && AckedWereDelivered(x)
    ensures AckedWereDelivered(Step(h, x, e))
  {
    if HasFaults(e) && x.q.consumer.Handling? {
      HandlerStep(h, x, e);
      ExitAcks(x, Step(h, x, e), HowOf(e), NewReports(x.s, Step(h, x, e).s));
    } else {
      OtherStep(h, x, e);
      if e.Queue? && OutsideHandler(e.e) { OutsideHandlerAcks(x.q, e.e); }
    }
  }

  // ---- Deliveries and reports ----

  function Reports(deliveries: seq<Delivery>): seq<D.Report> {
    if deliveries == [] then []
    else
      var n := |deliveries| - 1;
      Reports(deliveries[..n]) + deliveries[n].told
  }

  /** A delivery handled to its end is reported once or twice, one cut short at most once, and only
      under the id and the payload of its own message. */
  predicate Told(h: D.Handler, d: Delivery) {
    && (if d.how == Handled then 1 <= |d.told| <= 2 else |d.told| <= 1)
    && (forall i :: 0 <= i < |d.told| ==> D.Addressed(h, d.c.text, d.told[i]))
  }

  /** The reports are those of the deliveries, in order, and nothing else. */
  ghost predicate Paired(h: D.Handler, x: System) {
    && Reports(x.deliveries) == x.s.reports
    && (forall i :: 0 <= i < |x.deliveries| ==> Told(h, x.deliveries[i]))
  }

  lemma KilledTells(h: D.Handler, s: D.State, m: D.Message, f: D.Faults, written: bool)
    ensures var t := D.Step(h, s, D.Killed(m, f, written), true);
            && s.reports <= t.reports && |t.reports| - |s.reports| <= 1
            && (forall i :: |s.reports| <= i < |t.reports| ==> D.Addressed(h, m, t.reports[i]))
  {}

  lemma StepTells(h: D.Handler, x: System, e: Event)
    ensures var t := Step(h, x, e).s;
            if HasFaults(e) && x.q.consumer.Handling? then
              x.s.reports <= t.reports && Told(h, Delivery(x.q.consumer.c, HowOf(e), NewReports(x.s, t)))
            else t.reports == x.s.reports
  {
    WriterStep(h, x, e);
    if x.q.consumer.Handling? {
      var m := x.q.consumer.c.text;
      match e {
        case Handle(f) => D.DeliveryTells(h, x.s, m, f);
        case Cancel(ran, f, written) => if ran { KilledTells(h, x.s, m, f, written); }
        case HandleThenKill(f, written) => KilledTells(h, x.s, m, f, written);
        case _ =>
      }
    }
  }

  /** The commit log grows in the handler only, and exactly when the delivery in it gets to its
      transaction and lands. */
  lemma EventCommits(h: D.Handler, x: System, e: Event)
    ensures var y := Step(h, x, e);
            y.s.w.log != x.s.w.log <==>
            && x.q.consumer.Handling? && (e.Handle? || e.HandleThenKill? || (e.Cancel? && e.ran))
            && D.Lands(h, x.s, x.q.consumer.c.text, e.f)
  {
    WriterStep(h, x, e);
    if x.q.consumer.Handling? && HasFaults(e) {
      D.DeliveryCommits(h, x.s, x.q.consumer.c.text, e.f, if e.Handle? then false else e.written);
    }
  }

  lemma ReportsSnoc(deliveries: seq<Delivery>, d: Delivery)
    ensures Reports(deliveries + [d]) == Reports(deliveries) + d.told
  {
    assert (deliveries + [d])[..|deliveries|] == deliveries;
  }

  lemma OneMorePaired(h: D.Handler, x: System, y: System, d: Delivery)
    requires Paired(h, x) && Told(h, d)
    requires y.deliveries == x.deliveries + [d] && y.s.reports == x.s.reports + d.told
    ensures Paired(h, y)
  {
    ReportsSnoc(x.deliveries, d);
  }

  lemma StepPaired(h: D.Handler, x: System, e: Event)
    requires Paired(h, x)
    ensures Paired(h, Step(h, x, e))
  {
    var y := Step(h, x, e);
    StepTells(h, x, e);
    if HasFaults(e) && x.q.consumer.Handling? {
      HandlerStep(h, x, e);
      var d := Delivery(x.q.consumer.c, HowOf(e), NewReports(x.s, y.s));
      assert y.s.reports == x.s.reports + d.told;
      OneMorePaired(h, x, y, d);
    } else {
      OtherStep(h, x, e);
    }
  }

  // ---- The invariant of the whole path ----

  ghost predicate Inv(h: D.Handler, owner: TaskId -> D.Work, start: map<Path, Vault>, x: System) {
    && C.Conserved(x.q) && L.SingleInFlight(x.q) && QueueGood(h, owner, x.q)
    && AckedWereDelivered(x) && Paired(h, x) && WriterInv(h, owner, start, x.s)
  }

  ghost predicate WriterInv(h: D.Handler, owner: TaskId -> D.Work, start: map<Path, Vault>, s: D.State) {
    WriteLedger.Inv(h.cfg, start, s.w) && D.Sound(owner, s)
  }

  ghost predicate Producers(h: D.Handler, owner: TaskId -> D.Work, events: seq<Event>) {
    forall e :: e in events && e.Queue? && e.e.Produce? ==> Good(h, owner, e.e.text)
  }

  lemma WriterEventKeeps(h: D.Handler, owner: TaskId -> D.Work, start: map<Path, Vault>, s: D.State, e: D.Event)
    requires WriterInv(h, owner, start, s) && D.TimeOk(s.w.now, [e]) && D.OwnIds(h, owner, [e])
    ensures WriterInv(h, owner, start, D.Step(h, s, e, true))
  {
    D.StepIsLedgerRun(h, s, e, true);
    RunInv(h.cfg, start, s.w, D.LedgerEvents(h, s, e, true));
    D.StepSuccess(h, owner, s, e);
  }

  lemma WriterClock(h: D.Handler, s: D.State, e: D.Event)
    ensures D.Step(h, s, e, true).w.now == if e.Deliver? || e.Killed? then e.f.after else s.w.now
  {}

  /** What the events of the handler inherit from the run. */
  lemma WriterEventOk(h: D.Handler, owner: TaskId -> D.Work, x: System, e: Event)
    requires QueueGood(h, owner, x.q) && TimeOk(x.s.w.now, [e]) && WriterEvents(x, e) != []
    ensures var g := WriterEvents(x, e)[0];
            && D.TimeOk(x.s.w.now, [g]) && D.OwnIds(h, owner, [g])
            && (g.Deliver? || g.Killed? ==> HasFaults(e) && g.f == e.f)
  {}

  lemma StepWriter(h: D.Handler, owner: TaskId -> D.Work, start: map<Path, Vault>, x: System, e: Event)
    requires WriterInv(h, owner, start, x.s) && QueueGood(h, owner, x.q) && TimeOk(x.s.w.now, [e])
    ensures WriterInv(h, owner, start, Step(h, x, e).s)
    ensures Step(h, x, e).s.w.now <= if HasFaults(e) then e.f.after else x.s.w.now
  {
    WriterStep(h, x, e);
    if WriterEvents(x, e) != [] {
      var g := WriterEvents(x, e)[0];
      WriterEventOk(h, owner, x, e);
      WriterEventKeeps(h, owner, start, x.s, g);
      WriterClock(h, x.s, g);
    }
  }

  lemma StepInv(h: D.Handler, owner: TaskId -> D.Work, start: map<Path, Vault>, x: System, e: Event)
    requires Inv(h, owner, start, x) && TimeOk(x.s.w.now, [e]) && Producers(h, owner, [e])
    ensures Inv(h, owner, start, Step(h, x, e))
  {
    QueueStep(h, x, e);
    var events := QueueEvents(x, e);
    if events != [] {
      assert e in [e];
      C.StepConserves(x.q, events[0]);
      L.StepSingleInFlight(x.q, events[0]);
      StepGood(h, owner, x.q, events[0]);
    }
    StepAcked(h, x, e);
    StepPaired(h, x, e);
    StepWriter(h, owner, start, x, e);
  }

  lemma {:induction false} RunKeepsInv(h: D.Handler, owner: TaskId -> D.Work, start: map<Path, Vault>, x: System,
                                       now: int, events: seq<Event>)
    requires Inv(h, owner, start, x) && x.s.w.now <= now && TimeOk(now, events) && Producers(h, owner, events)
    ensures Inv(h, owner, start, Run(h, x, events))
    decreases |events|
  {
    if events != [] {
      var e := events[0];
      assert TimeOk(x.s.w.now, [e]) by { assert [e][1..] == []; }
      StepInv(h, owner, start, x, e);
      StepWriter(h, owner, start, x, e);
      RunKeepsInv(h, owner, start, Step(h, x, e), if HasFaults(e) then e.f.after else now, events[1..]);
    }
  }

  /** A pushed copy is in the queue, in a hand, lost to a kill, or acknowledged. */
  lemma Accounted(q: Q.State, c: Q.Copy)
    requires C.Conserved(q) && c in q.pushed
    ensures c in q.source || c in q.processing || c in Q.Hands(q) || c in q.lost || c in q.acked
  {
    C.OccursIn(q.pushed, c);
    C.OccursIn(q.source, c);
    C.OccursIn(q.processing, c);
    C.OccursIn(Q.ConsumerHand(q.consumer), c);
    C.OccursIn(Q.ReclaimerHand(q.reclaimer), c);
    C.OccursIn(q.acked, c);
    C.OccursIn(q.lost, c);
  }

  /** The write path end to end.  For every interleaving of producers, consumer, reclaimers,
      lock failures, cache losses, kills and shutdowns, when each task id stands for one command on
      one vault: every pushed copy is still in the queue or in a task's hand, was lost in one of
      the two kill windows, or has had its delivery; the reports are those of the deliveries in
      order, each under its own id and payload, and at least one for each delivery handled to its end;
      every reported success is in the commit log; and every vault is the replay of that log, in
      which no task appears twice in a vault unless the retention lies between. */
  lemma ExactlyOnceEffect(h: D.Handler, owner: TaskId -> D.Work, start: map<Path, Vault>, now: int, events: seq<Event>)
    requires NoneCompleted(start) && TimeOk(now, events) && Producers(h, owner, events)
    ensures var x := Run(h, Start(start, now), events);
            && (forall c :: c in x.q.pushed ==>
                  || c in x.q.source || c in x.q.processing || c in Q.Hands(x.q)
                  || c in x.q.lost || c in Left(x.deliveries))
            && Paired(h, x)
            && D.SuccessIsCommitted(x.s)
            && TablesAreReplay(h.cfg, start, x.s.w)
            && KeysApart(h.cfg, x.s.w.log)
  {
    var x0 := Start(start, now);
    assert WriteLedger.Inv(h.cfg, start, x0.s.w);
    RunKeepsInv(h, owner, start, x0, now, events);
    var x := Run(h, x0, events);
    forall c | c in x.q.pushed
      ensures c in x.q.source || c in x.q.processing || c in Q.Hands(x.q) || c in x.q.lost || c in Left(x.deliveries)
    {
      Accounted(x.q, c);
    }
  }

  /** The cancelled handler got to its transaction, and the transaction commits, or finds a typed
      task completed and its "success" is out before the shutdown. */
  ghost predicate LeavesTrace(h: D.Handler, s: D.State, m: D.Message, ran: bool, f: D.Faults, written: bool) {
    ran && D.Accepted(h, m).Some? && !D.CacheHit(h, s, m, f) &&
    var p := D.Accepted(h, m).value;
    var call := D.CallOf(p, f);
    Commits(h.cfg, s.w, call) || (p.command.Typed? && written && OutcomeOf(h.cfg, s.w, call) == AlreadyCompleted)
  }

  /** A shutdown that cancels the handler still acknowledges the message: no list holds it any more.
      The delivery has then neither committed nor told anybody anything, unless, and exactly when,
      the handler got to its transaction and that left a trace. */
  lemma ShutdownDropsMessage(h: D.Handler, x: System, ran: bool, f: D.Faults, written: bool)
    requires C.Conserved(x.q) && L.SingleInFlight(x.q)
    requires x.q.consumer.Handling? && x.q.consumer.c in x.q.processing
    ensures var c := x.q.consumer.c;
            var y := Step(h, Step(h, x, Cancel(ran, f, written)), Queue(Q.AckLRem));
            && c in y.q.acked && c !in y.q.source && c !in y.q.processing && c !in Q.Hands(y.q)
            && (y.s.w.log == x.s.w.log && y.s.reports == x.s.reports
                <==> !LeavesTrace(h, x.s, c.text, ran, f, written))
  {
    var e, ack := Cancel(ran, f, written), Queue(Q.AckLRem);
    var x1 := Step(h, x, e);
    QueueStep(h, x, e);
    QueueStep(h, x1, ack);
    ExitThenAck(x.q);
    WriterStep(h, x, e);
    WriterStep(h, x1, ack);
    if ran { KilledLeaves(h, x.s, x.q.consumer.c.text, f, written); }
  }

  lemma KilledLeaves(h: D.Handler, s: D.State, m: D.Message, f: D.Faults, written: bool)
    ensures var t := D.Step(h, s, D.Killed(m, f, written), true);
            t.w.log == s.w.log && t.reports == s.reports <==> !LeavesTrace(h, s, m, true, f, written)
  {
    var t := D.Step(h, s, D.Killed(m, f, written), true);
    if LeavesTrace(h, s, m, true, f, written) {
      assert |t.w.log| > |s.w.log| || |t.reports| > |s.reports|;
    }
  }

  lemma ExitThenAck(q: Q.State)
    requires C.Conserved(q) && L.SingleInFlight(q) && q.consumer.Handling? && q.consumer.c in q.processing
    ensures var c := q.consumer.c;
            var r := Q.Step(Q.Step(q, Q.HandlerExit), Q.AckLRem);
            c in r.acked && c !in r.source && c !in r.processing && c !in Q.Hands(r)
  {
    var q1 := Q.Step(q, Q.HandlerExit);
    L.StepSingleInFlight(q, Q.HandlerExit);
    C.StepConserves(q, Q.HandlerExit);
    C.StepConserves(q1, Q.AckLRem);
    L.SolidIn(q1.processing, q.consumer.c);
    L.AckRemoves(q1);
    AckedIsNowhere(Q.Step(q1, Q.AckLRem), q.consumer.c);
  }

  lemma AckedIsNowhere(q: Q.State, c: Q.Copy)
    requires C.Conserved(q) && c in q.acked
    ensures c !in q.source && c !in q.processing && c !in Q.Hands(q)
  {
    C.PushedDistinct(q.pushed, c);
    C.OccursIn(q.source, c);
    C.OccursIn(q.processing, c);
    C.OccursIn(Q.ConsumerHand(q.consumer), c);
    C.OccursIn(Q.ReclaimerHand(q.reclaimer), c);
    C.OccursIn(q.acked, c);
  }
}
