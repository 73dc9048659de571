/** The leases of the reliable queue (services/db-writer/db_writer_ops.py): whose they are, and that
    no delivery is taken back before its time. */
module QueueLeases {

  import opened QueueConservation
  import opened QueueDelivery
  import opened QueueOrder
  import opened ReliableQueue

  // ---- The clock ----

  function Seconds(events: seq<Event>): nat {
    if events == [] then 0 else (if events[0].Tick? then events[0].seconds else 0) + Seconds(events[1..])
  }

  /** Time passes by the ticks of the run and by nothing else. */
  lemma {:induction false} ClockIsTicks(s: State, events: seq<Event>)
    ensures Run(s, events).now == s.now + Seconds(events)
    decreases |events|
  {
    if events != [] {
      assert Step(s, events[0]).now == s.now + if events[0].Tick? then events[0].seconds else 0;
      ClockIsTicks(Step(s, events[0]), events[1..]);
    }
  }

  // ---- Whose the leases are ----

  /** The consumer has leased its message and not yet released it. */
  predicate Holds(c: Consumer, m: Message) {
    match c
    case Handling(x) => x.text == m
    case Acking(x) => x.text == m
    case Unleasing(x) => x.text == m
    case _ => false
  }

  /** The only lease there may be is that of the message in delivery. */
  predicate LeasesAreOwn(s: State) { forall m :: m in s.leases ==> Holds(s.consumer, m) }

  lemma StepLeasesOwn(s: State, e: Event)
    requires LeasesAreOwn(s) && !e.Kill?
    ensures LeasesAreOwn(Step(s, e))
  {}

  /** While the process is not killed there is never a lease but that of the message in delivery. */
  lemma {:induction false} LeasesAreCurrent(s: State, events: seq<Event>)
    requires LeasesAreOwn(s) && Kill !in events
    ensures LeasesAreOwn(Run(s, events))
    decreases |events|
  {
    if events != [] {
      StepLeasesOwn(s, events[0]);
      LeasesAreCurrent(Step(s, events[0]), events[1..]);
    }
  }

  /** Startup reclaim releases exactly the leases of the messages it moves. */
  lemma {:induction false} DrainReleases(s: State)
    requires s.consumer == StartPop
    ensures var t := Run(s, Drain(|s.processing|));
            forall m :: (m in t.leases <==> m in s.leases && forall c :: c in s.processing ==> c.text != m)
                        && (m in t.leases ==> t.leases[m] == s.leases[m])
    decreases |s.processing|
  {
    var n := |s.processing| - 1;
    if n < 0 {
      assert Drain(0)[1..] == [];
    } else {
      var t := Run(s, [StartupRPop, StartupLPush, StartupZRem]);
      Run3(s, StartupRPop, StartupLPush, StartupZRem);
      DrainOne(s);
      assert t.leases == s.leases - {s.processing[n].text};
      RunAppend(s, [StartupRPop, StartupLPush, StartupZRem], Drain(n));
      DrainReleases(t);
      assert s.processing == s.processing[..n] + [s.processing[n]];
      assert s.processing[n] in s.processing;
    }
  }

  // ---- How long a lease holds ----

  /** The consumer stays in the delivery of `c` throughout. */
  ghost predicate Stays(s: State, events: seq<Event>, c: Copy)
    decreases |events|
  {
    && (s.consumer == Handling(c) || s.consumer == Acking(c))
    && (events != [] ==> Stays(Step(s, events[0]), events[1..], c))
  }

  /** A lease that is there has this deadline; and unless the reclaimer was about its text from the
      start, it is there before the deadline, and the reclaimer is still not about it. */
  predicate LeaseGood(s: State, m: Message, deadline: int, undisturbed: bool) {
    && (m in s.leases ==> s.leases[m] == deadline)
    && (undisturbed && s.now < deadline ==> m in s.leases && m !in Mentioned(s.reclaimer))
  }

  lemma StepLeaseGood(s: State, e: Event, c: Copy, deadline: int, undisturbed: bool)
    requires LeaseGood(s, c.text, deadline, undisturbed) && (s.consumer == Handling(c) || s.consumer == Acking(c))
    requires var t := Step(s, e); t.consumer == Handling(c) || t.consumer == Acking(c)
    ensures LeaseGood(Step(s, e), c.text, deadline, undisturbed)
  {
    if e.ReclaimLRem? && s.reclaimer.Removing? && s.reclaimer.todo != [] {
      var todo := s.reclaimer.todo;
      RemovedOne(s.processing, todo[0]);
      assert todo == [todo[0]] + todo[1..];
    }
  }

  lemma {:induction false} RunLeaseGood(s: State, events: seq<Event>, c: Copy, deadline: int, undisturbed: bool)
    requires LeaseGood(s, c.text, deadline, undisturbed) && Stays(s, events, c)
    ensures LeaseGood(Run(s, events), c.text, deadline, undisturbed)
    decreases |events|
  {
    if events != [] {
      StepLeaseGood(s, events[0], c, deadline, undisturbed);
      RunLeaseGood(Step(s, events[0]), events[1..], c, deadline, undisturbed);
    }
  }

  /** The length of a lease: what was asked for, but at least a second. */
  function LeaseSeconds(leaseSec: int): nat { if leaseSec >= 1 then leaseSec else 1 }

  /** The scan finds expired leases and takes them up. */
  ghost predicate TakesUp(s: State, expired: seq<Message>) {
    s.reclaimer == Sleeping && Step(s, Scan(expired)).reclaimer == Removing(expired) && expired != []
  }

  /** Which scans those are: of all leases whose time has come, each once, and there must be one. */
  lemma ScanTakesTheDue(s: State, expired: seq<Message>)
    ensures TakesUp(s, expired) <==>
            && s.reclaimer == Sleeping && expired != []
            && (forall i, j :: 0 <= i < j < |expired| ==> expired[i] != expired[j])
            && (forall m :: m in expired <==> m in s.leases && 0 <= s.leases[m] <= s.now)
  {}

  /** A delivery leased for `leaseSec` seconds keeps its lease, with exactly that deadline, until the
      time is over, unless the reclaimer was about a message of the same text when it was leased; and
      in any case a scan takes it up exactly when as many seconds have passed as it was leased for
      and the lease is still there, whatever else happens meanwhile. */
  lemma LeaseIsKept(events: seq<Event>, s: State, c: Copy, leaseSec: int, more: seq<Event>, expired: seq<Message>)
    requires s == Run(Init(), events) && s.consumer == Leasing(c)
    requires Stays(Step(s, RegisterLease(leaseSec)), more, c)
    ensures var u := Run(Step(s, RegisterLease(leaseSec)), more);
            && (c.text !in Mentioned(s.reclaimer) && Seconds(more) < LeaseSeconds(leaseSec) ==>
                  c.text in u.leases && u.leases[c.text] == s.now + LeaseSeconds(leaseSec))
            && (TakesUp(u, expired) ==>
                  (c.text in expired <==> c.text in u.leases && Seconds(more) >= LeaseSeconds(leaseSec)))
  {
    var t := Step(s, RegisterLease(leaseSec));
    ClockIsTicks(Init(), events);
    ClockIsTicks(t, more);
    RunLeaseGood(t, more, c, s.now + LeaseSeconds(leaseSec), c.text !in Mentioned(s.reclaimer));
  }

  /** The exception is real: a reclaimer that is about to release an older lease of the same text
      releases the new one as well, at once. */
  lemma OlderLeaseTakesTheNew(s: State, c: Copy, leaseSec: int)
    requires s.consumer == Leasing(c) && s.reclaimer == Releasing(c.text, [])
    ensures c.text !in Step(Step(s, RegisterLease(leaseSec)), ReclaimZRem).leases
    ensures Step(Step(s, RegisterLease(leaseSec)), ReclaimZRem).consumer == Handling(c)
  {}

  /** And it happens, without any kill: a slow delivery of "a" is taken back while its handler is at
      the end, and the next one is leased before the reclaimer is through. */
  ghost function LosingRun(): seq<Event> {
    (([Produce("a"), Produce("a"), StartupRPop] + [Pop, RegisterLease(1), Tick(1)])
     + [Scan(["a"]), ReclaimLRem, ReclaimLPush])
    + ([HandlerExit, AckLRem, AckZRem] + [Pop, RegisterLease(3600), ReclaimZRem])
  }

  lemma LeaseIsLost()
    ensures var s := Run(Init(), LosingRun());
            s.consumer == Handling(Copy("a", 1)) && s.leases == map[] && s.reclaimer == Sleeping
  {
    var e1, e2 := [Produce("a"), Produce("a"), StartupRPop], [Pop, RegisterLease(1), Tick(1)];
    var e3, e4 := [Scan(["a"]), ReclaimLRem, ReclaimLPush], [HandlerExit, AckLRem, AckZRem];
    var e5 := [Pop, RegisterLease(3600), ReclaimZRem];
    LosingParts(e1, e2, e3, e4, e5);
  }

  lemma {:induction false} LosingParts(e1: seq<Event>, e2: seq<Event>, e3: seq<Event>, e4: seq<Event>, e5: seq<Event>)
    requires e1 == [Produce("a"), Produce("a"), StartupRPop] && e2 == [Pop, RegisterLease(1), Tick(1)]
    requires e3 == [Scan(["a"]), ReclaimLRem, ReclaimLPush] && e4 == [HandlerExit, AckLRem, AckZRem]
    requires e5 == [Pop, RegisterLease(3600), ReclaimZRem]
    ensures var s := Run(Init(), ((e1 + e2) + e3) + (e4 + e5));
            s.consumer == Handling(Copy("a", 1)) && s.leases == map[] && s.reclaimer == Sleeping
  {
    RunAppend4(Init(), e1, e2, e3, e4 + e5);
    FirstSlowDelivery();
    var s2 := Run(Run(Init(), e1), e2);
    TakenBack(s2);
    var s3 := Run(s2, e3);
    RunAppend(s3, e4, e5);
    MissedAck(s3);
    NextLoses(Run(s3, e4));
  }

  lemma {:induction false} MissedAck(s: State)
    requires s.source == [Copy("a", 0), Copy("a", 1)] && s.processing == [] && s.consumer == Handling(Copy("a", 0))
    requires s.reclaimer == Releasing("a", []) && s.leases == map["a" := 1]
    ensures var t := Run(s, [HandlerExit, AckLRem, AckZRem]);
            && t.source == [Copy("a", 0), Copy("a", 1)] && t.consumer == Idle && t.leases == map[]
            && t.reclaimer == Releasing("a", [])
  {
    Run3(s, HandlerExit, AckLRem, AckZRem);
    var t := Step(s, HandlerExit);
    assert t.consumer == Acking(Copy("a", 0)) && t.processing == [] && t.source == s.source && t.leases == s.leases;
    var u := Step(t, AckLRem);
    assert u.consumer == Unleasing(Copy("a", 0)) && u.source == s.source && u.leases == s.leases;
    assert map["a" := 1] - {"a"} == map[];
  }

  lemma {:induction false} NextLoses(s: State)
    requires s.source == [Copy("a", 0), Copy("a", 1)] && s.consumer == Idle && s.leases == map[]
    requires s.reclaimer == Releasing("a", [])
    ensures var t := Run(s, [Pop, RegisterLease(3600), ReclaimZRem]);
            t.consumer == Handling(Copy("a", 1)) && t.leases == map[] && t.reclaimer == Sleeping
  {
    Run3(s, Pop, RegisterLease(3600), ReclaimZRem);
    var t := Step(Step(s, Pop), RegisterLease(3600));
    assert t.leases.Keys == {"a"};
    assert t.leases - {"a"} == map[];
  }

  lemma FirstSlowDelivery()
    ensures var s := Run(Run(Init(), [Produce("a"), Produce("a"), StartupRPop]), [Pop, RegisterLease(1), Tick(1)]);
            && s.source == [Copy("a", 1)] && s.processing == [Copy("a", 0)] && s.leases == map["a" := 1] && s.now == 1
            && s.consumer == Handling(Copy("a", 0)) && s.reclaimer == Sleeping
  {
    var s := Run(Init(), [Produce("a"), Produce("a"), StartupRPop]);
    Run3(Init(), Produce("a"), Produce("a"), StartupRPop);
    assert s.source == [Copy("a", 1), Copy("a", 0)] && s.consumer == Idle && s.processing == [];
    Run3(s, Pop, RegisterLease(1), Tick(1));
    assert s.source[..1] == [Copy("a", 1)];
  }

  lemma {:induction false} TakenBack(s: State)
    requires s.source == [Copy("a", 1)] && s.processing == [Copy("a", 0)] && s.leases == map["a" := 1] && s.now == 1
    requires s.reclaimer == Sleeping
    ensures var t := Run(s, [Scan(["a"]), ReclaimLRem, ReclaimLPush]);
            && t.source == [Copy("a", 0), Copy("a", 1)] && t.processing == [] && t.leases == s.leases && t.now == 1
            && t.consumer == s.consumer && t.reclaimer == Releasing("a", [])
  {
    Run3(s, Scan(["a"]), ReclaimLRem, ReclaimLPush);
    ScanTakesTheDue(s, ["a"]);
    LRemSingle(Copy("a", 0), "a");
    assert ["a"][1..] == [];
  }
}
