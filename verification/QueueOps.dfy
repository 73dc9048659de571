/** The functions of services/db-writer/db_writer_ops.py as methods that change a queue in
    place.  Each returns the events it went through, so that an undisturbed call is a run
    of the state machine in `ReliableQueue` and every theorem there applies to it. */
module QueueOps {

  import opened QueueConservation
  import opened QueueDelivery
  import opened QueueOrder
  import opened ReliableQueue
  import opened Sequences

  datatype Outcome = Completed | Locked

  class RedisQueue {
    var source: seq<Copy>
    var processing: seq<Copy>
    var leases: map<Message, int>
    var now: int
    var pushed: seq<Copy>
    var acked: seq<Copy>
    var lost: seq<Copy>
    var done: seq<Copy>

    /** The shared state, seen with the two tasks at the given points. */
    function View(c: Consumer, r: Reclaimer): State
      reads this
    {
      State(source, processing, leases, c, r, now, pushed, acked, lost, done)
    }

    constructor ()
      ensures View(StartPop, Sleeping) == Init()
    {
      source, processing, leases, now := [], [], map[], 0;
      pushed, acked, lost, done := [], [], [], [];
    }

    /** One turn of the startup loop: RPOP, LPUSH, ZREM. */
    method ReclaimLast()
      requires processing != []
      modifies this
      ensures View(StartPop, Sleeping) == Run(old(View(StartPop, Sleeping)), [StartupRPop, StartupLPush, StartupZRem])
      ensures processing + source == old(processing) + old(source) && done == old(done)
      ensures |processing| == |old(processing)| - 1
    {
      ghost var s := View(StartPop, Sleeping);
      var n := |processing| - 1;
      var message := processing[n];
      assert processing == processing[..n] + [message];
      processing := processing[..n];
      source := [message] + source;
      leases := leases - {message.text};
      Run3(s, StartupRPop, StartupLPush, StartupZRem);
    }

    /** Moves everything in `:processing` back, behind whatever is waiting. */
    method ReclaimProcessingOnStartup() returns (reclaimed: nat, ghost events: seq<Event>)
      modifies this
      ensures reclaimed == |old(processing)|
      ensures processing == [] && source == old(processing) + old(source) && done == old(done)
      ensures View(Idle, Sleeping) == Run(old(View(StartPop, Sleeping)), events)
      ensures old(processing) == [] ==> events == [StartupRPop]
      ensures CountPops(events) == 0
    {
      reclaimed, events := 0, [];
      ghost var s0 := View(StartPop, Sleeping);
      while processing != []
        invariant View(StartPop, Sleeping) == Run(s0, events)
        invariant processing + source == old(processing) + old(source) && done == old(done)
        invariant reclaimed + |processing| == |old(processing)|
        invariant old(processing) == [] ==> events == []
        invariant CountPops(events) == 0
        decreases |processing|
      {
        ReclaimLast();
        reclaimed := reclaimed + 1;
        RunAppend(s0, events, [StartupRPop, StartupLPush, StartupZRem]);
        NoPops(events);
        events := events + [StartupRPop, StartupLPush, StartupZRem];
      }
      RunSnoc(s0, events, StartupRPop);
      PopsAppend(events, [StartupRPop]);
      events := events + [StartupRPop];
    }

    method PopReliableMessage() returns (message: Copy)
      requires source != []
      modifies this
      ensures View(if message.text == "" then Idle else Leasing(message), Sleeping)
              == Step(old(View(Idle, Sleeping)), Pop)
      ensures message == old(source)[|old(source)| - 1]
    {
      var n := |source| - 1;
      message := source[n];
      source, processing := source[..n], [message] + processing;
    }

    method RegisterProcessingLease(message: Copy, leaseSec: int)
      modifies this
      ensures View(Handling(message), Sleeping) == Step(old(View(Leasing(message), Sleeping)), RegisterLease(leaseSec))
      ensures leases == old(leases)[message.text := now + if leaseSec >= 1 then leaseSec else 1] && now == old(now)
    {
      var deadline := now + Max(1, leaseSec);
      leases := leases[message.text := deadline];
    }

    /** The context and loop handlers: on a DuckDB lock RPUSH the message and return. */
    method HandleMessage(message: Copy, outcome: Outcome) returns (ghost exit: Event)
      modifies this
      ensures exit == (if outcome == Locked then Requeue else HandlerExit)
      ensures View(Acking(message), Sleeping) == Step(old(View(Handling(message), Sleeping)), exit)
    {
      if outcome == Locked {
        var copy := Copy(message.text, |pushed|);
        source, pushed := source + [copy], pushed + [copy];
        exit := Requeue;
      } else {
        done := done + [message];
        exit := HandlerExit;
      }
    }

    /** LREM then ZREM; the result is LREM's count, zero being the "ACK miss". */
    method AckProcessingMessage(message: Copy) returns (removed: nat)
      modifies this
      ensures View(Idle, Sleeping) == Step(Step(old(View(Acking(message), Sleeping)), AckLRem), AckZRem)
      ensures removed == |Removed(old(processing), message.text)| && leases == old(leases) - {message.text}
    {
      var hit := Removed(processing, message.text);
      removed := |hit|;
      acked := acked + hit;
      processing := LRem(processing, message.text);
      leases := leases - {message.text};
    }

    /** The due members, in whatever order the set yields them. */
    method ZRangeByScore() returns (expired: seq<Message>)
      ensures IsExpiredList(View(Idle, Sleeping), expired)
    {
      expired := [];
      var todo := leases.Keys;
      while todo != {}
        invariant todo <= leases.Keys
        invariant forall i, j :: 0 <= i < j < |expired| ==> expired[i] != expired[j]
        invariant forall m :: m in expired <==> m in leases && m !in todo && 0 <= leases[m] <= now
        decreases todo
      {
        var m :| m in todo;
        todo := todo - {m};
        if 0 <= leases[m] <= now { expired := expired + [m]; }
      }
    }

    /** LREM, LPUSH on a hit, ZREM: one expired message. */
    method ReclaimOne(message: Message, ghost consumer: Consumer, ghost rest: seq<Message>)
        returns (hit: seq<Copy>, ghost events: seq<Event>)
      modifies this
      ensures View(consumer, if rest == [] then Sleeping else Removing(rest))
           == Run(old(View(consumer, Removing([message] + rest))), events)
      ensures hit == Removed(old(processing), message) && processing == LRem(old(processing), message)
      ensures |hit| <= 1 && source == hit + old(source)
      ensures leases == old(leases) - {message} && now == old(now)
    {
      ghost var s := View(consumer, Removing([message] + rest));
      hit := Removed(processing, message);
      processing := LRem(processing, message);
      if hit != [] { source := [hit[0]] + source; }
      leases := leases - {message};
      events := ReclaimEvents(hit);
      ReclaimOneRun(s, message, rest);
    }

    /** The loop over the expired members. */
    method ReclaimListed(expired: seq<Message>, ghost consumer: Consumer) returns (count: nat, ghost events: seq<Event>)
      requires expired != [] && forall i, j :: 0 <= i < j < |expired| ==> expired[i] != expired[j]
      modifies this
      ensures View(consumer, Sleeping) == Run(old(View(consumer, Removing(expired))), events)
      ensures |source| == |old(source)| + count && |processing| + count == |old(processing)|
      ensures leases == old(leases) - (set m | m in expired)
      ensures Requeued(old(processing), processing, old(source), source, expired)
    {
      ghost var s0 := View(consumer, Removing(expired));
      count, events := 0, [];
      var i := 0;
      assert expired[0..] == expired;
      while i < |expired|
        invariant 0 <= i <= |expired|
        invariant View(consumer, if i < |expired| then Removing(expired[i..]) else Sleeping) == Run(s0, events)
        invariant |source| == |old(source)| + count && |processing| + count == |old(processing)|
        invariant leases == old(leases) - (set m | m in expired[..i])
        invariant Requeued(old(processing), processing, old(source), source, expired[..i])
      {
        assert expired[i..] == [expired[i]] + expired[i + 1..];
        TakenOneMore(expired, i);
        LRemLength(processing, expired[i]);
        RequeuedOneMore(old(processing), processing, old(source), source, expired, i);
        var hit, one := ReclaimOne(expired[i], consumer, expired[i + 1..]);
        RunAppend(s0, events, one);
        count, events, i := count + |hit|, events + one, i + 1;
      }
      assert expired[..|expired|] == expired;
    }

    /** Requeues the messages of all expired leases, whatever the consumer is doing. */
    method ReclaimExpiredProcessingLeases(ghost consumer: Consumer) returns (count: nat, ghost events: seq<Event>)
      modifies this
      ensures View(consumer, Sleeping) == Run(old(View(consumer, Sleeping)), events)
      ensures |source| == |old(source)| + count && |processing| + count == |old(processing)|
      ensures forall m :: m in leases <==> m in old(leases) && !(0 <= old(leases)[m] <= old(now))
      ensures forall m :: m in leases ==> leases[m] == old(leases)[m]
      ensures exists due :: (forall m :: m in due <==> m in old(leases) && 0 <= old(leases)[m] <= old(now))
                            && Requeued(old(processing), processing, old(source), source, due)
    {
      ghost var s0 := View(consumer, Sleeping);
      count, events := 0, [];
      var expired := ZRangeByScore();
      if expired == [] {
        assert Requeued(processing, processing, source, source, expired);
        return;
      }
      assert IsExpiredList(s0, expired);
      RunSnoc(s0, [], Scan(expired));
      ghost var more;
      count, more := ReclaimListed(expired, consumer);
      RunAppend(s0, [] + [Scan(expired)], more);
      events := [] + [Scan(expired)] + more;
    }

    /** One turn of the consume loop: pop, lease, handler, ack; an empty message is skipped. */
    method ConsumeOne(outcome: Outcome, leaseSec: int) returns (ghost events: seq<Event>)
      requires source != []
      modifies this
      ensures View(Idle, Sleeping) == Run(old(View(Idle, Sleeping)), events)
      ensures events == if old(source)[|old(source)| - 1].text == "" then [] + [Pop]
                        else Delivery(leaseSec, if outcome == Locked then Requeue else HandlerExit)
      ensures forall e :: e in events ==> Calm(e) && !e.Produce?
    {
      ghost var s := View(Idle, Sleeping);
      var message := PopReliableMessage();
      if message.text == "" {
        RunSnoc(s, [], Pop);
        return [] + [Pop];
      }
      RegisterProcessingLease(message, leaseSec);
      ghost var exit := HandleMessage(message, outcome);
      var _ := AckProcessingMessage(message);
      DeliveryRun(s, leaseSec, exit);
      DeliveryIsCalm(leaseSec, exit);
      events := Delivery(leaseSec, exit);
    }

    /** Startup reclaim, then one delivery per outcome until the source list is empty,
        where BRPOPLPUSH would block. */
    method RunReliableQueueLoop(outcomes: seq<Outcome>, leaseSec: int) returns (ghost events: seq<Event>)
      modifies this
      ensures View(Idle, Sleeping) == Run(old(View(StartPop, Sleeping)), events)
      ensures CountPops(events) <= |outcomes| && (source == [] || CountPops(events) == |outcomes|)
      ensures old(processing) == [] ==>
                && NonEmpty(Line(View(Idle, Sleeping))) == NonEmpty(old(Line(View(StartPop, Sleeping))))
                && (EmptyPops(old(View(StartPop, Sleeping)), events) == 0 ==>
                      Line(View(Idle, Sleeping)) == old(Line(View(StartPop, Sleeping))))
    {
      ghost var s0 := View(StartPop, Sleeping);
      var _, start := ReclaimProcessingOnStartup();
      events := start;
      var i := 0;
      while i < |outcomes| && source != []
        invariant i <= |outcomes| && CountPops(events) == i
        invariant View(Idle, Sleeping) == Run(s0, events)
        invariant old(processing) == [] ==> forall e :: e in events ==> Calm(e) && !e.Produce?
      {
        var delivery := ConsumeOne(outcomes[i], leaseSec);
        RunAppend(s0, events, delivery);
        OnePop(leaseSec, if outcomes[i] == Locked then Requeue else HandlerExit);
        PopsAppend(events, delivery);
        events, i := events + delivery, i + 1;
      }
      if old(processing) == [] {
        NothingProduced(events);
        RunKeepsLine(s0, events);
        if EmptyPops(s0, events) == 0 { RunKeepsWholeLine(s0, events); }
      }
    }
  }

  ghost function Delivery(leaseSec: int, exit: Event): seq<Event> {
    [Pop, RegisterLease(leaseSec), exit] + [AckLRem] + [AckZRem]
  }

  lemma DeliveryIsCalm(leaseSec: int, exit: Event)
    requires exit.Requeue? || exit.HandlerExit?
    ensures forall e :: e in Delivery(leaseSec, exit) ==> Calm(e) && !e.Produce?
  {}

  lemma DeliveryRun(s: State, leaseSec: int, exit: Event)
    ensures Run(s, Delivery(leaseSec, exit))
         == Step(Step(Step(Step(Step(s, Pop), RegisterLease(leaseSec)), exit), AckLRem), AckZRem)
  {
    Run3(s, Pop, RegisterLease(leaseSec), exit);
    RunSnoc(s, [Pop, RegisterLease(leaseSec), exit], AckLRem);
    RunSnoc(s, [Pop, RegisterLease(leaseSec), exit] + [AckLRem], AckZRem);
  }

  /** How many messages the run takes from the source list. */
  function CountPops(events: seq<Event>): nat {
    if events == [] then 0 else (if events[0].Pop? then 1 else 0) + CountPops(events[1..])
  }

  lemma {:induction false} PopsAppend(a: seq<Event>, b: seq<Event>)
    ensures CountPops(a + b) == CountPops(a) + CountPops(b)
    ensures |b| == 1 ==> CountPops(b) == if b[0].Pop? then 1 else 0
  {
    if a == [] {
      assert a + b == b;
    } else {
      assert (a + b)[1..] == a[1..] + b;
      PopsAppend(a[1..], b);
    }
  }

  lemma NoPops(events: seq<Event>)
    ensures CountPops(events + [StartupRPop, StartupLPush, StartupZRem]) == CountPops(events)
  {
    var more := [StartupRPop, StartupLPush, StartupZRem];
    assert more[1..] == [StartupLPush, StartupZRem] && more[1..][1..] == [StartupZRem] && more[1..][1..][1..] == [];
    PopsAppend(events, more);
  }

  lemma OnePop(leaseSec: int, exit: Event)
    requires exit.Requeue? || exit.HandlerExit?
    ensures CountPops(Delivery(leaseSec, exit)) == 1 && CountPops([] + [Pop]) == 1
  {
    PopsAppend([Pop, RegisterLease(leaseSec), exit] + [AckLRem], [AckZRem]);
    PopsAppend([Pop, RegisterLease(leaseSec), exit], [AckLRem]);
    var d := [Pop, RegisterLease(leaseSec), exit];
    assert d[1..] == [RegisterLease(leaseSec), exit] && d[1..][1..] == [exit] && d[1..][1..][1..] == [];
    assert CountPops(d[1..][1..]) == 0 && CountPops(d[1..]) == 0;
    PopsAppend([], [Pop]);
  }

  function CountText(s: seq<Copy>, m: Message): nat {
    if s == [] then 0 else (if s[0].text == m then 1 else 0) + CountText(s[1..], m)
  }

  /** One copy of each due text has gone from the one list to the other, if there was one, and no
      other copy of any text. */
  ghost predicate Requeued(p: seq<Copy>, q: seq<Copy>, source: seq<Copy>, after: seq<Copy>, due: seq<Message>) {
    forall m ::
      var moved := if m in due && CountText(p, m) > 0 then 1 else 0;
      CountText(q, m) == CountText(p, m) - moved && CountText(after, m) == CountText(source, m) + moved
  }

  lemma {:induction false} LRemCount(s: seq<Copy>, text: Message, m: Message)
    ensures CountText(LRem(s, text), m) == CountText(s, m) - if m == text && CountText(s, m) > 0 then 1 else 0
    ensures CountText(Removed(s, text), m) == if m == text && CountText(s, m) > 0 then 1 else 0
  {
    if s != [] {
      if s[0].text == text {
        assert [s[0]][1..] == [];
      } else {
        LRemCount(s[1..], text, m);
        assert ([s[0]] + LRem(s[1..], text))[1..] == LRem(s[1..], text);
      }
    }
  }

  lemma {:induction false} CountAppend(a: seq<Copy>, b: seq<Copy>, m: Message)
    ensures CountText(a + b, m) == CountText(a, m) + CountText(b, m)
  {
    if a == [] {
      assert a + b == b;
    } else {
      assert (a + b)[1..] == a[1..] + b;
      CountAppend(a[1..], b, m);
    }
  }

  lemma RequeuedOneMore(p: seq<Copy>, q: seq<Copy>, source: seq<Copy>, after: seq<Copy>, due: seq<Message>, i: nat)
    requires i < |due| && Requeued(p, q, source, after, due[..i]) && due[i] !in due[..i]
    ensures Requeued(p, LRem(q, due[i]), source, Removed(q, due[i]) + after, due[..i + 1])
  {
    TakenOneMore(due, i);
    forall m
      ensures var moved := if m in due[..i + 1] && CountText(p, m) > 0 then 1 else 0;
              && CountText(LRem(q, due[i]), m) == CountText(p, m) - moved
              && CountText(Removed(q, due[i]) + after, m) == CountText(source, m) + moved
    {
      LRemCount(q, due[i], m);
      CountAppend(Removed(q, due[i]), after, m);
    }
  }

  lemma TakenOneMore(s: seq<Message>, i: nat)
    requires i < |s|
    ensures forall m :: m in s[..i + 1] <==> m in s[..i] || m == s[i]
  {
    assert s[..i + 1] == s[..i] + [s[i]];
  }

  ghost function ReclaimEvents(hit: seq<Copy>): seq<Event> {
    if hit == [] then [ReclaimLRem, ReclaimZRem] else [ReclaimLRem, ReclaimLPush, ReclaimZRem]
  }

  /** The state after one expired message has been dealt with. */
  function Reclaimed(s: State, message: Message, hit: seq<Copy>, rest: seq<Message>): State {
    s.(processing := LRem(s.processing, message), source := hit + s.source, leases := s.leases - {message},
       reclaimer := if rest == [] then Sleeping else Removing(rest))
  }

  lemma ReclaimHit(s: State, message: Message, c: Copy, rest: seq<Message>)
    requires s.reclaimer == Removing([message] + rest) && Removed(s.processing, message) == [c]
    ensures Run(s, [ReclaimLRem, ReclaimLPush, ReclaimZRem]) == Reclaimed(s, message, [c], rest)
  {
    assert ([message] + rest)[1..] == rest;
    RemovedOne(s.processing, message);
    Run3(s, ReclaimLRem, ReclaimLPush, ReclaimZRem);
  }

  lemma ReclaimMiss(s: State, message: Message, rest: seq<Message>)
    requires s.reclaimer == Removing([message] + rest) && Removed(s.processing, message) == []
    ensures Run(s, [ReclaimLRem, ReclaimZRem]) == Reclaimed(s, message, [], rest)
  {
    assert ([message] + rest)[1..] == rest;
    LRemLength(s.processing, message);
    assert [] + s.source == s.source;
    RunSnoc(s, [], ReclaimLRem);
    RunSnoc(s, [ReclaimLRem], ReclaimZRem);
    assert [] + [ReclaimLRem] == [ReclaimLRem] && [ReclaimLRem] + [ReclaimZRem] == [ReclaimLRem, ReclaimZRem];
  }

  /** One expired message as the reclaimer's own steps. */
  lemma ReclaimOneRun(s: State, message: Message, rest: seq<Message>)
    requires s.reclaimer == Removing([message] + rest)
    ensures var hit := Removed(s.processing, message);
            |hit| <= 1 && Run(s, ReclaimEvents(hit)) == Reclaimed(s, message, hit, rest)
  {
    var hit := Removed(s.processing, message);
    RemovedOne(s.processing, message);
    if hit == [] {
      ReclaimMiss(s, message, rest);
    } else {
      assert hit == [hit[0]];
      ReclaimHit(s, message, hit[0], rest);
    }
  }

  lemma {:induction false} LRemLength(s: seq<Copy>, text: Message)
    ensures |s| == |LRem(s, text)| + |Removed(s, text)|
    ensures Removed(s, text) == [] ==> LRem(s, text) == s
  {
    if s != [] && s[0].text != text {
      LRemLength(s[1..], text);
      assert s == [s[0]] + s[1..];
    }
  }

  lemma {:induction false} NothingProduced(events: seq<Event>)
    requires forall e :: e in events ==> !e.Produce?
    ensures Produced(events) == []
  {
    if events != [] { NothingProduced(events[1..]); }
  }
}
