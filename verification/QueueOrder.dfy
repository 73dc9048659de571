/** In which order the reliable queue (services/db-writer/db_writer_ops.py) completes messages: first
    in, first out while nothing is killed and no lease expires, and what a restart does to it. */
module QueueOrder {

  import opened QueueConservation
  import opened QueueDelivery
  import opened ReliableQueue
  import opened Sequences

  // ---- FIFO ----

  /** No kill, and every scan of the reclaimer finds no expired lease. */
  predicate Calm(e: Event) { !e.Kill? && !(e.Scan? && e.expired != []) }

  function Produced(events: seq<Event>): seq<Message> {
    if events == [] then []
    else (if events[0].Produce? then [events[0].text] else []) + Produced(events[1..])
  }

  function Texts(s: seq<Copy>): (r: seq<Message>)
    ensures |r| == |s| && forall i :: 0 <= i < |s| ==> r[i] == s[i].text
  {
    seq(|s|, i requires 0 <= i < |s| => s[i].text)
  }

  /** The source list read in pop order, right to left. */
  function PopOrder(s: seq<Copy>): (r: seq<Message>)
    ensures |r| == |s| && forall i :: 0 <= i < |s| ==> r[i] == s[|s| - 1 - i].text
  {
    seq(|s|, i requires 0 <= i < |s| => s[|s| - 1 - i].text)
  }

  function Current(c: Consumer): seq<Message> {
    match c case Leasing(x) => [x.text] case Handling(x) => [x.text] case _ => []
  }

  /** Completed, then in progress, then waiting: the whole queue as one list. */
  function Line(s: State): seq<Message> {
    Texts(s.done) + Current(s.consumer) + PopOrder(s.source)
  }

  predicate CalmState(s: State) {
    s.reclaimer.Sleeping? && !s.consumer.StartPush? && !s.consumer.StartZrem?
    && (s.consumer.StartPop? ==> s.processing == [])
  }

  lemma StepKeepsCalm(s: State, e: Event)
    requires CalmState(s) && Calm(e)
    ensures CalmState(Step(s, e))
  {}

  /** The messages that have a text. */
  function NonEmpty(ms: seq<Message>): seq<Message> {
    if ms == [] then [] else (if ms[0] == "" then [] else [ms[0]]) + NonEmpty(ms[1..])
  }

  lemma {:induction false} NonEmptyAppend(a: seq<Message>, b: seq<Message>)
    ensures NonEmpty(a + b) == NonEmpty(a) + NonEmpty(b)
  {
    if a == [] {
      assert a + b == b;
    } else {
      assert (a + b)[1..] == a[1..] + b;
      NonEmptyAppend(a[1..], b);
    }
  }

  lemma PopKeepsLine(s: State)
    requires s.consumer == Idle && s.source != []
    ensures !PopsEmpty(s, Pop) ==> Line(Step(s, Pop)) == Line(s)
    ensures PopsEmpty(s, Pop) ==> Line(s) == Texts(s.done) + ([""] + PopOrder(Step(s, Pop).source))
    ensures PopsEmpty(s, Pop) ==> Line(Step(s, Pop)) == Texts(s.done) + PopOrder(Step(s, Pop).source)
  {
    var n := |s.source| - 1;
    assert s.source == s.source[..n] + [s.source[n]];
    assert PopOrder(s.source) == [s.source[n].text] + PopOrder(s.source[..n]);
  }

  lemma HandlerKeepsLine(s: State, e: Event)
    requires s.consumer.Handling? && (e.Requeue? || e.HandlerExit?)
    ensures Line(Step(s, e)) == Line(s)
  {}

  /** A step of a calm run leaves the line as it is, up to a popped empty message. */
  lemma StepKeepsLine(s: State, e: Event)
    requires CalmState(s) && Calm(e) && !PopsEmpty(s, e)
    ensures Line(Step(s, e)) == Line(s) + if e.Produce? then [e.text] else []
  {
    if s.consumer.Handling? && (e.Requeue? || e.HandlerExit?) {
      HandlerKeepsLine(s, e);
    } else if e.Pop? && s.consumer.Idle? && s.source != [] {
      PopKeepsLine(s);
    } else if !e.Produce? {
      OtherStepsKeepLine(s, e);
    }
  }

  lemma OtherStepsKeepLine(s: State, e: Event)
    requires CalmState(s) && Calm(e) && !e.Produce?
    requires !(e.Pop? && s.consumer.Idle? && s.source != [])
    requires !(s.consumer.Handling? && (e.Requeue? || e.HandlerExit?))
    ensures Line(Step(s, e)) == Line(s)
  {
    var t := Step(s, e);
    assert t.source == s.source && t.done == s.done && Current(t.consumer) == Current(s.consumer);
  }

  lemma StepKeepsNonEmpty(s: State, e: Event)
    requires CalmState(s) && Calm(e)
    ensures NonEmpty(Line(Step(s, e))) == NonEmpty(Line(s)) + NonEmpty(if e.Produce? then [e.text] else [])
    ensures |Line(Step(s, e))| == |Line(s)| + (if e.Produce? then 1 else 0) - if PopsEmpty(s, e) then 1 else 0
  {
    if PopsEmpty(s, e) {
      PopKeepsLine(s);
      EmptyGoes(Texts(s.done), PopOrder(Step(s, e).source));
    } else {
      StepKeepsLine(s, e);
      NonEmptyAppend(Line(s), if e.Produce? then [e.text] else []);
    }
  }

  lemma EmptyGoes(a: seq<Message>, b: seq<Message>)
    ensures NonEmpty(a + ([""] + b)) == NonEmpty(a + b) + []
  {
    NonEmptyAppend(a, [""] + b);
    NonEmptyAppend(a, b);
    assert ([""] + b)[1..] == b;
  }

  lemma {:induction false} RunKeepsLine(s: State, events: seq<Event>)
    requires CalmState(s) && forall e :: e in events ==> Calm(e)
    ensures CalmState(Run(s, events))
    ensures NonEmpty(Line(Run(s, events))) == NonEmpty(Line(s)) + NonEmpty(Produced(events))
    ensures |Line(Run(s, events))| + EmptyPops(s, events) == |Line(s)| + |Produced(events)|
    decreases |events|
  {
    if events != [] {
      var e := events[0];
      var made := if e.Produce? then [e.text] else [];
      StepKeepsCalm(s, e);
      StepKeepsNonEmpty(s, e);
      RunKeepsLine(Step(s, e), events[1..]);
      NonEmptyAppend(made, Produced(events[1..]));
      Assoc(NonEmpty(Line(s)), NonEmpty(made), NonEmpty(Produced(events[1..])));
    }
  }

  lemma {:induction false} RunKeepsWholeLine(s: State, events: seq<Event>)
    requires CalmState(s) && (forall e :: e in events ==> Calm(e)) && EmptyPops(s, events) == 0
    ensures Line(Run(s, events)) == Line(s) + Produced(events)
    decreases |events|
  {
    if events != [] {
      var e := events[0];
      StepKeepsCalm(s, e);
      StepKeepsLine(s, e);
      RunKeepsWholeLine(Step(s, e), events[1..]);
      Assoc(Line(s), if e.Produce? then [e.text] else [], Produced(events[1..]));
    }
  }

  /** Without kills and lease expiries messages complete in the order they were pushed, however
      many deliveries met a DuckDB lock and were requeued: completed, current and waiting messages
      are the produced ones in order, up to empty ones, and exactly when no empty one was popped. */
  lemma FifoDespiteLockRetries(events: seq<Event>)
    requires forall e :: e in events ==> Calm(e)
    ensures NonEmpty(Line(Run(Init(), events))) == NonEmpty(Produced(events))
    ensures Line(Run(Init(), events)) == Produced(events) <==> EmptyPops(Init(), events) == 0
    ensures EmptyPops(Init(), events) == 0 ==> Texts(Run(Init(), events).done) <= Produced(events)
  {
    RunKeepsLine(Init(), events);
    assert Line(Init()) == [];
    assert [] + NonEmpty(Produced(events)) == NonEmpty(Produced(events));
    if EmptyPops(Init(), events) == 0 {
      RunKeepsWholeLine(Init(), events);
      assert [] + Produced(events) == Produced(events);
    }
  }

  // ---- What a restart does to the order ----

  /** The drain performed by startup reclaim, with no other step in between. */
  ghost function Drain(n: nat): seq<Event> {
    if n == 0 then [StartupRPop] else [StartupRPop, StartupLPush, StartupZRem] + Drain(n - 1)
  }

  lemma DrainOne(s: State)
    requires s.consumer == StartPop && s.processing != []
    ensures var t := Step(Step(Step(s, StartupRPop), StartupLPush), StartupZRem);
            var n := |s.processing| - 1;
            && t.consumer == StartPop && t.processing == s.processing[..n]
            && t.source == [s.processing[n]] + s.source && t.done == s.done
  {}

  lemma {:induction false} DrainAppendsAtTheBack(s: State)
    requires s.consumer == StartPop
    ensures var t := Run(s, Drain(|s.processing|));
            t.consumer == Idle && t.processing == [] && t.source == s.processing + s.source && t.done == s.done
    decreases |s.processing|
  {
    var n := |s.processing| - 1;
    if n < 0 {
      assert Drain(0)[1..] == [];
    } else {
      var t := Run(s, [StartupRPop, StartupLPush, StartupZRem]);
      Run3(s, StartupRPop, StartupLPush, StartupZRem);
      DrainOne(s);
      RunAppend(s, [StartupRPop, StartupLPush, StartupZRem], Drain(n));
      DrainAppendsAtTheBack(t);
      assert s.processing == s.processing[..n] + [s.processing[n]];
      Assoc(s.processing[..n], [s.processing[n]], s.source);
    }
  }

  lemma RestartState(s: State, c: Copy)
    requires s.consumer == Handling(c)
    ensures var k := Step(s, Kill);
            var t := Run(k, Drain(|k.processing|));
            t.consumer == Idle && t.source == s.processing + s.source
  {
    DrainAppendsAtTheBack(Step(s, Kill));
  }

  /** The copy in the handler is not waiting as well. */
  lemma NotTwice(s: State, c: Copy)
    requires Conserved(s) && c in s.processing
    ensures c !in s.source
  {
    PushedDistinct(s.pushed, c);
    OccursIn(s.source, c);
    OccursIn(s.processing, c);
  }

  /** Pops until one of them delivers: those of the empty messages at the right end, and one more. */
  function PopsToDelivery(source: seq<Copy>): seq<Event> {
    if source != [] && source[|source| - 1].text == "" then [Pop] + PopsToDelivery(source[..|source| - 1]) else [Pop]
  }

  lemma {:induction false} SolidAppend(a: seq<Copy>, b: seq<Copy>)
    ensures Solid(a + b) == Solid(a) + Solid(b)
  {
    if a == [] {
      assert a + b == b;
    } else {
      assert (a + b)[1..] == a[1..] + b;
      SolidAppend(a[1..], b);
    }
  }

  lemma SolidOne(c: Copy)
    ensures Solid([c]) == if c.text == "" then [] else [c]
  {
    assert [c][1..] == [];
  }

  lemma {:induction false} SolidSnoc(s: seq<Copy>)
    requires s != []
    ensures Solid(s) == Solid(s[..|s| - 1]) + if s[|s| - 1].text == "" then [] else [s[|s| - 1]]
  {
    var front, last := s[..|s| - 1], s[|s| - 1];
    assert s == front + [last];
    SolidAppend(front, [last]);
    SolidOne(last);
  }

  lemma Run1(s: State, e: Event, rest: seq<Event>)
    ensures Run(s, [e] + rest) == Run(Step(s, e), rest)
    ensures Run(s, [e]) == Step(s, e)
  {
    assert ([e] + rest)[1..] == rest && [e][1..] == [];
  }

  /** They deliver the rightmost message that has a text. */
  lemma {:induction false} NextDelivery(s: State)
    requires s.consumer == Idle
    ensures var t, waiting := Run(s, PopsToDelivery(s.source)), Solid(s.source);
            t.consumer == if waiting == [] then Idle else Leasing(waiting[|waiting| - 1])
    decreases |s.source|
  {
    Run1(s, Pop, []);
    if s.source != [] {
      SolidSnoc(s.source);
      var n := |s.source| - 1;
      if s.source[n].text == "" {
        Run1(s, Pop, PopsToDelivery(s.source[..n]));
        NextDelivery(Step(s, Pop));
      }
    }
  }

  /** A list behind `c` ends in `c` only when it is empty. */
  lemma LastIsOwn(c: Copy, waiting: seq<Copy>)
    requires c !in waiting
    ensures ([c] + waiting)[|waiting|] == c <==> waiting == []
  {
    if waiting != [] { assert ([c] + waiting)[|waiting|] == waiting[|waiting| - 1]; }
  }

  /** FIFO does not survive a restart: the interrupted message goes to the back.  It is delivered
      next if and only if nothing else with a text was waiting, however many empty messages lie
      stranded in `:processing` or wait on the source list. */
  lemma {:induction false} RestartKeepsOrderIffAlone(s: State, c: Copy)
    requires Conserved(s) && s.consumer == Handling(c) && Solid(s.processing) == [c]
    ensures var k := Step(s, Kill);
            var t := Run(k, Drain(|k.processing|));
            Run(t, PopsToDelivery(t.source)).consumer == Leasing(c) <==> Solid(s.source) == []
  {
    var k := Step(s, Kill);
    RestartState(s, c);
    NextDelivery(Run(k, Drain(|k.processing|)));
    SolidAppend(s.processing, s.source);
    OwnIsNotWaiting(s, c);
    LastIsOwn(c, Solid(s.source));
  }

  lemma OwnIsNotWaiting(s: State, c: Copy)
    requires Conserved(s) && Solid(s.processing) == [c]
    ensures c !in Solid(s.source)
  {
    SolidIn(s.processing, c);
    NotTwice(s, c);
    SolidIn(s.source, c);
  }

  /** The smallest such run: "a" was pushed and popped first, and "b" completes first. */
  ghost function ReorderingRun(): seq<Event> {
    (([Produce("a"), Produce("b"), StartupRPop] + [Pop, RegisterLease(120), Kill]) + Drain(1))
    + [Pop, RegisterLease(120), HandlerExit]
  }

  lemma RestartReorders()
    ensures Produced(ReorderingRun()) == ["a", "b"] && Texts(Run(Init(), ReorderingRun()).done) == ["b"]
  {
    ExampleProduced(1);
    ExampleRun(1);
  }

  lemma ExampleRun(n: nat)
    requires n == 1
    ensures Texts(Run(Init(), (([Produce("a"), Produce("b"), StartupRPop] + [Pop, RegisterLease(120), Kill]) + Drain(n))
                              + [Pop, RegisterLease(120), HandlerExit]).done) == ["b"]
  {
    var e1, e2 := [Produce("a"), Produce("b"), StartupRPop], [Pop, RegisterLease(120), Kill];
    var e4 := [Pop, RegisterLease(120), HandlerExit];
    RunAppend4(Init(), e1, e2, Drain(n), e4);
    ExampleStart();
    var s1 := Run(Init(), e1);
    ExampleKill(s1);
    var s2 := Run(s1, e2);
    DrainAppendsAtTheBack(s2);
    var s3 := Run(s2, Drain(n));
    ExampleFinish(s3);
    Run3(s3, Pop, RegisterLease(120), HandlerExit);
  }

  lemma RunAppend4(s: State, a: seq<Event>, b: seq<Event>, c: seq<Event>, d: seq<Event>)
    ensures Run(s, ((a + b) + c) + d) == Run(Run(Run(Run(s, a), b), c), d)
  {
    RunAppend(s, a, b);
    RunAppend(s, a + b, c);
    RunAppend(s, (a + b) + c, d);
  }

  lemma ExampleStart()
    ensures var s := Run(Init(), [Produce("a"), Produce("b"), StartupRPop]);
            s.source == [Copy("b", 1), Copy("a", 0)] && s.processing == [] && s.consumer == Idle && s.done == []
  {
    Run3(Init(), Produce("a"), Produce("b"), StartupRPop);
  }

  /** Pop and lease of a message with a text. */
  lemma PopAndLease(s: State, rest: seq<Copy>, c: Copy)
    requires s.consumer == Idle && s.source == rest + [c] && c.text != ""
    ensures var t := Step(Step(s, Pop), RegisterLease(120));
            t.consumer == Handling(c) && t.source == rest && t.processing == [c] + s.processing && t.done == s.done
  {
    assert (rest + [c])[..|rest|] == rest;
  }

  lemma ExampleKill(s: State)
    requires s.source == [Copy("b", 1), Copy("a", 0)] && s.processing == [] && s.consumer == Idle && s.done == []
    ensures var t := Run(s, [Pop, RegisterLease(120), Kill]);
            t.source == [Copy("b", 1)] && t.processing == [Copy("a", 0)] && t.consumer == StartPop && t.done == []
  {
    PopAndLease(s, [Copy("b", 1)], Copy("a", 0));
    Run3(s, Pop, RegisterLease(120), Kill);
  }

  lemma ExampleFinish(s: State)
    requires s.source == [Copy("a", 0)] + [Copy("b", 1)] && s.consumer == Idle && s.done == []
    ensures Step(Step(Step(s, Pop), RegisterLease(120)), HandlerExit).done == [Copy("b", 1)]
  {
    PopAndLease(s, [Copy("a", 0)], Copy("b", 1));
  }

  lemma ExampleProduced(n: nat)
    ensures Produced((([Produce("a"), Produce("b"), StartupRPop] + [Pop, RegisterLease(120), Kill]) + Drain(n))
                     + [Pop, RegisterLease(120), HandlerExit]) == ["a", "b"]
  {
    var e1, e2 := [Produce("a"), Produce("b"), StartupRPop], [Pop, RegisterLease(120), Kill];
    var e4 := [Pop, RegisterLease(120), HandlerExit];
    ProducedAppend(e1, e2);
    ProducedAppend(e1 + e2, Drain(n));
    ProducedAppend((e1 + e2) + Drain(n), e4);
    DrainProducesNothing(n);
    assert Produced(e1) == ["a", "b"] && Produced(e2) == [] && Produced(e4) == [];
  }

  lemma {:induction false} DrainProducesNothing(n: nat)
    ensures Produced(Drain(n)) == []
  {
    if n > 0 { ProducedAppend([StartupRPop, StartupLPush, StartupZRem], Drain(n - 1)); DrainProducesNothing(n - 1); }
  }

  lemma {:induction false} ProducedAppend(a: seq<Event>, b: seq<Event>)
    ensures Produced(a + b) == Produced(a) + Produced(b)
  {
    if a == [] {
      assert a + b == b;
    } else {
      assert (a + b)[1..] == a[1..] + b;
      ProducedAppend(a[1..], b);
    }
  }

  // ---- Single in flight, empty messages included ----

  lemma StepOnlyOwn(s: State, e: Event)
    requires OnlyOwn(s, s.processing)
    ensures OnlyOwn(Step(s, e), Step(s, e).processing) <==> !PopsEmpty(s, e)
  {
    match e
    case AckLRem => if s.consumer.Acking? { LRemSingle(s.consumer.c, s.consumer.c.text); }
    case ReclaimLRem =>
      if s.reclaimer.Removing? && s.reclaimer.todo != [] && |s.processing| == 1 {
        LRemSingle(s.processing[0], s.reclaimer.todo[0]);
        assert s.processing == [s.processing[0]];
      }
    case _ =>
  }

  /** In every state of the run `:processing` holds at most the consumer's own copy. */
  ghost predicate OnlyOwnThroughout(s: State, events: seq<Event>)
    decreases |events|
  {
    OnlyOwn(s, s.processing) && (events != [] ==> OnlyOwnThroughout(Step(s, events[0]), events[1..]))
  }

  /** It holds throughout a run if and only if the run pops no empty message. */
  lemma {:induction false} OnlyOwnIffNoEmptyPop(s: State, events: seq<Event>)
    requires OnlyOwn(s, s.processing)
    ensures OnlyOwnThroughout(s, events) <==> EmptyPops(s, events) == 0
    decreases |events|
  {
    if events != [] {
      StepOnlyOwn(s, events[0]);
      if !PopsEmpty(s, events[0]) { OnlyOwnIffNoEmptyPop(Step(s, events[0]), events[1..]); }
    }
  }
}
