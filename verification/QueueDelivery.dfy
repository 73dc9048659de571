/** What becomes of a message of the reliable queue (services/db-writer/db_writer_ops.py): which kills
    lose it, why an empty one is stranded, and why at most one is in flight. */
module QueueDelivery {

  import opened QueueConservation
  import opened ReliableQueue

  // ---- Loss ----

  /** Some kill of the run arrives while a task holds a message it has removed from a
      list and not yet pushed back. */
  ghost predicate KillInWindow(s: State, events: seq<Event>)
    decreases |events|
  {
    events != [] &&
    ((events[0].Kill? && Hands(s) != []) || KillInWindow(Step(s, events[0]), events[1..]))
  }

  lemma StepLost(s: State, e: Event)
    ensures Step(s, e).lost == s.lost + if e.Kill? then Hands(s) else []
  {}

  /** What a run loses, the kills of the run lose. */
  lemma {:induction false} LostByKill(s: State, events: seq<Event>)
    ensures |s.lost| <= |Run(s, events).lost|
    ensures Run(s, events).lost == s.lost <==> !KillInWindow(s, events)
    decreases |events|
  {
    if events != [] {
      StepLost(s, events[0]);
      LostByKill(Step(s, events[0]), events[1..]);
    }
  }

  /** The copy was pushed, was never acknowledged, and is neither in Redis nor in a task's hand. */
  predicate Gone(s: State, c: Copy) {
    c in s.pushed && c !in s.source && c !in s.processing && c !in Hands(s) && c !in s.acked
  }

  lemma GoneIsLost(s: State, c: Copy)
    requires Conserved(s)
    ensures Gone(s, c) <==> c in s.lost
  {
    PushedDistinct(s.pushed, c);
    OccursIn(s.pushed, c);
    OccursIn(s.source, c);
    OccursIn(s.processing, c);
    OccursIn(ConsumerHand(s.consumer), c);
    OccursIn(ReclaimerHand(s.reclaimer), c);
    OccursIn(s.acked, c);
    OccursIn(s.lost, c);
  }

  /** A message disappears if and only if some kill falls inside one of the two remove-then-push
      windows: no other step, and no other kill, makes a pushed copy vanish unacknowledged. */
  lemma LossOnlyInWindows(events: seq<Event>)
    ensures (exists c :: Gone(Run(Init(), events), c)) <==> KillInWindow(Init(), events)
  {
    var s := Run(Init(), events);
    Conservation(Init(), events);
    LostByKill(Init(), events);
    if s.lost != [] {
      GoneIsLost(s, s.lost[0]);
    } else {
      forall c ensures !Gone(s, c) { GoneIsLost(s, c); }
    }
  }

  // ---- Empty messages ----

  /** The loop's `continue`: an empty message is popped and nothing else is done with it. */
  predicate PopsEmpty(s: State, e: Event) {
    e.Pop? && s.consumer.Idle? && s.source != [] && s.source[|s.source| - 1].text == ""
  }

  /** How many empty messages the run pops. */
  ghost function EmptyPops(s: State, events: seq<Event>): nat
    decreases |events|
  {
    if events == [] then 0
    else (if PopsEmpty(s, events[0]) then 1 else 0) + EmptyPops(Step(s, events[0]), events[1..])
  }

  function Mentioned(r: Reclaimer): seq<Message> {
    match r
    case Sleeping => []
    case Removing(todo) => todo
    case Pushing(c, rest) => [c.text] + rest
    case Releasing(m, rest) => [m] + rest
  }

  /** No lease, no reclaim in progress and no delivery is about an empty message. */
  predicate NoEmptyLease(s: State) {
    && "" !in s.leases && "" !in Mentioned(s.reclaimer)
    && (s.consumer.Leasing? || s.consumer.Handling? || s.consumer.Acking? || s.consumer.Unleasing? ==>
       s.consumer.c.text != "")
    && (forall c :: c in s.acked ==> c.text != "")
  }

  lemma StepNoEmptyLease(s: State, e: Event)
    requires NoEmptyLease(s)
    ensures NoEmptyLease(Step(s, e))
  {
    if e.AckLRem? && s.consumer.Acking? { RemovedOne(s.processing, s.consumer.c.text); }
    if e.ReclaimLRem? && s.reclaimer.Removing? && s.reclaimer.todo != [] {
      var todo := s.reclaimer.todo;
      RemovedOne(s.processing, todo[0]);
      assert todo == [todo[0]] + todo[1..];
    }
  }

  lemma {:induction false} RunNoEmptyLease(s: State, events: seq<Event>)
    requires NoEmptyLease(s)
    ensures NoEmptyLease(Run(s, events))
    decreases |events|
  {
    if events != [] {
      StepNoEmptyLease(s, events[0]);
      RunNoEmptyLease(Step(s, events[0]), events[1..]);
    }
  }

  predicate PastStartup(s: State) { !s.consumer.StartPop? && !s.consumer.StartPush? && !s.consumer.StartZrem? }

  lemma {:induction false} LRemOther(s: seq<Copy>, text: Message, c: Copy)
    requires c.text != text && c in s
    ensures c in LRem(s, text)
  {
    assert s == [s[0]] + s[1..];
    if s[0].text != text && c != s[0] { LRemOther(s[1..], text, c); }
  }

  lemma StepKeepsEmpty(s: State, e: Event, c: Copy)
    requires NoEmptyLease(s) && PastStartup(s) && c in s.processing && c.text == "" && !e.Kill?
    ensures PastStartup(Step(s, e)) && c in Step(s, e).processing
  {
    if e.AckLRem? && s.consumer.Acking? { LRemOther(s.processing, s.consumer.c.text, c); }
    if e.ReclaimLRem? && s.reclaimer.Removing? && s.reclaimer.todo != [] {
      assert s.reclaimer.todo[0] in s.reclaimer.todo;
      LRemOther(s.processing, s.reclaimer.todo[0], c);
    }
  }

  lemma {:induction false} RunKeepsEmpty(s: State, events: seq<Event>, c: Copy)
    requires NoEmptyLease(s) && PastStartup(s) && c in s.processing && c.text == "" && Kill !in events
    ensures c in Run(s, events).processing
    decreases |events|
  {
    if events != [] {
      StepKeepsEmpty(s, events[0], c);
      StepNoEmptyLease(s, events[0]);
      RunKeepsEmpty(Step(s, events[0]), events[1..], c);
    }
  }

  /** An empty message is never leased and never acknowledged, in any run; once popped it stays in
      `:processing` through every further run until a kill, whatever the reclaimer does. */
  lemma EmptyMessageIsStranded(events: seq<Event>, more: seq<Event>, c: Copy)
    requires PopsEmpty(Run(Init(), events), Pop) && c == Run(Init(), events).source[|Run(Init(), events).source| - 1]
    requires Kill !in more
    ensures var s := Run(Step(Run(Init(), events), Pop), more);
            c in s.processing && c !in s.acked && "" !in s.leases
    ensures forall a :: a in Run(Init(), events).acked ==> a.text != ""
  {
    var t := Step(Run(Init(), events), Pop);
    RunNoEmptyLease(Init(), events);
    StepNoEmptyLease(Run(Init(), events), Pop);
    RunNoEmptyLease(t, more);
    assert t.processing[0] == c;
    RunKeepsEmpty(t, more, c);
  }

  // ---- Single message in flight ----

  /** The copies of a list that have a text. */
  function Solid(s: seq<Copy>): seq<Copy> {
    if s == [] then [] else (if s[0].text == "" then [] else [s[0]]) + Solid(s[1..])
  }

  /** `list` holds the consumer's own copy and nothing else, or nothing because the lease reclaimer
      has taken that copy out. */
  ghost predicate OnlyOwn(s: State, list: seq<Copy>) {
    match s.consumer
    case Idle => list == []
    case Leasing(c) => OwnOrMoved(s, list, c)
    case Handling(c) => OwnOrMoved(s, list, c)
    case Acking(c) => OwnOrMoved(s, list, c)
    case Unleasing(_) => list == []
    case _ => true
  }

  ghost predicate OwnOrMoved(s: State, list: seq<Copy>, c: Copy) {
    list == [c] || (list == [] && (c in s.source || c in ReclaimerHand(s.reclaimer)))
  }

  /** After startup reclaim has drained, the only copy with a text in `:processing` is the
      consumer's own. */
  ghost predicate SingleInFlight(s: State) { NoEmptyLease(s) && OnlyOwn(s, Solid(s.processing)) }

  lemma {:induction false} SolidLRem(s: seq<Copy>, text: Message)
    requires text != ""
    ensures Solid(LRem(s, text)) == LRem(Solid(s), text)
    ensures Removed(s, text) == Removed(Solid(s), text)
  {
    if s != [] {
      SolidLRem(s[1..], text);
      var rest := Solid(s[1..]);
      if s[0].text == text {
        assert ([s[0]] + rest)[1..] == rest;
      } else {
        assert ([s[0]] + LRem(s[1..], text))[1..] == LRem(s[1..], text);
        if s[0].text == "" {
          assert Solid(s) == rest;
        } else {
          assert ([s[0]] + rest)[1..] == rest;
        }
      }
    }
  }

  lemma {:induction false} SolidIn(s: seq<Copy>, c: Copy)
    ensures c in Solid(s) <==> c in s && c.text != ""
  {
    if s != [] {
      assert s == [s[0]] + s[1..];
      SolidIn(s[1..], c);
    }
  }

  lemma LRemSingle(c: Copy, text: Message)
    ensures LRem([c], text) == if c.text == text then [] else [c]
    ensures Removed([c], text) == if c.text == text then [c] else []
  {}

  lemma AckKeepsSingle(s: State)
    requires SingleInFlight(s) && s.consumer.Acking?
    ensures OnlyOwn(Step(s, AckLRem), Solid(Step(s, AckLRem).processing))
  {
    SolidLRem(s.processing, s.consumer.c.text);
    LRemSingle(s.consumer.c, s.consumer.c.text);
  }

  lemma ReclaimKeepsSingle(s: State)
    requires SingleInFlight(s) && s.reclaimer.Removing? && s.reclaimer.todo != []
    ensures OnlyOwn(Step(s, ReclaimLRem), Solid(Step(s, ReclaimLRem).processing))
  {
    var text, list := s.reclaimer.todo[0], Solid(s.processing);
    assert text in s.reclaimer.todo;
    SolidLRem(s.processing, text);
    if |list| == 1 {
      LRemSingle(list[0], text);
      assert list == [list[0]];
    }
  }

  lemma StepSingleInFlight(s: State, e: Event)
    requires SingleInFlight(s)
    ensures SingleInFlight(Step(s, e))
  {
    StepNoEmptyLease(s, e);
    if e.AckLRem? && s.consumer.Acking? {
      AckKeepsSingle(s);
    } else if e.ReclaimLRem? && s.reclaimer.Removing? && s.reclaimer.todo != [] {
      ReclaimKeepsSingle(s);
    } else if e.Pop? && s.consumer.Idle? && s.source != [] {
      var c := s.source[|s.source| - 1];
      assert ([c] + s.processing)[1..] == s.processing;
    } else {
      OtherStepsKeepSingle(s, e);
    }
  }

  lemma OtherStepsKeepSingle(s: State, e: Event)
    requires SingleInFlight(s)
    requires !(e.AckLRem? && s.consumer.Acking?) && !(e.ReclaimLRem? && s.reclaimer.Removing? && s.reclaimer.todo != [])
    requires !(e.Pop? && s.consumer.Idle? && s.source != [])
    ensures OnlyOwn(Step(s, e), Solid(Step(s, e).processing))
  {
    if PastStartup(s) && !e.Kill? { QuietStepKeepsSingle(s, e); } else { StartupKeepsSingle(s, e); }
  }

  lemma StartupKeepsSingle(s: State, e: Event)
    requires !PastStartup(s) || e.Kill?
    ensures OnlyOwn(Step(s, e), Solid(Step(s, e).processing))
  {}

  /** The consumer goes on with the copy it has, and what is waiting or being reclaimed still is. */
  ghost predicate QuietMove(s: State, t: State) {
    && t.processing == s.processing
    && (t.consumer == s.consumer || match s.consumer
          case Leasing(c) => t.consumer == Handling(c)
          case Handling(c) => t.consumer == Acking(c)
          case Unleasing(_) => t.consumer == Idle
          case _ => false)
    && (forall c :: c in s.source || c in ReclaimerHand(s.reclaimer) ==>
       c in t.source || c in ReclaimerHand(t.reclaimer))
  }

  lemma QuietMoveKeepsOwn(s: State, t: State, list: seq<Copy>)
    requires QuietMove(s, t) && OnlyOwn(s, list)
    ensures OnlyOwn(t, list)
  {}

  /** A step that leaves `:processing` alone. */
  lemma QuietStepKeepsSingle(s: State, e: Event)
    requires SingleInFlight(s) && PastStartup(s) && !e.Kill?
    requires !(e.AckLRem? && s.consumer.Acking?) && !(e.ReclaimLRem? && s.reclaimer.Removing? && s.reclaimer.todo != [])
    requires !(e.Pop? && s.consumer.Idle? && s.source != [])
    ensures OnlyOwn(Step(s, e), Solid(Step(s, e).processing))
  {
    assert QuietMove(s, Step(s, e));
    QuietMoveKeepsOwn(s, Step(s, e), Solid(s.processing));
  }

  lemma {:induction false} SingleInFlightAlways(s: State, events: seq<Event>)
    requires SingleInFlight(s)
    ensures SingleInFlight(Run(s, events))
    decreases |events|
  {
    if events != [] {
      StepSingleInFlight(s, events[0]);
      SingleInFlightAlways(Step(s, events[0]), events[1..]);
    }
  }

  /** An ack never removes another delivery, even one of identical text: it removes the
      very copy the consumer popped, or nothing; and it removes nothing exactly when the
      lease reclaimer has that copy in its hand or has put it back on the source list.  What stays
      behind in `:processing` has no text. */
  lemma {:induction false} AckRemovesOwnDelivery(events: seq<Event>, s: State, c: Copy)
    requires s == Run(Init(), events) && s.consumer == Acking(c)
    ensures Step(s, AckLRem).acked == if c in s.processing then s.acked + [c] else s.acked
    ensures Solid(Step(s, AckLRem).processing) == []
    ensures c !in s.processing <==> c in s.source || c in ReclaimerHand(s.reclaimer)
  {
    Conservation(Init(), events);
    SingleInFlightAlways(Init(), events);
    OnlyOnce(s, c);
    SolidIn(s.processing, c);
    AckRemoves(s);
  }

  /** A copy in `:processing` is not waiting or being reclaimed as well. */
  lemma OnlyOnce(s: State, c: Copy)
    requires Conserved(s)
    ensures c in s.processing ==> c !in s.source && c !in ReclaimerHand(s.reclaimer)
  {
    PushedDistinct(s.pushed, c);
    OccursIn(s.source, c);
    OccursIn(s.processing, c);
    OccursIn(ReclaimerHand(s.reclaimer), c);
  }

  lemma AckRemoves(s: State)
    requires SingleInFlight(s) && s.consumer.Acking?
    ensures Step(s, AckLRem).acked == s.acked + Solid(s.processing)
    ensures Solid(Step(s, AckLRem).processing) == []
  {
    SolidLRem(s.processing, s.consumer.c.text);
    LRemSingle(s.consumer.c, s.consumer.c.text);
  }
}
