/** No copy of a message is duplicated or dropped: every push to the reliable queue
    (services/db-writer/db_writer_ops.py) is in exactly one place, in every run. */
module QueueConservation {

  import opened ReliableQueue

  function Occurs(s: seq<Copy>, c: Copy): nat {
    if s == [] then 0 else (if s[0] == c then 1 else 0) + Occurs(s[1..], c)
  }

  lemma {:induction false} OccursAppend(a: seq<Copy>, b: seq<Copy>, c: Copy)
    ensures Occurs(a + b, c) == Occurs(a, c) + Occurs(b, c)
  {
    if a == [] {
      assert a + b == b;
    } else {
      assert (a + b)[1..] == a[1..] + b;
      OccursAppend(a[1..], b, c);
    }
  }

  lemma {:induction false} OccursIn(s: seq<Copy>, c: Copy)
    ensures Occurs(s, c) > 0 <==> c in s
  {
    if s != [] {
      assert s == [s[0]] + s[1..];
      OccursIn(s[1..], c);
    }
  }

  /** In how many places of the system the copy is. */
  function Places(s: State, c: Copy): nat {
    Occurs(s.source, c) + Occurs(s.processing, c) + Occurs(ConsumerHand(s.consumer), c)
    + Occurs(ReclaimerHand(s.reclaimer), c) + Occurs(s.acked, c) + Occurs(s.lost, c)
  }

  ghost predicate Conserved(s: State) {
    && (forall c :: Occurs(s.pushed, c) == Places(s, c))
    && (forall i :: 0 <= i < |s.pushed| ==> s.pushed[i].id == i)
  }

  lemma {:induction false} LRemSplits(s: seq<Copy>, text: Message, c: Copy)
    ensures Occurs(s, c) == Occurs(LRem(s, text), c) + Occurs(Removed(s, text), c)
  {
    if s != [] {
      if s[0].text != text {
        LRemSplits(s[1..], text, c);
        assert LRem(s, text)[1..] == LRem(s[1..], text);
      } else {
        assert [s[0]][1..] == [];
      }
    }
  }

  lemma {:induction false} RemovedOne(s: seq<Copy>, text: Message)
    ensures |Removed(s, text)| <= 1
    ensures Removed(s, text) != [] ==> Removed(s, text)[0].text == text
  {
    if s != [] && s[0].text != text { RemovedOne(s[1..], text); }
  }

  lemma {:induction false} LastSplits(s: seq<Copy>, c: Copy)
    requires s != []
    ensures Occurs(s, c) == Occurs(s[..|s| - 1], c) + Occurs([s[|s| - 1]], c)
  {
    assert s == s[..|s| - 1] + [s[|s| - 1]];
    OccursAppend(s[..|s| - 1], [s[|s| - 1]], c);
  }

  /** The step adds to the places of `c` what it adds to the pushes. */
  ghost predicate Balanced(s: State, t: State, c: Copy) {
    Places(t, c) - Places(s, c) == Occurs(t.pushed, c) - Occurs(s.pushed, c)
  }

  lemma StartupPlaces(s: State, e: Event, c: Copy)
    requires e.StartupRPop? || e.StartupLPush?
    ensures Balanced(s, ConsumerStep(s, e), c)
  {
    if e.StartupRPop? && s.consumer.StartPop? && s.processing != [] { LastSplits(s.processing, c); }
    if e.StartupLPush? && s.consumer.StartPush? { OccursAppend([s.consumer.c], s.source, c); }
  }

  lemma PopPlaces(s: State, c: Copy)
    ensures Balanced(s, ConsumerStep(s, Pop), c)
  {
    if s.consumer.Idle? && s.source != [] {
      LastSplits(s.source, c);
      OccursAppend([s.source[|s.source| - 1]], s.processing, c);
    }
  }

  lemma RequeuePlaces(s: State, c: Copy)
    ensures Balanced(s, ConsumerStep(s, Requeue), c)
  {
    if s.consumer.Handling? {
      OccursAppend(s.source, [Fresh(s, s.consumer.c.text)], c);
      OccursAppend(s.pushed, [Fresh(s, s.consumer.c.text)], c);
    }
  }

  lemma AckPlaces(s: State, c: Copy)
    ensures Balanced(s, ConsumerStep(s, AckLRem), c)
  {
    if s.consumer.Acking? {
      var text := s.consumer.c.text;
      var t := ConsumerStep(s, AckLRem);
      assert t.processing == LRem(s.processing, text) && t.acked == s.acked + Removed(s.processing, text);
      assert t.source == s.source && t.lost == s.lost && t.reclaimer == s.reclaimer && t.pushed == s.pushed;
      LRemSplits(s.processing, text, c);
      OccursAppend(s.acked, Removed(s.processing, text), c);
    }
  }

  /** The other steps move no copy. */
  lemma OtherPlaces(s: State, e: Event, c: Copy)
    requires !e.StartupRPop? && !e.StartupLPush? && !e.Pop? && !e.Requeue? && !e.AckLRem?
    ensures Balanced(s, ConsumerStep(s, e), c)
  {
    var t := ConsumerStep(s, e);
    assert t.source == s.source && t.processing == s.processing && t.pushed == s.pushed;
    assert t.acked == s.acked && t.lost == s.lost && t.reclaimer == s.reclaimer;
  }

  lemma ConsumerStepPlaces(s: State, e: Event, c: Copy)
    ensures Balanced(s, ConsumerStep(s, e), c)
  {
    match e
    case StartupRPop => StartupPlaces(s, e, c);
    case StartupLPush => StartupPlaces(s, e, c);
    case Pop => PopPlaces(s, c);
    case Requeue => RequeuePlaces(s, c);
    case AckLRem => AckPlaces(s, c);
    case _ => OtherPlaces(s, e, c);
  }

  lemma ReclaimerStepPlaces(s: State, e: Event, c: Copy)
    ensures Places(ReclaimerStep(s, e), c) == Places(s, c)
    ensures ReclaimerStep(s, e).pushed == s.pushed
  {
    if e == ReclaimLRem && s.reclaimer.Removing? && s.reclaimer.todo != [] {
      var text := s.reclaimer.todo[0];
      LRemSplits(s.processing, text, c);
      RemovedOne(s.processing, text);
      var hit := Removed(s.processing, text);
      if hit != [] { assert hit == [hit[0]]; }
    }
    if e == ReclaimLPush && s.reclaimer.Pushing? { OccursAppend([s.reclaimer.c], s.source, c); }
  }

  lemma KillPlaces(s: State, c: Copy)
    ensures Balanced(s, Step(s, Kill), c)
  {
    OccursAppend(s.lost, Hands(s), c);
    OccursAppend(ConsumerHand(s.consumer), ReclaimerHand(s.reclaimer), c);
  }

  lemma ProducePlaces(s: State, text: Message, c: Copy)
    ensures Balanced(s, Step(s, Produce(text)), c)
  {
    OccursAppend([Fresh(s, text)], s.source, c);
    OccursAppend(s.pushed, [Fresh(s, text)], c);
  }

  lemma StepPlaces(s: State, e: Event, c: Copy)
    ensures Balanced(s, Step(s, e), c)
  {
    match e
    case Produce(text) => ProducePlaces(s, text, c);
    case Tick(_) =>
    case Kill => KillPlaces(s, c);
    case Scan(_) => ReclaimerStepPlaces(s, e, c);
    case ReclaimLRem => ReclaimerStepPlaces(s, e, c);
    case ReclaimLPush => ReclaimerStepPlaces(s, e, c);
    case ReclaimZRem => ReclaimerStepPlaces(s, e, c);
    case _ => ConsumerStepPlaces(s, e, c);
  }

  lemma StepConserves(s: State, e: Event)
    requires Conserved(s)
    ensures Conserved(Step(s, e))
  {
    forall c ensures Occurs(Step(s, e).pushed, c) == Places(Step(s, e), c) { StepPlaces(s, e, c); }
    StepPushes(s, e);
  }

  lemma StepPushes(s: State, e: Event)
    ensures Step(s, e).pushed == s.pushed
         || exists text :: Step(s, e).pushed == s.pushed + [Fresh(s, text)]
  {}

  /** In every reachable state the copies pushed so far are exactly the copies in the two
      lists, in a task's hand, acknowledged, or lost to a kill; no copy is in two places. */
  lemma {:induction false} Conservation(s: State, events: seq<Event>)
    requires Conserved(s)
    ensures Conserved(Run(s, events))
    decreases |events|
  {
    if events != [] {
      StepConserves(s, events[0]);
      Conservation(Step(s, events[0]), events[1..]);
    }
  }

  lemma {:induction false} PushedDistinct(pushed: seq<Copy>, c: Copy)
    requires forall i :: 0 <= i < |pushed| ==> pushed[i].id == i
    ensures Occurs(pushed, c) <= 1
  {
    if pushed != [] {
      var n := |pushed| - 1;
      LastSplits(pushed, c);
      PushedDistinct(pushed[..n], c);
      if c == pushed[n] {
        assert forall x :: x in pushed[..n] ==> x.id < n;
        OccursIn(pushed[..n], c);
      }
    }
  }
}
