/** The ids of `ReliableQueue` are history only: Redis and the program see texts. */
module QueueIds {

  import opened ReliableQueue

  predicate SameConsumer(a: Consumer, b: Consumer) {
    match (a, b)
    case (StartPush(x), StartPush(y)) => x.text == y.text
    case (StartZrem(x), StartZrem(y)) => x.text == y.text
    case (Leasing(x), Leasing(y)) => x.text == y.text
    case (Handling(x), Handling(y)) => x.text == y.text
    case (Acking(x), Acking(y)) => x.text == y.text
    case (Unleasing(x), Unleasing(y)) => x.text == y.text
    case _ => a == b
  }

  predicate SameReclaimer(a: Reclaimer, b: Reclaimer) {
    match (a, b)
    case (Pushing(x, r), Pushing(y, q)) => x.text == y.text && r == q
    case _ => a == b
  }

  predicate SameList(a: seq<Copy>, b: seq<Copy>) {
    |a| == |b| && forall i :: 0 <= i < |a| ==> a[i].text == b[i].text
  }

  /** The two states look the same to Redis and to the program: texts, leases, clock, tasks. */
  ghost predicate LooksSame(s: State, t: State) {
    && SameList(s.source, t.source) && SameList(s.processing, t.processing)
    && s.leases == t.leases && s.now == t.now
    && SameConsumer(s.consumer, t.consumer) && SameReclaimer(s.reclaimer, t.reclaimer)
  }

  lemma {:induction false} SameLRem(a: seq<Copy>, b: seq<Copy>, text: Message)
    requires SameList(a, b)
    ensures SameList(LRem(a, text), LRem(b, text)) && SameList(Removed(a, text), Removed(b, text))
  {
    if a != [] { SameLRem(a[1..], b[1..], text); }
  }

  lemma AckIgnoresIds(s: State, t: State)
    requires LooksSame(s, t) && s.consumer.Acking?
    ensures LooksSame(ConsumerStep(s, AckLRem), ConsumerStep(t, AckLRem))
  {
    SameLRem(s.processing, t.processing, s.consumer.c.text);
  }

  /** The consumer's own list moves: startup reclaim and the pop. */
  lemma MovesIgnoreIds(s: State, t: State, e: Event)
    requires LooksSame(s, t) && (e.StartupRPop? || e.StartupLPush? || e.Pop?)
    ensures LooksSame(ConsumerStep(s, e), ConsumerStep(t, e))
  {}

  lemma ConsumerIgnoresIds(s: State, t: State, e: Event)
    requires LooksSame(s, t)
    ensures LooksSame(ConsumerStep(s, e), ConsumerStep(t, e))
  {
    if e.AckLRem? && s.consumer.Acking? {
      AckIgnoresIds(s, t);
    } else if e.StartupRPop? || e.StartupLPush? || e.Pop? {
      MovesIgnoreIds(s, t, e);
    } else {
      OthersIgnoreIds(s, t, e);
    }
  }

  lemma OthersIgnoreIds(s: State, t: State, e: Event)
    requires LooksSame(s, t) && !(e.AckLRem? && s.consumer.Acking?)
    requires !(e.StartupRPop? || e.StartupLPush? || e.Pop?)
    ensures LooksSame(ConsumerStep(s, e), ConsumerStep(t, e))
  {}

  lemma ReclaimerIgnoresIds(s: State, t: State, e: Event)
    requires LooksSame(s, t)
    ensures LooksSame(ReclaimerStep(s, e), ReclaimerStep(t, e))
  {
    if e == ReclaimLRem && s.reclaimer.Removing? && s.reclaimer.todo != [] {
      SameLRem(s.processing, t.processing, s.reclaimer.todo[0]);
    }
    if e.Scan? { assert IsExpiredList(s, e.expired) <==> IsExpiredList(t, e.expired); }
  }

  /** What happens next never depends on the ids or on the recorded history. */
  lemma StepIgnoresIds(s: State, t: State, e: Event)
    requires LooksSame(s, t)
    ensures LooksSame(Step(s, e), Step(t, e))
  {
    ConsumerIgnoresIds(s, t, e);
    ReclaimerIgnoresIds(s, t, e);
  }
}
