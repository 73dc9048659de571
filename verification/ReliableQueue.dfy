/** The reliable Redis queue of the DB writer (services/db-writer/db_writer_ops.py).

    One source list, its `:processing` list and its lease zset are used by three
    activities of the writer process: startup reclaim and the consume loop (one task,
    one after the other) and the lease reclaimer (a second task).  Every Redis command
    is atomic, every `await` between two commands is a point where the other task or a
    kill may come in.  `Step` is one such command; a run is any list of events. */
module ReliableQueue {

  import opened Sequences

  type Message = string

  /** A message in a list.  Redis stores the text only; `id` is the number of the push
      that created this copy.  No step looks at it (see `QueueIds`). */
  datatype Copy = Copy(text: Message, id: nat)

  /** Where the consumer task is: between which two awaits. */
  datatype Consumer =
    | StartPop                  // startup reclaim, about to RPOP :processing
    | StartPush(c: Copy)        // popped, about to LPUSH
    | StartZrem(c: Copy)        // pushed, about to ZREM
    | Idle                      // about to BRPOPLPUSH
    | Leasing(c: Copy)          // popped, about to ZADD the lease
    | Handling(c: Copy)         // inside the handler
    | Acking(c: Copy)           // in the `finally`, about to LREM
    | Unleasing(c: Copy)        // about to ZREM

  /** Where the lease reclaimer task is. */
  datatype Reclaimer =
    | Sleeping
    | Removing(todo: seq<Message>)                        // about to LREM todo[0]
    | Pushing(c: Copy, rest: seq<Message>)                // removed, about to LPUSH
    | Releasing(text: Message, rest: seq<Message>)        // about to ZREM

  /** Redis, the two tasks, the clock, and the history the theorems speak of. */
  datatype State = State(
    source: seq<Copy>, processing: seq<Copy>, leases: map<Message, int>,
    consumer: Consumer, reclaimer: Reclaimer, now: int,
    pushed: seq<Copy>,        // every copy a producer or a handler pushed, in push order
    acked: seq<Copy>,         // copies an ack removed from :processing
    lost: seq<Copy>,          // copies a kill caught outside Redis
    done: seq<Copy>)          // deliveries whose handler returned without requeueing

  datatype Event =
    | Produce(text: Message)
    | Tick(seconds: nat)
    | StartupRPop | StartupLPush | StartupZRem
    | Pop
    | RegisterLease(leaseSec: int)
    | Requeue                 // handler hits a DuckDB lock: RPUSH and return
    | HandlerExit             // handler returns, raises or is cancelled
    | AckLRem | AckZRem
    | Scan(expired: seq<Message>)
    | ReclaimLRem | ReclaimLPush | ReclaimZRem
    | Kill

  function Init(): State {
    State([], [], map[], StartPop, Sleeping, 0, [], [], [], [])
  }

  // ---- Redis list commands (index 0 is the left end) ----

  /** LREM key 1 text: drop the leftmost copy of `text`, if any. */
  function LRem(s: seq<Copy>, text: Message): seq<Copy> {
    if s == [] then [] else if s[0].text == text then s[1..] else [s[0]] + LRem(s[1..], text)
  }

  function Removed(s: seq<Copy>, text: Message): seq<Copy> {
    if s == [] then [] else if s[0].text == text then [s[0]] else Removed(s[1..], text)
  }

  function Fresh(s: State, text: Message): Copy { Copy(text, |s.pushed|) }

  /** What ZRANGEBYSCORE key 0 now may return: the due members, each once, in some order. */
  ghost predicate IsExpiredList(s: State, expired: seq<Message>) {
    && (forall i, j :: 0 <= i < j < |expired| ==> expired[i] != expired[j])
    && (forall m :: m in expired <==> m in s.leases && 0 <= s.leases[m] <= s.now)
  }

  ghost function ConsumerStep(s: State, e: Event): State {
    match (s.consumer, e)
    case (StartPop, StartupRPop) =>
      if s.processing == [] then s.(consumer := Idle)
      else
        var n := |s.processing| - 1;
        s.(processing := s.processing[..n], consumer := StartPush(s.processing[n]))
    case (StartPush(c), StartupLPush) => s.(source := [c] + s.source, consumer := StartZrem(c))
    case (StartZrem(c), StartupZRem) => s.(leases := s.leases - {c.text}, consumer := StartPop)
    case (Idle, Pop) =>
      if s.source == [] then s
      else
        var n := |s.source| - 1;
        s.(source := s.source[..n], processing := [s.source[n]] + s.processing,
           consumer := if s.source[n].text == "" then Idle else Leasing(s.source[n]))
    case (Leasing(c), RegisterLease(sec)) =>
      s.(leases := s.leases[c.text := s.now + Max(1, sec)], consumer := Handling(c))
    case (Handling(c), Requeue) =>
      var f := Fresh(s, c.text);
      s.(source := s.source + [f], pushed := s.pushed + [f], consumer := Acking(c))
    case (Handling(c), HandlerExit) => s.(done := s.done + [c], consumer := Acking(c))
    case (Acking(c), AckLRem) =>
      s.(processing := LRem(s.processing, c.text),
         acked := s.acked + Removed(s.processing, c.text), consumer := Unleasing(c))
    case (Unleasing(c), AckZRem) => s.(leases := s.leases - {c.text}, consumer := Idle)
    case _ => s
  }

  ghost function ReclaimerStep(s: State, e: Event): State {
    match (s.reclaimer, e)
    case (Sleeping, Scan(expired)) =>
      if expired != [] && IsExpiredList(s, expired) then s.(reclaimer := Removing(expired)) else s
    case (Removing(todo), ReclaimLRem) =>
      if todo == [] then s.(reclaimer := Sleeping)
      else
        var hit := Removed(s.processing, todo[0]);
        if hit == [] then s.(reclaimer := Releasing(todo[0], todo[1..]))
        else s.(processing := LRem(s.processing, todo[0]), reclaimer := Pushing(hit[0], todo[1..]))
    case (Pushing(c, rest), ReclaimLPush) =>
      s.(source := [c] + s.source, reclaimer := Releasing(c.text, rest))
    case (Releasing(m, rest), ReclaimZRem) =>
      s.(leases := s.leases - {m}, reclaimer := if rest == [] then Sleeping else Removing(rest))
    case _ => s
  }

  /** Copies that exist only in the memory of a task. */
  function ConsumerHand(c: Consumer): seq<Copy> {
    match c case StartPush(x) => [x] case _ => []
  }

  function ReclaimerHand(r: Reclaimer): seq<Copy> {
    match r case Pushing(x, _) => [x] case _ => []
  }

  function Hands(s: State): seq<Copy> { ConsumerHand(s.consumer) + ReclaimerHand(s.reclaimer) }

  /** One event.  An event its task is not ready for leaves the state as it is. */
  ghost function Step(s: State, e: Event): State {
    match e
    case Produce(text) =>
      s.(source := [Fresh(s, text)] + s.source, pushed := s.pushed + [Fresh(s, text)])
    case Tick(n) => s.(now := s.now + n)
    case Kill => s.(consumer := StartPop, reclaimer := Sleeping, lost := s.lost + Hands(s))
    case Scan(_) => ReclaimerStep(s, e)
    case ReclaimLRem => ReclaimerStep(s, e)
    case ReclaimLPush => ReclaimerStep(s, e)
    case ReclaimZRem => ReclaimerStep(s, e)
    case _ => ConsumerStep(s, e)
  }

  ghost function Run(s: State, events: seq<Event>): State
    decreases |events|
  {
    if events == [] then s else Run(Step(s, events[0]), events[1..])
  }

  lemma {:induction false} RunSnoc(s: State, events: seq<Event>, e: Event)
    ensures Run(s, events + [e]) == Step(Run(s, events), e)
    decreases |events|
  {
    if events == [] {
      assert [e][1..] == [];
    } else {
      assert (events + [e])[1..] == events[1..] + [e];
      RunSnoc(Step(s, events[0]), events[1..], e);
    }
  }

  lemma {:induction false} RunAppend(s: State, a: seq<Event>, b: seq<Event>)
    ensures Run(s, a + b) == Run(Run(s, a), b)
    decreases |a|
  {
    if a == [] {
      assert a + b == b;
    } else {
      assert (a + b)[1..] == a[1..] + b;
      RunAppend(Step(s, a[0]), a[1..], b);
    }
  }

  lemma Run3(s: State, a: Event, b: Event, c: Event)
    ensures Run(s, [a, b, c]) == Step(Step(Step(s, a), b), c)
  {
    RunSnoc(s, [], a);
    RunSnoc(s, [a], b);
    RunSnoc(s, [a, b], c);
    assert [] + [a] == [a] && [a] + [b] == [a, b] && [a, b] + [c] == [a, b, c];
  }
}
