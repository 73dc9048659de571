/** Proactive turns of the heartbeat (services/heartbeat/main.py): one poller spawns background
    tasks; a per-chat map names the task to check or to queue behind.  There is no lock: that a
    chat never runs two turns at once follows from the chain of waits.

    asyncio runs one callback at a time, so a step is what happens between two awaits. */
module ProactiveScheduler {

  import opened Wrappers

  type ChatId = string

  /** Created: scheduled, not yet run.  Waiting: inside asyncio.wait({prev}).  Running: past it. */
  datatype Phase = Created | Waiting | Running | Done

  datatype Task = Task(chat: ChatId, prev: Option<nat>, phase: Phase)

  /** `CheckedIdle`: the poller found the chat not busy and is writing chat state before spawning. */
  datatype Poller = Polling | CheckedIdle(chat: ChatId)

  /** Tasks are numbered in spawn order; `callbacks` are done-callbacks not yet run; `started`
      records the order in which turns got past their wait. */
  datatype State = State(tasks: seq<Task>, inFlight: map<ChatId, nat>, callbacks: set<nat>,
                         poller: Poller, started: seq<nat>)

  datatype Event =
    | Check(chat: ChatId)          // goals delta and loop tick: _proactive_busy, else continue
    | SpawnChecked                 // the same callers, after the awaited chat-state write
    | AbandonCheck                 // that write raises and the poller goes on without a spawn
    | SpawnQueued(chat: ChatId)    // wall crons: after_running=True
    | Begin(task: nat)             // first run of the task up to its wait or its turn
    | Wake(task: nat)              // asyncio.wait returns
    | Finish(task: nat)            // the turn ends, with or without an exception
    | RunCallback(task: nat)       // _done

  function Init(): State { State([], map[], {}, Polling, []) }

  predicate TaskDone(s: State, t: nat) { t < |s.tasks| && s.tasks[t].phase == Done }

  /** `_proactive_busy` */
  predicate Busy(s: State, chat: ChatId) { chat in s.inFlight && !TaskDone(s, s.inFlight[chat]) }

  predicate PrevDone(s: State, t: Task) { t.prev.None? || TaskDone(s, t.prev.value) }

  /** `_spawn_proactive`: no await between reading the map, creating the task and writing the map. */
  function Spawn(s: State, chat: ChatId, afterRunning: bool): State {
    var prev := if afterRunning && chat in s.inFlight then Some(s.inFlight[chat]) else None;
    s.(tasks := s.tasks + [Task(chat, prev, Created)], inFlight := s.inFlight[chat := |s.tasks|])
  }

  function SetPhase(s: State, t: nat, p: Phase): State
    requires t < |s.tasks|
  {
    s.(tasks := s.tasks[t := s.tasks[t].(phase := p)],
       started := if p == Running then s.started + [t] else s.started,
       callbacks := if p == Done then s.callbacks + {t} else s.callbacks)
  }

  predicate InPhase(s: State, t: nat, p: Phase) { t < |s.tasks| && s.tasks[t].phase == p }

  /** One step; an event that is not possible leaves the state as it is. */
  function Step(s: State, e: Event): State {
    match e
    case Check(chat) => if s.poller == Polling && !Busy(s, chat) then s.(poller := CheckedIdle(chat)) else s
    case SpawnChecked => if s.poller.CheckedIdle? then Spawn(s.(poller := Polling), s.poller.chat, false) else s
    case AbandonCheck => s.(poller := Polling)
    case SpawnQueued(chat) => if s.poller == Polling then Spawn(s, chat, true) else s
    case Begin(t) =>
      if InPhase(s, t, Created) then SetPhase(s, t, if PrevDone(s, s.tasks[t]) then Running else Waiting) else s
    case Wake(t) => if InPhase(s, t, Waiting) && PrevDone(s, s.tasks[t]) then SetPhase(s, t, Running) else s
    case Finish(t) => if InPhase(s, t, Running) then SetPhase(s, t, Done) else s
    case RunCallback(t) =>
      if t in s.callbacks && t < |s.tasks| then
        var chat := s.tasks[t].chat;
        s.(callbacks := s.callbacks - {t},
           inFlight := if chat in s.inFlight && s.inFlight[chat] == t then s.inFlight - {chat} else s.inFlight)
      else s
  }

  function Run(s: State, events: seq<Event>): State
    decreases |events|
  {
    if events == [] then s else Run(Step(s, events[0]), events[1..])
  }

  // ---- The chain invariant ----

  predicate Unfinished(s: State, t: nat) { t < |s.tasks| && s.tasks[t].phase != Done }

  predicate SameChat(s: State, t: nat, u: nat) { t < |s.tasks| && u < |s.tasks| && s.tasks[t].chat == s.tasks[u].chat }

  predicate Started(s: State, t: nat) { t < |s.tasks| && s.tasks[t].phase in {Running, Done} }

  /** A wait is for an earlier task of the same chat. */
  predicate PrevAt(s: State, t: nat) {
    t < |s.tasks| && s.tasks[t].prev.Some? ==> s.tasks[t].prev.value < t && SameChat(s, s.tasks[t].prev.value, t)
  }

  /** The last unfinished task of a chat is the map entry. */
  predicate EntryAt(s: State, t: nat) {
    Unfinished(s, t) ==>
      s.tasks[t].chat in s.inFlight && t <= s.inFlight[s.tasks[t].chat] && Unfinished(s, s.inFlight[s.tasks[t].chat])
  }

  /** An unfinished task behind another unfinished one of its chat waits for an unfinished one
      at least as late: the waits of a chat form one chain. */
  predicate ChainAt(s: State, t: nat, u: nat) {
    t < u && Unfinished(s, t) && Unfinished(s, u) && SameChat(s, t, u) ==>
      s.tasks[u].prev.Some? && t <= s.tasks[u].prev.value && Unfinished(s, s.tasks[u].prev.value)
  }

  /** A turn past its wait has no unfinished predecessor in its chat. */
  predicate SerialAt(s: State, t: nat, u: nat) {
    t < u && SameChat(s, t, u) && Started(s, u) ==> TaskDone(s, t)
  }

  predicate OrderAt(s: State, i: nat, j: nat) {
    i < j < |s.started| && SameChat(s, s.started[i], s.started[j]) ==> s.started[i] < s.started[j]
  }

  ghost predicate Wellformed(s: State) {
    && (forall c :: c in s.inFlight ==> s.inFlight[c] < |s.tasks| && s.tasks[s.inFlight[c]].chat == c)
    && (forall t :: t in s.callbacks ==> TaskDone(s, t))
    && (forall t: nat {:trigger PrevAt(s, t)} :: PrevAt(s, t))
  }

  ghost predicate EndsAtEntry(s: State) { forall t: nat {:trigger EntryAt(s, t)} :: EntryAt(s, t) }

  ghost predicate Chained(s: State) { forall t: nat, u: nat {:trigger ChainAt(s, t, u)} :: ChainAt(s, t, u) }

  ghost predicate Serial(s: State) { forall t: nat, u: nat {:trigger SerialAt(s, t, u)} :: SerialAt(s, t, u) }

  /** Between the busy check and the spawn nobody else can make the chat busy. */
  ghost predicate IdleChat(s: State, chat: ChatId) {
    forall t: nat :: Unfinished(s, t) ==> s.tasks[t].chat != chat
  }

  ghost predicate CheckStillHolds(s: State) { s.poller.CheckedIdle? ==> IdleChat(s, s.poller.chat) }

  ghost predicate StartedInOrder(s: State) {
    && (forall t: nat :: t in s.started <==> Started(s, t))
    && (forall i: nat, j: nat {:trigger OrderAt(s, i, j)} :: OrderAt(s, i, j))
  }

  ghost predicate Inv(s: State) {
    Wellformed(s) && EndsAtEntry(s) && Chained(s) && Serial(s) && CheckStillHolds(s) && StartedInOrder(s)
  }

  /** Getting past the wait needs the predecessor done; ending needs the turn running. */
  predicate MayEnter(s: State, t: nat, p: Phase) {
    t < |s.tasks| &&
    match p
    case Created => false
    case Waiting => s.tasks[t].phase == Created
    case Running => s.tasks[t].phase in {Created, Waiting} && PrevDone(s, s.tasks[t])
    case Done => s.tasks[t].phase == Running
  }

  // ---- Spawning keeps it ----

  lemma SpawnChain(s: State, chat: ChatId, afterRunning: bool)
    requires Inv(s) && (!afterRunning ==> IdleChat(s, chat))
    ensures Chained(Spawn(s, chat, afterRunning)) && EndsAtEntry(Spawn(s, chat, afterRunning))
  {
    var n := Spawn(s, chat, afterRunning);
    forall t: nat, u: nat ensures ChainAt(n, t, u) {
      assert ChainAt(s, t, u);
      assert EntryAt(s, t);
      if u < |s.tasks| { assert PrevAt(s, u); }
    }
    forall t: nat ensures EntryAt(n, t) { assert EntryAt(s, t); }
  }

  lemma SpawnSerial(s: State, chat: ChatId, afterRunning: bool)
    requires Inv(s)
    ensures Serial(Spawn(s, chat, afterRunning)) && StartedInOrder(Spawn(s, chat, afterRunning))
    ensures Wellformed(Spawn(s, chat, afterRunning))
  {
    var n := Spawn(s, chat, afterRunning);
    forall t: nat, u: nat ensures SerialAt(n, t, u) { assert SerialAt(s, t, u); }
    forall t: nat ensures PrevAt(n, t) { assert PrevAt(s, t); }
    forall t: nat ensures t in n.started <==> Started(n, t) { assert t in s.started <==> Started(s, t); }
    forall i: nat, j: nat ensures OrderAt(n, i, j) {
      assert OrderAt(s, i, j);
      if i < j < |s.started| { assert s.started[i] in s.started && s.started[j] in s.started; }
    }
  }

  lemma SpawnInv(s: State, chat: ChatId, afterRunning: bool)
    requires Inv(s)
    requires !afterRunning ==> IdleChat(s, chat)
    ensures Inv(Spawn(s.(poller := Polling), chat, afterRunning))
  {
    PollerInv(s, Polling);
    SpawnChain(s.(poller := Polling), chat, afterRunning);
    SpawnSerial(s.(poller := Polling), chat, afterRunning);
  }

  lemma PollerInv(s: State, p: Poller)
    requires Inv(s) && (p.CheckedIdle? ==> IdleChat(s, p.chat))
    ensures Inv(s.(poller := p))
  {
    var n := s.(poller := p);
    forall t: nat ensures PrevAt(n, t) && EntryAt(n, t) { assert PrevAt(s, t) && EntryAt(s, t); }
    forall t: nat, u: nat ensures ChainAt(n, t, u) && SerialAt(n, t, u) && OrderAt(n, t, u) {
      assert ChainAt(s, t, u) && SerialAt(s, t, u) && OrderAt(s, t, u);
    }
    forall t: nat ensures t in n.started <==> Started(n, t) { assert t in s.started <==> Started(s, t); }
  }

  // ---- A task moving on keeps it ----

  /** A task whose predecessor is done has no unfinished task of its chat before it. */
  lemma FirstOfItsChat(s: State, t: nat, u: nat)
    requires Inv(s) && Unfinished(s, t) && PrevDone(s, s.tasks[t]) && u < t && SameChat(s, u, t)
    ensures TaskDone(s, u)
  {
    assert ChainAt(s, u, t);
  }

  lemma PhaseChain(s: State, x: nat, p: Phase)
    requires Inv(s) && MayEnter(s, x, p)
    ensures EndsAtEntry(SetPhase(s, x, p)) && Chained(SetPhase(s, x, p))
  {
    var n := SetPhase(s, x, p);
    forall t: nat ensures EntryAt(n, t) {
      assert EntryAt(s, t) && SerialAt(s, t, x);
    }
    forall t: nat, u: nat ensures ChainAt(n, t, u) {
      assert ChainAt(s, t, u) && PrevAt(s, u) && SerialAt(s, t, x);
    }
  }

  lemma PhaseSerial(s: State, x: nat, p: Phase)
    requires Inv(s) && MayEnter(s, x, p)
    ensures Serial(SetPhase(s, x, p)) && Wellformed(SetPhase(s, x, p)) && CheckStillHolds(SetPhase(s, x, p))
  {
    var n := SetPhase(s, x, p);
    forall t: nat ensures PrevAt(n, t) { assert PrevAt(s, t); }
    forall t: nat, u: nat ensures SerialAt(n, t, u) {
      assert SerialAt(s, t, u);
      if p == Running && u == x && t < u && SameChat(s, t, u) { FirstOfItsChat(s, u, t); }
    }
    if s.poller.CheckedIdle? {
      forall t: nat | Unfinished(n, t) ensures n.tasks[t].chat != n.poller.chat { assert Unfinished(s, t); }
    }
  }

  lemma PhaseOrder(s: State, x: nat, p: Phase)
    requires Inv(s) && MayEnter(s, x, p)
    ensures StartedInOrder(SetPhase(s, x, p))
  {
    var n := SetPhase(s, x, p);
    forall t: nat ensures t in n.started <==> Started(n, t) { assert t in s.started <==> Started(s, t); }
    forall i: nat, j: nat ensures OrderAt(n, i, j) {
      assert OrderAt(s, i, j);
      if i < j < |n.started| {
        assert n.started[i] == s.started[i] && s.started[i] in s.started;
        assert SerialAt(s, x, s.started[i]);
      }
    }
  }

  lemma PhaseInv(s: State, x: nat, p: Phase)
    requires Inv(s) && MayEnter(s, x, p)
    ensures Inv(SetPhase(s, x, p))
  {
    PhaseChain(s, x, p);
    PhaseSerial(s, x, p);
    PhaseOrder(s, x, p);
  }

  lemma CallbackInv(s: State, x: nat)
    requires Inv(s) && x in s.callbacks
    ensures Inv(Step(s, RunCallback(x)))
  {
    var n := Step(s, RunCallback(x));
    assert TaskDone(s, x);
    forall t: nat ensures PrevAt(n, t) && EntryAt(n, t) { assert PrevAt(s, t) && EntryAt(s, t); }
    forall t: nat, u: nat ensures ChainAt(n, t, u) && SerialAt(n, t, u) && OrderAt(n, t, u) {
      assert ChainAt(s, t, u) && SerialAt(s, t, u) && OrderAt(s, t, u);
    }
    forall t: nat ensures t in n.started <==> Started(n, t) { assert t in s.started <==> Started(s, t); }
    if s.poller.CheckedIdle? {
      forall t: nat | Unfinished(n, t) ensures n.tasks[t].chat != n.poller.chat { assert Unfinished(s, t); }
    }
  }

  lemma NotBusyIsIdle(s: State, chat: ChatId)
    requires Inv(s)
    ensures !Busy(s, chat) <==> IdleChat(s, chat)
  {
    forall t: nat | Unfinished(s, t) && s.tasks[t].chat == chat ensures Busy(s, chat) { assert EntryAt(s, t); }
    if Busy(s, chat) { assert Unfinished(s, s.inFlight[chat]); }
  }

  lemma StepInv(s: State, e: Event)
    requires Inv(s)
    ensures Inv(Step(s, e))
  {
    match e
    case Check(chat) =>
      NotBusyIsIdle(s, chat);
      if s.poller == Polling && !Busy(s, chat) { PollerInv(s, CheckedIdle(chat)); }
    case SpawnChecked => if s.poller.CheckedIdle? { SpawnInv(s, s.poller.chat, false); }
    case AbandonCheck => PollerInv(s, Polling);
    case SpawnQueued(chat) => if s.poller == Polling { SpawnInv(s, chat, true); }
    case Begin(t) => if InPhase(s, t, Created) { PhaseInv(s, t, if PrevDone(s, s.tasks[t]) then Running else Waiting); }
    case Wake(t) => if InPhase(s, t, Waiting) && PrevDone(s, s.tasks[t]) { PhaseInv(s, t, Running); }
    case Finish(t) => if InPhase(s, t, Running) { PhaseInv(s, t, Done); }
    case RunCallback(t) => if t in s.callbacks { CallbackInv(s, t); }
  }

  lemma {:induction false} RunInv(s: State, events: seq<Event>)
    requires Inv(s)
    ensures Inv(Run(s, events))
    decreases |events|
  {
    if events != [] {
      StepInv(s, events[0]);
      RunInv(Step(s, events[0]), events[1..]);
    }
  }

  // ---- What follows for every run ----

  /** No two turns of one chat are ever past their wait together. */
  lemma OneTurnPerChat(events: seq<Event>)
    ensures var s := Run(Init(), events);
            forall t: nat, u: nat ::
              (InPhase(s, t, Running) && InPhase(s, u, Running) && s.tasks[t].chat == s.tasks[u].chat ==> t == u)
  {
    RunInv(Init(), events);
    var s := Run(Init(), events);
    forall t: nat, u: nat | InPhase(s, t, Running) && InPhase(s, u, Running) && s.tasks[t].chat == s.tasks[u].chat
      ensures t == u
    {
      assert SerialAt(s, t, u) && SerialAt(s, u, t);
    }
  }

  /** "Not busy" and "has no unfinished turn" are the same thing. */
  lemma BusyIsExact(events: seq<Event>, chat: ChatId)
    ensures var s := Run(Init(), events);
            Busy(s, chat) <==> exists t: nat :: Unfinished(s, t) && s.tasks[t].chat == chat
  {
    RunInv(Init(), events);
    var s := Run(Init(), events);
    NotBusyIsIdle(s, chat);
  }

  /** Of two turns of a chat, the one that started first was spawned first and has ended. */
  predicate SequentialAt(s: State, i: nat, j: nat) {
    i < j < |s.started| ==>
      && s.started[i] < |s.tasks| && s.started[j] < |s.tasks|
      && (s.tasks[s.started[i]].chat == s.tasks[s.started[j]].chat ==>
            s.started[i] < s.started[j] && s.tasks[s.started[i]].phase == Done)
  }

  /** Turns of a chat start in spawn order, each after the one before it has ended. */
  lemma TurnsStartInSpawnOrder(events: seq<Event>, i: nat, j: nat)
    ensures SequentialAt(Run(Init(), events), i, j)
  {
    RunInv(Init(), events);
    var s := Run(Init(), events);
    if i < j < |s.started| {
      assert s.started[i] in s.started && s.started[j] in s.started;
      assert OrderAt(s, i, j) && SerialAt(s, s.started[i], s.started[j]);
    }
  }

  /** An unfinished turn whose predecessor has ended takes its next step. */
  lemma NextStepMoves(s: State, t: nat)
    requires Unfinished(s, t) && PrevDone(s, s.tasks[t])
    ensures exists e :: e in [Begin(t), Wake(t), Finish(t)] && Step(s, e) != s
  {
    var e := match s.tasks[t].phase case Created => Begin(t) case Waiting => Wake(t) case _ => Finish(t);
    assert e in [Begin(t), Wake(t), Finish(t)];
    assert Step(s, e).tasks[t].phase != s.tasks[t].phase;
  }

  /** The chat has no earlier unfinished task. */
  predicate FirstOfChat(s: State, t: nat) {
    Unfinished(s, t) && forall u: nat :: u < t && Unfinished(s, u) ==> s.tasks[u].chat != s.tasks[t].chat
  }

  lemma FirstNeedNotWait(s: State, t: nat)
    requires FirstOfChat(s, t) && PrevAt(s, t)
    ensures PrevDone(s, s.tasks[t])
  {
    if s.tasks[t].prev.Some? {
      assert !Unfinished(s, s.tasks[t].prev.value);
    }
  }

  /** No turn is stuck: the first unfinished task of a chat is running or can take its next step. */
  lemma FirstCanProceed(events: seq<Event>, t: nat)
    requires FirstOfChat(Run(Init(), events), t)
    ensures var s := Run(Init(), events);
            PrevDone(s, s.tasks[t]) && exists e :: e in [Begin(t), Wake(t), Finish(t)] && Step(s, e) != s
  {
    var s := Run(Init(), events);
    RunInv(Init(), events);
    assert PrevAt(s, t);
    FirstNeedNotWait(s, t);
    NextStepMoves(s, t);
  }

  /** The check and the spawn are two steps, so a second poller would break it: it could spawn
      between them.  Here the intruding spawn is the same code run by another process. */
  lemma SecondPollerOverlaps(chat: ChatId)
    ensures var s := Spawn(Step(Init(), Check(chat)), chat, false);
            var t := Run(s, [SpawnChecked, Begin(0), Begin(1)]);
            InPhase(t, 0, Running) && InPhase(t, 1, Running) && t.tasks[0].chat == t.tasks[1].chat
  {}

  // ---- What each step does to the tasks, said without `Step`'s own functions ----

  /** `last` is the last unfinished task of the chat. */
  ghost predicate LastOfChat(s: State, chat: ChatId, last: nat) {
    && Unfinished(s, last) && s.tasks[last].chat == chat
    && (forall t: nat :: Unfinished(s, t) && s.tasks[t].chat == chat ==> t <= last)
  }

  /** One task more, of this chat and not begun yet; everybody else is as before.  A queued one waits
      for the last unfinished task of its chat, when there is one, and no other need wait. */
  ghost predicate Spawned(s: State, t: State, chat: ChatId, queued: bool) {
    && |t.tasks| == |s.tasks| + 1 && t.tasks[..|s.tasks|] == s.tasks
    && t.started == s.started && t.callbacks == s.callbacks
    && var task := t.tasks[|s.tasks|];
       && task.chat == chat && task.phase == Created
       && (if queued && exists u: nat :: Unfinished(s, u) && s.tasks[u].chat == chat
           then task.prev.Some? && LastOfChat(s, chat, task.prev.value)
           else PrevDone(s, task))
  }

  lemma EntryIsLast(s: State, chat: ChatId)
    requires Inv(s) && Busy(s, chat)
    ensures LastOfChat(s, chat, s.inFlight[chat])
  {
    forall t: nat | Unfinished(s, t) && s.tasks[t].chat == chat ensures t <= s.inFlight[chat] { assert EntryAt(s, t); }
  }

  lemma SpawnSpawns(s: State, chat: ChatId, afterRunning: bool)
    requires Inv(s) && (!afterRunning ==> IdleChat(s, chat))
    ensures Spawned(s, Spawn(s, chat, afterRunning), chat, afterRunning)
  {
    NotBusyIsIdle(s, chat);
    if Busy(s, chat) { EntryIsLast(s, chat); }
  }

  /** A queued spawn is never dropped, and neither is one behind a check. */
  lemma StepSpawns(s: State, e: Event)
    requires Inv(s) && (e.SpawnQueued? || e.SpawnChecked?)
    ensures if e.SpawnQueued? && s.poller == Polling then
              Spawned(s, Step(s, e), e.chat, true) && Step(s, e).poller == Polling
            else if e.SpawnChecked? && s.poller.CheckedIdle? then
              Spawned(s, Step(s, e), s.poller.chat, false) && Step(s, e).poller == Polling
            else Step(s, e) == s
  {
    if e.SpawnQueued? && s.poller == Polling {
      SpawnSpawns(s, e.chat, true);
    } else if e.SpawnChecked? && s.poller.CheckedIdle? {
      PollerInv(s, Polling);
      var p := s.(poller := Polling);
      forall t: nat | Unfinished(p, t) ensures p.tasks[t].chat != s.poller.chat { assert Unfinished(s, t); }
      SpawnSpawns(p, s.poller.chat, false);
    }
  }

  /** The events that find the poller ready to spawn. */
  predicate Spawns(s: State, e: Event) {
    (e.SpawnQueued? && s.poller == Polling) || (e.SpawnChecked? && s.poller.CheckedIdle?)
  }

  function SpawnCount(s: State, events: seq<Event>): nat
    decreases |events|
  {
    if events == [] then 0 else (if Spawns(s, events[0]) then 1 else 0) + SpawnCount(Step(s, events[0]), events[1..])
  }

  /** No turn is lost and none is made up: there are as many tasks as spawns. */
  lemma {:induction false} TasksAreSpawns(s: State, events: seq<Event>)
    ensures |Run(s, events).tasks| == |s.tasks| + SpawnCount(s, events)
    decreases |events|
  {
    if events != [] {
      assert |Step(s, events[0]).tasks| == |s.tasks| + if Spawns(s, events[0]) then 1 else 0;
      TasksAreSpawns(Step(s, events[0]), events[1..]);
    }
  }

  /** Only task `x` moves, and to `p`. */
  predicate OnlyPhase(s: State, t: State, x: nat, p: Phase) {
    && x < |s.tasks| == |t.tasks| && t.tasks[x] == Task(s.tasks[x].chat, s.tasks[x].prev, p)
    && (forall k :: 0 <= k < |s.tasks| && k != x ==> t.tasks[k] == s.tasks[k])
    && t.inFlight == s.inFlight && t.poller == s.poller
  }

  /** No unfinished task stands before `x` in its chat. */
  ghost predicate ItsTurn(s: State, x: nat) {
    x < |s.tasks| && forall u: nat :: u < x && Unfinished(s, u) ==> s.tasks[u].chat != s.tasks[x].chat
  }

  lemma ReadyIsItsTurn(s: State, x: nat)
    requires Inv(s) && Unfinished(s, x)
    ensures PrevDone(s, s.tasks[x]) <==> ItsTurn(s, x)
  {
    assert PrevAt(s, x);
    if PrevDone(s, s.tasks[x]) {
      forall u: nat | u < x && Unfinished(s, u) ensures s.tasks[u].chat != s.tasks[x].chat {
        assert ChainAt(s, u, x);
      }
    } else {
      assert Unfinished(s, s.tasks[x].prev.value);
    }
  }

  /** A task that begins runs at once when it is its turn and waits otherwise; a waiting one wakes
      exactly when it is; the running one ends, and its callback is due. */
  lemma StepMoves(s: State, x: nat)
    requires Inv(s)
    ensures InPhase(s, x, Created) ==>
              OnlyPhase(s, Step(s, Begin(x)), x, if ItsTurn(s, x) then Running else Waiting)
    ensures InPhase(s, x, Waiting) && ItsTurn(s, x) ==> OnlyPhase(s, Step(s, Wake(x)), x, Running)
    ensures InPhase(s, x, Waiting) && !ItsTurn(s, x) ==> Step(s, Wake(x)) == s
    ensures InPhase(s, x, Running) ==>
              OnlyPhase(s, Step(s, Finish(x)), x, Done) && Step(s, Finish(x)).callbacks == s.callbacks + {x}
  {
    if Unfinished(s, x) { ReadyIsItsTurn(s, x); }
  }

  /** A check finds the chat free exactly when it has no unfinished turn, and may be abandoned. */
  lemma CheckFinds(s: State, chat: ChatId)
    requires Inv(s) && s.poller == Polling
    ensures Step(s, Check(chat)) == if IdleChat(s, chat) then s.(poller := CheckedIdle(chat)) else s
    ensures Step(Step(s, Check(chat)), AbandonCheck) == s
  {
    NotBusyIsIdle(s, chat);
  }

  // ---- The map does not fill up ----

  /** An entry is of an unfinished turn, or its callback is still to come. */
  predicate EntriesAreLive(s: State) {
    forall c :: c in s.inFlight ==> Unfinished(s, s.inFlight[c]) || s.inFlight[c] in s.callbacks
  }

  lemma StepLive(s: State, e: Event)
    requires Inv(s) && EntriesAreLive(s)
    ensures EntriesAreLive(Step(s, e))
  {
    if e.RunCallback? && e.task in s.callbacks { assert TaskDone(s, e.task); }
  }

  lemma {:induction false} RunLive(s: State, events: seq<Event>)
    requires Inv(s) && EntriesAreLive(s)
    ensures EntriesAreLive(Run(s, events))
    decreases |events|
  {
    if events != [] {
      StepInv(s, events[0]);
      StepLive(s, events[0]);
      RunLive(Step(s, events[0]), events[1..]);
    }
  }

  /** Once the callbacks have run the map holds the chats with an unfinished turn, and no other. */
  lemma MapHoldsTheBusy(events: seq<Event>, chat: ChatId)
    requires Run(Init(), events).callbacks == {}
    ensures var s := Run(Init(), events);
            chat in s.inFlight <==> exists t: nat :: Unfinished(s, t) && s.tasks[t].chat == chat
  {
    RunInv(Init(), events);
    RunLive(Init(), events);
    var s := Run(Init(), events);
    NotBusyIsIdle(s, chat);
  }

  // ---- The dictionary and the tasks as the code keeps them ----

  class Heartbeat {
    var tasks: seq<Task>
    var proactiveInFlight: map<ChatId, nat>
    var callbacks: set<nat>
    var started: seq<nat>

    /** The shared state, seen with the poller at the given point. */
    function View(poller: Poller): State
      reads this
    {
      State(tasks, proactiveInFlight, callbacks, poller, started)
    }

    constructor ()
      ensures View(Polling) == Init()
    {
      tasks, proactiveInFlight, callbacks, started := [], map[], {}, [];
    }

    /** Exact on every reachable state: the chat has an unfinished turn or it has not. */
    method ProactiveBusy(chat: ChatId) returns (busy: bool)
      requires Inv(View(Polling))
      ensures busy <==> exists t: nat :: Unfinished(View(Polling), t) && tasks[t].chat == chat
    {
      busy := chat in proactiveInFlight && tasks[proactiveInFlight[chat]].phase != Done;
      NotBusyIsIdle(View(Polling), chat);
    }

    method SpawnProactive(chat: ChatId, afterRunning: bool) returns (task: nat)
      requires Inv(View(Polling))
      requires !afterRunning ==> IdleChat(View(Polling), chat)
      modifies this
      ensures View(Polling) == Spawn(old(View(Polling)), chat, afterRunning)
      ensures Spawned(old(View(Polling)), View(Polling), chat, afterRunning)
      ensures Inv(View(Polling)) && task == |old(tasks)| == |tasks| - 1
    {
      SpawnSpawns(View(Polling), chat, afterRunning);
      SpawnInv(View(Polling), chat, afterRunning);
      var prev := None;
      if afterRunning && chat in proactiveInFlight { prev := Some(proactiveInFlight[chat]); }
      task := |tasks|;
      tasks := tasks + [Task(chat, prev, Created)];
      proactiveInFlight := proactiveInFlight[chat := task];
    }

    /** `_run` up to its first await, or from its wait to the turn. */
    method ResumeTask(task: nat)
      requires Inv(View(Polling)) && (InPhase(View(Polling), task, Created)
               || (InPhase(View(Polling), task, Waiting) && PrevDone(View(Polling), tasks[task])))
      modifies this
      ensures View(Polling)
              == Step(old(View(Polling)), if old(tasks)[task].phase == Created then Begin(task) else Wake(task))
      ensures Inv(View(Polling))
    {
      var t := tasks[task];
      assert PrevAt(View(Polling), task);
      var ready := t.prev.None? || tasks[t.prev.value].phase == Done;
      PhaseInv(View(Polling), task, if ready then Running else Waiting);
      tasks := tasks[task := t.(phase := if ready then Running else Waiting)];
      if ready { started := started + [task]; }
    }

    method FinishTask(task: nat)
      requires Inv(View(Polling)) && InPhase(View(Polling), task, Running)
      modifies this
      ensures View(Polling) == Step(old(View(Polling)), Finish(task)) && Inv(View(Polling))
    {
      PhaseInv(View(Polling), task, Done);
      tasks := tasks[task := tasks[task].(phase := Done)];
      callbacks := callbacks + {task};
    }

    method DoneCallback(task: nat)
      requires Inv(View(Polling)) && task in callbacks
      modifies this
      ensures View(Polling) == Step(old(View(Polling)), RunCallback(task)) && Inv(View(Polling))
    {
      StepInv(View(Polling), RunCallback(task));
      var chat := tasks[task].chat;
      callbacks := callbacks - {task};
      if chat in proactiveInFlight && proactiveInFlight[chat] == task {
        proactiveInFlight := proactiveInFlight - {chat};
      }
    }
  }
}
