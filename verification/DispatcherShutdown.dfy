/** The life of the dispatcher's update queue: `start` opens it and spawns the workers, `enqueue`
    feeds it, the workers drain it, and `stop` closes it, posts one sentinel per worker and awaits
    the workers. */
module DispatcherShutdown {

  /** A queue entry: an update, or the `None` that ends one worker. */
  datatype Item<U> = Packet(update: U) | Sentinel

  datatype Config = Config(workers: nat, noUpdates: bool)

  /** A busy worker is handling the update at that place in the order of acceptance. */
  datatype Worker = Idle | Busy(index: nat) | Exited

  datatype Taken<U> = Taken(worker: nat, update: U)

  /** How far `start` or `stop` has got; `Closing` counts sentinels posted, `Awaiting` workers awaited. */
  datatype Phase = Fresh | Starting | Running | Closing(posted: nat) | Awaiting(awaited: nat) | Stopped

  /** The queue and the workers, with the history of the session: what was accepted, who took what,
      and whose handling has ended. */
  datatype State<U> = State(
    phase: Phase,
    accepting: bool,
    queue: seq<Item<U>>,
    workers: seq<Worker>,
    accepted: seq<U>,
    taken: seq<Taken<U>>,
    finished: set<nat>)

  datatype Event<U> =
    | Start
    | Spawn
    | Enqueue(update: U)
    | Take(worker: nat)
    | Finish(worker: nat)
    | Close
    | Post
    | Await
    | Done

  predicate Init<U(==)>(s: State<U>) {
    s == State(Fresh, false, [], [], [], [], {})
  }

  /** One atomic step. `enqueue` may happen at any time; `stop` begins after `start` has spawned the
      workers. */
  predicate Step<U(==)>(cfg: Config, s: State<U>, s': State<U>, e: Event<U>) {
    match e
    case Start => (s.phase.Fresh? || s.phase.Stopped?) && s' == State(Starting, !cfg.noUpdates, [], [], [], [], {})
    case Spawn =>
      && s.phase.Starting?
      && s' == s.(phase := Running, workers := if cfg.noUpdates then [] else seq(cfg.workers, _ => Idle))
    case Enqueue(u) =>
      s' == if s.accepting then s.(queue := s.queue + [Packet(u)], accepted := s.accepted + [u]) else s
    case Take(w) => TakeStep(s, s', w)
    case Finish(w) =>
      && w < |s.workers| && s.workers[w].Busy?
      && s' == s.(workers := s.workers[w := Idle], finished := s.finished + {s.workers[w].index})
    case Close =>
      && s.phase.Running?
      && s' == if cfg.noUpdates then s.(phase := Stopped) else s.(phase := Closing(0), accepting := false)
    case Post =>
      && s.phase.Closing? && s.phase.posted < cfg.workers
      && s' == s.(phase := Closing(s.phase.posted + 1), queue := s.queue + [Sentinel])
    case Await =>
      || (s.phase == Closing(cfg.workers) && s' == s.(phase := Awaiting(0)))
      || (s.phase.Awaiting? && s.phase.awaited < |s.workers| && s.workers[s.phase.awaited].Exited?
          && s' == s.(phase := Awaiting(s.phase.awaited + 1)))
    case Done => s.phase == Awaiting(|s.workers|) && s' == s.(phase := Stopped)
  }

  /** An idle worker takes the head of the queue. */
  predicate TakeStep<U(==)>(s: State<U>, s': State<U>, w: nat) {
    && w < |s.workers| && s.workers[w].Idle? && s.queue != []
    && match s.queue[0]
       case Sentinel => s' == s.(queue := s.queue[1..], workers := s.workers[w := Exited])
       case Packet(u) =>
         s' == s.(queue := s.queue[1..], workers := s.workers[w := Busy(|s.taken|)], taken := s.taken + [Taken(w, u)])
  }

  ghost predicate Next<U(!new)>(cfg: Config, s: State<U>, s': State<U>) {
    exists e :: Step(cfg, s, s', e)
  }

  ghost predicate IsRun<U(!new)>(cfg: Config, run: seq<State<U>>) {
    run != [] && Init(run[0]) && forall i | 0 <= i < |run| - 1 :: Next(cfg, run[i], run[i + 1])
  }

  // ----- the invariant

  function Packets<U>(updates: seq<U>): (items: seq<Item<U>>)
    ensures |items| == |updates| && forall i | 0 <= i < |items| :: items[i] == Packet(updates[i])
  {
    seq(|updates|, i requires 0 <= i < |updates| => Packet(updates[i]))
  }

  function Sentinels<U>(n: nat): (items: seq<Item<U>>)
    ensures |items| == n && forall i | 0 <= i < n :: items[i] == Sentinel
  {
    seq(n, _ => Sentinel)
  }

  function ExitedCount(ws: seq<Worker>): (n: nat)
    ensures n <= |ws|
  {
    if ws == [] then 0 else ExitedCount(ws[..|ws| - 1]) + if ws[|ws| - 1].Exited? then 1 else 0
  }

  function BusyCount(ws: seq<Worker>): (n: nat)
    ensures n <= |ws|
  {
    if ws == [] then 0 else BusyCount(ws[..|ws| - 1]) + if ws[|ws| - 1].Busy? then 1 else 0
  }

  function Weight(b: bool): int {
    if b then 1 else 0
  }

  lemma {:induction false} CountsAfterUpdate(ws: seq<Worker>, i: nat, w: Worker)
    requires i < |ws|
    ensures ExitedCount(ws[i := w]) == ExitedCount(ws) - Weight(ws[i].Exited?) + Weight(w.Exited?)
    ensures BusyCount(ws[i := w]) == BusyCount(ws) - Weight(ws[i].Busy?) + Weight(w.Busy?)
  {
    var last := |ws| - 1;
    if i == last {
      assert ws[i := w][..last] == ws[..last];
    } else {
      assert ws[i := w][..last] == ws[..last][i := w];
      CountsAfterUpdate(ws[..last], i, w);
    }
  }

  lemma {:induction false} ExitedCountFull(ws: seq<Worker>)
    ensures ExitedCount(ws) == |ws| <==> forall w | 0 <= w < |ws| :: ws[w].Exited?
    ensures (forall w | 0 <= w < |ws| :: ws[w].Idle?) ==> ExitedCount(ws) == 0
  {
    if ws != [] {
      ExitedCountFull(ws[..|ws| - 1]);
    }
  }

  function Posted(cfg: Config, s: State): nat {
    match s.phase
    case Closing(posted) => posted
    case Awaiting(_) => cfg.workers
    case Stopped => if cfg.noUpdates then 0 else cfg.workers
    case _ => 0
  }

  /** The queue holds, in order, what was accepted and not yet taken, then the sentinels not yet
      consumed; and updates leave it in the order of acceptance. */
  ghost predicate QueueInv<U>(cfg: Config, s: State<U>) {
    && |s.taken| <= |s.accepted| && (forall i | 0 <= i < |s.taken| :: s.taken[i].update == s.accepted[i])
    && ExitedCount(s.workers) <= Posted(cfg, s) <= cfg.workers
    && s.queue == Packets(s.accepted[|s.taken|..]) + Sentinels(Posted(cfg, s) - ExitedCount(s.workers))
    && (ExitedCount(s.workers) > 0 ==> |s.taken| == |s.accepted|)
  }

  ghost predicate PhaseInv<U>(cfg: Config, s: State<U>) {
    && (s.accepting <==> !cfg.noUpdates && (s.phase.Starting? || s.phase.Running?))
    && |s.workers| == (if cfg.noUpdates || s.phase.Fresh? || s.phase.Starting? then 0 else cfg.workers)
    && (cfg.noUpdates ==> s.accepted == [] && !s.phase.Closing? && !s.phase.Awaiting?)
    && (s.phase.Awaiting? ==>
          s.phase.awaited <= |s.workers| && forall w | 0 <= w < s.phase.awaited :: s.workers[w].Exited?)
    && (s.phase.Stopped? ==> forall w | 0 <= w < |s.workers| :: s.workers[w].Exited?)
  }

  /** A taken update is being handled by the worker that took it, or its handling has ended. */
  ghost predicate WorkInv<U>(s: State<U>) {
    && (forall i | 0 <= i < |s.taken| :: s.taken[i].worker < |s.workers|)
    && (forall w | 0 <= w < |s.workers| && s.workers[w].Busy? ::
          var i := s.workers[w].index; i < |s.taken| && s.taken[i].worker == w && i !in s.finished)
    && (forall i | 0 <= i < |s.taken| && i !in s.finished ::
          s.workers[s.taken[i].worker] == Busy(i))
    && (forall i | i in s.finished :: i < |s.taken|)
  }

  ghost predicate Inv<U>(cfg: Config, s: State<U>) {
    QueueInv(cfg, s) && PhaseInv(cfg, s) && WorkInv(s)
  }

  lemma QueueEnqueue<U>(cfg: Config, s: State<U>, s': State<U>, u: U)
    requires QueueInv(cfg, s) && PhaseInv(cfg, s) && Step(cfg, s, s', Enqueue(u))
    ensures QueueInv(cfg, s')
  {
    if s.accepting {
      assert s'.accepted[|s.taken|..] == s.accepted[|s.taken|..] + [u];
    }
  }

  lemma QueueUnchanged<U>(cfg: Config, s: State<U>, s': State<U>)
    requires QueueInv(cfg, s) && s'.queue == s.queue && s'.accepted == s.accepted && s'.taken == s.taken
    requires Posted(cfg, s') == Posted(cfg, s) && ExitedCount(s'.workers) == ExitedCount(s.workers)
    ensures QueueInv(cfg, s')
  {
  }

  lemma EmptyQueue<U>(cfg: Config, s: State<U>)
    requires s.queue == [] && s.accepted == [] && s.taken == [] && s.workers == [] && Posted(cfg, s) == 0
    ensures QueueInv(cfg, s)
  {
  }

  /** The steps that leave the queue alone, except that `start` makes a new one. */
  lemma QueueStep<U>(cfg: Config, s: State<U>, s': State<U>, e: Event<U>)
    requires QueueInv(cfg, s) && PhaseInv(cfg, s) && Step(cfg, s, s', e) && !e.Take? && !e.Enqueue? && !e.Post?
    ensures QueueInv(cfg, s')
  {
    match e
    case Start => EmptyQueue(cfg, s');
    case Finish(w) =>
      CountsAfterUpdate(s.workers, w, Idle);
      QueueUnchanged(cfg, s, s');
    case Spawn =>
      ExitedCountFull(s'.workers);
      QueueUnchanged(cfg, s, s');
    case _ => QueueUnchanged(cfg, s, s');
  }

  lemma QueueTake<U>(cfg: Config, s: State<U>, s': State<U>, w: nat)
    requires QueueInv(cfg, s) && TakeStep(s, s', w)
    ensures QueueInv(cfg, s')
    ensures s.queue[0].Packet? <==> |s.taken| < |s.accepted|
  {
    CountsAfterUpdate(s.workers, w, Exited);
    CountsAfterUpdate(s.workers, w, Busy(|s.taken|));
    var pending := s.accepted[|s.taken|..];
    if pending != [] {
      assert pending[1..] == s.accepted[|s.taken| + 1..];
      assert Packets(pending)[1..] == Packets(pending[1..]);
    }
  }

  lemma PhaseStep<U>(cfg: Config, s: State<U>, s': State<U>, e: Event<U>)
    requires PhaseInv(cfg, s) && Step(cfg, s, s', e)
    ensures PhaseInv(cfg, s')
  {
  }

  lemma WorkTake<U>(s: State<U>, s': State<U>, w: nat)
    requires WorkInv(s) && TakeStep(s, s', w)
    ensures WorkInv(s')
  {
  }

  lemma WorkStep<U>(cfg: Config, s: State<U>, s': State<U>, e: Event<U>)
    requires PhaseInv(cfg, s) && WorkInv(s) && Step(cfg, s, s', e)
    ensures WorkInv(s')
  {
    if e.Take? {
      WorkTake(s, s', e.worker);
    }
  }

  lemma NextHolds<U(!new)>(cfg: Config, s: State<U>, s': State<U>)
    requires Inv(cfg, s) && Next(cfg, s, s')
    ensures Inv(cfg, s')
  {
    var e :| Step(cfg, s, s', e);
    PhaseStep(cfg, s, s', e);
    WorkStep(cfg, s, s', e);
    if e.Take? {
      QueueTake(cfg, s, s', e.worker);
    } else if e.Enqueue? {
      QueueEnqueue(cfg, s, s', e.update);
    } else if !e.Post? {
      QueueStep(cfg, s, s', e);
    }
  }

  lemma {:induction false} RunHolds<U(!new)>(cfg: Config, run: seq<State<U>>, n: nat)
    requires IsRun(cfg, run) && n < |run|
    ensures Inv(cfg, run[n])
  {
    if n > 0 {
      RunHolds(cfg, run, n - 1);
      assert Next(cfg, run[n - 1], run[n - 1 + 1]);
      NextHolds(cfg, run[n - 1], run[n]);
    }
  }

  // ----- what every run guarantees

  /** Every accepted update was taken, once, in order, and its handling has ended; nothing is queued. */
  ghost predicate Drained<U>(s: State<U>) {
    && |s.taken| == |s.accepted| && (forall i | 0 <= i < |s.accepted| :: s.taken[i].update == s.accepted[i])
    && (forall i: nat :: i in s.finished <==> i < |s.accepted|)
    && s.queue == []
  }

  lemma NobodyTakes<U>(s: State<U>)
    requires WorkInv(s)
    ensures s.workers == [] ==> s.taken == []
  {
    if s.taken != [] {
      assert s.taken[0].worker < |s.workers|;
    }
  }

  /** When `stop` finishes all workers have exited, and everything accepted since `start` was handled
      exactly once with nothing left queued, if and only if there was a worker to do it or nothing
      to be done. */
  lemma ShutdownDrainsIff<U(!new)>(cfg: Config, run: seq<State<U>>, n: nat)
    requires IsRun(cfg, run) && n < |run| && run[n].phase.Stopped?
    ensures forall w | 0 <= w < |run[n].workers| :: run[n].workers[w].Exited?
    ensures Drained(run[n]) <==> cfg.workers > 0 || run[n].accepted == []
  {
    RunHolds(cfg, run, n);
    var s := run[n];
    ExitedCountFull(s.workers);
    assert forall i: nat | i < |s.taken| :: i in s.finished;
    if cfg.workers > 0 || s.accepted == [] {
      assert |s.taken| == |s.accepted|;
    } else {
      NobodyTakes(s);
    }
  }

  /** Before `stop` closes the queue nothing accepted is lost either: it is taken or still queued. */
  lemma NothingLost<U(!new)>(cfg: Config, run: seq<State<U>>, n: nat, i: nat)
    requires IsRun(cfg, run) && n < |run| && i < |run[n].accepted|
    ensures var s := run[n];
            if i < |s.taken| then s.taken[i].update == s.accepted[i]
            else i - |s.taken| < |s.queue| && s.queue[i - |s.taken|] == Packet(s.accepted[i])
  {
    RunHolds(cfg, run, n);
  }

  lemma Extend<U(!new)>(cfg: Config, run: seq<State<U>>, s': State<U>, e: Event<U>)
    requires IsRun(cfg, run) && Step(cfg, run[|run| - 1], s', e)
    ensures IsRun(cfg, run + [s'])
  {
    var longer := run + [s'];
    forall i | 0 <= i < |longer| - 1
      ensures Next(cfg, longer[i], longer[i + 1])
    {
      if i < |run| - 1 {
        assert Next(cfg, run[i], run[i + 1]);
      }
    }
  }

  /** With no workers, every update accepted before `stop` is lost: here one arrives and no handler
      ever sees it. */
  lemma NoWorkersLoseUpdates() returns (run: seq<State<int>>)
    ensures IsRun(Config(0, false), run) && run[|run| - 1].phase.Stopped? && !Drained(run[|run| - 1])
  {
    var cfg := Config(0, false);
    var s := State(Fresh, false, [], [], [], [], {});
    run := [s];
    var s' := State(Starting, true, [], [], [], [], {});
    Extend(cfg, run, s', Start);
    run, s := run + [s'], s';
    s' := s.(queue := [Packet(7)], accepted := [7]);
    Extend(cfg, run, s', Enqueue(7));
    run, s := run + [s'], s';
    s' := s.(phase := Running);
    Extend(cfg, run, s', Spawn);
    run, s := run + [s'], s';
    s' := s.(phase := Closing(0), accepting := false);
    Extend(cfg, run, s', Close);
    run, s := run + [s'], s';
    s' := s.(phase := Awaiting(0));
    Extend(cfg, run, s', Await);
    run, s := run + [s'], s';
    s' := s.(phase := Stopped);
    Extend(cfg, run, s', Done);
    run := run + [s'];
  }

  // ----- stop terminates

  predicate Stopping(s: State) {
    s.phase.Closing? || s.phase.Awaiting?
  }

  /** How many steps `stop` still takes: to post the sentinels, to let every worker exit, to take and
      handle what is pending if there is anyone to do it, and to await the workers. */
  function Remaining(cfg: Config, s: State): int {
    var n := |s.workers|;
    (n - Posted(cfg, s)) + (n - ExitedCount(s.workers)) + BusyCount(s.workers)
    + (if n == 0 then 0 else 2 * (|s.accepted| - |s.taken|))
    + match s.phase
      case Closing(_) => n + 2
      case Awaiting(k) => n - k + 1
      case _ => 0
  }

  /** Nothing remains exactly when `stop` has finished. */
  lemma NothingRemains<U>(cfg: Config, s: State<U>)
    requires Inv(cfg, s) && (Stopping(s) || s.phase.Stopped?)
    ensures Remaining(cfg, s) >= 0
    ensures Remaining(cfg, s) == 0 <==> s.phase.Stopped?
  {
    ExitedCountFull(s.workers);
    if s.phase.Stopped? {
      NoneBusy(s.workers);
    }
  }

  lemma {:induction false} NoneBusy(ws: seq<Worker>)
    requires forall w | 0 <= w < |ws| :: ws[w].Exited?
    ensures BusyCount(ws) == 0
  {
    if ws != [] {
      NoneBusy(ws[..|ws| - 1]);
    }
  }

  /** Once the queue is closed, an arriving update is dropped and every step of `stop` or of a worker
      does exactly one of the steps that remain. */
  lemma StopProgresses<U>(cfg: Config, s: State<U>, s': State<U>, e: Event<U>)
    requires Inv(cfg, s) && (Stopping(s) || s.phase.Stopped?) && Step(cfg, s, s', e) && !e.Start?
    ensures Stopping(s') || s'.phase.Stopped?
    ensures if e.Enqueue? then s' == s else Stopping(s) && Remaining(cfg, s') == Remaining(cfg, s) - 1
  {
    match e
    case Take(w) => TakeProgresses(cfg, s, s', w);
    case Finish(w) => CountsAfterUpdate(s.workers, w, Idle);
    case _ =>
  }

  lemma TakeProgresses<U>(cfg: Config, s: State<U>, s': State<U>, w: nat)
    requires TakeStep(s, s', w)
    ensures Remaining(cfg, s') == Remaining(cfg, s) - 1 && s'.phase == s.phase
  {
    CountsAfterUpdate(s.workers, w, Exited);
    CountsAfterUpdate(s.workers, w, Busy(|s.taken|));
  }

  /** And until `stop` has finished some such step is possible. */
  lemma StopNeverStuck<U(!new)>(cfg: Config, s: State<U>) returns (e: Event<U>, s': State<U>)
    requires Inv(cfg, s) && Stopping(s)
    ensures Step(cfg, s, s', e) && !e.Enqueue? && !e.Start?
  {
    if s.phase.Closing? {
      if s.phase.posted < cfg.workers {
        e, s' := Post, s.(phase := Closing(s.phase.posted + 1), queue := s.queue + [Sentinel]);
      } else {
        e, s' := Await, s.(phase := Awaiting(0));
      }
    } else if s.phase.awaited == |s.workers| {
      e, s' := Done, s.(phase := Stopped);
    } else {
      var w := s.phase.awaited;
      match s.workers[w]
      case Exited => e, s' := Await, s.(phase := Awaiting(w + 1));
      case Busy(i) => e, s' := Finish(w), s.(workers := s.workers[w := Idle], finished := s.finished + {i});
      case Idle =>
        ExitedCountFull(s.workers);
        e, s' := Take(w), TakeHead(s, w);
    }
  }

  function TakeHead<U>(s: State<U>, w: nat): State<U>
    requires w < |s.workers| && s.workers[w].Idle? && s.queue != []
  {
    if s.queue[0].Sentinel? then s.(queue := s.queue[1..], workers := s.workers[w := Exited])
    else
      s.(queue := s.queue[1..],
         workers := s.workers[w := Busy(|s.taken|)],
         taken := s.taken + [Taken(w, s.queue[0].update)])
  }

  /** A sequence of steps, with the event of each. No new session is started in it. */
  ghost predicate IsExecution<U>(cfg: Config, run: seq<State<U>>, events: seq<Event<U>>) {
    && |run| == |events| + 1
    && forall i | 0 <= i < |events| :: Step(cfg, run[i], run[i + 1], events[i]) && !events[i].Start?
  }

  /** The events other than arrivals. */
  function StepCount<U>(events: seq<Event<U>>): nat {
    if events == [] then 0
    else StepCount(events[..|events| - 1]) + if events[|events| - 1].Enqueue? then 0 else 1
  }

  lemma {:induction false} StepsUsedUp<U(!new)>(cfg: Config, run: seq<State<U>>, events: seq<Event<U>>)
    requires IsExecution(cfg, run, events) && Inv(cfg, run[0]) && Stopping(run[0])
    ensures var last := run[|run| - 1];
            && Inv(cfg, last) && (Stopping(last) || last.phase.Stopped?)
            && StepCount(events) == Remaining(cfg, run[0]) - Remaining(cfg, last)
    decreases |events|
  {
    if events != [] {
      var n := |events| - 1;
      var s, s', e := run[n], run[n + 1], events[n];
      assert Step(cfg, s, s', e) && !e.Start?;
      StepsUsedUp(cfg, run[..n + 1], events[..n]);
      StopProgresses(cfg, s, s', e);
      assert Next(cfg, s, s');
      NextHolds(cfg, s, s');
    }
  }

  /** Whether anything but an arrival or a new session can happen. */
  ghost predicate CanStep<U(!new)>(cfg: Config, s: State<U>) {
    exists e, s' :: Step(cfg, s, s', e) && !e.Enqueue? && !e.Start?
  }

  /** Under every schedule `stop` finishes, however many updates arrive meanwhile: from the moment it has
      closed the queue the steps that happen never exceed those that remained, and it has finished exactly
      when they are used up, which is exactly when no further step is possible. */
  lemma StopTerminates<U(!new)>(cfg: Config, history: seq<State<U>>, run: seq<State<U>>, events: seq<Event<U>>)
    requires IsRun(cfg, history) && IsExecution(cfg, run, events)
    requires run[0] == history[|history| - 1] && Stopping(run[0])
    ensures StepCount(events) <= Remaining(cfg, run[0])
    ensures run[|run| - 1].phase.Stopped? <==> StepCount(events) == Remaining(cfg, run[0])
    ensures run[|run| - 1].phase.Stopped? <==> !CanStep(cfg, run[|run| - 1])
  {
    var last := run[|run| - 1];
    RunHolds(cfg, history, |history| - 1);
    StepsUsedUp(cfg, run, events);
    NothingRemains(cfg, last);
    if last.phase.Stopped? {
      forall e, s' | Step(cfg, last, s', e) && !e.Start?
        ensures e.Enqueue?
      {
        StopProgresses(cfg, last, s', e);
      }
    } else {
      var e, s' := StopNeverStuck(cfg, last);
      assert CanStep(cfg, last);
    }
  }

  lemma ExecutionPrepends<U>(cfg: Config, s: State<U>, e: Event<U>, run: seq<State<U>>, events: seq<Event<U>>)
    requires IsExecution(cfg, run, events) && Step(cfg, s, run[0], e) && !e.Start?
    ensures IsExecution(cfg, [s] + run, [e] + events)
  {
    var longer, all := [s] + run, [e] + events;
    forall i | 0 <= i < |all|
      ensures Step(cfg, longer[i], longer[i + 1], all[i]) && !all[i].Start?
    {
      if i > 0 {
        assert Step(cfg, run[i - 1], run[i - 1 + 1], events[i - 1]);
      }
    }
  }

  /** One step towards the end. */
  lemma StopAdvances<U(!new)>(cfg: Config, s: State<U>) returns (e: Event<U>, s': State<U>)
    requires Inv(cfg, s) && Stopping(s)
    ensures Step(cfg, s, s', e) && !e.Start?
    ensures Inv(cfg, s') && (Stopping(s') || s'.phase.Stopped?) && Remaining(cfg, s') == Remaining(cfg, s) - 1
  {
    e, s' := StopNeverStuck(cfg, s);
    StopProgresses(cfg, s, s', e);
    assert Next(cfg, s, s');
    NextHolds(cfg, s, s');
  }

  /** Such schedules exist: from every stopping state one leads to the end in exactly the steps that
      remain. */
  lemma {:induction false} StopCompletes<U(!new)>(cfg: Config, s: State<U>, left: nat)
    returns (run: seq<State<U>>, events: seq<Event<U>>)
    requires Inv(cfg, s) && (Stopping(s) || s.phase.Stopped?) && Remaining(cfg, s) == left
    ensures IsExecution(cfg, run, events) && run[0] == s && run[|run| - 1].phase.Stopped? && |events| == left
    decreases left
  {
    NothingRemains(cfg, s);
    if left == 0 {
      run, events := [s], [];
    } else {
      var e, s' := StopAdvances(cfg, s);
      var rest, later := StopCompletes(cfg, s', left - 1);
      ExecutionPrepends(cfg, s, e, rest, later);
      run, events := [s] + rest, [e] + later;
    }
  }

  // ----- the queue operations as code

  /** Closing the queue and posting `n` sentinels. */
  function CloseAndPost<U>(n: nat): seq<Event<U>> {
    [Close] + seq(n, _ => Post)
  }

  /** The fields that `start`, `enqueue`, `stop` and the workers share. */
  class UpdatesQueue<U(==, !new)> {
    var items: seq<Item<U>>
    var accepting: bool

    constructor ()
      ensures items == [] && !accepting
    {
      items, accepting := [], false;
    }

    /** The shared fields are those of `s`. */
    ghost predicate Shows(s: State<U>)
      reads this
    {
      items == s.queue && accepting == s.accepting
    }

    /** The beginning of `start`. */
    method Open(noUpdates: bool, ghost cfg: Config, ghost s: State<U>)
      requires cfg.noUpdates == noUpdates && (s.phase.Fresh? || s.phase.Stopped?)
      modifies this
      ensures Step(cfg, s, State(Starting, accepting, items, [], [], [], {}), Start)
    {
      items, accepting := [], !noUpdates;
    }

    /** `enqueue`: an update is appended while accepting and dropped otherwise. */
    method Enqueue(update: U, ghost cfg: Config, ghost s: State<U>) returns (ghost s': State<U>)
      requires Shows(s)
      modifies this`items
      ensures items == old(items) + (if accepting then Packets([update]) else [])
      ensures Shows(s') && Step(cfg, s, s', Event.Enqueue(update))
    {
      s' := s;
      if !accepting {
        return;
      }
      items := items + [Packet(update)];
      s' := s.(queue := items, accepted := s.accepted + [update]);
    }

    /** The part of `stop` that closes the queue and posts one sentinel per worker, without letting anyone
        in between. */
    method Close(workers: nat, ghost cfg: Config, ghost s: State<U>) returns (ghost run: seq<State<U>>)
      requires Shows(s) && s.phase.Running? && !cfg.noUpdates && cfg.workers == workers
      modifies this
      ensures !accepting && items == old(items) + Sentinels(workers)
      ensures IsExecution(cfg, run, CloseAndPost(workers))
      ensures run[0] == s && run[workers + 1] == s.(phase := Closing(workers), accepting := accepting, queue := items)
    {
      accepting := false;
      run := [s, s.(phase := Closing(0), accepting := false)];
      for i := 0 to workers
        invariant !accepting && items == old(items) + Sentinels(i)
        invariant |run| == i + 2 && run[0] == s
        invariant run[i + 1] == s.(phase := Closing(i), accepting := false, queue := items)
        invariant IsExecution(cfg, run, CloseAndPost(i))
      {
        items := items + [Sentinel];
        var s' := s.(phase := Closing(i + 1), accepting := false, queue := items);
        ExecutionExtends(cfg, run, CloseAndPost(i), s', Post);
        run := run + [s'];
        assert CloseAndPost<U>(i + 1) == CloseAndPost(i) + [Post];
      }
    }

    /** What a worker gets from the queue, whatever the other workers do: the head, and the step is that
        of taking it. */
    method Take(ghost cfg: Config, ghost s: State<U>, ghost w: nat) returns (packet: Item<U>, ghost s': State<U>)
      requires Shows(s) && items != [] && w < |s.workers| && s.workers[w].Idle?
      modifies this`items
      ensures [packet] + items == old(items)
      ensures Shows(s') && Step(cfg, s, s', Event.Take(w))
      ensures s'.workers[w] == if packet.Sentinel? then Exited else Busy(|s.taken|)
    {
      packet := items[0];
      items := items[1..];
      s' := TakeHead(s, w);
    }

    /** The worker loop with nobody else at the queue: it takes the updates in front of the first
        sentinel, in order, and that sentinel. */
    method Drain(ghost pending: seq<U>, ghost rest: seq<Item<U>>) returns (handled: seq<U>)
      requires items == Packets(pending) + [Sentinel] + rest
      modifies this`items
      ensures handled == pending && items == rest
    {
      handled := [];
      while true
        invariant |handled| <= |pending| && handled == pending[..|handled|]
        invariant items == Packets(pending[|handled|..]) + [Sentinel] + rest
        decreases |items|
      {
        var packet := items[0];
        items := items[1..];
        if packet.Sentinel? {
          break;
        }
        handled := handled + [packet.update];
      }
    }
  }

  lemma ExecutionExtends<U>(cfg: Config, run: seq<State<U>>, events: seq<Event<U>>, s': State<U>, e: Event<U>)
    requires IsExecution(cfg, run, events) && Step(cfg, run[|run| - 1], s', e) && !e.Start?
    ensures IsExecution(cfg, run + [s'], events + [e])
  {
    var longer, all := run + [s'], events + [e];
    forall i | 0 <= i < |all|
      ensures Step(cfg, longer[i], longer[i + 1], all[i]) && !all[i].Start?
    {
      if i < |events| {
        assert Step(cfg, run[i], run[i + 1], events[i]);
      }
    }
  }
}
