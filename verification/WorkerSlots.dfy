/** Background worker slots: a buffered channel of tokens and an atomic counter, changed in separate
    steps by any number of goroutines. */
module WorkerSlots {
  import opened Prelude

  const DEFAULT_WORKERS := 20
  const DEFAULT_TASKS := 100

  datatype Settings = Settings(workers: int, tasks: int)

  datatype Config = Config(capacity: nat, maxTasks: int)

  /** The truncation of a conversion to 32 bits. */
  function ToInt32(x: int): int {
    (x + 0x8000_0000) % 0x1_0000_0000 - 0x8000_0000
  }

  /** The channel's capacity and the limit on tasks. Without settings the defaults hold; a number of
      workers that is not positive means the default too, but a limit on tasks is taken as it is. */
  function Configure(settings: Option<Settings>): (cfg: Config)
    ensures settings.None? ==> cfg == Config(20, 100)
    ensures settings.Some? ==> cfg.capacity == if settings.value.workers > 0 then settings.value.workers else 20
    ensures -0x8000_0000 <= cfg.maxTasks < 0x8000_0000
    ensures settings.Some? ==> (settings.value.tasks - cfg.maxTasks) % 0x1_0000_0000 == 0
  {
    if settings.None? then Config(DEFAULT_WORKERS, DEFAULT_TASKS)
    else
      var workers := settings.value.workers;
      Config(if workers <= 0 then DEFAULT_WORKERS else workers, ToInt32(settings.value.tasks))
  }

  /** Where a goroutine stands between the atomic steps of `acquireWorkerSlot` and
      `releaseWorkerSlot`; after a refusal or a release it may try again. */
  datatype Pc = Out | Checked | Sent | Holding | Received

  datatype State = State(tokens: nat, count: int, pcs: seq<Pc>)

  function Go(s: State, t: nat, pc: Pc): State
    requires t < |s.pcs|
  {
    s.(pcs := s.pcs[t := pc])
  }

  predicate Step(cfg: Config, s: State, s': State, t: nat) {
    && t < |s.pcs|
    && match s.pcs[t]
       case Out => s' == if s.count >= cfg.maxTasks then s else Go(s, t, Checked)
       case Checked => s' == if s.tokens < cfg.capacity then Go(s, t, Sent).(tokens := s.tokens + 1) else Go(s, t, Out)
       case Sent => s' == Go(s, t, Holding).(count := s.count + 1)
       case Holding => s.tokens > 0 && s' == Go(s, t, Received).(tokens := s.tokens - 1)
       case Received => s' == Go(s, t, Out).(count := s.count - 1)
  }

  ghost predicate Next(cfg: Config, s: State, s': State) {
    exists t :: Step(cfg, s, s', t)
  }

  predicate Init(s: State) {
    s.tokens == 0 && s.count == 0 && forall t | 0 <= t < |s.pcs| :: s.pcs[t] == Out
  }

  ghost predicate IsRun(cfg: Config, run: seq<State>) {
    run != [] && Init(run[0]) && forall i | 0 <= i < |run| - 1 :: Next(cfg, run[i], run[i + 1])
  }

  /** How many goroutines are at `pc`. */
  function At(s: State, pc: Pc): nat {
    multiset(s.pcs)[pc]
  }

  /** The goroutines that own a slot, whether or not they are counted yet. */
  function Holders(s: State): nat {
    At(s, Sent) + At(s, Holding)
  }

  ghost predicate Inv(cfg: Config, s: State) {
    && s.tokens == Holders(s) <= cfg.capacity
    && s.count == At(s, Holding) + At(s, Received)
  }

  lemma StepHolds(cfg: Config, s: State, s': State, t: nat)
    requires Inv(cfg, s) && Step(cfg, s, s', t)
    ensures Inv(cfg, s') && |s'.pcs| == |s.pcs|
  {
    var pc := s'.pcs[t];
    assert s'.pcs == s.pcs[t := pc];
  }

  lemma {:induction false} RunHolds(cfg: Config, run: seq<State>, n: nat)
    requires IsRun(cfg, run) && n < |run|
    ensures Inv(cfg, run[n]) && |run[n].pcs| == |run[0].pcs|
  {
    if n == 0 {
    } else {
      RunHolds(cfg, run, n - 1);
      assert Next(cfg, run[n - 1], run[n - 1 + 1]);
      var t :| Step(cfg, run[n - 1], run[n], t);
      StepHolds(cfg, run[n - 1], run[n], t);
    }
  }

  predicate Quiescent(s: State) {
    forall t | 0 <= t < |s.pcs| :: s.pcs[t] == Out || s.pcs[t] == Checked
  }

  /** In every interleaving the holders are the tokens and never exceed the capacity; the counter is
      the tokens less the increments and plus the decrements still to come, so both are zero again
      when nobody holds a slot; and giving a slot back never blocks. */
  lemma SlotsAccounted(cfg: Config, run: seq<State>, n: nat)
    requires IsRun(cfg, run) && n < |run|
    ensures var s := run[n];
            && Holders(s) == s.tokens <= cfg.capacity
            && s.count == s.tokens - At(s, Sent) + At(s, Received)
            && (Quiescent(s) ==> s.tokens == 0 && s.count == 0)
            && forall t | 0 <= t < |s.pcs| && s.pcs[t] == Holding :: s.tokens > 0
  {
    RunHolds(cfg, run, n);
    var s := run[n];
    if Quiescent(s) {
      assert forall pc | pc in multiset(s.pcs) :: pc == Out || pc == Checked;
    }
    forall t | 0 <= t < |s.pcs| && s.pcs[t] == Holding
      ensures s.tokens > 0
    {
      assert s.pcs[t] in multiset(s.pcs);
    }
  }

  // ----- the task limit is not a bound

  ghost predicate Reachable(cfg: Config, goroutines: nat, s: State) {
    exists run: seq<State> :: IsRun(cfg, run) && |run[0].pcs| == goroutines && run[|run| - 1] == s
  }

  lemma ReachStep(cfg: Config, goroutines: nat, s: State, s': State, t: nat)
    requires Reachable(cfg, goroutines, s) && Step(cfg, s, s', t)
    ensures Reachable(cfg, goroutines, s')
  {
    var run: seq<State> :| IsRun(cfg, run) && |run[0].pcs| == goroutines && run[|run| - 1] == s;
    var longer := run + [s'];
    forall i | 0 <= i < |longer| - 1
      ensures Next(cfg, longer[i], longer[i + 1])
    {
      if i < |run| - 1 {
        assert Next(cfg, run[i], run[i + 1]);
      }
    }
    assert IsRun(cfg, longer) && longer[|longer| - 1] == s';
  }

  /** The first goroutines have got as far as holding, sending and checking; the rest wait. */
  function Stage(goroutines: nat, holding: nat, sent: nat, checked: nat): State {
    State(sent, holding, seq(goroutines, t =>
      if t < holding then Holding else if t < sent then Sent else if t < checked then Checked else Out))
  }

  lemma {:induction false} ReachStage(cfg: Config, goroutines: nat, holding: nat, sent: nat, checked: nat)
    requires holding <= sent <= checked <= goroutines && sent <= cfg.capacity && cfg.maxTasks > 0
    requires holding == 0 || sent == checked
    ensures Reachable(cfg, goroutines, Stage(goroutines, holding, sent, checked))
  {
    var s' := Stage(goroutines, holding, sent, checked);
    if holding > 0 {
      ReachStage(cfg, goroutines, holding - 1, sent, checked);
      var s := Stage(goroutines, holding - 1, sent, checked);
      assert s'.pcs == s.pcs[holding - 1 := Holding];
      ReachStep(cfg, goroutines, s, s', holding - 1);
    } else if sent > 0 {
      ReachStage(cfg, goroutines, 0, sent - 1, checked);
      var s := Stage(goroutines, 0, sent - 1, checked);
      assert s'.pcs == s.pcs[sent - 1 := Sent];
      ReachStep(cfg, goroutines, s, s', sent - 1);
    } else if checked > 0 {
      ReachStage(cfg, goroutines, 0, 0, checked - 1);
      var s := Stage(goroutines, 0, 0, checked - 1);
      assert s'.pcs == s.pcs[checked - 1 := Checked];
      ReachStep(cfg, goroutines, s, s', checked - 1);
    } else {
      assert IsRun(cfg, [s']);
    }
  }

  lemma {:induction false} AllHolding(m: nat)
    ensures multiset(seq(m, t => Holding))[Holding] == m
  {
    if m > 0 {
      AllHolding(m - 1);
      assert seq(m, t => Holding) == seq(m - 1, t => Holding) + [Holding];
    }
  }

  /** With a limit that is not positive nobody gets past the check. */
  lemma {:induction false} NobodyEnters(cfg: Config, run: seq<State>, n: nat)
    requires IsRun(cfg, run) && n < |run| && cfg.maxTasks <= 0
    ensures Init(run[n]) && |run[n].pcs| == |run[0].pcs|
  {
    if n > 0 {
      NobodyEnters(cfg, run, n - 1);
      assert Next(cfg, run[n - 1], run[n - 1 + 1]);
      var t :| Step(cfg, run[n - 1], run[n], t);
    }
  }

  lemma HoldersOfReachable(cfg: Config, goroutines: nat, s: State)
    requires Reachable(cfg, goroutines, s)
    ensures Holders(s) <= cfg.capacity && Holders(s) <= goroutines && (cfg.maxTasks <= 0 ==> Holders(s) == 0)
  {
    var run: seq<State> :| IsRun(cfg, run) && |run[0].pcs| == goroutines && run[|run| - 1] == s;
    RunHolds(cfg, run, |run| - 1);
    HoldersBounded(s.pcs);
    if cfg.maxTasks <= 0 {
      NobodyEnters(cfg, run, |run| - 1);
    }
  }

  /** Because the counter is checked before the slot is taken, the number of tasks running can exceed
      the limit on tasks, and does in some run exactly when the limit lets anyone in and there are
      goroutines and slots enough. */
  lemma TaskLimitExceededIff(cfg: Config, goroutines: nat)
    ensures (exists s :: Reachable(cfg, goroutines, s) && Holders(s) > Max(0, cfg.maxTasks))
            <==> 0 < cfg.maxTasks < goroutines && cfg.maxTasks < cfg.capacity
  {
    if 0 < cfg.maxTasks < goroutines && cfg.maxTasks < cfg.capacity {
      var m := cfg.maxTasks + 1;
      ReachStage(cfg, goroutines, m, m, m);
      var s := Stage(goroutines, m, m, m);
      AllHolding(m);
      assert s.pcs == seq(m, t => Holding) + seq(goroutines - m, t => Out);
    }
    forall s | Reachable(cfg, goroutines, s)
      ensures Holders(s) <= cfg.capacity && Holders(s) <= goroutines && (cfg.maxTasks <= 0 ==> Holders(s) == 0)
    {
      HoldersOfReachable(cfg, goroutines, s);
    }
  }

  lemma {:induction false} HoldersBounded(pcs: seq<Pc>)
    ensures multiset(pcs)[Sent] + multiset(pcs)[Holding] <= |pcs|
  {
    if pcs != [] {
      var n := |pcs| - 1;
      HoldersBounded(pcs[..n]);
      assert pcs == pcs[..n] + [pcs[n]];
    }
  }

  // ----- the atomic steps as code

  /** The channel and the counter that all goroutines share. */
  class WorkerPool {
    const cfg: Config
    var tokens: nat
    var count: int

    constructor (settings: Option<Settings>)
      ensures cfg == Configure(settings) && tokens == 0 && count == 0
    {
      cfg, tokens, count := Configure(settings), 0, 0;
    }

    ghost predicate Shows(s: State)
      reads this
    {
      tokens == s.tokens && count == s.count
    }

    /** The check of `acquireWorkerSlot`. */
    method HasRoom(ghost s: State, ghost t: nat) returns (ok: bool)
      requires Shows(s) && t < |s.pcs| && s.pcs[t] == Out
      ensures Step(cfg, s, Go(s, t, if ok then Checked else Out), t)
    {
      ok := count < cfg.maxTasks;
      assert s.pcs[t := Out] == s.pcs;
    }

    /** Its non-blocking send. */
    method TrySend(ghost s: State, ghost t: nat) returns (ok: bool)
      requires Shows(s) && t < |s.pcs| && s.pcs[t] == Checked
      modifies this`tokens
      ensures Step(cfg, s, Go(s, t, if ok then Sent else Out).(tokens := tokens), t)
    {
      ok := tokens < cfg.capacity;
      if ok {
        tokens := tokens + 1;
      }
    }

    method Increment(ghost s: State, ghost t: nat)
      requires Shows(s) && t < |s.pcs| && s.pcs[t] == Sent
      modifies this`count
      ensures Step(cfg, s, Go(s, t, Holding).(count := count), t)
    {
      count := count + 1;
    }

    /** The receive of `releaseWorkerSlot`, which finds a token whenever the invariant holds. */
    method Receive(ghost s: State, ghost t: nat)
      requires Shows(s) && t < |s.pcs| && s.pcs[t] == Holding && Inv(cfg, s)
      modifies this`tokens
      ensures Step(cfg, s, Go(s, t, Received).(tokens := tokens), t)
    {
      assert s.pcs[t] in multiset(s.pcs);
      tokens := tokens - 1;
    }

    method Decrement(ghost s: State, ghost t: nat)
      requires Shows(s) && t < |s.pcs| && s.pcs[t] == Received
      modifies this`count
      ensures Step(cfg, s, Go(s, t, Out).(count := count), t)
    {
      count := count - 1;
    }
  }
}
