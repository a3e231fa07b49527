/** The soft deadline of a batch of plugin tasks: the number of waves times the p90 of a task, plus a
    margin. Durations are whole nanoseconds. */
module Deadline {
  import opened Prelude

  const SECOND := 1000000000
  const DEFAULT_OUTBOUND := 128
  const DEFAULT_BUDGET := 4 * SECOND
  const MARGIN := SECOND
  const MIN_DEADLINE := 4 * SECOND

  /** How many slots the fan-out uses: enough for every task unless the outbound limit forbids it. */
  function EffectiveConcurrency(requested: int, tasks: int, outboundLimit: int): (slots: int)
    ensures slots >= 1
    ensures tasks > 0 ==> slots == Min(Max(requested, tasks), if outboundLimit > 0 then outboundLimit else 128)
    ensures tasks <= 0 ==> slots == Max(requested, 1)
  {
    if tasks <= 0 then (if requested > 0 then requested else 1)
    else
      var wanted := if requested < tasks then tasks else requested;
      var limit := if outboundLimit <= 0 then DEFAULT_OUTBOUND else outboundLimit;
      var slots := if wanted > limit then limit else wanted;
      if slots < 1 then 1 else slots
  }

  function AtLeastOne(n: int): nat {
    if n <= 0 then 1 else n
  }

  function Budget(p90: int): nat {
    if p90 <= 0 then DEFAULT_BUDGET else p90
  }

  function Waves(tasks: int, slots: int): int {
    (AtLeastOne(tasks) + AtLeastOne(slots) - 1) / AtLeastOne(slots)
  }

  /** The time by which all waves are over when no task takes longer than the budget. */
  function Span(tasks: int, slots: int, p90: int): int {
    Waves(tasks, slots) * Budget(p90)
  }

  function DeriveBatchDeadline(tasks: int, slots: int, p90: int, override: int, cap: int): int {
    if override > 0 then override
    else
      var deadline := Span(tasks, slots, p90) + MARGIN;
      var capped := if cap > 0 && deadline > cap then cap else deadline;
      if capped < MIN_DEADLINE then MIN_DEADLINE else capped
  }

  lemma MulMonotone(a: int, b: int, c: int)
    requires a <= b && 0 <= c
    ensures a * c <= b * c
  {
  }

  lemma QuotientUnique(t: nat, p: nat, q: nat)
    requires p > 0
    ensures q * p <= t < q * p + p <==> t / p == q
  {
    var r := t / p;
    assert r * p <= t < r * p + p;
    if q < r {
      MulMonotone(q + 1, r, p);
    } else if r < q {
      MulMonotone(r + 1, q, p);
    }
  }

  /** The number of waves is the least that has a slot for every task. */
  lemma WavesAreLeast(tasks: int, slots: int)
    ensures var w, n, c := Waves(tasks, slots), AtLeastOne(tasks), AtLeastOne(slots);
            w >= 1 && (w - 1) * c < n <= w * c && w - 1 == (n - 1) / c
  {
    var n, c := AtLeastOne(tasks), AtLeastOne(slots);
    var q := (n - 1) / c;
    MulMonotone(0, q, c);
    QuotientUnique(n - 1, c, q);
    assert (q + 1) * c == q * c + c;
    QuotientUnique(n + c - 1, c, q + 1);
  }

  /** The deadline in numbers: the least number `w` of waves with a slot for every task, each as long as
      the p90 or four seconds when there is none, and one second more; the cap, then at least four seconds;
      unless the override says otherwise. */
  lemma DeadlineFormula(tasks: int, slots: int, p90: int, override: int, cap: int) returns (w: int)
    ensures (w - 1) * Max(slots, 1) < Max(tasks, 1) <= w * Max(slots, 1)
    ensures var deadline := w * (if p90 > 0 then p90 else 4_000_000_000) + 1_000_000_000;
            DeriveBatchDeadline(tasks, slots, p90, override, cap)
            == if override > 0 then override
               else Max(if cap > 0 then Min(deadline, cap) else deadline, 4_000_000_000)
  {
    w := Waves(tasks, slots);
    WavesAreLeast(tasks, slots);
  }

  lemma MoreTasksMoreWaves(tasks: int, tasks': int, slots: int, slots': int)
    requires tasks <= tasks' && slots' <= slots
    ensures Waves(tasks, slots) <= Waves(tasks', slots')
  {
    WavesAreLeast(tasks, slots);
    WavesAreLeast(tasks', slots');
    var w, w' := Waves(tasks, slots), Waves(tasks', slots');
    if w' < w {
      MulMonotone(w', w - 1, AtLeastOne(slots));
      MulMonotone(AtLeastOne(slots'), AtLeastOne(slots), w');
      assert false;
    }
  }

  /** The deadline grows with the tasks and with a known p90, and shrinks as slots are added. */
  lemma DeadlineMonotone(tasks: int, tasks': int, slots: int, slots': int, p90: int, p90': int, override: int, cap: int)
    requires tasks <= tasks' && slots' <= slots && Budget(p90) <= Budget(p90')
    ensures DeriveBatchDeadline(tasks, slots, p90, override, cap)
         <= DeriveBatchDeadline(tasks', slots', p90', override, cap)
  {
    MoreTasksMoreWaves(tasks, tasks', slots, slots');
    WavesAreLeast(tasks, slots);
    MulMonotone(Waves(tasks, slots), Waves(tasks', slots'), Budget(p90));
    MulMonotone(Budget(p90), Budget(p90'), Waves(tasks', slots'));
  }

  /** In the p90 alone it is monotone exactly where the default does not step in: between two known
      values, or from an unknown one to at least four seconds. */
  lemma MonotoneInP90Iff(p90: int, p90': int)
    requires p90 <= p90'
    ensures (forall tasks, slots, override, cap ::
               DeriveBatchDeadline(tasks, slots, p90, override, cap)
               <= DeriveBatchDeadline(tasks, slots, p90', override, cap))
            <==> p90 > 0 || p90' <= 0 || p90' >= DEFAULT_BUDGET
  {
    if p90 > 0 || p90' <= 0 || p90' >= DEFAULT_BUDGET {
      forall tasks, slots, override, cap
        ensures DeriveBatchDeadline(tasks, slots, p90, override, cap)
             <= DeriveBatchDeadline(tasks, slots, p90', override, cap)
      {
        DeadlineMonotone(tasks, tasks, slots, slots, p90, p90', override, cap);
      }
    } else {
      assert Waves(1, 1) == 1;
      assert DeriveBatchDeadline(1, 1, p90, 0, 0) > DeriveBatchDeadline(1, 1, p90', 0, 0);
    }
  }

  // ----- executions of a batch

  /** When each task of a batch started and how long it took; all of them were submitted at time 0. */
  datatype Execution = Execution(starts: seq<nat>, durations: seq<nat>)

  ghost predicate WellFormed(x: Execution) {
    |x.starts| == |x.durations|
  }

  predicate IsRunning(x: Execution, j: nat, t: int)
    requires |x.starts| == |x.durations|
  {
    j < |x.starts| && x.starts[j] <= t < x.starts[j] + x.durations[j]
  }

  function Running(x: Execution, t: int): set<nat>
    requires |x.starts| == |x.durations|
  {
    set j: nat | j < |x.starts| && IsRunning(x, j, t)
  }

  /** The pool never runs more tasks than it has slots, and has no free slot while a task waits. */
  ghost predicate WorkConserving(x: Execution, slots: nat) {
    && WellFormed(x)
    && (forall t: nat :: |Running(x, t)| <= slots)
    && forall k: nat, t: nat | k < |x.starts| && t < x.starts[k] :: |Running(x, t)| >= slots
  }

  ghost predicate TakesAtMost(x: Execution, p: nat) {
    forall j | 0 <= j < |x.durations| :: x.durations[j] <= p
  }

  ghost predicate EndsBy(x: Execution, t: int)
    requires WellFormed(x)
  {
    forall j | 0 <= j < |x.starts| :: x.starts[j] + x.durations[j] <= t
  }

  function StartedBy(x: Execution, t: int): set<nat> {
    set j: nat | j < |x.starts| && x.starts[j] <= t
  }

  lemma {:induction false} BoundedSize(a: set<nat>, n: nat)
    requires forall x | x in a :: x < n
    ensures |a| <= n
  {
    if n > 0 {
      SubsetSize(a, a - {n - 1} + {n - 1});
      BoundedSize(a - {n - 1}, n - 1);
    } else {
      assert a == {};
    }
  }

  /** While some task still waits at the end of wave `m`, every wave up to it was full. */
  lemma {:induction false} FullWaves(x: Execution, slots: nat, p: nat, k: nat, m: nat)
    requires WorkConserving(x, slots) && TakesAtMost(x, p) && k < |x.starts| && x.starts[k] > m * p
    ensures |StartedBy(x, m * p)| >= (m + 1) * slots
  {
    var t := m * p;
    assert |Running(x, t)| >= slots;
    if m == 0 {
      SubsetSize(Running(x, t), StartedBy(x, t));
    } else {
      var before := (m - 1) * p;
      assert before + p == t;
      FullWaves(x, slots, p, k, m - 1);
      var done, now := StartedBy(x, before), Running(x, t);
      assert done !! now;
      assert |done + now| == |done| + |now|;
      SubsetSize(done + now, StartedBy(x, t));
      assert (m + 1) * slots == m * slots + slots;
    }
  }

  /** So a task that starts late is one of many. */
  lemma LateStart(x: Execution, slots: nat, p: nat, k: nat, m: nat)
    requires WorkConserving(x, slots) && TakesAtMost(x, p) && k < |x.starts| && x.starts[k] > m * p
    ensures |x.starts| > (m + 1) * slots
  {
    FullWaves(x, slots, p, k, m);
    var started := StartedBy(x, m * p);
    BoundedSize(started + {k}, |x.starts|);
    assert |started + {k}| == |started| + 1;
  }

  /** Any work-conserving execution, in any order, of tasks within the budget ends in time. */
  lemma EndsWithinWaves(x: Execution, slots: int, p90: int)
    requires slots > 0 && WorkConserving(x, slots) && TakesAtMost(x, Budget(p90))
    ensures EndsBy(x, Span(|x.starts|, slots, p90))
  {
    var n, p, w := |x.starts|, Budget(p90), Waves(|x.starts|, slots);
    WavesAreLeast(n, slots);
    assert (w - 1) * p + p == w * p;
    forall k | 0 <= k < n
      ensures x.starts[k] <= (w - 1) * p
    {
      if x.starts[k] > (w - 1) * p {
        LateStart(x, slots, p, k, w - 1);
      }
    }
  }

  /** The execution that needs every wave: all tasks take the whole budget. */
  function Slowest(n: nat, slots: nat, p: nat): Execution
    requires slots > 0
  {
    Execution(seq(n, j requires 0 <= j < n => StartOf(j, slots, p)), seq(n, _ => p))
  }

  function StartOf(j: nat, slots: nat, p: nat): nat
    requires slots > 0
  {
    MulMonotone(0, j / slots, p);
    j / slots * p
  }

  function Interval(lo: nat, hi: nat): (r: set<nat>)
    ensures forall j: nat :: j in r <==> lo <= j < hi
    ensures |r| == Max(0, hi - lo)
  {
    if lo >= hi then {} else Interval(lo, hi - 1) + {hi - 1}
  }

  /** At each moment it runs one wave. */
  lemma SlowestRunning(n: nat, slots: nat, p: nat, t: nat)
    requires slots > 0 && p > 0
    ensures var m := t / p;
            m >= 0 && m * slots >= 0
            && Running(Slowest(n, slots, p), t) == Interval(m * slots, Min(n, m * slots + slots))
  {
    var x, m := Slowest(n, slots, p), t / p;
    MulMonotone(0, m, slots);
    forall j: nat | j < n
      ensures IsRunning(x, j, t) <==> m * slots <= j < m * slots + slots
    {
      QuotientUnique(t, p, j / slots);
      QuotientUnique(j, slots, m);
    }
  }

  lemma SlowestIsWorkConserving(n: nat, slots: nat, p: nat)
    requires slots > 0 && p > 0
    ensures WorkConserving(Slowest(n, slots, p), slots) && TakesAtMost(Slowest(n, slots, p), p)
  {
    var x := Slowest(n, slots, p);
    forall t: nat
      ensures |Running(x, t)| <= slots
      ensures (t / p) * slots + slots <= n ==> |Running(x, t)| == slots
    {
      SlowestRunning(n, slots, p, t);
    }
    forall k: nat, t: nat | k < n && t < x.starts[k]
      ensures |Running(x, t)| >= slots
    {
      EarlierWave(k, slots, p, t);
    }
  }

  lemma EarlierWave(k: nat, slots: nat, p: nat, t: nat)
    requires slots > 0 && p > 0 && t < StartOf(k, slots, p)
    ensures t / p * slots + slots <= k
  {
    var q, m := k / slots, t / p;
    assert m * p <= t;
    if q <= m {
      MulMonotone(q, m, p);
    }
    MulMonotone(m + 1, q, slots);
  }

  /** Every work-conserving execution of `n` tasks within the budget has ended at `deadline`. */
  ghost predicate Guaranteed(n: nat, slots: nat, p: nat, deadline: int) {
    forall x: Execution | |x.starts| == n && WorkConserving(x, slots) && TakesAtMost(x, p) :: EndsBy(x, deadline)
  }

  lemma SlowestEnds(n: nat, slots: int, p90: int)
    requires n > 0 && slots > 0
    ensures var x := Slowest(n, slots, Budget(p90)); x.starts[n - 1] + x.durations[n - 1] == Span(n, slots, p90)
  {
    var p, w := Budget(p90), Waves(n, slots);
    WavesAreLeast(n, slots);
    assert (w - 1) * p + p == w * p;
  }

  lemma GuaranteedIff(n: nat, slots: int, p90: int, deadline: int)
    requires n > 0 && slots > 0
    ensures Guaranteed(n, slots, Budget(p90), deadline) <==> Span(n, slots, p90) <= deadline
  {
    var p, span := Budget(p90), Span(n, slots, p90);
    forall x: Execution | |x.starts| == n && WorkConserving(x, slots) && TakesAtMost(x, p)
      ensures EndsBy(x, span)
    {
      EndsWithinWaves(x, slots, p90);
    }
    SlowestIsWorkConserving(n, slots, p);
    SlowestEnds(n, slots, p90);
    EndsByIff(n, slots, p, span, deadline);
  }

  lemma EndsByIff(n: nat, slots: nat, p: nat, span: int, deadline: int)
    requires n > 0 && slots > 0 && Guaranteed(n, slots, p, span)
    requires var x := Slowest(n, slots, p);
             WorkConserving(x, slots) && TakesAtMost(x, p) && x.starts[n - 1] + x.durations[n - 1] == span
    ensures Guaranteed(n, slots, p, deadline) <==> span <= deadline
  {
    if Guaranteed(n, slots, p, deadline) {
      assert EndsBy(Slowest(n, slots, p), deadline);
    }
  }

  /** Without an override the derived deadline leaves time for the whole batch, whatever the order,
      exactly when the cap does too or the batch fits in the minimum; when the cap does not bind
      there is the margin to spare. */
  lemma DeadlineSufficesIff(n: nat, slots: int, p90: int, override: int, cap: int)
    requires n > 0 && slots > 0 && override <= 0
    ensures Guaranteed(n, slots, Budget(p90), DeriveBatchDeadline(n, slots, p90, override, cap))
            <==> cap <= 0 || Span(n, slots, p90) <= cap || Span(n, slots, p90) <= MIN_DEADLINE
    ensures cap <= 0 || Span(n, slots, p90) + MARGIN <= cap ==>
              Guaranteed(n, slots, Budget(p90), DeriveBatchDeadline(n, slots, p90, override, cap) - MARGIN)
  {
    var deadline := DeriveBatchDeadline(n, slots, p90, override, cap);
    GuaranteedIff(n, slots, p90, deadline);
    GuaranteedIff(n, slots, p90, deadline - MARGIN);
  }
}
