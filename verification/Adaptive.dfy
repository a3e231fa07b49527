/** The controller of the outbound concurrency limit: additive increase, multiplicative decrease,
    driven by the p90 of each window against a slowly rising floor. Durations are whole
    nanoseconds and limits are real numbers. */
module Adaptive {
  import opened Prelude
  import opened OrderStatistics

  const DEFAULT_CEILING := 128
  const MIN_LIMIT := 8.0

  /** What an earlier process wrote to disk. */
  datatype Saved = Saved(limit: real, floor: int)

  function MaxReal(a: real, b: real): real {
    if a >= b then a else b
  }

  function MinReal(a: real, b: real): real {
    if a <= b then a else b
  }

  /** Downwards the floor follows at once, upwards by an eighth of the distance. */
  function NextFloor(floor: int, p90: int): int {
    if floor == 0 || p90 < floor then p90 else floor + (p90 - floor) / 8
  }

  /** The p90 exceeds 1.6 times the floor. */
  predicate Queued(floor: int, p90: int) {
    floor > 0 && 5 * p90 > 8 * floor
  }

  function Scale(limit: real, decrease: bool): real {
    if decrease then limit * 0.85 else limit + limit * 0.125
  }

  function Clamp(limit: real, maxLimit: real): real {
    var capped := if limit > maxLimit then maxLimit else limit;
    if capped < MIN_LIMIT then MIN_LIMIT else capped
  }

  /** What one adjustment does: a drop, or a p90 of more than 1.6 times the new floor, lowers the limit to
      85 percent, and anything else raises it by an eighth, between 8 and the ceiling. */
  lemma AdjustEffect(limit: real, maxLimit: real, floor: int, p90: int, dropped: bool)
    requires maxLimit >= 8.0 && floor >= 0 && p90 > 0
    ensures var base := NextFloor(floor, p90);
            var decrease := dropped || Queued(base, p90);
            var next := Clamp(Scale(limit, decrease), maxLimit);
            && (decrease <==> dropped || p90 as real > 1.6 * base as real)
            && next == MaxReal(8.0, MinReal(maxLimit, if decrease then 0.85 * limit else 1.125 * limit))
            && (decrease && limit > 8.0 ==> next < limit)
            && (!decrease && 8.0 <= limit < maxLimit ==> next > limit)
  {
    var base := NextFloor(floor, p90);
    assert 5 * p90 > 8 * base <==> 5.0 * p90 as real > 8.0 * base as real;
  }

  /** The floor follows a lower p90 at once and makes up an eighth of the distance to a higher one. */
  lemma FloorEffect(floor: int, p90: int)
    requires floor >= 0 && p90 > 0
    ensures var base := NextFloor(floor, p90);
            && (floor == 0 || p90 <= floor ==> base == p90)
            && (0 < floor <= p90 ==> 8 * (base - floor) <= p90 - floor <= 8 * (base - floor) + 7)
  {
  }

  // ----- the controller

  class AdaptiveConcurrency {
    var limit: real
    var maxLimit: real
    var floor: int
    var win: seq<int>
    var dropped: nat
    var adjustCount: nat

    ghost predicate Valid()
      reads this
    {
      floor >= 0 && forall i | 0 <= i < |win| :: win[i] > 0
    }

    constructor (taskCount: int, requested: int, saved: Option<Saved>)
      ensures Valid() && win == [] && dropped == 0
      ensures var ceiling := Effective(requested) as real;
              maxLimit == MaxReal(MIN_LIMIT, ceiling) && MinReal(MIN_LIMIT, ceiling) <= limit <= maxLimit
      ensures var ceiling := (if requested <= 0 then 128 else requested) as real;
              && maxLimit == MaxReal(8.0, ceiling)
              && limit == if saved.Some? && 8.0 <= saved.value.limit <= maxLimit then saved.value.limit
                          else MinReal(MaxReal(8.0, taskCount as real / 4.0), ceiling)
      ensures floor == if saved.Some? && saved.value.floor > 0 then saved.value.floor else 0
    {
      var ceiling := requested;
      if ceiling <= 0 {
        ceiling := DEFAULT_CEILING;
      }
      var cap := ceiling as real;
      var initial := taskCount as real / 4.0;
      if initial < MIN_LIMIT {
        initial := MIN_LIMIT;
      }
      if initial > cap {
        initial := cap;
      }
      if cap < MIN_LIMIT {
        cap := MIN_LIMIT;
      }
      var low := 0;
      if saved.Some? {
        if MIN_LIMIT <= saved.value.limit <= cap {
          initial := saved.value.limit;
        }
        if saved.value.floor > 0 {
          low := saved.value.floor;
        }
      }
      limit, maxLimit, floor, win, dropped, adjustCount := initial, cap, low, [], 0, 0;
    }

    method LimitValue() returns (v: int)
      ensures v >= 1 && (limit >= 1.0 ==> v as real <= limit < v as real + 1.0)
    {
      v := limit.Floor;
      if v < 1 {
        v := 1;
      }
    }

    method ObserveTask(d: int)
      requires Valid()
      modifies this`win
      ensures Valid() && win == old(win) + if d > 0 then [d] else []
    {
      if d <= 0 {
        return;
      }
      win := win + [d];
    }

    method ObserveDropped()
      modifies this`dropped
      ensures dropped == old(dropped) + 1
    {
      dropped := dropped + 1;
    }

    /** `adjust` when no other call runs meanwhile. */
    method Adjust() returns (changed: bool, before: int, after: int)
      requires Valid()
      modifies this
      ensures Valid() && win == [] && dropped == 0 && maxLimit == old(maxLimit)
      ensures old(win) == [] ==>
                !changed && limit == old(limit) && floor == old(floor) && adjustCount == old(adjustCount)
      ensures old(win) != [] ==>
                && floor == NextFloor(old(floor), P90(old(win))) && adjustCount == old(adjustCount) + 1
                && limit == Clamp(Scale(old(limit), old(dropped) > 0 || Queued(floor, P90(old(win)))), old(maxLimit))
      ensures before == old(limit).Floor && after == limit.Floor && (changed <==> before != after)
    {
      var samples, losses, level, base := win, dropped, limit, floor;
      win, dropped := [], 0;
      before := level.Floor;
      if |samples| == 0 {
        return false, before, before;
      }
      var p90 := P90(samples);
      if base == 0 || p90 < base {
        base := p90;
      } else if p90 > base {
        base := base + (p90 - base) / 8;
      }
      if losses > 0 || Queued(base, p90) {
        level := level * 0.85;
      } else {
        level := level + level * 0.125;
      }
      if level > maxLimit {
        level := maxLimit;
      }
      if level < MIN_LIMIT {
        level := MIN_LIMIT;
      }
      changed := level.Floor != limit.Floor;
      limit, floor, adjustCount := level, base, adjustCount + 1;
      after := level.Floor;
    }
  }

  // ----- any number of adjustments at once

  /** An adjustment between its steps; the ceiling may rise between the two reads of it. */
  datatype Pc =
    | Idle
    | Snapped(win: seq<int>, dropped: nat, limit: real, floor: int)
    | Scaled(limit: real, floor: int)
    | Above(floor: int)
    | Capped(limit: real, floor: int)

  /** `ceiling` is the greatest ceiling asked for so far, and `seen` collects the p90 of each window. */
  datatype State = State(
    limit: real, maxLimit: real, floor: int, win: seq<int>, dropped: nat,
    ceiling: int, seen: set<int>, pcs: seq<Pc>)

  datatype Event = Observe(duration: int) | Drop | Share(ceiling: int) | Move(thread: nat)

  /** The ceiling that the constructor goes by. */
  function Effective(requested: int): int {
    if requested <= 0 then DEFAULT_CEILING else requested
  }

  ghost predicate Init(first: int, s: State) {
    && s.win == [] && s.dropped == 0 && s.seen == {} && s.floor >= 0
    && s.ceiling == first && s.maxLimit == MaxReal(MIN_LIMIT, Effective(first) as real)
    && MinReal(MIN_LIMIT, Effective(first) as real) <= s.limit <= s.maxLimit
    && forall t | 0 <= t < |s.pcs| :: s.pcs[t] == Idle
  }

  predicate Step(s: State, s': State, e: Event) {
    match e
    case Observe(d) => s' == if d <= 0 then s else s.(win := s.win + [d])
    case Drop => s' == s.(dropped := s.dropped + 1)
    case Share(ceiling) => s' == if ceiling > s.ceiling then s.(maxLimit := ceiling as real, ceiling := ceiling) else s
    case Move(t) => t < |s.pcs| && s' == Advance(s, t)
  }

  function Advance(s: State, t: nat): State
    requires t < |s.pcs|
  {
    match s.pcs[t]
    case Idle =>
      var emptied := s.(win := [], dropped := 0);
      if s.win == [] then emptied else emptied.(pcs := s.pcs[t := Snapped(s.win, s.dropped, s.limit, s.floor)])
    case Snapped(win, dropped, limit, floor) =>
      var p90 := P90(win);
      var base := NextFloor(floor, p90);
      s.(seen := s.seen + {p90}, pcs := s.pcs[t := Scaled(Scale(limit, dropped > 0 || Queued(base, p90)), base)])
    case Scaled(limit, floor) =>
      s.(pcs := s.pcs[t := if limit > s.maxLimit then Above(floor) else Capped(limit, floor)])
    case Above(floor) => s.(pcs := s.pcs[t := Capped(s.maxLimit, floor)])
    case Capped(limit, floor) =>
      s.(limit := if limit < MIN_LIMIT then MIN_LIMIT else limit, floor := floor, pcs := s.pcs[t := Idle])
  }

  function AdvanceTimes(s: State, t: nat, n: nat): State
    requires t < |s.pcs|
    decreases n
  {
    if n == 0 then s else AdvanceTimes(Advance(s, t), t, n - 1)
  }

  /** Left to itself an adjustment is done after four or five steps, with the effect of `Adjust`. */
  lemma UndisturbedAdjust(s: State, t: nat) returns (n: nat)
    requires t < |s.pcs| && s.pcs[t] == Idle && s.win != []
    ensures var p90 := P90(s.win);
            var base := NextFloor(s.floor, p90);
            AdvanceTimes(s, t, n)
            == s.(win := [], dropped := 0, seen := s.seen + {p90}, floor := base,
                  limit := Clamp(Scale(s.limit, s.dropped > 0 || Queued(base, p90)), s.maxLimit))
  {
    var s1 := Advance(s, t);
    var s2 := Advance(s1, t);
    var s3 := Advance(s2, t);
    var s4 := Advance(s3, t);
    if s3.pcs[t].Capped? {
      n := 4;
      assert AdvanceTimes(s, t, 4) == s4;
      assert s4.pcs == s.pcs;
    } else {
      n := 5;
      assert AdvanceTimes(s, t, 5) == Advance(s4, t);
      assert Advance(s4, t).pcs == s.pcs;
    }
  }

  ghost predicate Next(s: State, s': State) {
    exists e :: Step(s, s', e)
  }

  ghost predicate IsRun(first: int, run: seq<State>) {
    run != [] && Init(first, run[0]) && forall i | 0 <= i < |run| - 1 :: Next(run[i], run[i + 1])
  }

  function Top(first: int, ceiling: int): real {
    MaxReal(MIN_LIMIT, Max(Effective(first), ceiling) as real)
  }

  predicate InRange(first: int, ceiling: int, limit: real) {
    MinReal(MIN_LIMIT, Effective(first) as real) <= limit <= Top(first, ceiling)
  }

  /** The floor is unset, or was there at the start, or lies between two p90s seen. */
  ghost predicate FloorOk(initial: int, seen: set<int>, floor: int) {
    floor == initial || (initial == 0 && exists a, b :: a in seen && b in seen && a <= floor <= b)
      || (initial != 0 && floor > 0)
  }

  ghost predicate PcOk(first: int, initial: int, s: State, pc: Pc) {
    match pc
    case Idle => true
    case Snapped(win, _, limit, floor) =>
      win != [] && (forall i | 0 <= i < |win| :: win[i] > 0) && floor >= 0 && FloorOk(initial, s.seen, floor)
    case Scaled(_, floor) => floor > 0 && FloorOk(initial, s.seen, floor)
    case Above(floor) => floor > 0 && FloorOk(initial, s.seen, floor)
    case Capped(limit, floor) =>
      limit <= Top(first, s.ceiling) && floor > 0 && FloorOk(initial, s.seen, floor)
  }

  ghost predicate Inv(first: int, initial: int, s: State) {
    && first <= s.ceiling && s.maxLimit <= Top(first, s.ceiling) && InRange(first, s.ceiling, s.limit)
    && (forall i | 0 <= i < |s.win| :: s.win[i] > 0)
    && s.floor >= 0 && FloorOk(initial, s.seen, s.floor)
    && (forall p | p in s.seen :: p > 0)
    && forall t | 0 <= t < |s.pcs| :: PcOk(first, initial, s, s.pcs[t])
  }

  lemma FloorStep(initial: int, seen: set<int>, floor: int, p90: int)
    requires initial >= 0 && floor >= 0 && p90 > 0 && FloorOk(initial, seen, floor)
    ensures NextFloor(floor, p90) > 0 && FloorOk(initial, seen + {p90}, NextFloor(floor, p90))
  {
    var next := NextFloor(floor, p90);
    assert p90 in seen + {p90};
    if initial == 0 && floor != 0 {
      var a, b :| a in seen && b in seen && a <= floor <= b;
      assert a in seen + {p90};
      assert floor <= p90 ==> a <= next <= p90;
    }
  }

  lemma PcKept(first: int, initial: int, s: State, s': State, pc: Pc)
    requires PcOk(first, initial, s, pc) && s.ceiling <= s'.ceiling && s.seen <= s'.seen
    ensures PcOk(first, initial, s', pc)
  {
  }

  lemma P90Positive(win: seq<int>)
    requires win != [] && forall i | 0 <= i < |win| :: win[i] > 0
    ensures P90(win) > 0
  {
  }

  lemma AdvanceHolds(first: int, initial: int, s: State, t: nat)
    requires initial >= 0 && Inv(first, initial, s) && t < |s.pcs|
    ensures Inv(first, initial, Advance(s, t))
  {
    var s' := Advance(s, t);
    assert PcOk(first, initial, s, s.pcs[t]);
    if s.pcs[t].Snapped? {
      P90Positive(s.pcs[t].win);
      FloorStep(initial, s.seen, s.pcs[t].floor, P90(s.pcs[t].win));
    }
    assert PcOk(first, initial, s', s'.pcs[t]);
    forall u | 0 <= u < |s'.pcs|
      ensures PcOk(first, initial, s', s'.pcs[u])
    {
      if u != t {
        PcKept(first, initial, s, s', s.pcs[u]);
      }
    }
  }

  lemma NextHolds(first: int, initial: int, s: State, s': State)
    requires initial >= 0 && Inv(first, initial, s) && Next(s, s')
    ensures Inv(first, initial, s')
  {
    var e :| Step(s, s', e);
    if e.Move? {
      AdvanceHolds(first, initial, s, e.thread);
    } else {
      forall t | 0 <= t < |s'.pcs|
        ensures PcOk(first, initial, s', s'.pcs[t])
      {
        PcKept(first, initial, s, s', s.pcs[t]);
      }
    }
  }

  lemma {:induction false} RunHolds(first: int, run: seq<State>, n: nat)
    requires IsRun(first, run) && n < |run|
    ensures Inv(first, run[0].floor, run[n])
  {
    if n > 0 {
      RunHolds(first, run, n - 1);
      assert Next(run[n - 1], run[n - 1 + 1]);
      NextHolds(first, run[0].floor, run[n - 1], run[n]);
    }
  }

  /** However the adjustments interleave and the ceiling is raised, the limit stays between the lesser of
      8 and the first ceiling and the greater of 8 and the greatest ceiling; and the floor, if none was
      loaded, is unset or lies between two p90s seen. */
  lemma ControllerSafe(first: int, run: seq<State>, n: nat)
    requires IsRun(first, run) && n < |run|
    ensures InRange(first, run[n].ceiling, run[n].limit)
    ensures first > 0 ==>
              MinReal(8.0, first as real) <= run[n].limit <= MaxReal(8.0, run[n].ceiling as real)
    ensures run[0].floor == 0 && run[n].floor != 0 ==>
              exists a, b :: a in run[n].seen && b in run[n].seen && 0 < a <= run[n].floor <= b
  {
    RunHolds(first, run, n);
  }

  /** Some run ends with `c` as the greatest ceiling asked for and a limit above it. */
  ghost predicate CanExceed(first: int, c: int) {
    exists run: seq<State> :: IsRun(first, run) && EndsAbove(run, c)
  }

  ghost predicate EndsAbove(run: seq<State>, c: int)
    requires run != []
  {
    run[|run| - 1].ceiling == c && run[|run| - 1].limit > MaxReal(MIN_LIMIT, c as real)
  }

  /** The limit can be above the greatest ceiling asked for, once that is positive, exactly when the first
      one was not and the default that took its place is greater. */
  lemma CeilingExceededIff(first: int, c: int)
    requires c > 0
    ensures CanExceed(first, c) <==> first <= 0 && c < 128
  {
    if CanExceed(first, c) {
      var run: seq<State> :| IsRun(first, run) && EndsAbove(run, c);
      ControllerSafe(first, run, |run| - 1);
    }
    if first <= 0 && c < DEFAULT_CEILING {
      var cap := DEFAULT_CEILING as real;
      var s := State(cap, cap, 0, [], 0, first, {}, []);
      var s' := s.(maxLimit := c as real, ceiling := c);
      assert Step(s, s', Share(c));
      var run := [s, s'];
      assert IsRun(first, run) && EndsAbove(run, c);
    }
  }

  // ----- steady load

  datatype Level = Level(limit: real, floor: int)

  /** One undisturbed adjustment without drops. */
  function Round(maxLimit: real, p90: int, c: Level): Level {
    var base := NextFloor(c.floor, p90);
    Level(Clamp(Scale(c.limit, Queued(base, p90)), maxLimit), base)
  }

  function Rounds(maxLimit: real, p90: int, c: Level, k: nat): Level {
    if k == 0 then c else Round(maxLimit, p90, Rounds(maxLimit, p90, c, k - 1))
  }

  /** Whether round `k`, counting from zero, lowers the limit. */
  predicate DecreasesAt(maxLimit: real, p90: int, c: Level, k: nat) {
    Queued(NextFloor(Rounds(maxLimit, p90, c, k).floor, p90), p90)
  }

  /** Where the floor comes to rest: an eighth of a distance below 8 is nothing. */
  function RestingFloor(floor: int, p90: int): int {
    if floor == 0 || floor >= p90 then p90 else Max(floor, p90 - 7)
  }

  lemma {:induction false} FloorStays(maxLimit: real, p90: int, c: Level, k: nat)
    requires p90 > 0 && c.floor >= 0
    ensures var f := Rounds(maxLimit, p90, c, k).floor;
            && (0 < c.floor <= p90 ==> c.floor <= f <= RestingFloor(c.floor, p90))
            && (c.floor == 0 || c.floor > p90 ==> f == if k == 0 then c.floor else p90)
  {
    if k > 0 {
      FloorStays(maxLimit, p90, c, k - 1);
    }
  }

  /** How far the floor is from rest, when it starts below the p90. */
  function Gap(maxLimit: real, p90: int, c: Level, k: nat): int {
    p90 - 7 - Rounds(maxLimit, p90, c, k).floor
  }

  lemma GapShrinks(maxLimit: real, p90: int, c: Level, k: nat)
    requires 0 < c.floor <= p90
    ensures 8 * Gap(maxLimit, p90, c, k + 1) <= 7 * Gap(maxLimit, p90, c, k)
  {
    FloorStays(maxLimit, p90, c, k);
  }

  lemma GapHalves(maxLimit: real, p90: int, c: Level, k: nat)
    requires 0 < c.floor <= p90
    ensures 2 * Gap(maxLimit, p90, c, k + 6) <= Max(0, Gap(maxLimit, p90, c, k))
  {
    GapShrinks(maxLimit, p90, c, k);
    GapShrinks(maxLimit, p90, c, k + 1);
    GapShrinks(maxLimit, p90, c, k + 2);
    GapShrinks(maxLimit, p90, c, k + 3);
    GapShrinks(maxLimit, p90, c, k + 4);
    GapShrinks(maxLimit, p90, c, k + 5);
  }

  function Pow2(m: nat): (p: nat)
    ensures p > 0
  {
    if m == 0 then 1 else 2 * Pow2(m - 1)
  }

  lemma {:induction false} Pow2Exceeds(m: nat)
    ensures Pow2(m) > m
  {
    if m > 0 {
      Pow2Exceeds(m - 1);
    }
  }

  /** The floor rests after a number of rounds that is logarithmic in its distance from the p90. */
  lemma {:induction false} GapCloses(maxLimit: real, p90: int, c: Level, k: nat, m: nat)
    requires 0 < c.floor <= p90 && Gap(maxLimit, p90, c, k) < Pow2(m)
    ensures Gap(maxLimit, p90, c, k + 6 * m) <= 0
    decreases m
  {
    if m > 0 {
      GapHalves(maxLimit, p90, c, k);
      GapCloses(maxLimit, p90, c, k + 6, m - 1);
      assert k + 6 + 6 * (m - 1) == k + 6 * m;
    }
  }

  /** Whether a steady p90 lets the controller recover: it does unless it is under 19 ns and more
      than 1.6 times a floor already set. */
  predicate CanRecover(floor: int, p90: int) {
    p90 >= 19 || floor == 0 || 5 * p90 <= 8 * floor
  }

  /** Every round from here on is settled one way or the other. */
  lemma SettledRounds(maxLimit: real, p90: int, c: Level, m: nat, k: nat)
    requires p90 > 0 && c.floor >= 0
    ensures !CanRecover(c.floor, p90) ==> DecreasesAt(maxLimit, p90, c, k)
    ensures CanRecover(c.floor, p90) && p90 - 7 - c.floor < Pow2(m) && k >= 6 * m ==> !DecreasesAt(maxLimit, p90, c, k)
  {
    FloorStays(maxLimit, p90, c, k + 1);
    assert NextFloor(Rounds(maxLimit, p90, c, k).floor, p90) == Rounds(maxLimit, p90, c, k + 1).floor;
    if 0 < c.floor <= p90 && p90 - 7 - c.floor < Pow2(m) && k >= 6 * m {
      GapCloses(maxLimit, p90, c, 0, m);
      GapStaysClosed(maxLimit, p90, c, 6 * m, k + 1);
    }
  }

  lemma {:induction false} GapStaysClosed(maxLimit: real, p90: int, c: Level, n: nat, k: nat)
    requires 0 < c.floor <= p90 && n <= k && Gap(maxLimit, p90, c, n) <= 0
    ensures Gap(maxLimit, p90, c, k) <= 0
    decreases k - n
  {
    if n < k {
      GapShrinks(maxLimit, p90, c, n);
      GapStaysClosed(maxLimit, p90, c, n + 1, k);
    }
  }

  ghost predicate NoDecreaseFrom(maxLimit: real, p90: int, c: Level, n: nat) {
    forall k: nat | k >= n :: !DecreasesAt(maxLimit, p90, c, k)
  }

  ghost predicate DecreasesStop(maxLimit: real, p90: int, c: Level) {
    exists n: nat :: NoDecreaseFrom(maxLimit, p90, c, n)
  }

  /** Under a constant p90 without drops the decreases stop exactly when that condition holds; else
      every single round is a decrease. */
  lemma DecreasesStopIff(maxLimit: real, p90: int, c: Level)
    requires p90 > 0 && c.floor >= 0
    ensures DecreasesStop(maxLimit, p90, c) <==> CanRecover(c.floor, p90)
    ensures !CanRecover(c.floor, p90) ==> forall k: nat :: DecreasesAt(maxLimit, p90, c, k)
  {
    Pow2Exceeds(p90);
    forall k: nat
      ensures !CanRecover(c.floor, p90) ==> DecreasesAt(maxLimit, p90, c, k)
      ensures CanRecover(c.floor, p90) && k >= 6 * p90 ==> !DecreasesAt(maxLimit, p90, c, k)
    {
      SettledRounds(maxLimit, p90, c, p90, k);
    }
    if CanRecover(c.floor, p90) {
      assert NoDecreaseFrom(maxLimit, p90, c, 6 * p90);
    } else {
      assert forall n: nat :: DecreasesAt(maxLimit, p90, c, n) ==> !NoDecreaseFrom(maxLimit, p90, c, n);
    }
  }

  /** In a round that does not decrease it, the limit grows by an eighth up to the top. */
  lemma LimitClimbs(maxLimit: real, p90: int, c: Level, k: nat, b: real)
    requires !DecreasesAt(maxLimit, p90, c, k)
    requires MinReal(MaxReal(MIN_LIMIT, maxLimit), b) <= Rounds(maxLimit, p90, c, k).limit && b >= 0.0
    ensures MinReal(MaxReal(MIN_LIMIT, maxLimit), b + b / 8.0) <= Rounds(maxLimit, p90, c, k + 1).limit
  {
  }

  lemma LimitClimbsThree(maxLimit: real, p90: int, c: Level, k: nat, b: real)
    requires forall i: nat | k <= i < k + 3 :: !DecreasesAt(maxLimit, p90, c, i)
    requires MinReal(MaxReal(MIN_LIMIT, maxLimit), b) <= Rounds(maxLimit, p90, c, k).limit && b >= 0.0
    ensures MinReal(MaxReal(MIN_LIMIT, maxLimit), 1.42 * b) <= Rounds(maxLimit, p90, c, k + 3).limit
  {
    var b1 := b + b / 8.0;
    var b2 := b1 + b1 / 8.0;
    LimitClimbs(maxLimit, p90, c, k, b);
    LimitClimbs(maxLimit, p90, c, k + 1, b1);
    LimitClimbs(maxLimit, p90, c, k + 2, b2);
  }

  lemma LimitDoubles(maxLimit: real, p90: int, c: Level, k: nat, b: real)
    requires forall i: nat | k <= i < k + 6 :: !DecreasesAt(maxLimit, p90, c, i)
    requires MinReal(MaxReal(MIN_LIMIT, maxLimit), b) <= Rounds(maxLimit, p90, c, k).limit && b >= 0.0
    ensures MinReal(MaxReal(MIN_LIMIT, maxLimit), 2.0 * b) <= Rounds(maxLimit, p90, c, k + 6).limit
  {
    LimitClimbsThree(maxLimit, p90, c, k, b);
    LimitClimbsThree(maxLimit, p90, c, k + 3, 1.42 * b);
  }

  /** `b` doubled `j` times. */
  function Doubled(b: real, j: nat): real
    decreases j
  {
    if j == 0 then b else Doubled(2.0 * b, j - 1)
  }

  lemma {:induction false} LimitReaches(maxLimit: real, p90: int, c: Level, k: nat, b: real, j: nat)
    requires forall i: nat | k <= i < k + 6 * j :: !DecreasesAt(maxLimit, p90, c, i)
    requires MinReal(MaxReal(MIN_LIMIT, maxLimit), b) <= Rounds(maxLimit, p90, c, k).limit && b >= 0.0
    ensures MinReal(MaxReal(MIN_LIMIT, maxLimit), Doubled(b, j)) <= Rounds(maxLimit, p90, c, k + 6 * j).limit
    decreases j
  {
    if j > 0 {
      LimitDoubles(maxLimit, p90, c, k, b);
      LimitReaches(maxLimit, p90, c, k + 6, 2.0 * b, j - 1);
      assert k + 6 + 6 * (j - 1) == k + 6 * j;
    }
  }

  /** And then the limit reaches the ceiling and stays there, after a number of rounds that is logarithmic
      in the distance of the floor and in the ceiling. */
  lemma LimitRecovers(maxLimit: real, p90: int, c: Level, m: nat, j: nat, k: nat)
    requires p90 > 0 && c.floor >= 0 && CanRecover(c.floor, p90)
    requires p90 - 7 - c.floor < Pow2(m) && maxLimit <= Doubled(MIN_LIMIT, j) && k >= 6 * m + 6 * j + 1
    ensures Rounds(maxLimit, p90, c, k).limit == MaxReal(MIN_LIMIT, maxLimit)
  {
    var n := k - 6 * j;
    forall i: nat | 6 * m <= i < k
      ensures !DecreasesAt(maxLimit, p90, c, i)
    {
      SettledRounds(maxLimit, p90, c, m, i);
    }
    assert Rounds(maxLimit, p90, c, n).limit >= MIN_LIMIT;
    LimitReaches(maxLimit, p90, c, n, MIN_LIMIT, j);
    DoubledAtLeast(MIN_LIMIT, j);
  }

  lemma {:induction false} DoubledAtLeast(b: real, j: nat)
    requires b >= 0.0
    ensures Doubled(b, j) >= b
    decreases j
  {
    if j > 0 {
      DoubledAtLeast(2.0 * b, j - 1);
    }
  }

  /** With the default ceiling, a p90 of up to four seconds is recovered from within 217 rounds. */
  lemma RecoversWithin217(p90: int, c: Level, k: nat)
    requires 19 <= p90 <= 4000000000 && c.floor >= 0 && k >= 217
    ensures Rounds(128.0, p90, c, k).limit == 128.0
  {
    assert Pow2(8) == 256;
    assert Pow2(16) == 65536;
    assert Pow2(24) == 16777216;
    assert Pow2(32) == 4294967296;
    assert Doubled(8.0, 4) == 128.0;
    LimitRecovers(128.0, p90, c, 32, 4, k);
  }

  /** The integer division can stall: with a floor of 11 ns a steady 18 ns is taken for queueing in
      every round. */
  lemma StalledFloor(maxLimit: real, limit: real, k: nat)
    ensures DecreasesAt(maxLimit, 18, Level(limit, 11), k)
  {
    DecreasesStopIff(maxLimit, 18, Level(limit, 11));
  }
}
