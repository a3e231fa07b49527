/** How one update travels through a snapshot of the handler table: groups in order, and in each
    group the handlers in order until one does not continue. */
module Propagation {
  import opened Prelude

  /** How a callback ends. */
  datatype Effect<E> = Returns | Continues | Stops | Raises(exc: E)

  /** What the handler's filter answers. */
  datatype Check = Passes | Fails | CheckRaises

  /** A registered handler as the update meets it. An error handler lists nothing but the exceptions
      it is for; `matches` says that the handler is of the type the parser names. */
  datatype Handler<!E> =
    | ErrorHandler(handles: E -> bool, onError: E -> Effect<E>)
    | RawUpdateHandler(check: Check, effect: Effect<E>)
    | UpdateHandler(matches: bool, check: Check, effect: Effect<E>)

  type Table<!E> = seq<seq<Handler<E>>>

  datatype Position = Position(group: nat, handler: nat)

  /** What a pass over the table makes of a handler: skip it, or call it and see how it ends. */
  type Meeting<E> = Option<Effect<E>>
  type Grid<E> = seq<seq<Meeting<E>>>

  function MeetUpdate<E>(h: Handler<E>): Meeting<E> {
    match h
    case ErrorHandler(_, _) => None
    case RawUpdateHandler(check, effect) => if check == Passes then Some(effect) else None
    case UpdateHandler(matches, check, effect) => if matches && check == Passes then Some(effect) else None
  }

  function MeetError<E>(exc: E, h: Handler<E>): Meeting<E> {
    if h.ErrorHandler? && h.handles(exc) then Some(h.onError(exc)) else None
  }

  function Meetings<E>(meet: Handler<E> -> Meeting<E>, table: Table<E>): (grid: Grid<E>)
    ensures |grid| == |table|
    ensures forall g | 0 <= g < |table| ::
              |grid[g]| == |table[g]| && forall h | 0 <= h < |table[g]| :: grid[g][h] == meet(table[g][h])
  {
    seq(|table|, g requires 0 <= g < |table| => seq(|table[g]|, h requires 0 <= h < |table[g]| => meet(table[g][h])))
  }

  // ----- who is called

  predicate Meets<E>(grid: Grid<E>, p: Position) {
    p.group < |grid| && p.handler < |grid[p.group]| && grid[p.group][p.handler].Some?
  }

  function EffectAt<E>(grid: Grid<E>, p: Position): Effect<E>
    requires Meets(grid, p)
  {
    grid[p.group][p.handler].value
  }

  /** Within its group: everything that would be called before it continues. */
  ghost predicate ReachedInGroup<E>(grid: Grid<E>, p: Position) {
    Meets(grid, p) && forall h: nat | h < p.handler && grid[p.group][h].Some? :: grid[p.group][h] == Some(Continues)
  }

  /** A callback is called when its group reaches it and no earlier group stopped the update. */
  ghost predicate Called<E(!new)>(grid: Grid<E>, p: Position) {
    && ReachedInGroup(grid, p)
    && forall q: Position | q.group < p.group && ReachedInGroup(grid, q) :: !EffectAt(grid, q).Stops?
  }

  predicate Before(p: Position, q: Position) {
    p.group < q.group || (p.group == q.group && p.handler < q.handler)
  }

  predicate InOrder(trace: seq<Position>) {
    forall i, j | 0 <= i < j < |trace| :: Before(trace[i], trace[j])
  }

  /** The trace of a pass: exactly the callbacks that are called, in table order. */
  ghost predicate IsTrace<E(!new)>(grid: Grid<E>, trace: seq<Position>) {
    InOrder(trace) && forall p :: p in trace <==> Called(grid, p)
  }

  // ----- what that means

  /** Of the callbacks called in one group only the last may do other than continue, and nothing is
      called after one that stops the update. */
  lemma TraceShape<E(!new)>(grid: Grid<E>, trace: seq<Position>, i: nat, j: nat)
    requires IsTrace(grid, trace) && i < j < |trace|
    ensures Meets(grid, trace[i]) && !EffectAt(grid, trace[i]).Stops?
    ensures trace[i].group == trace[j].group ==> EffectAt(grid, trace[i]).Continues?
  {
    var p, q := trace[i], trace[j];
    assert p in trace && q in trace && Before(p, q);
    assert grid[p.group][p.handler].Some?;
  }

  /** As far as propagation goes, an ordinary exception is a return: it ends its own group and no
      other. Two tables that differ only in that call the same callbacks. */
  ghost predicate SameButForExceptions<E>(a: Grid<E>, b: Grid<E>) {
    && |a| == |b| && (forall g | 0 <= g < |a| :: |a[g]| == |b[g]|)
    && forall g, h | 0 <= g < |a| && 0 <= h < |a[g]| ::
         a[g][h] == b[g][h] || (Quiet(a[g][h]) && Quiet(b[g][h]))
  }

  predicate Quiet<E>(m: Meeting<E>) {
    m.Some? && (m.value.Returns? || m.value.Raises?)
  }

  lemma ExceptionEndsOnlyItsGroup<E(!new)>(a: Grid<E>, b: Grid<E>, p: Position)
    requires SameButForExceptions(a, b)
    ensures Called(a, p) <==> Called(b, p)
  {
  }

  /** A trace is determined by the table. */
  lemma {:induction false} TraceUnique(s: seq<Position>, t: seq<Position>)
    requires InOrder(s) && InOrder(t) && forall p :: p in s <==> p in t
    ensures s == t
  {
    assert s != [] ==> s[0] in s;
    assert t != [] ==> t[0] in t;
    if s != [] && t != [] {
      assert s[0] == t[0];
      forall p
        ensures p in s[1..] <==> p in t[1..]
      {
        RestOfTrace(s, p);
        RestOfTrace(t, p);
      }
      TraceUnique(s[1..], t[1..]);
    }
  }

  lemma RestOfTrace(s: seq<Position>, p: Position)
    requires s != [] && InOrder(s)
    ensures p in s[1..] <==> p in s && p != s[0]
  {
    assert s == [s[0]] + s[1..];
  }

  // ----- the loops

  datatype Ending<E> = Exhausted | Ended(effect: Effect<E>)

  /** The called part of one group, and how it ended. */
  ghost predicate GroupPass<E>(grid: Grid<E>, g: nat, trace: seq<Position>, ending: Ending<E>) {
    && g < |grid| && InOrder(trace) && (forall p :: p in trace <==> p.group == g && ReachedInGroup(grid, p))
    && match ending
       case Exhausted => forall p | p in trace :: EffectAt(grid, p).Continues?
       case Ended(effect) => trace != [] && !effect.Continues? && EffectAt(grid, trace[|trace| - 1]) == effect
  }

  /** Some callback of the trace did not raise. */
  ghost predicate SomeoneCalm<E>(grid: Grid<E>, trace: seq<Position>) {
    exists p :: p in trace && Meets(grid, p) && !EffectAt(grid, p).Raises?
  }

  lemma CalmExtends<E>(grid: Grid<E>, trace: seq<Position>, more: seq<Position>)
    ensures SomeoneCalm(grid, trace + more) <==> SomeoneCalm(grid, trace) || SomeoneCalm(grid, more)
    ensures forall p :: SomeoneCalm(grid, [p]) <==> Meets(grid, p) && !EffectAt(grid, p).Raises?
  {
    if p :| p in trace && Meets(grid, p) && !EffectAt(grid, p).Raises? {
      assert p in trace + more;
    }
    if p :| p in more && Meets(grid, p) && !EffectAt(grid, p).Raises? {
      assert p in trace + more;
    }
    forall p
      ensures SomeoneCalm(grid, [p]) <==> Meets(grid, p) && !EffectAt(grid, p).Raises?
    {
      assert p in [p];
    }
  }

  /** The inner loop: the handlers of one group until one does not continue. */
  method PassGroup<E>(meet: Handler<E> -> Meeting<E>, table: Table<E>, g: nat)
    returns (trace: seq<Position>, ending: Ending<E>, calm: bool)
    requires g < |table|
    ensures GroupPass(Meetings(meet, table), g, trace, ending)
    ensures calm <==> SomeoneCalm(Meetings(meet, table), trace)
  {
    ghost var grid: Grid<E> := Meetings(meet, table);
    trace, ending, calm := [], Exhausted, false;
    for h := 0 to |table[g]|
      invariant InOrder(trace) && ending == Exhausted
      invariant forall p :: p in trace <==> p.group == g && p.handler < h && grid[g][p.handler].Some?
      invariant forall k: nat | k < h && grid[g][k].Some? :: grid[g][k] == Some(Continues)
      invariant calm <==> SomeoneCalm(grid, trace)
    {
      var meeting := meet(table[g][h]);
      if meeting.None? {
        continue;
      }
      CalmExtends(grid, trace, [Position(g, h)]);
      trace := trace + [Position(g, h)];
      calm := calm || !meeting.value.Raises?;
      if meeting.value.Continues? {
        continue;
      }
      ending := Ended(meeting.value);
      assert grid[g][h] == meeting;
      break;
    }
  }

  /** What has been called once the first `n` groups are done with. */
  ghost predicate Progress<E(!new)>(grid: Grid<E>, n: nat, trace: seq<Position>) {
    && n <= |grid| && InOrder(trace)
    && (forall p :: p in trace <==> p.group < n && Called(grid, p))
    && (forall q: Position | q.group < n && ReachedInGroup(grid, q) :: !EffectAt(grid, q).Stops?)
  }

  /** One more group, which does not stop the update, or does and so ends the pass. */
  lemma PassOneMore<E(!new)>(grid: Grid<E>, n: nat, trace: seq<Position>, more: seq<Position>, ending: Ending<E>)
    requires Progress(grid, n, trace) && GroupPass(grid, n, more, ending)
    ensures if ending == Ended(Stops) then IsTrace(grid, trace + more) else Progress(grid, n + 1, trace + more)
  {
    var longer := trace + more;
    forall p
      ensures p in longer <==> p.group <= n && Called(grid, p)
    {
      assert p in longer <==> p in trace || p in more;
    }
    forall i, j | 0 <= i < j < |longer|
      ensures Before(longer[i], longer[j])
    {
      assert i < |trace| ==> longer[i] == trace[i] && trace[i] in trace;
      assert j >= |trace| ==> longer[j] == more[j - |trace|] && more[j - |trace|] in more;
    }
    LastStops(grid, n, more, ending);
  }

  lemma LastStops<E(!new)>(grid: Grid<E>, n: nat, more: seq<Position>, ending: Ending<E>)
    requires GroupPass(grid, n, more, ending)
    ensures forall q: Position | q.group == n && ReachedInGroup(grid, q) ::
              EffectAt(grid, q).Stops? <==> ending == Ended(Stops) && q == more[|more| - 1]
    ensures ending.Ended? ==> more[|more| - 1].group == n && ReachedInGroup(grid, more[|more| - 1])
  {
    assert ending.Ended? ==> more[|more| - 1] in more;
    forall q: Position | q.group == n && ReachedInGroup(grid, q)
      ensures EffectAt(grid, q).Stops? <==> ending == Ended(Stops) && q == more[|more| - 1]
    {
      assert q in more;
      if ending.Ended? && q != more[|more| - 1] {
        var last := more[|more| - 1];
        var i :| 0 <= i < |more| && more[i] == q;
        assert Before(q, last);
        assert grid[n][q.handler] == Some(Continues);
      }
    }
  }

  lemma ProgressComplete<E(!new)>(grid: Grid<E>, trace: seq<Position>)
    requires Progress(grid, |grid|, trace)
    ensures IsTrace(grid, trace)
  {
  }

  /** `handle_update_handler_exception`: the same pass over the error handlers for the exception; it
      tells whether one of them dealt with it. A handler that stops the pass stops nothing else. */
  method HandleException<E(!new)>(table: Table<E>, exc: E) returns (trace: seq<Position>, handled: bool)
    ensures IsTrace(Meetings(h => MeetError(exc, h), table), trace)
    ensures handled <==> SomeoneCalm(Meetings(h => MeetError(exc, h), table), trace)
  {
    var meet := h => MeetError(exc, h);
    ghost var grid: Grid<E> := Meetings(meet, table);
    trace, handled := [], false;
    for g := 0 to |table|
      invariant Progress(grid, g, trace) && (handled <==> SomeoneCalm(grid, trace))
    {
      var more, ending, calm := PassGroup(meet, table, g);
      PassOneMore(grid, g, trace, more, ending);
      CalmExtends(grid, trace, more);
      trace, handled := trace + more, handled || calm;
      if ending.Ended? && ending.effect.Stops? {
        return;
      }
    }
    ProgressComplete(grid, trace);
  }

  /** What became of one exception: where it was raised and which error handlers were called. */
  datatype Report<E> = Report(at: Position, exc: E, trace: seq<Position>, handled: bool)

  /** One report per callback of the trace that raised, in order. */
  ghost predicate Reports<E>(grid: Grid<E>, trace: seq<Position>, reports: seq<Report<E>>) {
    && (forall i, j | 0 <= i < j < |reports| :: Before(reports[i].at, reports[j].at))
    && (forall i | 0 <= i < |reports| ::
          reports[i].at in trace && Meets(grid, reports[i].at)
            && EffectAt(grid, reports[i].at) == Raises(reports[i].exc))
    && (forall p | p in trace && Meets(grid, p) && EffectAt(grid, p).Raises? ::
          exists i :: 0 <= i < |reports| && reports[i].at == p)
  }

  /** Each report is the pass of its exception over the table in force when it was raised. */
  ghost predicate Answered<E(!new)>(tableAt: Position -> Table<E>, reports: seq<Report<E>>) {
    forall i | 0 <= i < |reports| ::
      var r := reports[i];
      var grid := Meetings(h => MeetError(r.exc, h), tableAt(r.at));
      IsTrace(grid, r.trace) && (r.handled <==> SomeoneCalm(grid, r.trace))
  }

  predicate Raised<E>(ending: Ending<E>) {
    ending.Ended? && ending.effect.Raises?
  }

  lemma ReportsExtend<E(!new)>(
    grid: Grid<E>, n: nat, trace: seq<Position>, reports: seq<Report<E>>, more: seq<Position>, ending: Ending<E>,
    added: seq<Report<E>>)
    requires Progress(grid, n, trace) && Reports(grid, trace, reports) && GroupPass(grid, n, more, ending)
    requires if Raised(ending)
             then |added| == 1 && added[0].at == more[|more| - 1] && added[0].exc == ending.effect.exc
             else added == []
    ensures Reports(grid, trace + more, reports + added)
  {
    var longer := reports + added;
    assert ending.Ended? ==> more[|more| - 1] in more;
    LastRaises(grid, n, more, ending);
    forall p | p in trace + more && Meets(grid, p) && EffectAt(grid, p).Raises?
      ensures exists i :: 0 <= i < |longer| && longer[i].at == p
    {
      if p in trace {
        var i :| 0 <= i < |reports| && reports[i].at == p;
        assert longer[i].at == p;
      } else {
        assert longer[|longer| - 1].at == p;
      }
    }
  }

  lemma LastRaises<E(!new)>(grid: Grid<E>, n: nat, more: seq<Position>, ending: Ending<E>)
    requires GroupPass(grid, n, more, ending)
    ensures forall p | p in more && EffectAt(grid, p).Raises? :: Raised(ending) && p == more[|more| - 1]
  {
    assert ending.Ended? ==> more[|more| - 1] in more;
    forall p | p in more && EffectAt(grid, p).Raises?
      ensures Raised(ending) && p == more[|more| - 1]
    {
      var i :| 0 <= i < |more| && more[i] == p;
      var last := more[|more| - 1];
      assert i < |more| - 1 ==> Before(p, last);
      assert ReachedInGroup(grid, last) && grid[n][p.handler].Some?;
    }
  }

  lemma AnsweredExtends<E(!new)>(tableAt: Position -> Table<E>, reports: seq<Report<E>>, added: seq<Report<E>>)
    requires Answered(tableAt, reports) && Answered(tableAt, added)
    ensures Answered(tableAt, reports + added)
  {
  }

  /** The body of `handler_worker` for one packet. When the parser raises, nothing is called. */
  method HandleUpdate<E(!new)>(parsed: bool, table: Table<E>, tableAt: Position -> Table<E>)
    returns (trace: seq<Position>, reports: seq<Report<E>>)
    ensures !parsed ==> trace == [] && reports == []
    ensures parsed ==> IsTrace(Meetings(MeetUpdate, table), trace)
    ensures Reports(Meetings(MeetUpdate, table), trace, reports) && Answered(tableAt, reports)
  {
    ghost var grid: Grid<E> := Meetings(MeetUpdate, table);
    trace, reports := [], [];
    if !parsed {
      return;
    }
    for g := 0 to |table|
      invariant Progress(grid, g, trace) && Reports(grid, trace, reports) && Answered(tableAt, reports)
    {
      var more, ending, _ := PassGroup(MeetUpdate, table, g);
      PassOneMore(grid, g, trace, more, ending);
      var added := [];
      if Raised(ending) {
        var at := more[|more| - 1];
        var errorTrace, handled := HandleException(tableAt(at), ending.effect.exc);
        added := [Report(at, ending.effect.exc, errorTrace, handled)];
      }
      ReportsExtend(grid, g, trace, reports, more, ending, added);
      AnsweredExtends(tableAt, reports, added);
      trace, reports := trace + more, reports + added;
      if ending.Ended? && ending.effect.Stops? {
        return;
      }
    }
    ProgressComplete(grid, trace);
  }
}
