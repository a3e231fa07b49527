/** Which callbacks an update or an exception calls, read off the registered handlers themselves. */
module Callbacks {
  import opened Prelude
  import opened Propagation

  predicate InTable<E>(table: Table<E>, p: Position) {
    p.group < |table| && p.handler < |table[p.group]|
  }

  // ----- updates

  /** A handler that is not for errors, whose filter passes, and which is for all updates or of the type
      that the parser names. */
  predicate TakesUpdate<E>(table: Table<E>, p: Position) {
    && InTable(table, p)
    && (table[p.group][p.handler].RawUpdateHandler? || table[p.group][p.handler].UpdateHandler?)
    && table[p.group][p.handler].check == Passes
    && (table[p.group][p.handler].UpdateHandler? ==> table[p.group][p.handler].matches)
  }

  lemma MeetsUpdate<E>(table: Table<E>, p: Position)
    ensures var grid := Meetings(MeetUpdate, table);
            && (Meets(grid, p) <==> TakesUpdate(table, p))
            && (Meets(grid, p) ==> EffectAt(grid, p) == table[p.group][p.handler].effect)
  {
  }

  /** An update calls exactly the handlers that take it, except those behind one of the same group that did
      other than continue, and those of groups behind a callback that was called and stopped the update. */
  lemma UpdateCallsIff<E(!new)>(table: Table<E>, trace: seq<Position>, p: Position)
    requires IsTrace(Meetings(MeetUpdate, table), trace)
    ensures p in trace <==>
              && TakesUpdate(table, p)
              && (forall h: nat | h < p.handler && TakesUpdate(table, Position(p.group, h)) ::
                    table[p.group][h].effect.Continues?)
              && (forall q | q in trace && q.group < p.group :: !table[q.group][q.handler].effect.Stops?)
  {
    var grid := Meetings(MeetUpdate, table);
    forall q
      ensures Meets(grid, q) <==> TakesUpdate(table, q)
      ensures Meets(grid, q) ==> EffectAt(grid, q) == table[q.group][q.handler].effect
    {
      MeetsUpdate(table, q);
    }
    CalledIff(grid, trace, p);
  }

  /** The same on a grid of meetings: what blocks a callback is itself in the trace. */
  lemma CalledIff<E(!new)>(grid: Grid<E>, trace: seq<Position>, p: Position)
    requires IsTrace(grid, trace)
    ensures p in trace <==>
              && Meets(grid, p)
              && (forall h: nat | h < p.handler && Meets(grid, Position(p.group, h)) ::
                    EffectAt(grid, Position(p.group, h)).Continues?)
              && (forall q | q in trace && q.group < p.group :: !EffectAt(grid, q).Stops?)
  {
    assert ReachedInGroup(grid, p) <==>
             && Meets(grid, p)
             && (forall h: nat | h < p.handler && Meets(grid, Position(p.group, h)) ::
                   EffectAt(grid, Position(p.group, h)).Continues?) by {
      ReachedIff(grid, p);
    }
    if ReachedInGroup(grid, p) && forall q | q in trace && q.group < p.group :: !EffectAt(grid, q).Stops? {
      forall q: Position | q.group < p.group && ReachedInGroup(grid, q)
        ensures !EffectAt(grid, q).Stops?
      {
        if EffectAt(grid, q).Stops? {
          StopIsCalled(grid, trace, q);
        }
      }
    }
  }

  lemma ReachedIff<E>(grid: Grid<E>, p: Position)
    ensures ReachedInGroup(grid, p) <==>
              && Meets(grid, p)
              && (forall h: nat | h < p.handler && Meets(grid, Position(p.group, h)) ::
                    EffectAt(grid, Position(p.group, h)).Continues?)
  {
    if Meets(grid, p) {
      assert forall h: nat | h < p.handler :: Meets(grid, Position(p.group, h)) <==> grid[p.group][h].Some?;
    }
  }

  /** Of the callbacks that stop and that their groups reach, the one of the first such group is called. */
  lemma {:induction false} StopIsCalled<E(!new)>(grid: Grid<E>, trace: seq<Position>, q: Position)
    requires IsTrace(grid, trace) && ReachedInGroup(grid, q) && EffectAt(grid, q).Stops?
    ensures exists r :: r in trace && r.group <= q.group && Meets(grid, r) && EffectAt(grid, r).Stops?
    decreases q.group
  {
    if Called(grid, q) {
      assert q in trace;
    } else {
      var r: Position :| r.group < q.group && ReachedInGroup(grid, r) && EffectAt(grid, r).Stops?;
      StopIsCalled(grid, trace, r);
    }
  }

  // ----- exceptions

  /** An error handler that is for the exception. */
  predicate TakesError<E>(table: Table<E>, exc: E, p: Position) {
    && InTable(table, p)
    && table[p.group][p.handler].ErrorHandler? && table[p.group][p.handler].handles(exc)
  }

  /** An exception calls exactly the error handlers for it, in the same way. */
  lemma ErrorCallsIff<E(!new)>(table: Table<E>, exc: E, trace: seq<Position>, p: Position)
    requires IsTrace(Meetings(h => MeetError(exc, h), table), trace)
    ensures p in trace <==>
              && TakesError(table, exc, p)
              && (forall h: nat | h < p.handler && TakesError(table, exc, Position(p.group, h)) ::
                    table[p.group][h].onError(exc).Continues?)
              && (forall q | q in trace && q.group < p.group :: !table[q.group][q.handler].onError(exc).Stops?)
  {
    var grid := Meetings(h => MeetError(exc, h), table);
    forall q
      ensures Meets(grid, q) <==> TakesError(table, exc, q)
      ensures Meets(grid, q) ==> EffectAt(grid, q) == table[q.group][q.handler].onError(exc)
    {
    }
    CalledIff(grid, trace, p);
  }

  /** A handler whose filter fails is skipped, and the next of its group is called in its place. */
  lemma FilteredOutIsSkipped<E(!new)>(later: Handler<E>, trace: seq<Position>)
    requires later == UpdateHandler(true, Passes, Returns)
    requires IsTrace(Meetings(MeetUpdate, [[UpdateHandler(true, Fails, Returns), later]]), trace)
    ensures trace == [Position(0, 1)]
  {
    var table := [[UpdateHandler(true, Fails, Returns), later]];
    forall p
      ensures p in trace <==> p in [Position(0, 1)]
    {
      UpdateCallsIff(table, trace, p);
    }
    TraceUnique(trace, [Position(0, 1)]);
  }
}
