/** Propagation over a table that was published at some moment of a run of registrations. */
module Dispatching {
  import opened Callbacks
  import HandlerTable
  import opened Propagation

  /** The published handlers as one update meets them. */
  function Seen<H, E>(look: H -> Handler<E>, groups: HandlerTable.Groups<H>): (table: Table<E>)
    ensures |table| == |groups|
    ensures forall g | 0 <= g < |groups| ::
              && |table[g]| == |groups[g].handlers|
              && forall h | 0 <= h < |groups[g].handlers| :: table[g][h] == look(groups[g].handlers[h])
  {
    seq(|groups|, g requires 0 <= g < |groups| =>
      seq(|groups[g].handlers|, h requires 0 <= h < |groups[g].handlers| => look(groups[g].handlers[h])))
  }

  ghost predicate IsDispatch<H, E(!new)>(look: H -> Handler<E>, groups: HandlerTable.Groups<H>, trace: seq<Position>) {
    IsTrace(Meetings(MeetUpdate, Seen(look, groups)), trace)
  }

  /** Whatever registrations are going on, an update that is dispatched over the table of some moment
      calls only handlers that were registered then and take it, each at most once per registration, with
      the group keys ascending and in a group the order of registration. */
  lemma DispatchFollowsPublished<H(!new), E(!new)>(
    ops: seq<HandlerTable.Op<H>>, run: seq<HandlerTable.State<H>>, n: nat, look: H -> Handler<E>, trace: seq<Position>)
    requires HandlerTable.IsRun(ops, run) && n < |run| && IsDispatch(look, run[n].groups, trace)
    ensures var groups := run[n].groups;
            && (forall i | 0 <= i < |trace| ::
                  var p := trace[i];
                  && p.group < |groups| && p.handler < |groups[p.group].handlers|
                  && HandlerTable.Handlers(groups, groups[p.group].key) == groups[p.group].handlers
                  && TakesUpdate(Seen(look, groups), p))
            && forall i, j | 0 <= i < j < |trace| ::
                 var p, q := trace[i], trace[j];
                 || groups[p.group].key < groups[q.group].key
                 || (p.group == q.group && p.handler < q.handler)
  {
    HandlerTable.RunHolds(ops, run, n);
    var groups, grid := run[n].groups, Meetings(MeetUpdate, Seen(look, run[n].groups));
    forall i | 0 <= i < |trace|
      ensures var p := trace[i];
              && p.group < |groups| && p.handler < |groups[p.group].handlers|
              && HandlerTable.Handlers(groups, groups[p.group].key) == groups[p.group].handlers
              && TakesUpdate(Seen(look, groups), p)
    {
      assert trace[i] in trace;
      UpdateCallsIff(Seen(look, groups), trace, trace[i]);
      assert Called(grid, trace[i]);
      HandlerTable.HandlersAt(groups, trace[i].group);
    }
    forall i, j | 0 <= i < j < |trace|
      ensures var p, q := trace[i], trace[j];
              groups[p.group].key < groups[q.group].key || (p.group == q.group && p.handler < q.handler)
    {
      assert Before(trace[i], trace[j]);
    }
  }
}
