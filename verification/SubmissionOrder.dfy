/** What the order of submission follows from the history of the plugins, in numbers. */
module SubmissionOrder {
  import opened Prelude
  import opened OrderStatistics
  import opened PluginTiming

  // ----- what the history counts

  lemma Latest(history: seq<Event>)
    requires history != []
    ensures var before := history[..|history| - 1];
            history == before + [history[|history| - 1]]
            && multiset(history) == multiset(before) + multiset{history[|history| - 1]}
  {
    assert history == history[..|history| - 1] + [history[|history| - 1]];
  }

  /** Since it last returned, or from the start, a plugin's streak is the number of its time-outs. */
  lemma {:induction false} StreakCounts(before: seq<Event>, after: seq<Event>, name: string)
    requires name != "" && Returned(name) !in after
    requires before == [] || before[|before| - 1] == Returned(name)
    ensures TimeoutsSinceReturn(before + after, name) == multiset(after)[TimedOut(name)]
    decreases |after|
  {
    if after == [] {
      assert before + after == before;
    } else {
      Latest(after);
      var rest := after[..|after| - 1];
      assert (before + after)[..|before + after| - 1] == before + rest;
      StreakCounts(before, rest, name);
    }
  }

  /** Every positive duration observed for a plugin is recorded as often as it was observed. */
  lemma {:induction false} DurationsCount(history: seq<Event>, name: string, d: int)
    ensures multiset(Durations(history, name))[d]
            == if name != "" && d > 0 then multiset(history)[Observed(name, d)] else 0
    decreases |history|
  {
    if history != [] {
      Latest(history);
      DurationsCount(history[..|history| - 1], name, d);
    }
  }

  /** And the durations come in the order in which they were observed. */
  lemma {:induction false} DurationsInOrder(a: seq<Event>, b: seq<Event>, name: string)
    ensures Durations(a + b, name) == Durations(a, name) + Durations(b, name)
    decreases |b|
  {
    if b == [] {
      assert a + b == a;
    } else {
      assert (a + b)[..|a + b| - 1] == a + b[..|b| - 1];
      DurationsInOrder(a, b[..|b| - 1], name);
    }
  }

  // ----- the sorting key

  lemma Middle(n: nat)
    requires n > 0
    ensures RankIndex(n, 0.5) == (n - 1) / 2
  {
    var m := n - 1;
    assert 0.5 * m as real == (m / 2) as real + if m % 2 == 0 then 0.0 else 0.5 by {
      assert m == 2 * (m / 2) + m % 2;
    }
  }

  /** The last twenty durations recorded for a plugin, and all of them when there are fewer. */
  function LastTwenty(history: seq<Event>, name: string): seq<int> {
    var ds := Durations(history, name);
    if |ds| <= 20 then ds else ds[|ds| - 20..]
  }

  /** The key is -1 after two time-outs in a row, two seconds without a sample, and otherwise the lower
      median of the last twenty durations. */
  lemma PriorityIs(history: seq<Event>, name: string)
    ensures TimeoutsSinceReturn(history, name) >= 2 ==> Priority(history, name) == -1
    ensures TimeoutsSinceReturn(history, name) < 2 && LastTwenty(history, name) == [] ==>
              Priority(history, name) == 2_000_000_000
    ensures TimeoutsSinceReturn(history, name) < 2 && LastTwenty(history, name) != [] ==>
              var recent := LastTwenty(history, name);
              IsRank(recent, (|recent| - 1) / 2, Priority(history, name))
  {
    var recent := LastTwenty(history, name);
    if recent != [] {
      RankOfSort(recent, RankIndex(|recent|, 0.5));
      Middle(|recent|);
    }
  }

  // ----- the order

  /** The plugins are rearranged so that smaller keys go first, and equal keys stay as they were. */
  lemma ShortestFirst(history: seq<Event>, names: seq<string>, sorted: seq<string>)
    requires IsShortestFirst(history, names, sorted)
    ensures exists order ::
              && Follows(names, order, sorted)
              && forall i, j | 0 <= i < j < |sorted| ::
                   || Priority(history, sorted[i]) < Priority(history, sorted[j])
                   || (Priority(history, sorted[i]) == Priority(history, sorted[j]) && order[i] < order[j])
  {
    var keys := Keys(history, names);
    var order :| IsStableOrder(keys, order) && Follows(names, order, sorted);
    forall i | 0 <= i < |sorted|
      ensures keys[order[i]] == Priority(history, sorted[i])
    {
      KeyAt(history, names, order[i]);
    }
    forall i, j | 0 <= i < j < |sorted|
      ensures || Priority(history, sorted[i]) < Priority(history, sorted[j])
              || (Priority(history, sorted[i]) == Priority(history, sorted[j]) && order[i] < order[j])
    {
      assert Precedes(keys, order[i], order[j]);
    }
  }

  ghost predicate ListsAll(order: seq<nat>, n: nat) {
    && |order| == n && (forall i | 0 <= i < n :: order[i] < n)
    && (forall i, j | 0 <= i < j < n :: order[i] != order[j])
    && forall k: nat | k < n :: k in order
  }

  function Without<T>(s: seq<T>, at: nat): seq<T>
    requires at < |s|
  {
    s[..at] + s[at + 1..]
  }

  lemma ListsAllButLast(order: seq<nat>, n: nat, at: nat)
    requires ListsAll(order, n) && at < n && order[at] == n - 1
    ensures ListsAll(Without(order, at), n - 1)
  {
    var shorter := Without(order, at);
    forall i | 0 <= i < n - 1
      ensures shorter[i] == order[if i < at then i else i + 1] < n - 1
    {
    }
    forall k: nat | k < n - 1
      ensures k in shorter
    {
      assert k in order;
      var i :| 0 <= i < |order| && order[i] == k;
      assert shorter[if i < at then i else i - 1] == k;
    }
  }

  lemma WithoutBag<T>(s: seq<T>, at: nat)
    requires at < |s|
    ensures multiset(s) == multiset(Without(s, at)) + multiset{s[at]}
  {
    assert s == s[..at] + [s[at]] + s[at + 1..];
  }

  /** Reading a list along a permutation of its indices, one index at a time. */
  lemma {:induction false} SameBag(names: seq<string>, order: seq<nat>, sorted: seq<string>)
    requires Follows(names, order, sorted) && ListsAll(order, |names|)
    ensures multiset(sorted) == multiset(names)
    decreases |names|
  {
    if names == [] {
      assert sorted == [];
    } else {
      var last := |names| - 1;
      assert last in order;
      var at :| 0 <= at < |order| && order[at] == last;
      ListsAllButLast(order, |names|, at);
      SameBag(names[..last], Without(order, at), Without(sorted, at));
      WithoutBag(sorted, at);
      WithoutBag(names, last);
      assert Without(names, last) == names[..last];
    }
  }

  /** No plugin is lost or repeated. */
  lemma SortedIsRearranged(history: seq<Event>, names: seq<string>, sorted: seq<string>)
    requires IsShortestFirst(history, names, sorted)
    ensures multiset(sorted) == multiset(names)
  {
    var keys := Keys(history, names);
    var order :| IsStableOrder(keys, order) && Follows(names, order, sorted);
    assert forall i, j | 0 <= i < j < |order| :: Precedes(keys, order[i], order[j]) && order[i] != order[j];
    SameBag(names, order, sorted);
  }

  lemma IsKey(history: seq<Event>, name: string, v: int)
    requires TimeoutsSinceReturn(history, name) < 2
    requires var s := LastTwenty(history, name); s != [] && IsRank(s, (|s| - 1) / 2, v)
    ensures Priority(history, name) == v
  {
    var s := LastTwenty(history, name);
    PriorityIs(history, name);
    RankUnique(s, (|s| - 1) / 2, v, Priority(history, name));
  }

  lemma SmallerFirst(keys: seq<int>, order: seq<nat>, i: nat, j: nat)
    requires IsStableOrder(keys, order) && i < |order| && j < |order| && keys[order[i]] < keys[order[j]]
    ensures i < j
  {
  }

  lemma SmallerKeyFirst(history: seq<Event>, names: seq<string>, sorted: seq<string>, i: nat, j: nat)
    requires IsShortestFirst(history, names, sorted) && i < |sorted| && j < |sorted|
    requires Priority(history, sorted[i]) < Priority(history, sorted[j])
    ensures i < j
  {
    var keys := Keys(history, names);
    var order :| IsStableOrder(keys, order) && Follows(names, order, sorted);
    KeyAt(history, names, order[i]);
    KeyAt(history, names, order[j]);
    SmallerFirst(keys, order, i, j);
  }

  /** Of two plugins that are not starved the one with the shorter median is submitted first. */
  lemma ShorterGoesFirst(history: seq<Event>, names: seq<string>, sorted: seq<string>, i: nat, j: nat, v: int, w: int)
    requires IsShortestFirst(history, names, sorted) && i < |sorted| && j < |sorted|
    requires TimeoutsSinceReturn(history, sorted[i]) < 2 && TimeoutsSinceReturn(history, sorted[j]) < 2
    requires var s := LastTwenty(history, sorted[i]); s != [] && IsRank(s, (|s| - 1) / 2, v)
    requires var s := LastTwenty(history, sorted[j]); s != [] && IsRank(s, (|s| - 1) / 2, w)
    requires v < w
    ensures i < j
  {
    IsKey(history, sorted[i], v);
    IsKey(history, sorted[j], w);
    SmallerKeyFirst(history, names, sorted, i, j);
  }
}
