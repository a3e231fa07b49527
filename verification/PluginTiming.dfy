/** The order in which plugins are submitted: shortest job first by the median of the recent
    durations, with plugins that were given up on twice in a row moved to the front. */
module PluginTiming {
  import opened Prelude
  import opened OrderStatistics
  import opened Sums

  const WINDOW := 20
  const AGING_ROUNDS := 2
  const UNKNOWN := 2000000000

  datatype Event = Observed(name: string, duration: int) | TimedOut(name: string) | Returned(name: string)

  // ----- what the history says

  /** The durations recorded for a plugin; durations that are not positive are ignored. */
  function Durations(history: seq<Event>, name: string): (ds: seq<int>)
    ensures forall i | 0 <= i < |ds| :: ds[i] > 0
  {
    if history == [] then []
    else
      var e := history[|history| - 1];
      Durations(history[..|history| - 1], name)
      + if e.Observed? && e.name == name && name != "" && e.duration > 0 then [e.duration] else []
  }

  function Last(ds: seq<int>, n: nat): (r: seq<int>)
    ensures |r| <= n && forall x | x in r :: x in ds
  {
    if |ds| <= n then ds else ds[|ds| - n..]
  }

  /** How often the plugin was given up on since it last returned. */
  function TimeoutsSinceReturn(history: seq<Event>, name: string): nat {
    if history == [] || name == "" then 0
    else
      var e, before := history[|history| - 1], history[..|history| - 1];
      match e
      case TimedOut(n) => TimeoutsSinceReturn(before, name) + if n == name then 1 else 0
      case Returned(n) => if n == name then 0 else TimeoutsSinceReturn(before, name)
      case Observed(_, _) => TimeoutsSinceReturn(before, name)
  }

  predicate Starved(history: seq<Event>, name: string) {
    TimeoutsSinceReturn(history, name) >= AGING_ROUNDS
  }

  function RankIndex(n: nat, q: real): (i: nat)
    requires n > 0
    ensures i < n
  {
    var r := if q < 0.0 then 0.0 else if q > 1.0 then 1.0 else q;
    FloorInRange(r, n - 1);
    (r * (n - 1) as real).Floor
  }

  lemma FloorInRange(q: real, m: nat)
    requires 0.0 <= q <= 1.0
    ensures 0 <= (q * m as real).Floor <= m
  {
    assert 0.0 <= q * m as real <= m as real;
  }

  function Percentile(ds: seq<int>, q: real): int
    requires ds != []
  {
    Sort(ds)[RankIndex(|ds|, q)]
  }

  /** The sorting key: smaller goes first. */
  function Priority(history: seq<Event>, name: string): (key: int)
    ensures if Starved(history, name) then key == -1 else key > 0
  {
    if Starved(history, name) then -1
    else
      var recent := Last(Durations(history, name), WINDOW);
      if recent == [] then UNKNOWN
      else
        RankOfSort(recent, RankIndex(|recent|, 0.5));
        Percentile(recent, 0.5)
  }

  // ----- the stable order

  /** Index `a` goes before index `b`: by key, then by place in the list. */
  predicate Precedes(keys: seq<int>, a: nat, b: nat)
    requires a < |keys| && b < |keys|
  {
    keys[a] < keys[b] || (keys[a] == keys[b] && a < b)
  }

  /** `order` lists every index once, in that order. */
  ghost predicate IsStableOrder(keys: seq<int>, order: seq<nat>) {
    && |order| == |keys| && (forall i | 0 <= i < |order| :: order[i] < |keys|)
    && (forall i, j | 0 <= i < j < |order| :: Precedes(keys, order[i], order[j]))
    && forall k: nat | k < |keys| :: k in order
  }

  /** Part of the way: the first `n` indices in order. */
  ghost predicate OrderedPrefix(keys: seq<int>, n: nat, order: seq<nat>) {
    && n <= |keys| && |order| == n && (forall i | 0 <= i < n :: order[i] < n)
    && (forall i, j | 0 <= i < j < n :: Precedes(keys, order[i], order[j]))
    && forall k: nat | k < n :: k in order
  }

  /** Puts index `n` behind all that do not come after it. */
  method InsertIndex(keys: seq<int>, n: nat, order: seq<nat>) returns (longer: seq<nat>)
    requires n < |keys| && OrderedPrefix(keys, n, order)
    ensures OrderedPrefix(keys, n + 1, longer)
  {
    var at := n;
    while at > 0 && Precedes(keys, n, order[at - 1])
      invariant 0 <= at <= n
      invariant forall i | at <= i < n :: Precedes(keys, n, order[i])
    {
      at := at - 1;
    }
    longer := order[..at] + [n] + order[at..];
    Inserted(keys, n, order, at);
  }

  lemma Inserted(keys: seq<int>, n: nat, order: seq<nat>, at: nat)
    requires n < |keys| && OrderedPrefix(keys, n, order) && at <= n
    requires forall i | at <= i < n :: Precedes(keys, n, order[i])
    requires at > 0 ==> !Precedes(keys, n, order[at - 1])
    ensures OrderedPrefix(keys, n + 1, order[..at] + [n] + order[at..])
  {
    var longer := order[..at] + [n] + order[at..];
    assert forall i | 0 <= i < at :: longer[i] == order[i];
    assert forall i | at < i < n + 1 :: longer[i] == order[i - 1];
    forall i | 0 <= i < at
      ensures Precedes(keys, order[i], n)
    {
      assert i < at - 1 ==> Precedes(keys, order[i], order[at - 1]);
    }
    forall k: nat | k < n
      ensures k in longer
    {
      assert k in order;
      var i :| 0 <= i < |order| && order[i] == k;
      assert longer[if i < at then i else i + 1] == k;
    }
    assert longer[at] == n;
  }

  method StableOrder(keys: seq<int>) returns (order: seq<nat>)
    ensures IsStableOrder(keys, order)
  {
    order := [];
    for n := 0 to |keys|
      invariant OrderedPrefix(keys, n, order)
    {
      order := InsertIndex(keys, n, order);
    }
  }

  lemma {:induction false} AscendingUnique(keys: seq<int>, a: seq<nat>, b: seq<nat>)
    requires (forall i | 0 <= i < |a| :: a[i] < |keys|) && (forall i | 0 <= i < |b| :: b[i] < |keys|)
    requires forall i, j | 0 <= i < j < |a| :: Precedes(keys, a[i], a[j])
    requires forall i, j | 0 <= i < j < |b| :: Precedes(keys, b[i], b[j])
    requires forall k: nat :: k in a <==> k in b
    ensures a == b
  {
    assert a != [] ==> a[0] in a;
    assert b != [] ==> b[0] in b;
    if a != [] && b != [] {
      assert a[0] == b[0];
      forall k: nat
        ensures k in a[1..] <==> k in b[1..]
      {
        assert k in a[1..] <==> k in a && k != a[0];
        assert k in b[1..] <==> k in b && k != b[0];
      }
      AscendingUnique(keys, a[1..], b[1..]);
    }
  }

  /** There is only one stable order. */
  lemma StableOrderUnique(keys: seq<int>, a: seq<nat>, b: seq<nat>)
    requires IsStableOrder(keys, a) && IsStableOrder(keys, b)
    ensures a == b
  {
    AscendingUnique(keys, a, b);
  }

  // ----- aging

  function Keys(history: seq<Event>, names: seq<string>): (keys: seq<int>)
    ensures |keys| == |names|
  {
    if names == [] then [] else Keys(history, names[..|names| - 1]) + [Priority(history, names[|names| - 1])]
  }

  lemma {:induction false} KeyAt(history: seq<Event>, names: seq<string>, i: nat)
    requires i < |names|
    ensures Keys(history, names)[i] == Priority(history, names[i])
  {
    if i < |names| - 1 {
      KeyAt(history, names[..|names| - 1], i);
    }
  }

  /** What `sortedByShortestFirst` returns. */
  ghost predicate IsShortestFirst(history: seq<Event>, names: seq<string>, sorted: seq<string>) {
    exists order :: IsStableOrder(Keys(history, names), order) && Follows(names, order, sorted)
  }

  ghost predicate Follows(names: seq<string>, order: seq<nat>, sorted: seq<string>) {
    |sorted| == |order| == |names| && forall i | 0 <= i < |order| :: order[i] < |names| && sorted[i] == names[order[i]]
  }

  function StarvedPlaces(history: seq<Event>, names: seq<string>): set<nat> {
    set k: nat | k < |names| && Starved(history, names[k])
  }

  function Front(order: seq<nat>, n: nat): set<nat>
    requires n <= |order|
  {
    if n == 0 then {} else Front(order, n - 1) + {order[n - 1]}
  }

  lemma {:induction false} NotInFront(order: seq<nat>, n: nat, k: nat)
    requires n <= |order| && forall i | 0 <= i < n :: order[i] != k
    ensures k !in Front(order, n)
  {
    if n > 0 {
      NotInFront(order, n - 1, k);
    }
  }

  lemma {:induction false} FrontSize(order: seq<nat>, n: nat)
    requires n <= |order| && forall i, j | 0 <= i < j < |order| :: order[i] != order[j]
    ensures |Front(order, n)| == n
  {
    if n > 0 {
      FrontSize(order, n - 1);
      NotInFront(order, n - 1, order[n - 1]);
    }
  }

  lemma {:induction false} FrontWithin(order: seq<nat>, n: nat, bag: set<nat>)
    requires n <= |order| && forall j | 0 <= j < n :: order[j] in bag
    ensures Front(order, n) <= bag
  {
    if n > 0 {
      FrontWithin(order, n - 1, bag);
    }
  }

  /** In a stable order the negative keys come first. */
  lemma NegativeFirst(keys: seq<int>, order: seq<nat>, negative: set<nat>, i: nat)
    requires IsStableOrder(keys, order) && i < |order| && keys[order[i]] < 0
    requires forall k: nat :: k in negative <==> k < |keys| && keys[k] < 0
    ensures i < |negative|
  {
    forall j | 0 <= j < i + 1
      ensures order[j] in negative
    {
    }
    assert forall j, k | 0 <= j < k < |order| :: Precedes(keys, order[j], order[k]) ==> order[j] != order[k];
    FrontSize(order, i + 1);
    FrontWithin(order, i + 1, negative);
    SubsetSize(Front(order, i + 1), negative);
  }

  /** After any history a plugin that was given up on twice since it last returned is submitted at an
      index below the number of such plugins, because every other plugin has a positive key. */
  lemma StarvedGoFirst(history: seq<Event>, names: seq<string>, sorted: seq<string>, i: nat)
    requires IsShortestFirst(history, names, sorted) && i < |sorted| && Starved(history, sorted[i])
    ensures i < |StarvedPlaces(history, names)|
  {
    var keys := Keys(history, names);
    var order :| IsStableOrder(keys, order) && Follows(names, order, sorted);
    forall k: nat
      ensures k in StarvedPlaces(history, names) <==> k < |keys| && keys[k] < 0
    {
      if k < |names| {
        KeyAt(history, names, k);
      }
    }
    NegativeFirst(keys, order, StarvedPlaces(history, names), i);
  }

  // ----- the samples of all plugins together

  function Concat(samples: map<string, seq<int>>, order: seq<string>): seq<int> {
    if order == [] then [] else (if order[0] in samples then samples[order[0]] else []) + Concat(samples, order[1..])
  }

  lemma {:induction false} BelowAppend(a: seq<int>, b: seq<int>, v: int)
    ensures Below(a + b, v) == Below(a, v) + Below(b, v)
  {
    if a == [] {
      assert a + b == b;
    } else {
      assert (a + b)[1..] == a[1..] + b;
      BelowAppend(a[1..], b, v);
    }
  }

  function Weight(samples: map<string, seq<int>>, v: int): string -> int {
    name => Below(if name in samples then samples[name] else [], v)
  }

  lemma {:induction false} BelowConcat(samples: map<string, seq<int>>, order: seq<string>, v: int)
    ensures Below(Concat(samples, order), v) == Sum(Weight(samples, v), order)
  {
    if order != [] {
      BelowConcat(samples, order[1..], v);
      BelowAppend(if order[0] in samples then samples[order[0]] else [], Concat(samples, order[1..]), v);
    }
  }

  lemma {:induction false} LengthIsBelow(s: seq<int>, v: int)
    requires forall i | 0 <= i < |s| :: s[i] < v
    ensures Below(s, v) == |s|
  {
    if s != [] {
      LengthIsBelow(s[1..], v);
    }
  }

  /** The order in which the map is walked does not change the p90. */
  lemma WalkOrderIrrelevant(samples: map<string, seq<int>>, a: seq<string>, b: seq<string>)
    requires NoRepeats(a) && NoRepeats(b) && forall x :: x in a <==> x in b
    ensures |Concat(samples, a)| == |Concat(samples, b)| && P90(Concat(samples, a)) == P90(Concat(samples, b))
  {
    var s, t := Concat(samples, a), Concat(samples, b);
    forall v
      ensures Below(s, v) == Below(t, v)
    {
      BelowConcat(samples, a, v);
      BelowConcat(samples, b, v);
      SumIrrelevantOrder(Weight(samples, v), a, b);
    }
    SameBelow(s, t);
  }

  function Bound(s: seq<int>): (v: int)
    ensures forall i | 0 <= i < |s| :: s[i] < v
  {
    if s == [] then 0 else Max(s[|s| - 1] + 1, Bound(s[..|s| - 1]))
  }

  lemma SameBelow(s: seq<int>, t: seq<int>)
    requires forall v :: Below(s, v) == Below(t, v)
    ensures |s| == |t| && P90(s) == P90(t)
  {
    var v := Max(Bound(s), Bound(t));
    LengthIsBelow(s, v);
    LengthIsBelow(t, v);
    assert Below(s, v) == Below(t, v);
    if s != [] {
      var i := 9 * (|s| - 1) / 10;
      RankCarries(s, t, i, P90(s));
      RankUnique(t, i, P90(s), P90(t));
    }
  }

  lemma RankCarries(s: seq<int>, t: seq<int>, i: nat, v: int)
    requires (forall w :: Below(s, w) == Below(t, w)) && IsRank(s, i, v)
    ensures IsRank(t, i, v)
  {
    assert Below(s, v) == Below(t, v) && Below(s, v + 1) == Below(t, v + 1);
    SomeoneEquals(t, v);
  }

  lemma {:induction false} SomeoneEquals(t: seq<int>, v: int)
    requires Below(t, v) < Below(t, v + 1)
    ensures v in t
  {
    if t[0] != v {
      SomeoneEquals(t[1..], v);
    }
  }

  // ----- the tracker

  function Recent(samples: map<string, seq<int>>, name: string): seq<int> {
    if name in samples then samples[name] else []
  }

  function Streak(starved: map<string, nat>, name: string): nat {
    if name in starved then starved[name] else 0
  }

  /** The fields say of every plugin what the history says. */
  ghost predicate Tracks(samples: map<string, seq<int>>, starved: map<string, nat>, history: seq<Event>) {
    && (forall name :: Recent(samples, name) == Last(Durations(history, name), WINDOW))
    && (forall name :: Streak(starved, name) == TimeoutsSinceReturn(history, name))
  }

  lemma OneMore(history: seq<Event>, e: Event, name: string)
    ensures Durations(history + [e], name)
            == Durations(history, name)
               + if e.Observed? && e.name == name && name != "" && e.duration > 0 then [e.duration] else []
    ensures TimeoutsSinceReturn(history + [e], name)
            == if name != "" && e == TimedOut(name) then TimeoutsSinceReturn(history, name) + 1
               else if e == Returned(name) then 0 else TimeoutsSinceReturn(history, name)
  {
    assert (history + [e])[..|history|] == history;
  }

  lemma LastAppend(ds: seq<int>, d: int)
    ensures Last(ds + [d], WINDOW) == Last(Last(ds, WINDOW) + [d], WINDOW)
  {
  }

  lemma ObservedTracks(
    samples: map<string, seq<int>>, starved: map<string, nat>, history: seq<Event>, name: string, d: int)
    requires Tracks(samples, starved, history) && name != "" && d > 0
    ensures Tracks(samples[name := Last(Recent(samples, name) + [d], WINDOW)], starved, history + [Observed(name, d)])
  {
    forall n {
      OneMore(history, Observed(name, d), n);
    }
    LastAppend(Durations(history, name), d);
  }

  lemma IgnoredTracks(
    samples: map<string, seq<int>>, starved: map<string, nat>, history: seq<Event>, name: string, d: int)
    requires Tracks(samples, starved, history) && (name == "" || d <= 0)
    ensures Tracks(samples, starved, history + [Observed(name, d)])
  {
    forall n {
      OneMore(history, Observed(name, d), n);
    }
  }

  method Rearranged(names: seq<string>, order: seq<nat>) returns (sorted: seq<string>)
    requires |order| == |names| && forall i | 0 <= i < |order| :: order[i] < |names|
    ensures Follows(names, order, sorted)
  {
    sorted := [];
    for i := 0 to |order|
      invariant |sorted| == i && forall j | 0 <= j < i :: sorted[j] == names[order[j]]
    {
      sorted := sorted + [names[order[i]]];
    }
  }

  class PluginTimingTracker {
    var samples: map<string, seq<int>>
    var starved: map<string, nat>
    ghost var history: seq<Event>

    ghost predicate Valid()
      reads this
    {
      Tracks(samples, starved, history)
    }

    constructor ()
      ensures Valid() && history == []
    {
      samples, starved, history := map[], map[], [];
    }

    method Observe(name: string, d: int)
      requires Valid()
      modifies this
      ensures Valid() && history == old(history) + [Observed(name, d)]
    {
      history := history + [Observed(name, d)];
      if name == "" || d <= 0 {
        IgnoredTracks(samples, starved, old(history), name, d);
        return;
      }
      ObservedTracks(samples, starved, old(history), name, d);
      var s := Recent(samples, name) + [d];
      if |s| > WINDOW {
        s := s[|s| - WINDOW..];
      }
      samples := samples[name := s];
    }

    method MarkTimedOut(name: string)
      requires Valid()
      modifies this
      ensures Valid() && history == old(history) + [TimedOut(name)]
    {
      history := history + [TimedOut(name)];
      forall n {
        OneMore(old(history), TimedOut(name), n);
      }
      if name == "" {
        return;
      }
      starved := starved[name := Streak(starved, name) + 1];
    }

    method MarkReturned(name: string)
      requires Valid()
      modifies this
      ensures Valid() && history == old(history) + [Returned(name)]
    {
      history := history + [Returned(name)];
      forall n {
        OneMore(old(history), Returned(name), n);
      }
      if name == "" {
        return;
      }
      starved := starved - {name};
    }

    method PriorityFor(name: string) returns (key: int)
      requires Valid()
      ensures key == Priority(history, name)
    {
      if Streak(starved, name) >= AGING_ROUNDS {
        return -1;
      }
      var recent := Recent(samples, name);
      if recent != [] {
        return Percentile(recent, 0.5);
      }
      return UNKNOWN;
    }

    method SortedByShortestFirst(names: seq<string>) returns (sorted: seq<string>)
      requires Valid()
      ensures IsShortestFirst(history, names, sorted)
    {
      var keys := PrioritiesOf(names);
      var order := StableOrder(keys);
      sorted := Rearranged(names, order);
    }

    method PrioritiesOf(names: seq<string>) returns (keys: seq<int>)
      requires Valid()
      ensures keys == Keys(history, names)
    {
      keys := [];
      for i := 0 to |names|
        invariant keys == Keys(history, names[..i])
      {
        var key := PriorityFor(names[i]);
        keys := keys + [key];
        assert names[..i + 1][..i] == names[..i];
      }
      assert names[..|names|] == names;
    }

    /** The p90 and the number of all samples together, whatever the order in which the map is walked. */
    method AggregateP90() returns (p90: int, count: nat)
      ensures forall walk | NoRepeats(walk) && (forall name :: name in walk <==> name in samples) ::
                p90 == P90(Concat(samples, walk)) && count == |Concat(samples, walk)|
    {
      var merged: seq<int>, left := [], samples.Keys;
      ghost var walk := [];
      while left != {}
        invariant left <= samples.Keys && NoRepeats(walk) && merged == Concat(samples, walk)
        invariant forall name :: name in walk <==> name in samples && name !in left
      {
        var name :| name in left;
        ConcatSnoc(samples, walk, name);
        merged := merged + samples[name];
        walk := walk + [name];
        left := left - {name};
      }
      p90, count := P90(merged), |merged|;
      forall other | NoRepeats(other) && (forall name :: name in other <==> name in samples)
        ensures p90 == P90(Concat(samples, other)) && count == |Concat(samples, other)|
      {
        WalkOrderIrrelevant(samples, walk, other);
      }
    }
  }

  lemma {:induction false} ConcatSnoc(samples: map<string, seq<int>>, walk: seq<string>, name: string)
    ensures Concat(samples, walk + [name]) == Concat(samples, walk) + Recent(samples, name)
  {
    if walk != [] {
      assert (walk + [name])[1..] == walk[1..] + [name];
      ConcatSnoc(samples, walk[1..], name);
    } else {
      assert walk + [name] == [name] && [name][1..] == [];
      assert Concat(samples, [name]) == Recent(samples, name) + Concat(samples, []);
    }
  }
}
