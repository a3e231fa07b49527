/** Percentiles as the scheduler takes them: sort a copy of the samples and index it. */
module OrderStatistics {

  function Insert(x: int, sorted: seq<int>): seq<int> {
    if sorted == [] || x <= sorted[0] then [x] + sorted else [sorted[0]] + Insert(x, sorted[1..])
  }

  function Sort(s: seq<int>): (r: seq<int>)
    ensures |r| == |s|
  {
    if s == [] then [] else InsertLength(s[0], Sort(s[1..])); Insert(s[0], Sort(s[1..]))
  }

  lemma {:induction false} InsertLength(x: int, sorted: seq<int>)
    ensures |Insert(x, sorted)| == |sorted| + 1
  {
    if sorted != [] && x > sorted[0] {
      InsertLength(x, sorted[1..]);
    }
  }

  predicate Ascending(s: seq<int>) {
    forall i, j | 0 <= i < j < |s| :: s[i] <= s[j]
  }

  function Below(s: seq<int>, v: int): (n: nat)
    ensures n <= |s|
  {
    if s == [] then 0 else (if s[0] < v then 1 else 0) + Below(s[1..], v)
  }

  lemma {:induction false} InsertMember(x: int, sorted: seq<int>, y: int)
    ensures y in Insert(x, sorted) <==> y == x || y in sorted
  {
    if sorted != [] && x > sorted[0] {
      InsertMember(x, sorted[1..], y);
    }
  }

  lemma {:induction false} SortMember(s: seq<int>, y: int)
    ensures y in Sort(s) <==> y in s
  {
    if s != [] {
      SortMember(s[1..], y);
      InsertMember(s[0], Sort(s[1..]), y);
    }
  }

  lemma AscendingCons(x: int, s: seq<int>)
    requires Ascending(s) && forall y | y in s :: x <= y
    ensures Ascending([x] + s)
  {
    var r := [x] + s;
    forall i, j | 0 <= i < j < |r|
      ensures r[i] <= r[j]
    {
      assert r[j] == s[j - 1] && s[j - 1] in s;
    }
  }

  lemma {:induction false} InsertAscending(x: int, sorted: seq<int>)
    requires Ascending(sorted)
    ensures Ascending(Insert(x, sorted))
  {
    if sorted != [] && x > sorted[0] {
      InsertAscending(x, sorted[1..]);
      forall y | y in Insert(x, sorted[1..])
        ensures sorted[0] <= y
      {
        InsertMember(x, sorted[1..], y);
      }
      AscendingCons(sorted[0], Insert(x, sorted[1..]));
    }
  }

  lemma {:induction false} SortAscending(s: seq<int>)
    ensures Ascending(Sort(s))
  {
    if s != [] {
      SortAscending(s[1..]);
      InsertAscending(s[0], Sort(s[1..]));
    }
  }

  lemma {:induction false} BelowInsert(x: int, sorted: seq<int>, v: int)
    ensures Below(Insert(x, sorted), v) == Below(sorted, v) + if x < v then 1 else 0
  {
    if sorted != [] && x > sorted[0] {
      BelowInsert(x, sorted[1..], v);
    }
  }

  lemma {:induction false} BelowSort(s: seq<int>, v: int)
    ensures Below(Sort(s), v) == Below(s, v)
  {
    if s != [] {
      BelowSort(s[1..], v);
      BelowInsert(s[0], Sort(s[1..]), v);
    }
  }

  lemma {:induction false} BelowAscending(s: seq<int>, i: nat, v: int)
    requires Ascending(s) && i < |s|
    ensures s[i] < v <==> i < Below(s, v)
  {
    if s[0] < v {
      if i > 0 {
        BelowAscending(s[1..], i - 1, v);
      }
    } else {
      NoneBelow(s[1..], v);
    }
  }

  lemma {:induction false} NoneBelow(s: seq<int>, v: int)
    requires forall i | 0 <= i < |s| :: s[i] >= v
    ensures Below(s, v) == 0
  {
    if s != [] {
      NoneBelow(s[1..], v);
    }
  }

  /** The sample of rank `i`: at most `i` samples are below it and more than `i` are not above it. */
  ghost predicate IsRank(s: seq<int>, i: nat, v: int) {
    v in s && Below(s, v) <= i < Below(s, v + 1)
  }

  /** A rearrangement in ascending order holds the sample of each rank at that place. */
  lemma RankOfRearrangement(s: seq<int>, r: seq<int>, i: nat)
    requires Ascending(r) && i < |r| && (forall v :: Below(r, v) == Below(s, v)) && forall v | v in r :: v in s
    ensures IsRank(s, i, r[i])
  {
    var v := r[i];
    assert Below(r, v) == Below(s, v) && Below(r, v + 1) == Below(s, v + 1);
    BelowAscending(r, i, v);
    BelowAscending(r, i, v + 1);
  }

  lemma RankOfSort(s: seq<int>, i: nat)
    requires i < |s|
    ensures IsRank(s, i, Sort(s)[i])
  {
    SortAscending(s);
    forall v
      ensures Below(Sort(s), v) == Below(s, v)
    {
      BelowSort(s, v);
    }
    forall v | v in Sort(s)
      ensures v in s
    {
      SortMember(s, v);
    }
    RankOfRearrangement(s, Sort(s), i);
  }

  lemma {:induction false} BelowMonotone(s: seq<int>, v: int, w: int)
    requires v <= w
    ensures Below(s, v) <= Below(s, w)
  {
    if s != [] {
      BelowMonotone(s[1..], v, w);
    }
  }

  /** Ranks are unique, so that sorting in whatever way gives the same percentile. */
  lemma RankUnique(s: seq<int>, i: nat, v: int, w: int)
    requires IsRank(s, i, v) && IsRank(s, i, w)
    ensures v == w
  {
    if v < w {
      BelowMonotone(s, v + 1, w);
    } else if w < v {
      BelowMonotone(s, w + 1, v);
    }
  }

  /** The p90 of the samples; zero when there are none. */
  function P90(s: seq<int>): (v: int)
    ensures s != [] ==> IsRank(s, 9 * (|s| - 1) / 10, v)
  {
    if s == [] then 0 else RankOfSort(s, 9 * (|s| - 1) / 10); Sort(s)[9 * (|s| - 1) / 10]
  }
}
