/** Merging two lists of keyed results: one result per key, the more complete one wins, newest
    first. What a key, a completeness score and a time are is given by a `Ranking`. */
module Merging {
  import opened Prelude

  datatype Ranking<!R> = Ranking(key: R -> string, score: R -> nat, time: R -> int)

  function Better<R>(rk: Ranking<R>, existing: R, other: R): R {
    if rk.score(other) > rk.score(existing) then other else existing
  }

  // ----- lists seen as maps

  /** The map filled from a list by plain assignment: the last result with a key wins. */
  function Latest<R>(rk: Ranking<R>, rs: seq<R>): map<string, R> {
    if rs == [] then map[]
    else
      var r := rs[|rs| - 1];
      Latest(rk, rs[..|rs| - 1])[rk.key(r) := r]
  }

  function Add<R>(rk: Ranking<R>, m: map<string, R>, r: R): map<string, R> {
    var k := rk.key(r);
    if k in m then m[k := Better(rk, m[k], r)] else m[k := r]
  }

  /** Results added one by one, each replacing a less complete one. */
  function AddAll<R>(rk: Ranking<R>, m: map<string, R>, rs: seq<R>): map<string, R> {
    if rs == [] then m else Add(rk, AddAll(rk, m, rs[..|rs| - 1]), rs[|rs| - 1])
  }

  function Best<R>(rk: Ranking<R>, rs: seq<R>): map<string, R> {
    AddAll(rk, map[], rs)
  }

  function MergeMap<R>(rk: Ranking<R>, existing: seq<R>, added: seq<R>): map<string, R> {
    AddAll(rk, Latest(rk, existing), added)
  }

  ghost predicate HasKey<R>(rk: Ranking<R>, rs: seq<R>, k: string) {
    exists i :: 0 <= i < |rs| && rk.key(rs[i]) == k
  }

  predicate Distinct<R>(rk: Ranking<R>, rs: seq<R>) {
    forall i, j | 0 <= i < j < |rs| :: rk.key(rs[i]) != rk.key(rs[j])
  }

  predicate NewestFirst<R>(rk: Ranking<R>, rs: seq<R>) {
    forall i, j | 0 <= i < j < |rs| :: rk.time(rs[i]) >= rk.time(rs[j])
  }

  /** What `mergeSearchResults` may return: the map's iteration order and an unstable sort leave
      the order of equal times open. */
  ghost predicate IsMerge<R>(rk: Ranking<R>, existing: seq<R>, added: seq<R>, merged: seq<R>) {
    Distinct(rk, merged) && NewestFirst(rk, merged) && Latest(rk, merged) == MergeMap(rk, existing, added)
  }

  // ----- what the maps hold

  lemma {:induction false} LatestHolds<R>(rk: Ranking<R>, rs: seq<R>)
    ensures forall k :: k in Latest(rk, rs) <==> HasKey(rk, rs, k)
    ensures forall k | k in Latest(rk, rs) :: Latest(rk, rs)[k] in rs && rk.key(Latest(rk, rs)[k]) == k
  {
    if rs != [] {
      var front, last := rs[..|rs| - 1], rs[|rs| - 1];
      LatestHolds(rk, front);
      forall k
        ensures HasKey(rk, rs, k) <==> HasKey(rk, front, k) || rk.key(last) == k
      {
        HasKeyLast(rk, rs, k);
      }
    }
  }

  lemma HasKeyLast<R>(rk: Ranking<R>, rs: seq<R>, k: string)
    requires rs != []
    ensures HasKey(rk, rs, k) <==> HasKey(rk, rs[..|rs| - 1], k) || rk.key(rs[|rs| - 1]) == k
  {
    var front := rs[..|rs| - 1];
    if i :| 0 <= i < |rs| && rk.key(rs[i]) == k {
      assert i < |front| ==> front[i] == rs[i];
    }
    if i :| 0 <= i < |front| && rk.key(front[i]) == k {
      assert rs[i] == front[i];
    }
  }

  lemma {:induction false} LatestOfDistinct<R>(rk: Ranking<R>, rs: seq<R>)
    requires Distinct(rk, rs)
    ensures forall r | r in rs :: rk.key(r) in Latest(rk, rs) && Latest(rk, rs)[rk.key(r)] == r
  {
    if rs != [] {
      var front := rs[..|rs| - 1];
      LatestOfDistinct(rk, front);
      forall r | r in rs
        ensures rk.key(r) in Latest(rk, rs) && Latest(rk, rs)[rk.key(r)] == r
      {
        var i :| 0 <= i < |rs| && rs[i] == r;
        if i < |front| {
          assert front[i] == r;
        }
      }
    }
  }

  /** A list with distinct keys and a map with the same results are the same map. */
  lemma LatestIs<R>(rk: Ranking<R>, rs: seq<R>, m: map<string, R>)
    requires Distinct(rk, rs)
    requires forall k | k in m :: m[k] in rs && rk.key(m[k]) == k
    requires forall r | r in rs :: rk.key(r) in m && m[rk.key(r)] == r
    ensures Latest(rk, rs) == m
  {
    LatestHolds(rk, rs);
    LatestOfDistinct(rk, rs);
    forall k
      ensures k in Latest(rk, rs) <==> k in m
    {
      if k in m {
        var i :| 0 <= i < |rs| && rs[i] == m[k];
        assert HasKey(rk, rs, k);
      }
    }
  }

  ghost predicate WellKeyed<R>(rk: Ranking<R>, m: map<string, R>) {
    forall k | k in m :: rk.key(m[k]) == k
  }

  lemma {:induction false} AddAllKeys<R>(rk: Ranking<R>, m: map<string, R>, rs: seq<R>)
    requires WellKeyed(rk, m)
    ensures WellKeyed(rk, AddAll(rk, m, rs))
    ensures forall k :: k in AddAll(rk, m, rs) <==> k in m || HasKey(rk, rs, k)
    ensures forall k | k in AddAll(rk, m, rs) :: (k in m && AddAll(rk, m, rs)[k] == m[k]) || AddAll(rk, m, rs)[k] in rs
    decreases |rs|
  {
    if rs != [] {
      var front, last := rs[..|rs| - 1], rs[|rs| - 1];
      AddAllKeys(rk, m, front);
      assert rs == front + [last];
      forall k
        ensures k in AddAll(rk, m, rs) <==> k in m || HasKey(rk, rs, k)
      {
        HasKeyLast(rk, rs, k);
      }
    }
  }

  lemma {:induction false} AddAllScores<R>(rk: Ranking<R>, m: map<string, R>, rs: seq<R>)
    ensures forall k | k in m :: k in AddAll(rk, m, rs) && rk.score(AddAll(rk, m, rs)[k]) >= rk.score(m[k])
    ensures forall r | r in rs ::
              rk.key(r) in AddAll(rk, m, rs) && rk.score(AddAll(rk, m, rs)[rk.key(r)]) >= rk.score(r)
    decreases |rs|
  {
    if rs != [] {
      var front, last := rs[..|rs| - 1], rs[|rs| - 1];
      AddAllScores(rk, m, front);
      assert rs == front + [last];
    }
  }

  /** Everything a caller needs to know about a merge: the key set is the union, each result comes
      from one of the lists, and none is less complete than an added result with its key, nor than
      an existing one when the last existing result of each key is the most complete. */
  lemma MergeFacts<R(!new)>(rk: Ranking<R>, existing: seq<R>, added: seq<R>, merged: seq<R>)
    requires IsMerge(rk, existing, added, merged)
    ensures forall k :: HasKey(rk, merged, k) <==> HasKey(rk, existing, k) || HasKey(rk, added, k)
    ensures forall r | r in merged :: r in existing || r in added
    ensures forall r, c | r in merged && c in added && rk.key(r) == rk.key(c) :: rk.score(c) <= rk.score(r)
    ensures LastIsBest(rk, existing) ==>
              forall r, c | r in merged && c in existing && rk.key(r) == rk.key(c) :: rk.score(c) <= rk.score(r)
  {
    LatestHolds(rk, existing);
    LatestHolds(rk, merged);
    LatestOfDistinct(rk, merged);
    AddAllKeys(rk, Latest(rk, existing), added);
    AddAllScores(rk, Latest(rk, existing), added);
    if LastIsBest(rk, existing) {
      forall c | c in existing {
        LatestIsBest(rk, existing, c);
      }
    }
  }

  // ----- when a merge keeps the most complete results

  /** No later result has the key of the one at `j`. */
  predicate IsLast<R>(rk: Ranking<R>, rs: seq<R>, j: nat) {
    j < |rs| && forall k | j < k < |rs| :: rk.key(rs[k]) != rk.key(rs[j])
  }

  /** Of the results with one key, the last has the greatest score. */
  predicate LastIsBest<R>(rk: Ranking<R>, rs: seq<R>) {
    forall i: nat, j: nat | i < j < |rs| && IsLast(rk, rs, j) && rk.key(rs[i]) == rk.key(rs[j]) ::
      rk.score(rs[i]) <= rk.score(rs[j])
  }

  /** No result of `rs` is more complete than what `merged` has under its key. */
  ghost predicate Keeps<R>(rk: Ranking<R>, rs: seq<R>, merged: seq<R>) {
    forall c | c in rs :: exists r :: r in merged && rk.key(r) == rk.key(c) && rk.score(c) <= rk.score(r)
  }

  lemma {:induction false} LatestIsLast<R>(rk: Ranking<R>, rs: seq<R>, i: nat) returns (j: nat)
    requires i < |rs|
    ensures i <= j && IsLast(rk, rs, j) && rk.key(rs[j]) == rk.key(rs[i])
    ensures rk.key(rs[i]) in Latest(rk, rs) && Latest(rk, rs)[rk.key(rs[i])] == rs[j]
    decreases |rs|
  {
    var n := |rs| - 1;
    if rk.key(rs[n]) == rk.key(rs[i]) {
      j := n;
    } else {
      j := LatestIsLast(rk, rs[..n], i);
      assert rs[..n][j] == rs[j];
      assert forall k | j < k < n :: rs[..n][k] == rs[k];
    }
  }

  /** Seen as a map, such a list has for each of its results one at least as complete. */
  lemma LatestIsBest<R>(rk: Ranking<R>, rs: seq<R>, c: R)
    requires LastIsBest(rk, rs) && c in rs
    ensures rk.key(c) in Latest(rk, rs) && rk.score(c) <= rk.score(Latest(rk, rs)[rk.key(c)])
  {
    var i :| 0 <= i < |rs| && rs[i] == c;
    var j := LatestIsLast(rk, rs, i);
  }

  lemma MergeKeepsExisting<R(!new)>(rk: Ranking<R>, existing: seq<R>, added: seq<R>, merged: seq<R>)
    requires IsMerge(rk, existing, added, merged) && LastIsBest(rk, existing)
    ensures Keeps(rk, existing, merged)
  {
    AddAllScores(rk, Latest(rk, existing), added);
    LatestHolds(rk, merged);
    forall c | c in existing
      ensures exists r :: r in merged && rk.key(r) == rk.key(c) && rk.score(c) <= rk.score(r)
    {
      LatestIsBest(rk, existing, c);
      assert Latest(rk, merged)[rk.key(c)] in merged;
    }
  }

  /** A merge with nothing that keeps everything had the best of each key last. */
  lemma KeptAlone<R(!new)>(rk: Ranking<R>, existing: seq<R>, merged: seq<R>)
    requires IsMerge(rk, existing, [], merged) && Keeps(rk, existing, merged)
    ensures LastIsBest(rk, existing)
  {
    LatestOfDistinct(rk, merged);
    forall i: nat, j: nat | i < j && IsLast(rk, existing, j) && rk.key(existing[i]) == rk.key(existing[j])
      ensures rk.score(existing[i]) <= rk.score(existing[j])
    {
      var c := existing[i];
      assert c in existing;
      var r :| r in merged && rk.key(r) == rk.key(c) && rk.score(c) <= rk.score(r);
      var last := LatestIsLast(rk, existing, i);
      assert last == j;
    }
  }

  /** The most complete information survives every merge with new results exactly when, of the existing
      results with one key, the last is the most complete; distinct keys are enough. */
  lemma KeepsMostCompleteIff<R(!new)>(rk: Ranking<R>, existing: seq<R>)
    ensures (forall added, merged | IsMerge(rk, existing, added, merged) :: Keeps(rk, existing, merged))
       <==> LastIsBest(rk, existing)
    ensures Distinct(rk, existing) ==> LastIsBest(rk, existing)
  {
    if LastIsBest(rk, existing) {
      forall added, merged | IsMerge(rk, existing, added, merged)
        ensures Keeps(rk, existing, merged)
      {
        MergeKeepsExisting(rk, existing, added, merged);
      }
    }
    if forall added, merged | IsMerge(rk, existing, added, merged) :: Keeps(rk, existing, merged) {
      var merged := MergeExists(rk, existing, []);
      KeptAlone(rk, existing, merged);
    }
  }

  // ----- the algebra of merging

  /** Two maps joined key by key, the left one winning ties. */
  function Join<R>(rk: Ranking<R>, m: map<string, R>, n: map<string, R>): map<string, R> {
    map k | k in m.Keys + n.Keys ::
      if k in m && k in n then Better(rk, m[k], n[k]) else if k in m then m[k] else n[k]
  }

  lemma JoinAssociative<R>(rk: Ranking<R>, m: map<string, R>, n: map<string, R>, p: map<string, R>)
    ensures Join(rk, Join(rk, m, n), p) == Join(rk, m, Join(rk, n, p))
  {
  }

  lemma JoinEmpty<R>(rk: Ranking<R>, m: map<string, R>)
    ensures Join(rk, m, map[]) == m && Join(rk, map[], m) == m && Join(rk, m, m) == m
  {
  }

  /** Merging is a join: of the last results of the one list and the best of the other. */
  lemma {:induction false} AddAllIsJoin<R>(rk: Ranking<R>, m: map<string, R>, rs: seq<R>)
    ensures AddAll(rk, m, rs) == Join(rk, m, Best(rk, rs))
    decreases |rs|
  {
    if rs == [] {
      JoinEmpty(rk, m);
    } else {
      AddAllIsJoin(rk, m, rs[..|rs| - 1]);
    }
  }

  /** The result at `i` is the most complete one with its key, and the first of those. */
  ghost predicate IsFirstBest<R>(rk: Ranking<R>, rs: seq<R>, i: nat) {
    && i < |rs|
    && forall j | 0 <= j < |rs| && rk.key(rs[j]) == rk.key(rs[i]) ::
         rk.score(rs[j]) <= rk.score(rs[i]) && (j < i ==> rk.score(rs[j]) < rk.score(rs[i]))
  }

  lemma {:induction false} BestIsFirst<R>(rk: Ranking<R>, rs: seq<R>, i: nat)
    requires IsFirstBest(rk, rs, i)
    ensures rk.key(rs[i]) in Best(rk, rs) && Best(rk, rs)[rk.key(rs[i])] == rs[i]
    decreases |rs|
  {
    var n := |rs| - 1;
    var front, k := rs[..n], rk.key(rs[i]);
    if i < n {
      assert forall j | 0 <= j < n :: front[j] == rs[j];
      BestIsFirst(rk, front, i);
    } else if HasKey(rk, front, k) {
      AddAllKeys(rk, map[], front);
      var r := Best(rk, front)[k];
      assert r in front;
      var j :| 0 <= j < n && front[j] == r;
      assert rs[j] == r;
    } else {
      AddAllKeys(rk, map[], front);
    }
  }

  /** Which of the results with one key a merge keeps: the last of the existing ones, unless a new one
      beats it; of the new ones the most complete, and of equals the first. A tie changes nothing. */
  lemma MergeWinner<R>(rk: Ranking<R>, existing: seq<R>, added: seq<R>, merged: seq<R>, k: string)
    requires IsMerge(rk, existing, added, merged)
    ensures k in Latest(rk, existing) && !HasKey(rk, added, k) ==>
              k in Latest(rk, merged) && Latest(rk, merged)[k] == Latest(rk, existing)[k]
    ensures forall i: nat | IsFirstBest(rk, added, i) && rk.key(added[i]) == k ::
              && k in Latest(rk, merged)
              && Latest(rk, merged)[k]
                 == if k in Latest(rk, existing) && rk.score(added[i]) <= rk.score(Latest(rk, existing)[k])
                    then Latest(rk, existing)[k] else added[i]
  {
    AddAllIsJoin(rk, Latest(rk, existing), added);
    AddAllKeys(rk, map[], added);
    forall i: nat | IsFirstBest(rk, added, i) && rk.key(added[i]) == k
      ensures k in Best(rk, added) && Best(rk, added)[k] == added[i]
    {
      BestIsFirst(rk, added, i);
    }
  }

  lemma {:induction false} BestOfDistinct<R>(rk: Ranking<R>, rs: seq<R>)
    requires Distinct(rk, rs)
    ensures Best(rk, rs) == Latest(rk, rs)
  {
    if rs != [] {
      BestOfDistinct(rk, rs[..|rs| - 1]);
      LatestHolds(rk, rs[..|rs| - 1]);
    }
  }

  /** Merging a list that is already merged changes nothing; merging twice is merging once. */
  lemma MergeIdempotent<R>(rk: Ranking<R>, existing: seq<R>, added: seq<R>, once: seq<R>, twice: seq<R>)
    requires IsMerge(rk, existing, added, once) && IsMerge(rk, once, added, twice)
    ensures Latest(rk, twice) == Latest(rk, once)
    ensures MergeMap(rk, once, once) == Latest(rk, once)
  {
    var m, b := Latest(rk, existing), Best(rk, added);
    AddAllIsJoin(rk, m, added);
    AddAllIsJoin(rk, Latest(rk, once), added);
    JoinAssociative(rk, m, b, b);
    JoinEmpty(rk, b);
    AddAllIsJoin(rk, Latest(rk, once), once);
    BestOfDistinct(rk, once);
    JoinEmpty(rk, Latest(rk, once));
  }

  /** Both groupings of a three-way merge, the right one with the middle list as it is merged. */
  ghost predicate Associates<R>(rk: Ranking<R>, a: seq<R>, b: seq<R>, c: seq<R>) {
    AddAll(rk, MergeMap(rk, a, b), c) == Join(rk, Latest(rk, a), MergeMap(rk, b, c))
  }

  lemma AssociatesIfBestIsLast<R>(rk: Ranking<R>, a: seq<R>, b: seq<R>, c: seq<R>)
    requires Best(rk, b) == Latest(rk, b)
    ensures Associates(rk, a, b, c)
  {
    AddAllIsJoin(rk, Latest(rk, a), b);
    AddAllIsJoin(rk, MergeMap(rk, a, b), c);
    AddAllIsJoin(rk, Latest(rk, b), c);
    JoinAssociative(rk, Latest(rk, a), Best(rk, b), Best(rk, c));
  }

  lemma AssociatesAlone<R>(rk: Ranking<R>, b: seq<R>)
    requires Associates(rk, [], b, [])
    ensures Best(rk, b) == Latest(rk, b)
  {
    JoinEmpty(rk, Latest(rk, b));
  }

  /** Lists that result from both groupings of a three-way merge. */
  ghost predicate Grouped<R>(
    rk: Ranking<R>, a: seq<R>, b: seq<R>, c: seq<R>, ab: seq<R>, bc: seq<R>, left: seq<R>, right: seq<R>) {
    && IsMerge(rk, a, b, ab) && IsMerge(rk, ab, c, left)
    && IsMerge(rk, b, c, bc) && IsMerge(rk, a, bc, right)
  }

  /** On lists too: whatever lists the merges return, the two groupings hold the same results exactly
      when they do as maps. */
  lemma GroupedIff<R>(
    rk: Ranking<R>, a: seq<R>, b: seq<R>, c: seq<R>, ab: seq<R>, bc: seq<R>, left: seq<R>, right: seq<R>)
    requires Grouped(rk, a, b, c, ab, bc, left, right)
    ensures Latest(rk, left) == Latest(rk, right) <==> Associates(rk, a, b, c)
  {
    AddAllIsJoin(rk, Latest(rk, a), bc);
    BestOfDistinct(rk, bc);
  }

  /** Both groupings hold the same results for all outer lists and all lists that the merges return. */
  ghost predicate ListsAssociate<R(!new)>(rk: Ranking<R>, b: seq<R>) {
    forall a, c, ab, bc, left, right | Grouped(rk, a, b, c, ab, bc, left, right) ::
      Latest(rk, left) == Latest(rk, right)
  }

  /** Merging lists is associative exactly under the same condition on the middle list. */
  lemma ListsAssociateIff<R(!new)>(rk: Ranking<R>, b: seq<R>)
    ensures ListsAssociate(rk, b) <==> Best(rk, b) == Latest(rk, b)
  {
    if Best(rk, b) == Latest(rk, b) {
      forall a, c, ab, bc, left, right | Grouped(rk, a, b, c, ab, bc, left, right)
        ensures Latest(rk, left) == Latest(rk, right)
      {
        AssociatesIfBestIsLast(rk, a, b, c);
        GroupedIff(rk, a, b, c, ab, bc, left, right);
      }
    }
    if ListsAssociate(rk, b) {
      var ab := MergeExists(rk, [], b);
      var left := MergeExists(rk, ab, []);
      var bc := MergeExists(rk, b, []);
      var right := MergeExists(rk, [], bc);
      assert Grouped(rk, [], b, [], ab, bc, left, right);
      GroupedIff(rk, [], b, [], ab, bc, left, right);
      AssociatesAlone(rk, b);
    }
  }

  /** Merging is associative exactly when the middle list has, for each key, its best result last;
      distinct keys are enough. The outer lists may repeat keys. */
  lemma MergeAssociativeIff<R(!new)>(rk: Ranking<R>, b: seq<R>)
    ensures (forall a, c :: Associates(rk, a, b, c)) <==> Best(rk, b) == Latest(rk, b)
    ensures Distinct(rk, b) ==> Best(rk, b) == Latest(rk, b)
  {
    if Best(rk, b) == Latest(rk, b) {
      forall a, c
        ensures Associates(rk, a, b, c)
      {
        AssociatesIfBestIsLast(rk, a, b, c);
      }
    }
    if forall a, c :: Associates(rk, a, b, c) {
      AssociatesAlone(rk, b);
    }
    if Distinct(rk, b) {
      BestOfDistinct(rk, b);
    }
  }

  /** Associativity on lists: with distinct keys in the middle list both groupings give the same
      results. */
  lemma MergeAssociative<R>(
    rk: Ranking<R>, a: seq<R>, b: seq<R>, c: seq<R>, ab: seq<R>, bc: seq<R>, left: seq<R>, right: seq<R>)
    requires Distinct(rk, b)
    requires IsMerge(rk, a, b, ab) && IsMerge(rk, ab, c, left)
    requires IsMerge(rk, b, c, bc) && IsMerge(rk, a, bc, right)
    ensures Latest(rk, left) == Latest(rk, right)
  {
    BestOfDistinct(rk, b);
    AssociatesIfBestIsLast(rk, a, b, c);
    AddAllIsJoin(rk, Latest(rk, a), bc);
    BestOfDistinct(rk, bc);
  }

  /** A repeated key in the existing list can lose its more complete result. */
  lemma RepeatedKeyLosesTheBetter<R>(rk: Ranking<R>, rich: R, poor: R)
    requires rk.key(rich) == rk.key(poor) && rk.score(rich) > rk.score(poor)
    ensures Best(rk, [rich, poor]) != Latest(rk, [rich, poor])
    ensures MergeMap(rk, [rich, poor], []) == map[rk.key(poor) := poor]
  {
    var rs, k := [rich, poor], rk.key(rich);
    assert rs[..1] == [rich] && [rich][..0] == [];
    assert Latest(rk, [rich]) == map[k := rich];
    assert Latest(rk, rs) == Latest(rk, [rich])[k := poor] == map[k := poor];
    assert AddAll(rk, map[], [rich]) == Add(rk, AddAll(rk, map[], []), rich);
    assert AddAll(rk, map[], rs) == Add(rk, AddAll(rk, map[], [rich]), poor);
    assert Best(rk, rs)[k] == rich;
  }

  lemma {:induction false} DistinctSize<R>(rk: Ranking<R>, rs: seq<R>)
    requires Distinct(rk, rs)
    ensures |Latest(rk, rs)| == |rs|
  {
    if rs != [] {
      var front := rs[..|rs| - 1];
      DistinctSize(rk, front);
      LatestHolds(rk, front);
      assert Latest(rk, rs).Keys == Latest(rk, front).Keys + {rk.key(rs[|rs| - 1])};
    }
  }

  /** A merge never shrinks: it has one result per key of either list, so at least as many as the
      existing list has keys. */
  lemma MergeNeverShrinks<R>(rk: Ranking<R>, existing: seq<R>, added: seq<R>, merged: seq<R>)
    requires IsMerge(rk, existing, added, merged)
    ensures |merged| >= |Latest(rk, existing)|
    ensures Distinct(rk, existing) ==> |merged| >= |existing|
    ensures Distinct(rk, added) ==> |merged| >= |added|
  {
    DistinctSize(rk, merged);
    LatestHolds(rk, existing);
    LatestHolds(rk, added);
    AddAllKeys(rk, Latest(rk, existing), added);
    SubsetSize(Latest(rk, existing).Keys, Latest(rk, merged).Keys);
    SubsetSize(Latest(rk, added).Keys, Latest(rk, merged).Keys);
    if Distinct(rk, existing) {
      DistinctSize(rk, existing);
    }
    if Distinct(rk, added) {
      DistinctSize(rk, added);
    }
  }

  // ----- the list that is returned

  function InsertByTime<R>(rk: Ranking<R>, rs: seq<R>, r: R): seq<R> {
    if rs == [] || rk.time(rs[0]) <= rk.time(r) then [r] + rs else [rs[0]] + InsertByTime(rk, rs[1..], r)
  }

  lemma {:induction false} InsertHolds<R(!new)>(rk: Ranking<R>, rs: seq<R>, r: R)
    requires NewestFirst(rk, rs) && Distinct(rk, rs) && forall x | x in rs :: rk.key(x) != rk.key(r)
    ensures var out := InsertByTime(rk, rs, r);
            NewestFirst(rk, out) && Distinct(rk, out) && forall x :: x in out <==> x in rs || x == r
    decreases |rs|
  {
    if rs != [] && rk.time(rs[0]) > rk.time(r) {
      InsertHolds(rk, rs[1..], r);
      assert rs == [rs[0]] + rs[1..];
      var out := InsertByTime(rk, rs[1..], r);
      forall i | 0 <= i < |out|
        ensures rk.time(rs[0]) >= rk.time(out[i]) && rk.key(rs[0]) != rk.key(out[i])
      {
        assert out[i] in out;
      }
    }
  }

  lemma {:induction false} ListExists<R(!new)>(rk: Ranking<R>, m: map<string, R>) returns (rs: seq<R>)
    requires WellKeyed(rk, m)
    ensures Distinct(rk, rs) && NewestFirst(rk, rs)
    ensures forall k | k in m :: m[k] in rs
    ensures forall r | r in rs :: rk.key(r) in m && m[rk.key(r)] == r
    decreases |m|
  {
    rs := [];
    if m != map[] {
      var k :| k in m;
      var others := map j | j in m && j != k :: m[j];
      assert others.Keys == m.Keys - {k};
      var rest := ListExists(rk, others);
      InsertHolds(rk, rest, m[k]);
      rs := InsertByTime(rk, rest, m[k]);
      forall j | j in m
        ensures m[j] in rs
      {
        if j != k {
          assert j in others && others[j] == m[j];
          assert m[j] in rest;
        }
      }
      forall r | r in rs
        ensures rk.key(r) in m && m[rk.key(r)] == r
      {
        if r in rest {
          assert rk.key(r) in others;
        }
      }
    }
  }

  lemma MergeExists<R(!new)>(rk: Ranking<R>, existing: seq<R>, added: seq<R>) returns (merged: seq<R>)
    ensures IsMerge(rk, existing, added, merged)
  {
    LatestHolds(rk, existing);
    var m := MergeMap(rk, existing, added);
    AddAllKeys(rk, Latest(rk, existing), added);
    merged := ListExists(rk, m);
    LatestIs(rk, merged, m);
  }

  /** `sort.Slice` by descending time, on a list with distinct keys. */
  method SortByTime<R(!new)>(rk: Ranking<R>, rs: seq<R>) returns (sorted: seq<R>)
    requires Distinct(rk, rs)
    ensures Distinct(rk, sorted) && NewestFirst(rk, sorted)
    ensures forall x :: x in sorted <==> x in rs
  {
    sorted := [];
    for i := 0 to |rs|
      invariant Distinct(rk, sorted) && NewestFirst(rk, sorted)
      invariant forall x :: x in sorted <==> x in rs[..i]
    {
      assert rs[..i + 1] == rs[..i] + [rs[i]];
      InsertHolds(rk, sorted, rs[i]);
      sorted := InsertByTime(rk, sorted, rs[i]);
    }
    assert rs[..|rs|] == rs;
  }

  /** The values of a map, in whatever order it is iterated. */
  method MapToList<R>(rk: Ranking<R>, m: map<string, R>) returns (rs: seq<R>)
    requires WellKeyed(rk, m)
    ensures Distinct(rk, rs)
    ensures forall k | k in m :: m[k] in rs
    ensures forall r | r in rs :: rk.key(r) in m && m[rk.key(r)] == r
  {
    rs := [];
    var todo := m.Keys;
    while todo != {}
      invariant todo <= m.Keys
      invariant Distinct(rk, rs)
      invariant forall k | k in m && k !in todo :: m[k] in rs
      invariant forall r | r in rs :: rk.key(r) in m && rk.key(r) !in todo && m[rk.key(r)] == r
      decreases |todo|
    {
      var k :| k in todo;
      todo := todo - {k};
      rs := rs + [m[k]];
    }
  }

  method MergeLists<R(!new)>(rk: Ranking<R>, existing: seq<R>, added: seq<R>) returns (merged: seq<R>)
    ensures IsMerge(rk, existing, added, merged)
  {
    var resultMap: map<string, R> := map[];
    for i := 0 to |existing|
      invariant resultMap == Latest(rk, existing[..i])
    {
      assert existing[..i + 1][..i] == existing[..i];
      resultMap := resultMap[rk.key(existing[i]) := existing[i]];
    }
    assert existing[..|existing|] == existing;
    for i := 0 to |added|
      invariant resultMap == AddAll(rk, Latest(rk, existing), added[..i])
    {
      assert added[..i + 1][..i] == added[..i];
      var key := rk.key(added[i]);
      if key in resultMap {
        resultMap := resultMap[key := Better(rk, resultMap[key], added[i])];
      } else {
        resultMap := resultMap[key := added[i]];
      }
    }
    assert added[..|added|] == added;
    LatestHolds(rk, existing);
    AddAllKeys(rk, Latest(rk, existing), added);
    var list := MapToList(rk, resultMap);
    merged := SortByTime(rk, list);
    LatestIs(rk, merged, resultMap);
  }
}
