/** Concurrent updates of the main search cache: every update locks the stripe of its key, reads the
    entry, merges its batch into it, writes it back and unlocks. */
module CacheProtocol {
  import opened Prelude
  import opened Merging

  /** 32-bit FNV-1a over the bytes of a key. */
  function Fnv1a(key: string): bv32 {
    if key == "" then 2166136261
    else (Fnv1a(key[..|key| - 1]) ^ ((key[|key| - 1] as int % 256) as bv32)) * 16777619
  }

  function Stripe(key: string): (s: nat)
    ensures s < 64
  {
    (Fnv1a(key) % 64) as int
  }

  /** The published values of the hash for the empty key and for "a", and the stripe that follows. */
  lemma HashValues()
    ensures Fnv1a("") == 0x811c9dc5 && Fnv1a("a") == 0xe40c292c && Stripe("a") == 44
  {
    var offset: bv32, a: bv32 := 0x811c9dc5, 97;
    assert "a"[..0] == "" && ('a' as int % 256) as bv32 == a;
    assert Fnv1a("a") == (offset ^ a) * 16777619;
    assert (0xe40c292c as bv32) % 64 == 44;
  }

  datatype Kind = MergeIntoMainCache | WriteFinalMainCache

  datatype Op<R> = Op(kind: Kind, key: string, batch: seq<R>)

  /** Where an update stands between its atomic steps. */
  datatype Pc<R> = Start | Locked | HasRead(entry: Option<seq<R>>) | Written | Done

  datatype State<R> = State(cache: map<string, seq<R>>, locks: map<nat, nat>, pcs: seq<Pc<R>>)

  function Lookup<R>(cache: map<string, seq<R>>, key: string): Option<seq<R>> {
    if key in cache then Some(cache[key]) else None
  }

  /** What an update may write: its batch alone when there is nothing to merge with, else a merge.
      The final write also skips an empty entry. */
  ghost predicate Writes<R>(rk: Ranking<R>, op: Op<R>, entry: Option<seq<R>>, merged: seq<R>) {
    if entry.None? || (op.kind == WriteFinalMainCache && entry.value == []) then merged == op.batch
    else IsMerge(rk, entry.value, op.batch, merged)
  }

  ghost predicate Step<R(!new)>(rk: Ranking<R>, ops: seq<Op<R>>, s: State<R>, s': State<R>, t: nat)
    requires t < |ops| == |s.pcs|
  {
    var key := ops[t].key;
    var stripe := Stripe(key);
    match s.pcs[t]
    case Start =>
      stripe !in s.locks && s' == s.(locks := s.locks[stripe := t], pcs := s.pcs[t := Locked])
    case Locked =>
      s' == s.(pcs := s.pcs[t := HasRead(Lookup(s.cache, key))])
    case HasRead(entry) =>
      exists merged :: Writes(rk, ops[t], entry, merged)
                    && s' == s.(cache := s.cache[key := merged], pcs := s.pcs[t := Written])
    case Written =>
      s' == s.(locks := s.locks - {stripe}, pcs := s.pcs[t := Done])
    case Done => false
  }

  ghost predicate Init<R>(ops: seq<Op<R>>, s: State<R>) {
    |s.pcs| == |ops| && s.locks == map[] && forall t | 0 <= t < |ops| :: s.pcs[t] == Start
  }

  ghost predicate Next<R(!new)>(rk: Ranking<R>, ops: seq<Op<R>>, s: State<R>, s': State<R>)
    requires |s.pcs| == |ops|
  {
    exists t: nat :: t < |ops| && Step(rk, ops, s, s', t)
  }

  /** Any interleaving: at each point some update takes its next step. */
  ghost predicate IsRun<R(!new)>(rk: Ranking<R>, ops: seq<Op<R>>, run: seq<State<R>>) {
    && run != [] && Init(ops, run[0])
    && (forall i | 0 <= i < |run| :: |run[i].pcs| == |ops|)
    && forall i | 0 <= i < |run| - 1 :: Next(rk, ops, run[i], run[i + 1])
  }

  predicate Holds<R>(pc: Pc<R>) {
    pc.Locked? || pc.HasRead? || pc.Written?
  }

  predicate HasWritten<R>(pc: Pc<R>) {
    pc.Written? || pc.Done?
  }

  function EntryAt<R>(cache: map<string, seq<R>>, key: string): seq<R> {
    if key in cache then cache[key] else []
  }

  /** `r` was in the cache under `key` at the start or in a batch written under it since. */
  ghost predicate Submitted<R>(ops: seq<Op<R>>, initial: map<string, seq<R>>, s: State<R>, key: string, r: R)
    requires |s.pcs| == |ops|
  {
    r in EntryAt(initial, key)
    || exists t :: 0 <= t < |ops| && HasWritten(s.pcs[t]) && ops[t].key == key && r in ops[t].batch
  }

  // ----- the invariant

  /** The holder of a stripe is the one update between lock and unlock on it, and what it has read
      is still there. */
  ghost predicate LockInv<R>(ops: seq<Op<R>>, s: State<R>) {
    && |s.pcs| == |ops|
    && (forall t | 0 <= t < |ops| ::
          Holds(s.pcs[t]) <==> Stripe(ops[t].key) in s.locks && s.locks[Stripe(ops[t].key)] == t)
    && (forall p | p in s.locks :: s.locks[p] < |ops| && Holds(s.pcs[s.locks[p]]) && Stripe(ops[s.locks[p]].key) == p)
    && (forall t | 0 <= t < |ops| && s.pcs[t].HasRead? :: s.pcs[t].entry == Lookup(s.cache, ops[t].key))
  }

  /** Every stored result was submitted, and every submitted key is stored. */
  ghost predicate ContentInv<R(!new)>(rk: Ranking<R>, ops: seq<Op<R>>, initial: map<string, seq<R>>, s: State<R>)
    requires |s.pcs| == |ops|
  {
    && (forall key, r | r in EntryAt(s.cache, key) :: Submitted(ops, initial, s, key, r))
    && (forall key, r | Submitted(ops, initial, s, key, r) :: HasKey(rk, EntryAt(s.cache, key), rk.key(r)))
  }

  /** What `rs` has under the key of `c`, seen as a map, is at least as complete. */
  ghost predicate Covers<R>(rk: Ranking<R>, rs: seq<R>, c: R) {
    rk.key(c) in Latest(rk, rs) && rk.score(c) <= rk.score(Latest(rk, rs)[rk.key(c)])
  }

  /** `c` is from a list that has the most complete result of each key last and was in the cache under
      `key` at the start or has been written under it since. */
  ghost predicate SafelySubmitted<R>(
    rk: Ranking<R>, ops: seq<Op<R>>, initial: map<string, seq<R>>, s: State<R>, key: string, c: R)
    requires |s.pcs| == |ops|
  {
    || (c in EntryAt(initial, key) && LastIsBest(rk, EntryAt(initial, key)))
    || exists t :: 0 <= t < |ops| && HasWritten(s.pcs[t]) && Brings(rk, ops[t], key, c)
  }

  ghost predicate Brings<R>(rk: Ranking<R>, op: Op<R>, key: string, c: R) {
    op.key == key && LastIsBest(rk, op.batch) && c in op.batch
  }

  /** What comes from such a list stays covered, whatever the other lists are. */
  ghost predicate BestInv<R(!new)>(rk: Ranking<R>, ops: seq<Op<R>>, initial: map<string, seq<R>>, s: State<R>)
    requires |s.pcs| == |ops|
  {
    forall key, c | SafelySubmitted(rk, ops, initial, s, key, c) :: Covers(rk, EntryAt(s.cache, key), c)
  }

  /** All lists for one cache key have distinct keys. */
  ghost predicate DistinctAt<R>(rk: Ranking<R>, ops: seq<Op<R>>, initial: map<string, seq<R>>, key: string) {
    && (forall t | 0 <= t < |ops| && ops[t].key == key :: Distinct(rk, ops[t].batch))
    && Distinct(rk, EntryAt(initial, key))
  }

  ghost predicate DistinctInv<R>(rk: Ranking<R>, ops: seq<Op<R>>, initial: map<string, seq<R>>, s: State<R>) {
    forall key | DistinctAt(rk, ops, initial, key) :: Distinct(rk, EntryAt(s.cache, key))
  }

  lemma LockStep<R(!new)>(rk: Ranking<R>, ops: seq<Op<R>>, s: State<R>, s': State<R>, t: nat)
    requires LockInv(ops, s) && t < |ops| && Step(rk, ops, s, s', t)
    ensures LockInv(ops, s')
  {
    forall u | 0 <= u < |ops|
      ensures Holds(s'.pcs[u]) <==> Stripe(ops[u].key) in s'.locks && s'.locks[Stripe(ops[u].key)] == u
      ensures s'.pcs[u].HasRead? ==> s'.pcs[u].entry == Lookup(s'.cache, ops[u].key)
    {
      if u != t {
        assert s'.pcs[u] == s.pcs[u];
      }
    }
    forall p | p in s'.locks
      ensures s'.locks[p] < |ops| && Holds(s'.pcs[s'.locks[p]]) && Stripe(ops[s'.locks[p]].key) == p
    {
      if p in s.locks {
        assert s'.locks[p] == s.locks[p];
      }
    }
  }

  /** Which results a step submits. */
  lemma SubmittedStep<R(!new)>(
    rk: Ranking<R>, ops: seq<Op<R>>, initial: map<string, seq<R>>, s: State<R>, s': State<R>, t: nat, key: string, r: R)
    requires LockInv(ops, s) && t < |ops| && Step(rk, ops, s, s', t)
    ensures |s'.pcs| == |ops|
    ensures Submitted(ops, initial, s', key, r) <==>
            Submitted(ops, initial, s, key, r) || (s.pcs[t].HasRead? && ops[t].key == key && r in ops[t].batch)
  {
    assert forall u | 0 <= u < |ops| && u != t :: s'.pcs[u] == s.pcs[u];
    if u :| 0 <= u < |ops| && HasWritten(s.pcs[u]) && ops[u].key == key && r in ops[u].batch {
      assert HasWritten(s'.pcs[u]);
    }
  }

  lemma HasKeyOf<R>(rk: Ranking<R>, rs: seq<R>, r: R)
    requires r in rs
    ensures HasKey(rk, rs, rk.key(r))
  {
  }

  /** What a write does to the entry of its key. */
  lemma WriteFacts<R(!new)>(rk: Ranking<R>, op: Op<R>, entry: Option<seq<R>>, merged: seq<R>)
    requires Writes(rk, op, entry, merged)
    ensures var before := if entry.Some? then entry.value else [];
            && (forall k :: HasKey(rk, merged, k) <==> HasKey(rk, before, k) || HasKey(rk, op.batch, k))
            && (forall r | r in merged :: r in before || r in op.batch)
            && (Distinct(rk, op.batch) ==> Distinct(rk, merged))
  {
    if !(entry.None? || (op.kind == WriteFinalMainCache && entry.value == [])) {
      MergeFacts(rk, entry.value, op.batch, merged);
    }
  }

  /** A write covers what the entry covered, and its own batch if that has its best results last. */
  lemma WriteCovers<R(!new)>(rk: Ranking<R>, op: Op<R>, entry: Option<seq<R>>, merged: seq<R>, c: R)
    requires Writes(rk, op, entry, merged)
    requires (c in op.batch && LastIsBest(rk, op.batch)) || (entry.Some? && Covers(rk, entry.value, c))
    ensures Covers(rk, merged, c)
  {
    if entry.None? || (op.kind == WriteFinalMainCache && entry.value == []) {
      LatestIsBest(rk, op.batch, c);
    } else {
      AddAllScores(rk, Latest(rk, entry.value), op.batch);
    }
  }

  lemma ContentStep<R(!new)>(
    rk: Ranking<R>, ops: seq<Op<R>>, initial: map<string, seq<R>>, s: State<R>, s': State<R>, t: nat)
    requires LockInv(ops, s) && ContentInv(rk, ops, initial, s) && t < |ops| && Step(rk, ops, s, s', t)
    ensures |s'.pcs| == |ops| && ContentInv(rk, ops, initial, s')
  {
    forall key, r
      ensures r in EntryAt(s'.cache, key) ==> Submitted(ops, initial, s', key, r)
      ensures Submitted(ops, initial, s', key, r) ==> HasKey(rk, EntryAt(s'.cache, key), rk.key(r))
    {
      SubmittedStep(rk, ops, initial, s, s', t, key, r);
      if s.pcs[t].HasRead? && ops[t].key == key {
        WriteFacts(rk, ops[t], s.pcs[t].entry, s'.cache[key]);
        if r in ops[t].batch {
          HasKeyOf(rk, ops[t].batch, r);
        }
      }
    }
  }

  /** Which results a step submits safely. */
  lemma SafelyStep<R(!new)>(
    rk: Ranking<R>, ops: seq<Op<R>>, initial: map<string, seq<R>>, s: State<R>, s': State<R>, t: nat, key: string, c: R)
    requires LockInv(ops, s) && t < |ops| && Step(rk, ops, s, s', t)
    ensures |s'.pcs| == |ops|
    ensures SafelySubmitted(rk, ops, initial, s', key, c) ==>
              SafelySubmitted(rk, ops, initial, s, key, c) || (s.pcs[t].HasRead? && Brings(rk, ops[t], key, c))
  {
    assert forall u | 0 <= u < |ops| && u != t :: s'.pcs[u] == s.pcs[u];
  }

  lemma BestStep<R(!new)>(
    rk: Ranking<R>, ops: seq<Op<R>>, initial: map<string, seq<R>>, s: State<R>, s': State<R>, t: nat)
    requires LockInv(ops, s) && BestInv(rk, ops, initial, s) && t < |ops| && Step(rk, ops, s, s', t)
    ensures |s'.pcs| == |ops| && BestInv(rk, ops, initial, s')
  {
    forall key, c
      ensures SafelySubmitted(rk, ops, initial, s', key, c) ==> Covers(rk, EntryAt(s'.cache, key), c)
    {
      SafelyStep(rk, ops, initial, s, s', t, key, c);
      if s.pcs[t].HasRead? && ops[t].key == key && SafelySubmitted(rk, ops, initial, s', key, c) {
        WriteCovers(rk, ops[t], s.pcs[t].entry, s'.cache[key], c);
      }
    }
  }

  lemma DistinctStep<R(!new)>(
    rk: Ranking<R>, ops: seq<Op<R>>, initial: map<string, seq<R>>, s: State<R>, s': State<R>, t: nat)
    requires LockInv(ops, s) && DistinctInv(rk, ops, initial, s) && t < |ops| && Step(rk, ops, s, s', t)
    ensures DistinctInv(rk, ops, initial, s')
  {
    if s.pcs[t].HasRead? {
      WriteFacts(rk, ops[t], s.pcs[t].entry, s'.cache[ops[t].key]);
    }
  }

  lemma InitHolds<R(!new)>(rk: Ranking<R>, ops: seq<Op<R>>, s: State<R>)
    requires Init(ops, s)
    ensures Inv(rk, ops, s.cache, s)
  {
    forall key, r | r in EntryAt(s.cache, key)
      ensures HasKey(rk, EntryAt(s.cache, key), rk.key(r))
      ensures LastIsBest(rk, EntryAt(s.cache, key)) ==> Covers(rk, EntryAt(s.cache, key), r)
    {
      HasKeyOf(rk, EntryAt(s.cache, key), r);
      if LastIsBest(rk, EntryAt(s.cache, key)) {
        LatestIsBest(rk, EntryAt(s.cache, key), r);
      }
    }
  }

  ghost predicate Inv<R(!new)>(rk: Ranking<R>, ops: seq<Op<R>>, initial: map<string, seq<R>>, s: State<R>) {
    && LockInv(ops, s) && ContentInv(rk, ops, initial, s)
    && BestInv(rk, ops, initial, s) && DistinctInv(rk, ops, initial, s)
  }

  lemma NextHolds<R(!new)>(rk: Ranking<R>, ops: seq<Op<R>>, initial: map<string, seq<R>>, s: State<R>, s': State<R>)
    requires Inv(rk, ops, initial, s) && Next(rk, ops, s, s')
    ensures Inv(rk, ops, initial, s')
  {
    var t: nat :| t < |ops| && Step(rk, ops, s, s', t);
    LockStep(rk, ops, s, s', t);
    ContentStep(rk, ops, initial, s, s', t);
    BestStep(rk, ops, initial, s, s', t);
    DistinctStep(rk, ops, initial, s, s', t);
  }

  lemma {:induction false} RunHolds<R(!new)>(rk: Ranking<R>, ops: seq<Op<R>>, run: seq<State<R>>, n: nat)
    requires IsRun(rk, ops, run) && n < |run|
    ensures Inv(rk, ops, run[0].cache, run[n])
    decreases n
  {
    if n == 0 {
      InitHolds(rk, ops, run[0]);
    } else {
      RunHolds(rk, ops, run, n - 1);
      assert Next(rk, ops, run[n - 1], run[n - 1 + 1]);
      NextHolds(rk, ops, run[0].cache, run[n - 1], run[n]);
    }
  }

  // ----- what every run guarantees

  ghost predicate Finished<R>(s: State<R>) {
    forall t | 0 <= t < |s.pcs| :: s.pcs[t] == Done
  }

  /** No lost update: when every update of any interleaving has finished, the keys stored under each
      cache key are exactly those there at the start and those of all batches submitted for it. */
  lemma NoLostUpdate<R(!new)>(rk: Ranking<R>, ops: seq<Op<R>>, run: seq<State<R>>, key: string, k: string)
    requires IsRun(rk, ops, run) && Finished(run[|run| - 1])
    ensures HasKey(rk, EntryAt(run[|run| - 1].cache, key), k) <==>
            || HasKey(rk, EntryAt(run[0].cache, key), k)
            || exists t :: 0 <= t < |ops| && ops[t].key == key && HasKey(rk, ops[t].batch, k)
  {
    var last := run[|run| - 1];
    RunHolds(rk, ops, run, |run| - 1);
    var stored := EntryAt(last.cache, key);
    if HasKey(rk, stored, k) {
      var i :| 0 <= i < |stored| && rk.key(stored[i]) == k;
      assert Submitted(ops, run[0].cache, last, key, stored[i]);
      if stored[i] in EntryAt(run[0].cache, key) {
        HasKeyOf(rk, EntryAt(run[0].cache, key), stored[i]);
      } else {
        var t :| 0 <= t < |ops| && HasWritten(last.pcs[t]) && ops[t].key == key && stored[i] in ops[t].batch;
        HasKeyOf(rk, ops[t].batch, stored[i]);
      }
    }
    if HasKey(rk, EntryAt(run[0].cache, key), k) {
      var i :| 0 <= i < |EntryAt(run[0].cache, key)| && rk.key(EntryAt(run[0].cache, key)[i]) == k;
      assert Submitted(ops, run[0].cache, last, key, EntryAt(run[0].cache, key)[i]);
    }
    if t :| 0 <= t < |ops| && ops[t].key == key && HasKey(rk, ops[t].batch, k) {
      var i :| 0 <= i < |ops[t].batch| && rk.key(ops[t].batch[i]) == k;
      assert Submitted(ops, run[0].cache, last, key, ops[t].batch[i]);
    }
  }

  /** What comes from a list that has the most complete result of each key last is covered from then on
      at every moment of every interleaving, with any other updates and any initial cache. */
  lemma BestSurvives<R(!new)>(rk: Ranking<R>, ops: seq<Op<R>>, run: seq<State<R>>, n: nat, key: string, c: R)
    requires IsRun(rk, ops, run) && n < |run| && SafelySubmitted(rk, ops, run[0].cache, run[n], key, c)
    ensures Covers(rk, EntryAt(run[n].cache, key), c)
  {
    RunHolds(rk, ops, run, n);
  }

  /** With distinct keys in each list for a cache key, what is stored there under a result key is a
      submitted result of the greatest score ever submitted for it. */
  lemma StoredIsBest<R(!new)>(rk: Ranking<R>, ops: seq<Op<R>>, run: seq<State<R>>, key: string, r: R)
    requires IsRun(rk, ops, run) && Finished(run[|run| - 1]) && DistinctAt(rk, ops, run[0].cache, key)
    requires r in EntryAt(run[|run| - 1].cache, key)
    ensures r in EntryAt(run[0].cache, key) || exists t :: 0 <= t < |ops| && ops[t].key == key && r in ops[t].batch
    ensures forall c | c in EntryAt(run[0].cache, key) && rk.key(c) == rk.key(r) :: rk.score(c) <= rk.score(r)
    ensures forall t, c | 0 <= t < |ops| && ops[t].key == key && c in ops[t].batch && rk.key(c) == rk.key(r) ::
              rk.score(c) <= rk.score(r)
  {
    var last := run[|run| - 1];
    RunHolds(rk, ops, run, |run| - 1);
    assert Submitted(ops, run[0].cache, last, key, r);
    forall c | c in EntryAt(run[0].cache, key) && rk.key(c) == rk.key(r)
      ensures rk.score(c) <= rk.score(r)
    {
      StoredBeats(rk, ops, run, key, r, c);
    }
    forall t, c | 0 <= t < |ops| && ops[t].key == key && c in ops[t].batch && rk.key(c) == rk.key(r)
      ensures rk.score(c) <= rk.score(r)
    {
      assert Brings(rk, ops[t], key, c);
      StoredBeats(rk, ops, run, key, r, c);
    }
  }

  lemma StoredBeats<R(!new)>(rk: Ranking<R>, ops: seq<Op<R>>, run: seq<State<R>>, key: string, r: R, c: R)
    requires IsRun(rk, ops, run) && DistinctAt(rk, ops, run[0].cache, key)
    requires r in EntryAt(run[|run| - 1].cache, key) && rk.key(c) == rk.key(r)
    requires SafelySubmitted(rk, ops, run[0].cache, run[|run| - 1], key, c)
    ensures rk.score(c) <= rk.score(r)
  {
    RunHolds(rk, ops, run, |run| - 1);
    LatestOfDistinct(rk, EntryAt(run[|run| - 1].cache, key));
    BestSurvives(rk, ops, run, |run| - 1, key, c);
  }

  /** At the end of the run the batch of update `t` is covered. */
  ghost predicate KeptInRun<R>(rk: Ranking<R>, ops: seq<Op<R>>, run: seq<State<R>>, t: nat)
    requires t < |ops| && run != []
  {
    forall c | c in ops[t].batch :: Covers(rk, EntryAt(run[|run| - 1].cache, ops[t].key), c)
  }

  /** A finished run in which update `t` submits `batch`, with any other updates and initial cache. */
  ghost predicate RunsWith<R(!new)>(rk: Ranking<R>, batch: seq<R>, ops: seq<Op<R>>, run: seq<State<R>>, t: nat) {
    && IsRun(rk, ops, run) && Finished(run[|run| - 1])
    && t < |ops| && ops[t].batch == batch
  }

  /** The batch is covered at the end of every run that it takes part in. */
  ghost predicate AlwaysKept<R(!new)>(rk: Ranking<R>, batch: seq<R>) {
    forall ops: seq<Op<R>>, run: seq<State<R>>, t: nat | RunsWith(rk, batch, ops, run, t) :: KeptInRun(rk, ops, run, t)
  }

  lemma Extend<R(!new)>(rk: Ranking<R>, ops: seq<Op<R>>, run: seq<State<R>>, s': State<R>, t: nat)
    requires IsRun(rk, ops, run) && |s'.pcs| == |ops| && t < |ops| && Step(rk, ops, run[|run| - 1], s', t)
    ensures IsRun(rk, ops, run + [s'])
  {
    var longer := run + [s'];
    forall i | 0 <= i < |longer| - 1
      ensures Next(rk, ops, longer[i], longer[i + 1])
    {
      if i < |run| - 1 {
        assert Next(rk, ops, run[i], run[i + 1]);
      }
    }
  }

  /** The run of one update on an empty cache, which stores its batch as it is. */
  lemma RunAlone<R(!new)>(rk: Ranking<R>, op: Op<R>) returns (run: seq<State<R>>)
    ensures IsRun(rk, [op], run) && Finished(run[|run| - 1]) && run[0].cache == map[]
    ensures EntryAt(run[|run| - 1].cache, op.key) == op.batch
  {
    var stripe := Stripe(op.key);
    var s: State<R> := State(map[], map[], [Start]);
    run := [s];
    var s' := s.(locks := map[stripe := 0], pcs := [Locked]);
    Extend(rk, [op], run, s', 0);
    run, s := run + [s'], s';
    s' := s.(pcs := [HasRead(None)]);
    Extend(rk, [op], run, s', 0);
    run, s := run + [s'], s';
    s' := s.(cache := map[op.key := op.batch], pcs := [Written]);
    assert Writes(rk, op, None, op.batch);
    Extend(rk, [op], run, s', 0);
    run, s := run + [s'], s';
    s' := s.(locks := map[], pcs := [Done]);
    assert s.locks - {stripe} == map[];
    Extend(rk, [op], run, s', 0);
    run := run + [s'];
  }

  /** A batch loses nothing in any interleaving with any updates exactly when it has the most complete
      result of each key last. */
  lemma AlwaysKeptIff<R(!new)>(rk: Ranking<R>, batch: seq<R>)
    ensures AlwaysKept(rk, batch) <==> LastIsBest(rk, batch)
  {
    if LastIsBest(rk, batch) {
      forall ops: seq<Op<R>>, run: seq<State<R>>, t: nat | RunsWith(rk, batch, ops, run, t)
        ensures KeptInRun(rk, ops, run, t)
      {
        forall c | c in ops[t].batch
          ensures Covers(rk, EntryAt(run[|run| - 1].cache, ops[t].key), c)
        {
          assert Brings(rk, ops[t], ops[t].key, c);
          BestSurvives(rk, ops, run, |run| - 1, ops[t].key, c);
        }
      }
    }
    if AlwaysKept(rk, batch) {
      var op := Op(MergeIntoMainCache, "", batch);
      var run := RunAlone(rk, op);
      assert RunsWith(rk, batch, [op], run, 0);
      assert KeptInRun(rk, [op], run, 0);
      CoveredByItself(rk, batch);
    }
  }

  /** The entry of `key` at the start is covered at the end of the run. */
  ghost predicate EntryKept<R>(rk: Ranking<R>, run: seq<State<R>>, key: string)
    requires run != []
  {
    forall c | c in EntryAt(run[0].cache, key) :: Covers(rk, EntryAt(run[|run| - 1].cache, key), c)
  }

  /** And so it is with what is in the cache at the start: nothing of an entry is lost in any run exactly
      when the entry has the most complete result of each key last. */
  lemma EntryKeptIff<R(!new)>(rk: Ranking<R>, key: string, entry: seq<R>)
    ensures (forall ops: seq<Op<R>>, run: seq<State<R>> |
               IsRun(rk, ops, run) && EntryAt(run[0].cache, key) == entry :: EntryKept(rk, run, key))
       <==> LastIsBest(rk, entry)
  {
    if LastIsBest(rk, entry) {
      forall ops: seq<Op<R>>, run: seq<State<R>> | IsRun(rk, ops, run) && EntryAt(run[0].cache, key) == entry
        ensures EntryKept(rk, run, key)
      {
        forall c | c in entry
          ensures Covers(rk, EntryAt(run[|run| - 1].cache, key), c)
        {
          BestSurvives(rk, ops, run, |run| - 1, key, c);
        }
      }
    }
    var alone: seq<State<R>> := [State(map[key := entry], map[], [])];
    assert IsRun(rk, [], alone) && EntryAt(alone[0].cache, key) == entry;
    if EntryKept(rk, alone, key) {
      assert forall c | c in entry :: Covers(rk, entry, c);
      CoveredByItself(rk, entry);
    }
  }

  lemma CoveredByItself<R>(rk: Ranking<R>, rs: seq<R>)
    requires forall c | c in rs :: Covers(rk, rs, c)
    ensures LastIsBest(rk, rs)
  {
    forall i: nat, j: nat | i < j < |rs| && IsLast(rk, rs, j) && rk.key(rs[i]) == rk.key(rs[j])
      ensures rk.score(rs[i]) <= rk.score(rs[j])
    {
      var last := LatestIsLast(rk, rs, i);
      assert last == j && rs[i] in rs;
    }
  }

  lemma SomethingToWrite<R(!new)>(rk: Ranking<R>, op: Op<R>, entry: Option<seq<R>>) returns (merged: seq<R>)
    ensures Writes(rk, op, entry, merged)
  {
    if entry.None? || (op.kind == WriteFinalMainCache && entry.value == []) {
      merged := op.batch;
    } else {
      merged := MergeExists(rk, entry.value, op.batch);
    }
  }

  lemma CanMove<R(!new)>(rk: Ranking<R>, ops: seq<Op<R>>, s: State<R>, t: nat) returns (s': State<R>)
    requires |s.pcs| == |ops| && t < |ops| && s.pcs[t] != Done
    requires s.pcs[t] == Start ==> Stripe(ops[t].key) !in s.locks
    ensures Step(rk, ops, s, s', t)
  {
    var stripe := Stripe(ops[t].key);
    match s.pcs[t]
    case Start =>
      s' := s.(locks := s.locks[stripe := t], pcs := s.pcs[t := Locked]);
    case Locked =>
      s' := s.(pcs := s.pcs[t := HasRead(Lookup(s.cache, ops[t].key))]);
    case HasRead(entry) =>
      var merged := SomethingToWrite(rk, ops[t], entry);
      s' := s.(cache := s.cache[ops[t].key := merged], pcs := s.pcs[t := Written]);
    case Written =>
      s' := s.(locks := s.locks - {stripe}, pcs := s.pcs[t := Done]);
  }

  /** No deadlock: until all updates are done, some update can take a step. */
  lemma NeverStuck<R(!new)>(rk: Ranking<R>, ops: seq<Op<R>>, run: seq<State<R>>, n: nat) returns (s': State<R>)
    requires IsRun(rk, ops, run) && n < |run| && !Finished(run[n])
    ensures Next(rk, ops, run[n], s')
  {
    var s := run[n];
    RunHolds(rk, ops, run, n);
    var t: nat :| t < |s.pcs| && s.pcs[t] != Done;
    if s.pcs[t] == Start && Stripe(ops[t].key) in s.locks {
      t := s.locks[Stripe(ops[t].key)];
    }
    s' := CanMove(rk, ops, s, t);
  }

  // ----- and they all finish

  function Rank<R>(pc: Pc<R>): nat {
    match pc
    case Start => 0
    case Locked => 1
    case HasRead(_) => 2
    case Written => 3
    case Done => 4
  }

  function StepsDone<R>(pcs: seq<Pc<R>>): (n: nat)
    ensures n <= 4 * |pcs|
  {
    if pcs == [] then 0 else StepsDone(pcs[..|pcs| - 1]) + Rank(pcs[|pcs| - 1])
  }

  lemma {:induction false} StepsAfter<R>(pcs: seq<Pc<R>>, t: nat, pc: Pc<R>)
    requires t < |pcs|
    ensures StepsDone(pcs[t := pc]) == StepsDone(pcs) - Rank(pcs[t]) + Rank(pc)
  {
    var n := |pcs| - 1;
    if t == n {
      assert pcs[t := pc][..n] == pcs[..n];
    } else {
      assert pcs[t := pc][..n] == pcs[..n][t := pc];
      StepsAfter(pcs[..n], t, pc);
    }
  }

  lemma {:induction false} AllStepsDone<R>(pcs: seq<Pc<R>>)
    ensures StepsDone(pcs) == 4 * |pcs| <==> forall t | 0 <= t < |pcs| :: pcs[t] == Done
    ensures (forall t | 0 <= t < |pcs| :: pcs[t] == Start) ==> StepsDone(pcs) == 0
  {
    if pcs != [] {
      AllStepsDone(pcs[..|pcs| - 1]);
    }
  }

  lemma {:induction false} StepsCounted<R(!new)>(rk: Ranking<R>, ops: seq<Op<R>>, run: seq<State<R>>, n: nat)
    requires IsRun(rk, ops, run) && n < |run|
    ensures StepsDone(run[n].pcs) == n
  {
    if n == 0 {
      AllStepsDone(run[0].pcs);
    } else {
      StepsCounted(rk, ops, run, n - 1);
      assert Next(rk, ops, run[n - 1], run[n - 1 + 1]);
      StepCounts(rk, ops, run[n - 1], run[n]);
    }
  }

  lemma StepCounts<R(!new)>(rk: Ranking<R>, ops: seq<Op<R>>, s: State<R>, s': State<R>)
    requires |s.pcs| == |ops| && Next(rk, ops, s, s')
    ensures StepsDone(s'.pcs) == StepsDone(s.pcs) + 1
  {
    var t: nat :| t < |ops| && Step(rk, ops, s, s', t);
    MovesOn(rk, ops, s, s', t);
    StepsAfter(s.pcs, t, s'.pcs[t]);
  }

  lemma MovesOn<R(!new)>(rk: Ranking<R>, ops: seq<Op<R>>, s: State<R>, s': State<R>, t: nat)
    requires t < |ops| == |s.pcs| && Step(rk, ops, s, s', t)
    ensures |s'.pcs| == |ops| && s'.pcs == s.pcs[t := s'.pcs[t]] && Rank(s'.pcs[t]) == Rank(s.pcs[t]) + 1
  {
  }

  /** Every run is finite, with at most four steps an update, and is finished exactly when it has taken
      them all: until then it can go on, by `NeverStuck`, and then it cannot. */
  lemma RunsFinish<R(!new)>(rk: Ranking<R>, ops: seq<Op<R>>, run: seq<State<R>>)
    requires IsRun(rk, ops, run)
    ensures |run| - 1 <= 4 * |ops|
    ensures Finished(run[|run| - 1]) <==> |run| - 1 == 4 * |ops|
  {
    StepsCounted(rk, ops, run, |run| - 1);
    AllStepsDone(run[|run| - 1].pcs);
  }

  // ----- the critical sections as code

  /** The store under the lock: it returns the last value written. */
  class MainCache<R(!new)> {
    var entries: map<string, seq<R>>

    constructor ()
      ensures entries == map[]
    {
      entries := map[];
    }

    /** `writeFinalMainCache`; returns how many results the entry now has. */
    method WriteFinal(rk: Ranking<R>, key: string, results: seq<R>) returns (written: nat)
      modifies this
      ensures key in entries && entries == old(entries)[key := entries[key]] && written == |entries[key]|
      ensures Writes(rk, Op(WriteFinalMainCache, key, results), Lookup(old(entries), key), entries[key])
    {
      var merged := results;
      if key in entries && |entries[key]| > 0 {
        merged := MergeLists(rk, entries[key], results);
      }
      entries := entries[key := merged];
      written := |merged|;
    }

    /** `mergeIntoMainCache`. */
    method MergeInto(rk: Ranking<R>, key: string, newResults: seq<R>)
      modifies this
      ensures key in entries && entries == old(entries)[key := entries[key]]
      ensures Writes(rk, Op(MergeIntoMainCache, key, newResults), Lookup(old(entries), key), entries[key])
    {
      var finalResults := newResults;
      if key in entries {
        finalResults := MergeLists(rk, entries[key], newResults);
      }
      entries := entries[key := finalResults];
    }
  }
}
