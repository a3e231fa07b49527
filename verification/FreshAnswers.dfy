/** No stale verdict is ever served: what a request takes from a cache is within its time when it is read,
    and a request that meets an expired entry removes it and is answered by a check. */
module FreshAnswers {
  import opened Prelude
  import opened SingleFlight

  /** A step of a run after which request `t` stands elsewhere is its own step. */
  lemma OwnStep<V(!new)>(expiry: Expiry<V>, keys: seq<string>, run: seq<State<V>>, n: nat, t: nat)
    requires IsRun(expiry, keys, run) && n + 1 < |run| && t < |keys| && run[n + 1].pcs[t] != run[n].pcs[t]
    ensures Step(expiry, keys, run[n], run[n + 1], t)
  {
    NextOfRun(expiry, keys, run, n);
    var s, s' := run[n], run[n + 1];
    if u: nat :| u < |keys| && Step(expiry, keys, s, s', u) {
      if LooksUp(s.pcs[u]) {
        LookUpAdvances(keys[u], s, s', u);
      } else {
        FlightAdvances(expiry, keys[u], s, s', u);
      }
    }
  }

  /** What a request does when it looks into memory: an entry within its time is the answer, an expired one
      is removed, and without one it goes on to the disk. */
  lemma MemoryLookUp<V(!new)>(expiry: Expiry<V>, keys: seq<string>, run: seq<State<V>>, n: nat, t: nat)
    requires IsRun(expiry, keys, run) && n + 1 < |run| && t < |keys|
    requires run[n].pcs[t] == LookUp && run[n + 1].pcs[t] != LookUp
    ensures var s, s', key := run[n], run[n + 1], keys[t];
            && (s'.pcs[t].Returned? <==> key in s.memory && s.now <= s.memory[key].expiresAt)
            && (s'.pcs[t].Returned? ==> s'.pcs[t] == Returned(FromCache(s.memory[key].verdict), None))
            && (s'.pcs[t].Expired? <==> key in s.memory && s.now > s.memory[key].expiresAt)
            && (s'.pcs[t].Expired? ==> s'.memory == s.memory - {key})
            && (s'.pcs[t].LookUpDisk? <==> key !in s.memory)
  {
    OwnStep(expiry, keys, run, n, t);
  }

  /** And when it looks at the disk. */
  lemma DiskLookUp<V(!new)>(expiry: Expiry<V>, keys: seq<string>, run: seq<State<V>>, n: nat, t: nat)
    requires IsRun(expiry, keys, run) && n + 1 < |run| && t < |keys|
    requires run[n].pcs[t] == LookUpDisk && run[n + 1].pcs[t] != LookUpDisk
    ensures var s, s', key := run[n], run[n + 1], keys[t];
            && (s'.pcs[t].Restore? <==> key in s.disk && s.now <= s.disk[key].expiresAt)
            && (s'.pcs[t].Restore? ==> s'.pcs[t].entry == s.disk[key])
            && (s'.pcs[t].DiskExpired? <==> key in s.disk && s.now > s.disk[key].expiresAt)
            && (s'.pcs[t].Missed? <==> key !in s.disk)
  {
    OwnStep(expiry, keys, run, n, t);
  }

  /** A request that has met an expired entry next removes what is on disk. */
  lemma ExpiredIsRemoved<V(!new)>(expiry: Expiry<V>, keys: seq<string>, run: seq<State<V>>, n: nat, t: nat)
    requires IsRun(expiry, keys, run) && n + 1 < |run| && t < |keys|
    requires run[n].pcs[t].Expired? || run[n].pcs[t].DiskExpired?
    requires run[n + 1].pcs[t] != run[n].pcs[t]
    ensures run[n + 1].pcs[t] == Missed && run[n + 1].disk == run[n].disk - {keys[t]}
  {
    OwnStep(expiry, keys, run, n, t);
  }

  // ----- answers from a cache

  /** At that moment `entry` was in memory or on disk under `key`, and within its time. */
  predicate ReadFresh<V(==)>(s: State<V>, key: string, entry: Entry<V>) {
    && s.now <= entry.expiresAt
    && ((key in s.memory && s.memory[key] == entry) || (key in s.disk && s.disk[key] == entry))
  }

  /** What request `t` has from a cache it has read fresh before moment `n`. */
  ghost predicate WasFresh<V(!new)>(keys: seq<string>, run: seq<State<V>>, n: nat, t: nat)
    requires n < |run| && t < |keys| == |run[n].pcs|
  {
    && (run[n].pcs[t].Restore? ==> exists m: nat :: m < n && ReadFresh(run[m], keys[t], run[n].pcs[t].entry))
    && (FromEntry(run[n].pcs[t]).Some? ==>
          exists m: nat, entry ::
            m < n && ReadFresh(run[m], keys[t], entry) && entry.verdict == FromEntry(run[n].pcs[t]).value)
  }

  lemma WasFreshStep<V(!new)>(expiry: Expiry<V>, keys: seq<string>, run: seq<State<V>>, n: nat, t: nat)
    requires IsRun(expiry, keys, run) && n + 1 < |run| && t < |keys| && WasFresh(keys, run, n, t)
    requires run[n + 1].pcs[t] != run[n].pcs[t] && LooksUp(run[n].pcs[t])
    ensures WasFresh(keys, run, n + 1, t)
  {
    OwnStep(expiry, keys, run, n, t);
    var s, key := run[n], keys[t];
    if run[n + 1].pcs[t].Restore? {
      assert ReadFresh(s, key, s.disk[key]);
    } else if s.pcs[t].LookUp? && FromEntry(run[n + 1].pcs[t]).Some? {
      assert ReadFresh(s, key, s.memory[key]);
    }
  }

  lemma FlightTakesNothing<V(!new)>(expiry: Expiry<V>, keys: seq<string>, run: seq<State<V>>, n: nat, t: nat)
    requires IsRun(expiry, keys, run) && n + 1 < |run| && t < |keys|
    requires run[n + 1].pcs[t] != run[n].pcs[t] && !LooksUp(run[n].pcs[t])
    ensures FromEntry(run[n + 1].pcs[t]).None?
  {
    OwnStep(expiry, keys, run, n, t);
    FlightCaches(expiry, keys[t], run[n], run[n + 1], t);
  }

  lemma {:induction false} WasFreshAlways<V(!new)>(
    expiry: Expiry<V>, keys: seq<string>, run: seq<State<V>>, n: nat, t: nat)
    requires IsRun(expiry, keys, run) && n < |run| && t < |keys|
    ensures WasFresh(keys, run, n, t)
  {
    if n > 0 {
      WasFreshAlways(expiry, keys, run, n - 1, t);
      WasFreshNext(expiry, keys, run, n - 1, t);
    }
  }

  lemma WasFreshNext<V(!new)>(expiry: Expiry<V>, keys: seq<string>, run: seq<State<V>>, n: nat, t: nat)
    requires IsRun(expiry, keys, run) && n + 1 < |run| && t < |keys| && WasFresh(keys, run, n, t)
    ensures WasFresh(keys, run, n + 1, t)
  {
    if run[n + 1].pcs[t] == run[n].pcs[t] {
      WasFreshStill(keys, run, n, t);
    } else if LooksUp(run[n].pcs[t]) {
      WasFreshStep(expiry, keys, run, n, t);
    } else {
      FlightTakesNothing(expiry, keys, run, n, t);
    }
  }

  lemma WasFreshStill<V(!new)>(keys: seq<string>, run: seq<State<V>>, n: nat, t: nat)
    requires n + 1 < |run| && t < |keys| == |run[n].pcs| == |run[n + 1].pcs| && WasFresh(keys, run, n, t)
    requires run[n + 1].pcs[t] == run[n].pcs[t]
    ensures WasFresh(keys, run, n + 1, t)
  {
    var pc := run[n].pcs[t];
    if pc.Restore? {
      var m: nat :| m < n && ReadFresh(run[m], keys[t], pc.entry);
    }
    if FromEntry(pc).Some? {
      var m: nat, entry :| m < n && ReadFresh(run[m], keys[t], entry) && entry.verdict == FromEntry(pc).value;
    }
  }

  /** Every verdict that any request of any run is answered from a cache was read from an entry for its key
      that was within its time at that moment. */
  lemma CachedAnswersFresh<V(!new)>(
    expiry: Expiry<V>, keys: seq<string>, run: seq<State<V>>, n: nat, t: nat, verdict: V)
    requires IsRun(expiry, keys, run) && n < |run| && t < |keys|
    requires run[n].pcs[t].Returned? && run[n].pcs[t].answer == FromCache(verdict)
    ensures exists m: nat, entry :: m < n && ReadFresh(run[m], keys[t], entry) && entry.verdict == verdict
  {
    WasFreshAlways(expiry, keys, run, n, t);
  }

  // ----- answers after an expired entry

  /** Past the look-up: on the way to the answer of a call. */
  predicate PastCache<V>(pc: Pc<V>) {
    && !pc.LookUp? && !pc.LookUpDisk? && !pc.Restore?
    && (pc.Returned? ==> pc.answer.FromCall?)
  }

  lemma {:induction false} StaysPast<V(!new)>(
    expiry: Expiry<V>, keys: seq<string>, run: seq<State<V>>, n: nat, m: nat, t: nat)
    requires IsRun(expiry, keys, run) && n <= m < |run| && t < |keys| && PastCache(run[n].pcs[t])
    ensures PastCache(run[m].pcs[t])
    decreases m
  {
    if n < m {
      StaysPast(expiry, keys, run, n, m - 1, t);
      PastNext(expiry, keys, run, m - 1, t);
    }
  }

  lemma PastNext<V(!new)>(expiry: Expiry<V>, keys: seq<string>, run: seq<State<V>>, n: nat, t: nat)
    requires IsRun(expiry, keys, run) && n + 1 < |run| && t < |keys| && PastCache(run[n].pcs[t])
    ensures PastCache(run[n + 1].pcs[t])
  {
    if run[n + 1].pcs[t] != run[n].pcs[t] {
      OwnStep(expiry, keys, run, n, t);
      PastStep(expiry, keys, run[n], run[n + 1], t);
    }
  }

  lemma PastStep<V(!new)>(expiry: Expiry<V>, keys: seq<string>, s: State<V>, s': State<V>, t: nat)
    requires t < |keys| == |s.pcs| && Step(expiry, keys, s, s', t) && PastCache(s.pcs[t])
    ensures t < |s'.pcs| && PastCache(s'.pcs[t])
  {
    if !LooksUp(s.pcs[t]) {
      PastFlight(expiry, keys[t], s, s', t);
    }
  }

  lemma PastFlight<V(!new)>(expiry: Expiry<V>, key: string, s: State<V>, s': State<V>, t: nat)
    requires t < |s.pcs| && !LooksUp(s.pcs[t]) && FlightStep(expiry, key, s, s', t)
    ensures t < |s'.pcs| && PastCache(s'.pcs[t])
  {
  }

  /** A request that has met an expired entry, in memory or on disk, is never answered from a cache. */
  lemma ExpiredMeansChecked<V(!new)>(
    expiry: Expiry<V>, keys: seq<string>, run: seq<State<V>>, n: nat, m: nat, t: nat)
    requires IsRun(expiry, keys, run) && n <= m < |run| && t < |keys|
    requires run[n].pcs[t].Expired? || run[n].pcs[t].DiskExpired?
    ensures run[m].pcs[t].Returned? ==> run[m].pcs[t].answer.FromCall?
  {
    StaysPast(expiry, keys, run, n, m, t);
  }

  // ----- how long entries are good for

  /** Every entry was on disk at the start or has the lifetime that its own verdict gives it. */
  ghost predicate Dated<V>(expiry: Expiry<V>, keys: seq<string>, initial: map<string, Entry<V>>, s: State<V>)
    requires |s.pcs| == |keys|
  {
    && (forall key | key in s.memory :: DatedEntry(expiry, initial, key, s.memory[key]))
    && (forall key | key in s.disk :: DatedEntry(expiry, initial, key, s.disk[key]))
    && forall t: nat | t < |keys| && s.pcs[t].Restore? :: DatedEntry(expiry, initial, keys[t], s.pcs[t].entry)
  }

  ghost predicate DatedEntry<V>(expiry: Expiry<V>, initial: map<string, Entry<V>>, key: string, entry: Entry<V>) {
    (key in initial && initial[key] == entry) || entry.expiresAt == expiry(entry.verdict)
  }

  lemma DatedLookUp<V>(
    expiry: Expiry<V>, keys: seq<string>, initial: map<string, Entry<V>>, s: State<V>, s': State<V>, t: nat)
    requires t < |keys| == |s.pcs| && LooksUp(s.pcs[t]) && LookUpStep(keys[t], s, s', t)
    requires Dated(expiry, keys, initial, s)
    ensures |s'.pcs| == |keys| && Dated(expiry, keys, initial, s')
  {
    assert forall u: nat | u < |keys| && u != t :: s'.pcs[u] == s.pcs[u];
  }

  lemma DatedFlight<V(!new)>(
    expiry: Expiry<V>, keys: seq<string>, initial: map<string, Entry<V>>, s: State<V>, s': State<V>, t: nat)
    requires t < |keys| == |s.pcs| && !LooksUp(s.pcs[t]) && FlightStep(expiry, keys[t], s, s', t)
    requires Dated(expiry, keys, initial, s)
    ensures |s'.pcs| == |keys| && Dated(expiry, keys, initial, s')
  {
    FlightCaches(expiry, keys[t], s, s', t);
    assert forall u: nat | u < |keys| && u != t :: s'.pcs[u] == s.pcs[u];
  }

  /** So it is in every run. */
  lemma {:induction false} EntriesDated<V(!new)>(expiry: Expiry<V>, keys: seq<string>, run: seq<State<V>>, n: nat)
    requires IsRun(expiry, keys, run) && n < |run|
    ensures Dated(expiry, keys, run[0].disk, run[n])
  {
    if n > 0 {
      EntriesDated(expiry, keys, run, n - 1);
      NextOfRun(expiry, keys, run, n - 1);
      DatedNext(expiry, keys, run[0].disk, run[n - 1], run[n]);
    }
  }

  lemma DatedNext<V(!new)>(
    expiry: Expiry<V>, keys: seq<string>, initial: map<string, Entry<V>>, s: State<V>, s': State<V>)
    requires |s.pcs| == |s'.pcs| == |keys| && Next(expiry, keys, s, s') && Dated(expiry, keys, initial, s)
    ensures Dated(expiry, keys, initial, s')
  {
    if t: nat :| t < |keys| && Step(expiry, keys, s, s', t) {
      if LooksUp(s.pcs[t]) {
        DatedLookUp(expiry, keys, initial, s, s', t);
      } else {
        DatedFlight(expiry, keys, initial, s, s', t);
      }
    } else {
      assert s'.pcs == s.pcs;
    }
  }

  /** When a leader returns, the outcome of its call is on disk if it is a verdict, and nothing has changed
      there if it failed. */
  lemma LeaderSaves<V(!new)>(expiry: Expiry<V>, keys: seq<string>, run: seq<State<V>>, n: nat, t: nat)
    requires IsRun(expiry, keys, run) && n + 1 < |run| && t < |keys|
    requires run[n].pcs[t].Saving? && run[n + 1].pcs[t] != run[n].pcs[t]
    ensures run[n + 1].pcs[t].Returned? && run[n + 1].pcs[t].answer.FromCall?
    ensures var outcome := run[n + 1].pcs[t].answer.outcome;
            run[n + 1].disk == if outcome.Ok? then run[n].disk[keys[t] := Entry(outcome.value, expiry(outcome.value))]
                               else run[n].disk
  {
    OwnStep(expiry, keys, run, n, t);
  }
}
