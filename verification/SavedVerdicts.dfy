/** Whether a verdict that a link check has saved on disk stays there: requests that found the old entry
    expired delete by key, and may do so after the new verdict was saved. */
module SavedVerdicts {
  import opened Prelude
  import opened SingleFlight

  /** A part of a run. */
  ghost predicate IsStretch<V(!new)>(expiry: Expiry<V>, keys: seq<string>, run: seq<State<V>>) {
    && run != [] && (forall i | 0 <= i < |run| :: |run[i].pcs| == |keys|)
    && forall i | 0 <= i < |run| - 1 :: Next(expiry, keys, run[i], run[i + 1])
  }

  /** A request for `key` is about to delete the entry on disk. */
  ghost predicate DeletePending<V>(keys: seq<string>, s: State<V>, key: string)
    requires |s.pcs| == |keys|
  {
    exists t: nat :: t < |keys| && keys[t] == key && Deletes(s.pcs[t])
  }

  predicate Deletes<V>(pc: Pc<V>) {
    pc.Expired? || pc.DiskExpired?
  }

  /** There is an entry on disk, and neither it nor what is or may soon be in memory expires before
      `until`. */
  ghost predicate FreshUntil<V>(keys: seq<string>, s: State<V>, key: string, until: int)
    requires |s.pcs| == |keys|
  {
    && key in s.disk && s.disk[key].expiresAt >= until
    && (key in s.memory ==> s.memory[key].expiresAt >= until)
    && forall t: nat | t < |keys| && keys[t] == key && s.pcs[t].Restore? :: s.pcs[t].entry.expiresAt >= until
  }

  /** Every verdict is valid at least until then. */
  ghost predicate ValidUntil<V(!new)>(expiry: Expiry<V>, until: int) {
    forall v :: expiry(v) >= until
  }

  lemma LookUpKeeps<V>(keys: seq<string>, s: State<V>, s': State<V>, t: nat, key: string, until: int)
    requires t < |keys| == |s.pcs| && LooksUp(s.pcs[t]) && LookUpStep(keys[t], s, s', t)
    requires FreshUntil(keys, s, key, until) && !DeletePending(keys, s, key) && s.now <= until
    ensures |s'.pcs| == |keys| && FreshUntil(keys, s', key, until) && !DeletePending(keys, s', key)
  {
    assert keys[t] == key ==> !Deletes(s.pcs[t]);
    assert forall u: nat | u < |keys| && u != t :: s'.pcs[u] == s.pcs[u];
  }

  lemma FlightKeeps<V(!new)>(
    expiry: Expiry<V>, keys: seq<string>, s: State<V>, s': State<V>, t: nat, key: string, until: int)
    requires t < |keys| == |s.pcs| && !LooksUp(s.pcs[t]) && FlightStep(expiry, keys[t], s, s', t)
    requires FreshUntil(keys, s, key, until) && !DeletePending(keys, s, key) && ValidUntil(expiry, until)
    ensures |s'.pcs| == |keys| && FreshUntil(keys, s', key, until) && !DeletePending(keys, s', key)
  {
    FlightCaches(expiry, keys[t], s, s', t);
    FlightAdvances(expiry, keys[t], s, s', t);
    assert !Deletes(s'.pcs[t]) && !s'.pcs[t].Restore?;
    assert forall u: nat | u < |keys| && u != t :: s'.pcs[u] == s.pcs[u];
  }

  lemma NextKeeps<V(!new)>(expiry: Expiry<V>, keys: seq<string>, s: State<V>, s': State<V>, key: string, until: int)
    requires |s.pcs| == |s'.pcs| == |keys| && Next(expiry, keys, s, s') && ValidUntil(expiry, until)
    requires FreshUntil(keys, s, key, until) && !DeletePending(keys, s, key) && s.now <= until
    ensures FreshUntil(keys, s', key, until) && !DeletePending(keys, s', key)
  {
    if t: nat :| t < |keys| && Step(expiry, keys, s, s', t) {
      if LooksUp(s.pcs[t]) {
        LookUpKeeps(keys, s, s', t, key, until);
      } else {
        FlightKeeps(expiry, keys, s, s', t, key, until);
      }
    } else {
      assert s'.pcs == s.pcs;
    }
  }

  lemma NowGrows<V(!new)>(expiry: Expiry<V>, keys: seq<string>, s: State<V>, s': State<V>)
    requires |s.pcs| == |keys| && Next(expiry, keys, s, s')
    ensures s.now <= s'.now
  {
  }

  /** While the clock is within the time that all entries are good for, the entry on disk stays. */
  lemma {:induction false} SavedSurvives<V(!new)>(
    expiry: Expiry<V>, keys: seq<string>, run: seq<State<V>>, key: string, until: int)
    requires IsStretch(expiry, keys, run) && ValidUntil(expiry, until) && run[|run| - 1].now <= until
    requires FreshUntil(keys, run[0], key, until) && !DeletePending(keys, run[0], key)
    ensures FreshUntil(keys, run[|run| - 1], key, until) && !DeletePending(keys, run[|run| - 1], key)
    decreases |run|
  {
    var n := |run| - 1;
    if n > 0 {
      assert Next(expiry, keys, run[n - 1], run[n - 1 + 1]);
      NowGrows(expiry, keys, run[n - 1], run[n]);
      SavedSurvives(expiry, keys, run[..n], key, until);
      NextKeeps(expiry, keys, run[n - 1], run[n], key, until);
    }
  }

  ghost predicate StaysOnDisk<V(!new)>(expiry: Expiry<V>, keys: seq<string>, s: State<V>, key: string, until: int) {
    forall run: seq<State<V>> | IsStretch(expiry, keys, run) && run[0] == s && run[|run| - 1].now <= until ::
      key in run[|run| - 1].disk
  }

  /** When all entries and verdicts for a key are good until then, a saved verdict is on disk until then
      in every continuation if and only if no request for the key is about to delete it. */
  lemma StaysOnDiskIff<V(!new)>(expiry: Expiry<V>, keys: seq<string>, s: State<V>, key: string, until: int)
    requires |s.pcs| == |keys| && s.now <= until && ValidUntil(expiry, until) && FreshUntil(keys, s, key, until)
    ensures StaysOnDisk(expiry, keys, s, key, until) <==> !DeletePending(keys, s, key)
  {
    if DeletePending(keys, s, key) {
      var t: nat :| t < |keys| && keys[t] == key && Deletes(s.pcs[t]);
      var s' := Go(s, t, Missed).(disk := s.disk - {key});
      assert Step(expiry, keys, s, s', t);
      assert Next(expiry, keys, s, s');
      var run := [s, s'];
      assert IsStretch(expiry, keys, run) && run[|run| - 1] == s';
    } else {
      forall run: seq<State<V>> | IsStretch(expiry, keys, run) && run[0] == s && run[|run| - 1].now <= until
        ensures key in run[|run| - 1].disk
      {
        SavedSurvives(expiry, keys, run, key, until);
      }
    }
  }

  // ----- a success that does not stay on disk

  lemma Extend<V(!new)>(expiry: Expiry<V>, keys: seq<string>, run: seq<State<V>>, s': State<V>, t: nat)
    requires IsRun(expiry, keys, run) && |s'.pcs| == |keys| && t < |keys|
    requires Step(expiry, keys, run[|run| - 1], s', t)
    ensures IsRun(expiry, keys, run + [s'])
  {
    var longer := run + [s'];
    assert Next(expiry, keys, run[|run| - 1], s');
    forall i | 0 <= i < |longer| - 1
      ensures Next(expiry, keys, longer[i], longer[i + 1])
    {
      if i < |run| - 1 {
        NextOfRun(expiry, keys, run, i);
      }
    }
  }

  const KEYS := ["a", "a"]

  /** Every verdict is good for nine more units of time. */
  function Until10(): Expiry<int> {
    (v: int) => 10
  }

  /** Both requests have found the same entry on disk expired. */
  lemma BothFindItStale() returns (run: seq<State<int>>)
    ensures IsRun(Until10(), KEYS, run)
    ensures run[|run| - 1] == State(1, map[], map["a" := Entry(0, 0)], map[], [], [DiskExpired, DiskExpired])
  {
    var s: State<int> := State(1, map[], map["a" := Entry(0, 0)], map[], [], [LookUp, LookUp]);
    run := [s];
    var s' := s.(pcs := [LookUpDisk, LookUp]);
    Extend(Until10(), KEYS, run, s', 0);
    run, s := run + [s'], s';
    s' := s.(pcs := [DiskExpired, LookUp]);
    Extend(Until10(), KEYS, run, s', 0);
    run, s := run + [s'], s';
    s' := s.(pcs := [DiskExpired, LookUpDisk]);
    Extend(Until10(), KEYS, run, s', 1);
    run, s := run + [s'], s';
    s' := s.(pcs := [DiskExpired, DiskExpired]);
    Extend(Until10(), KEYS, run, s', 1);
    run := run + [s'];
  }

  /** What becomes of a state when request `t` deletes the expired entry, leads a check with this outcome
      and finishes, with nobody in between. */
  function AfterCheck<V>(expiry: Expiry<V>, key: string, s: State<V>, t: nat, outcome: Outcome<V>): State<V>
    requires t < |s.pcs|
  {
    Go(s, t, Returned(FromCall(outcome), Some(|s.calls|))).(
      memory := Keep(expiry, s.memory, key, outcome),
      disk := Keep(expiry, s.disk - {key}, key, outcome),
      calls := s.calls + [Call(key, Some(outcome), 1)])
  }

  lemma CheckAlone<V(!new)>(expiry: Expiry<V>, keys: seq<string>, run: seq<State<V>>, t: nat, outcome: Outcome<V>)
    returns (longer: seq<State<V>>)
    requires IsRun(expiry, keys, run) && t < |keys|
    requires run[|run| - 1].pcs[t] == DiskExpired && keys[t] !in run[|run| - 1].inflight
    ensures IsRun(expiry, keys, longer)
    ensures longer[|longer| - 1] == AfterCheck(expiry, keys[t], run[|run| - 1], t, outcome)
  {
    var first, key := run[|run| - 1], keys[t];
    var c := |first.calls|;
    longer := run;
    var s, s' := first, Go(first, t, Missed).(disk := first.disk - {key});
    Extend(expiry, keys, longer, s', t);
    longer, s := longer + [s'], s';
    s' := Go(s, t, Running(c)).(inflight := s.inflight[key := c], calls := s.calls + [Call(key, None, 0)]);
    Extend(expiry, keys, longer, s', t);
    longer, s := longer + [s'], s';
    s' := Go(s, t, Ran(c, outcome));
    Extend(expiry, keys, longer, s', t);
    longer, s := longer + [s'], s';
    longer := FinishAlone(expiry, keys, longer, t, c, outcome);
    assert first.inflight[key := c] - {key} == first.inflight;
    var last := longer[|longer| - 1];
    assert last.calls == first.calls + [Call(key, Some(outcome), 1)];
    assert last.pcs == first.pcs[t := Returned(FromCall(outcome), Some(c))];
  }

  lemma FinishAlone<V(!new)>(
    expiry: Expiry<V>, keys: seq<string>, run: seq<State<V>>, t: nat, c: nat, outcome: Outcome<V>)
    returns (longer: seq<State<V>>)
    requires IsRun(expiry, keys, run) && t < |keys|
    requires run[|run| - 1].pcs[t] == Ran(c, outcome) && c < |run[|run| - 1].calls|
    ensures IsRun(expiry, keys, longer)
    ensures var s, key := run[|run| - 1], keys[t];
            longer[|longer| - 1] == Go(s, t, Returned(FromCall(outcome), Some(c))).(
              memory := Keep(expiry, s.memory, key, outcome),
              disk := Keep(expiry, s.disk, key, outcome),
              inflight := s.inflight - {key},
              calls := s.calls[c := Call(s.calls[c].key, Some(outcome), s.calls[c].closes + 1)])
  {
    var first, key := run[|run| - 1], keys[t];
    var s' := Go(first, t, Assigned(c)).(calls := first.calls[c := first.calls[c].(outcome := Some(outcome))]);
    Extend(expiry, keys, run, s', t);
    longer := run + [s'];
    var s := s';
    s' := Go(s, t, Saving(c)).(
      memory := Keep(expiry, s.memory, key, outcome),
      inflight := s.inflight - {key},
      calls := s.calls[c := s.calls[c].(closes := s.calls[c].closes + 1)]);
    Extend(expiry, keys, longer, s', t);
    longer, s := longer + [s'], s';
    s' := Go(s, t, Returned(FromCall(outcome), Some(c))).(disk := Keep(expiry, s.disk, key, outcome));
    Extend(expiry, keys, longer, s', t);
    longer := longer + [s'];
    assert s'.pcs == first.pcs[t := Returned(FromCall(outcome), Some(c))];
  }

  /** Two requests find the same stale entry; one leads, succeeds and saves, and then the other deletes
      what it saved. Its own check fails, so all have returned with a fresh verdict in memory and none on
      disk. */
  lemma SavedVerdictLost() returns (run: seq<State<int>>)
    ensures IsRun(Until10(), KEYS, run)
    ensures var last := run[|run| - 1];
            && Finished(last) && |last.calls| == 2 && IsSuccess(last.calls[0], "a", 5)
            && "a" in last.memory && last.memory["a"] == Entry(5, 10) && last.now < 10
            && "a" !in last.disk
  {
    var start := BothFindItStale();
    var saved := CheckAlone(Until10(), KEYS, start, 0, Ok(5));
    run := CheckAlone(Until10(), KEYS, saved, 1, Err(()));
  }
}
