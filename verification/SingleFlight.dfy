/** The link checker: concurrent checks of one link share a single run of the check. */
module SingleFlight {
  import opened Prelude

  /** What a check ends with; `Ok` carries a verdict, which is the only thing ever cached. */
  type Outcome<V> = Result<V, ()>

  /** A cached verdict with the time after which it is ignored. */
  datatype Entry<V> = Entry(verdict: V, expiresAt: int)

  /** A shared call: the outcome is assigned before `done` is closed. */
  datatype Call<V> = Call(key: string, outcome: Option<Outcome<V>>, closes: nat)

  /** What a request gets back: a cached verdict, or the outcome of the call it led or waited for. */
  datatype Answer<V> = FromCache(verdict: V) | FromCall(outcome: Outcome<V>)

  /** Where a request stands between its atomic steps. */
  datatype Pc<V> =
    | LookUp
    | Expired
    | LookUpDisk
    | DiskExpired
    | Restore(entry: Entry<V>)
    | Missed
    | Running(call: nat)
    | Ran(call: nat, outcome: Outcome<V>)
    | Assigned(call: nat)
    | Saving(call: nat)
    | Waiting(call: nat)
    | Returned(answer: Answer<V>, from: Option<nat>)

  datatype State<V> = State(
    now: int,
    memory: map<string, Entry<V>>,
    disk: map<string, Entry<V>>,
    inflight: map<string, nat>,
    calls: seq<Call<V>>,
    pcs: seq<Pc<V>>)

  /** The lifetime of a fresh verdict is the check's own business. */
  type Expiry<!V> = V -> int

  ghost predicate Init<V>(keys: seq<string>, s: State<V>) {
    && |s.pcs| == |keys| && s.memory == map[] && s.inflight == map[] && s.calls == []
    && forall t | 0 <= t < |keys| :: s.pcs[t] == LookUp
  }

  function Go<V>(s: State<V>, t: nat, pc: Pc<V>): State<V>
    requires t < |s.pcs|
  {
    s.(pcs := s.pcs[t := pc])
  }

  predicate LooksUp<V>(pc: Pc<V>) {
    pc.LookUp? || pc.Expired? || pc.LookUpDisk? || pc.DiskExpired? || pc.Restore?
  }

  /** `getCached`: the memory cache under the mutex, then the disk, then back under the mutex. */
  ghost predicate LookUpStep<V>(key: string, s: State<V>, s': State<V>, t: nat)
    requires t < |s.pcs| && LooksUp(s.pcs[t])
  {
    match s.pcs[t]
    case LookUp =>
      if key in s.memory then
        if s.now > s.memory[key].expiresAt then s' == Go(s, t, Expired).(memory := s.memory - {key})
        else s' == Go(s, t, Returned(FromCache(s.memory[key].verdict), None))
      else s' == Go(s, t, LookUpDisk)
    case LookUpDisk =>
      if key !in s.disk then s' == Go(s, t, Missed)
      else if s.now > s.disk[key].expiresAt then s' == Go(s, t, DiskExpired)
      else s' == Go(s, t, Restore(s.disk[key]))
    case Restore(entry) =>
      s' == Go(s, t, Returned(FromCache(entry.verdict), None)).(memory := s.memory[key := entry])
    case Expired => s' == Go(s, t, Missed).(disk := s.disk - {key})
    case DiskExpired => s' == Go(s, t, Missed).(disk := s.disk - {key})
  }

  /** `acquireInflight`, the check itself, the steps of `finishInflight`, and the receive on `done`. */
  ghost predicate FlightStep<V(!new)>(expiry: Expiry<V>, key: string, s: State<V>, s': State<V>, t: nat)
    requires t < |s.pcs|
  {
    match s.pcs[t]
    case Missed =>
      if key in s.inflight then s' == Go(s, t, Waiting(s.inflight[key]))
      else
        s' == Go(s, t, Running(|s.calls|)).(
                inflight := s.inflight[key := |s.calls|],
                calls := s.calls + [Call(key, None, 0)])
    case Running(c) => exists outcome :: s' == Go(s, t, Ran(c, outcome))
    case Ran(c, outcome) =>
      c < |s.calls| && s' == Go(s, t, Assigned(c)).(calls := s.calls[c := s.calls[c].(outcome := Some(outcome))])
    case Assigned(c) =>
      && c < |s.calls| && s.calls[c].outcome.Some?
      && s' == Go(s, t, Saving(c)).(
           memory := Keep(expiry, s.memory, key, s.calls[c].outcome.value),
           inflight := s.inflight - {key},
           calls := s.calls[c := s.calls[c].(closes := s.calls[c].closes + 1)])
    case Saving(c) =>
      && c < |s.calls| && s.calls[c].outcome.Some?
      && s' == Go(s, t, Returned(FromCall(s.calls[c].outcome.value), Some(c))).(
           disk := Keep(expiry, s.disk, key, s.calls[c].outcome.value))
    case Waiting(c) =>
      && c < |s.calls| && s.calls[c].closes > 0 && s.calls[c].outcome.Some?
      && s' == Go(s, t, Returned(FromCall(s.calls[c].outcome.value), Some(c)))
    case _ => false
  }

  function Keep<V>(
    expiry: Expiry<V>, entries: map<string, Entry<V>>, key: string, outcome: Outcome<V>): map<string, Entry<V>> {
    if outcome.Ok? then entries[key := Entry(outcome.value, expiry(outcome.value))] else entries
  }

  /** One atomic step of request `t`. */
  ghost predicate Step<V(!new)>(expiry: Expiry<V>, keys: seq<string>, s: State<V>, s': State<V>, t: nat)
    requires t < |keys| == |s.pcs|
  {
    if LooksUp(s.pcs[t]) then LookUpStep(keys[t], s, s', t) else FlightStep(expiry, keys[t], s, s', t)
  }

  /** A request moves, or time passes. */
  ghost predicate Next<V(!new)>(expiry: Expiry<V>, keys: seq<string>, s: State<V>, s': State<V>)
    requires |s.pcs| == |keys|
  {
    || (exists t: nat :: t < |keys| && Step(expiry, keys, s, s', t))
    || (s'.now >= s.now && s' == s.(now := s'.now))
  }

  ghost predicate IsRun<V(!new)>(expiry: Expiry<V>, keys: seq<string>, run: seq<State<V>>) {
    && run != [] && Init(keys, run[0])
    && (forall i | 0 <= i < |run| :: |run[i].pcs| == |keys|)
    && forall i {:trigger Next(expiry, keys, run[i], run[i + 1])} | 0 <= i < |run| - 1 ::
         Next(expiry, keys, run[i], run[i + 1])
  }

  // ----- the invariant

  /** A request that leads call `c` and has not closed it. */
  predicate LeadsOpen<V>(pc: Pc<V>, c: nat) {
    (pc.Running? || pc.Ran? || pc.Assigned?) && pc.call == c
  }

  /** Every call that a request refers to exists and is for the request's key. */
  ghost predicate Refers<V>(keys: seq<string>, s: State<V>, t: nat)
    requires t < |keys| == |s.pcs|
  {
    var pc := s.pcs[t];
    && (pc.Running? || pc.Ran? || pc.Assigned? || pc.Saving? || pc.Waiting? ==>
          pc.call < |s.calls| && s.calls[pc.call].key == keys[t])
    && (pc.Running? || pc.Ran? ==> s.calls[pc.call].closes == 0 && s.calls[pc.call].outcome.None?)
    && (pc.Assigned? ==> s.calls[pc.call].closes == 0 && s.calls[pc.call].outcome.Some?)
    && (pc.Saving? ==> s.calls[pc.call].closes == 1 && s.calls[pc.call].outcome.Some?)
    && (pc.Returned? && pc.from.Some? ==>
          && pc.from.value < |s.calls| && s.calls[pc.from.value].key == keys[t] && s.calls[pc.from.value].closes == 1
          && s.calls[pc.from.value].outcome.Some? && pc.answer == FromCall(s.calls[pc.from.value].outcome.value))
  }

  ghost predicate HasLeader<V>(keys: seq<string>, s: State<V>, c: nat)
    requires |s.pcs| == |keys|
  {
    exists t: nat :: t < |keys| && LeadsOpen(s.pcs[t], c)
  }

  /** An open call is in flight and has a leader; a closed one was closed once, with an outcome. */
  ghost predicate CallsInv<V>(keys: seq<string>, s: State<V>)
    requires |s.pcs| == |keys|
  {
    forall c: nat | c < |s.calls| ::
      && s.calls[c].closes <= 1
      && (s.calls[c].closes == 1 ==> s.calls[c].outcome.Some?)
      && (s.calls[c].closes == 0 ==>
            s.calls[c].key in s.inflight && s.inflight[s.calls[c].key] == c && HasLeader(keys, s, c))
  }

  ghost predicate LeadersInv<V>(keys: seq<string>, s: State<V>)
    requires |s.pcs| == |keys|
  {
    && (forall t: nat | t < |keys| :: Refers(keys, s, t))
    && (forall t: nat, u: nat, c: nat | t < |keys| && u < |keys| && LeadsOpen(s.pcs[t], c)
        && LeadsOpen(s.pcs[u], c) :: t == u)
    && (forall key | key in s.inflight ::
          s.inflight[key] < |s.calls| && s.calls[s.inflight[key]].key == key && s.calls[s.inflight[key]].closes == 0)
  }

  /** A closed call for `key` that ended well. */
  ghost predicate IsSuccess<V>(call: Call<V>, key: string, verdict: V) {
    call.key == key && call.closes == 1 && call.outcome == Some(Ok(verdict))
  }

  /** A cached verdict was on disk at the start or is the outcome of a call for its key that ended
      well. */
  ghost predicate Genuine<V>(initial: map<string, Entry<V>>, s: State<V>, key: string, verdict: V) {
    || (key in initial && initial[key].verdict == verdict)
    || exists c: nat :: c < |s.calls| && IsSuccess(s.calls[c], key, verdict)
  }

  /** The verdict that a request has taken from a cache, if any. */
  function FromEntry<V>(pc: Pc<V>): Option<V> {
    if pc.Restore? then Some(pc.entry.verdict)
    else if pc.Returned? && pc.answer.FromCache? then Some(pc.answer.verdict)
    else None
  }

  ghost predicate CacheInv<V>(keys: seq<string>, initial: map<string, Entry<V>>, s: State<V>)
    requires |s.pcs| == |keys|
  {
    && (forall key | key in s.memory :: Genuine(initial, s, key, s.memory[key].verdict))
    && (forall key | key in s.disk :: Genuine(initial, s, key, s.disk[key].verdict))
    && (forall t: nat | t < |keys| && FromEntry(s.pcs[t]).Some? ::
        Genuine(initial, s, keys[t], FromEntry(s.pcs[t]).value))
  }

  ghost predicate Inv<V>(keys: seq<string>, initial: map<string, Entry<V>>, s: State<V>) {
    |s.pcs| == |keys| && CallsInv(keys, s) && LeadersInv(keys, s) && CacheInv(keys, initial, s)
  }

  lemma InitHolds<V>(keys: seq<string>, s: State<V>)
    requires Init(keys, s)
    ensures Inv(keys, s.disk, s)
  {
  }

  // ----- the four kinds of step

  /** A request becomes the leader of a new call. */
  ghost predicate Opens<V>(keys: seq<string>, s: State<V>, s': State<V>, t: nat)
    requires t < |keys| == |s.pcs|
  {
    && s.pcs[t].Missed? && keys[t] !in s.inflight
    && s'.pcs == s.pcs[t := Running(|s.calls|)]
    && s'.inflight == s.inflight[keys[t] := |s.calls|] && s'.calls == s.calls + [Call(keys[t], None, 0)]
  }

  /** A leader assigns the outcome to its call. */
  ghost predicate Records<V>(keys: seq<string>, s: State<V>, s': State<V>, t: nat)
    requires t < |keys| == |s.pcs|
  {
    && s.pcs[t].Ran? && s.pcs[t].call < |s.calls| && s'.pcs == s.pcs[t := Assigned(s.pcs[t].call)]
        && s'.inflight == s.inflight
    && s'.calls == s.calls[s.pcs[t].call := s.calls[s.pcs[t].call].(outcome := Some(s.pcs[t].outcome))]
  }

  /** A leader takes its call out of flight and closes it. */
  ghost predicate Closes<V>(keys: seq<string>, s: State<V>, s': State<V>, t: nat)
    requires t < |keys| == |s.pcs|
  {
    && s.pcs[t].Assigned? && s.pcs[t].call < |s.calls| && s'.pcs == s.pcs[t := Saving(s.pcs[t].call)]
    && s'.inflight == s.inflight - {keys[t]}
    && s'.calls == s.calls[s.pcs[t].call := s.calls[s.pcs[t].call].(closes := s.calls[s.pcs[t].call].closes + 1)]
  }

  /** Every other step leaves the calls alone. */
  ghost predicate Moves<V>(keys: seq<string>, s: State<V>, s': State<V>, t: nat)
    requires t < |keys| == |s.pcs|
  {
    && s'.calls == s.calls && s'.inflight == s.inflight && |s'.pcs| == |s.pcs| && s'.pcs == s.pcs[t := s'.pcs[t]]
    && !s.pcs[t].Ran? && !s.pcs[t].Assigned? && !s'.pcs[t].Running? && !s'.pcs[t].Assigned? && !s'.pcs[t].Saving?
    && (s.pcs[t].Running? <==> s'.pcs[t].Ran?) && (s.pcs[t].Running? ==> s'.pcs[t].call == s.pcs[t].call)
    && (s'.pcs[t].Waiting? ==> keys[t] in s.inflight && s'.pcs[t].call == s.inflight[keys[t]])
    && (s'.pcs[t].Returned? && s'.pcs[t].from.Some? ==>
          && (s.pcs[t].Saving? || s.pcs[t].Waiting?) && s'.pcs[t].from == Some(s.pcs[t].call)
          && s.pcs[t].call < |s.calls| && s.calls[s.pcs[t].call].closes > 0 && s.calls[s.pcs[t].call].outcome.Some?
          && s'.pcs[t].answer == FromCall(s.calls[s.pcs[t].call].outcome.value))
  }

  ghost predicate Evolves<V>(keys: seq<string>, s: State<V>, s': State<V>, t: nat)
    requires t < |keys| == |s.pcs|
  {
    Opens(keys, s, s', t) || Records(keys, s, s', t) || Closes(keys, s, s', t) || Moves(keys, s, s', t)
  }

  lemma StepEvolves<V(!new)>(expiry: Expiry<V>, keys: seq<string>, s: State<V>, s': State<V>, t: nat)
    requires t < |keys| == |s.pcs| && Refers(keys, s, t) && Step(expiry, keys, s, s', t)
    ensures Evolves(keys, s, s', t)
  {
    if LooksUp(s.pcs[t]) {
      LookUpMoves(keys, s, s', t);
    } else {
      FlightEvolves(expiry, keys, s, s', t);
    }
  }

  lemma LookUpMoves<V>(keys: seq<string>, s: State<V>, s': State<V>, t: nat)
    requires t < |keys| == |s.pcs| && LooksUp(s.pcs[t]) && LookUpStep(keys[t], s, s', t)
    ensures Moves(keys, s, s', t)
  {
  }

  lemma FlightEvolves<V(!new)>(expiry: Expiry<V>, keys: seq<string>, s: State<V>, s': State<V>, t: nat)
    requires t < |keys| == |s.pcs| && !LooksUp(s.pcs[t]) && FlightStep(expiry, keys[t], s, s', t)
    requires s.pcs[t].Saving? ==> s.pcs[t].call < |s.calls| && s.calls[s.pcs[t].call].closes == 1
    ensures Evolves(keys, s, s', t)
  {
  }

  // ----- every step keeps the invariant

  /** Calls are never removed, keep their keys, and are frozen once closed. */
  ghost predicate CallsGrow<V>(s: State<V>, s': State<V>) {
    && |s.calls| <= |s'.calls|
    && forall c: nat | c < |s.calls| ::
         && s'.calls[c].key == s.calls[c].key && s.calls[c].closes <= s'.calls[c].closes
         && (s.calls[c].closes > 0 ==> s'.calls[c] == s.calls[c])
  }

  lemma CallsStep<V>(keys: seq<string>, s: State<V>, s': State<V>, t: nat)
    requires t < |keys| == |s.pcs| && Refers(keys, s, t) && Evolves(keys, s, s', t)
    ensures CallsGrow(s, s') && |s'.pcs| == |keys| && s'.pcs == s.pcs[t := s'.pcs[t]]
    ensures forall c: nat | c < |s.calls| && !LeadsOpen(s.pcs[t], c) :: s'.calls[c] == s.calls[c]
  {
  }

  lemma OwnRefersStep<V>(keys: seq<string>, s: State<V>, s': State<V>, t: nat)
    requires t < |keys| == |s.pcs| && LeadersInv(keys, s) && CallsInv(keys, s) && Evolves(keys, s, s', t)
    ensures |s'.pcs| == |keys| && Refers(keys, s', t)
  {
    assert Refers(keys, s, t);
  }

  lemma RefersStep<V>(keys: seq<string>, s: State<V>, s': State<V>, t: nat, u: nat)
    requires t < |keys| == |s.pcs| && u < |keys| && LeadersInv(keys, s) && CallsInv(keys, s) && Evolves(keys, s, s', t)
    ensures |s'.pcs| == |keys| && Refers(keys, s', u)
  {
    if u == t {
      OwnRefersStep(keys, s, s', t);
    } else {
      assert Refers(keys, s, t) && Refers(keys, s, u);
      CallsStep(keys, s, s', t);
    }
  }

  lemma LeadersStep<V>(keys: seq<string>, s: State<V>, s': State<V>, t: nat)
    requires t < |keys| == |s.pcs| && LeadersInv(keys, s) && CallsInv(keys, s) && Evolves(keys, s, s', t)
    ensures |s'.pcs| == |keys| && LeadersInv(keys, s')
  {
    assert Refers(keys, s, t);
    CallsStep(keys, s, s', t);
    forall u: nat | u < |keys|
      ensures Refers(keys, s', u)
    {
      RefersStep(keys, s, s', t, u);
    }
    forall u: nat, v: nat, c: nat | u < |keys| && v < |keys| && LeadsOpen(s'.pcs[u], c) && LeadsOpen(s'.pcs[v], c)
      ensures u == v
    {
      assert Refers(keys, s, u) && Refers(keys, s, v);
      assert c < |s.calls| ==> LeadsOpen(s.pcs[u], c) && LeadsOpen(s.pcs[v], c);
    }
    InflightStep(keys, s, s', t);
  }

  lemma InflightStep<V>(keys: seq<string>, s: State<V>, s': State<V>, t: nat)
    requires t < |keys| == |s.pcs| && LeadersInv(keys, s) && CallsInv(keys, s) && Evolves(keys, s, s', t)
    ensures forall key | key in s'.inflight ::
              s'.inflight[key] < |s'.calls| && s'.calls[s'.inflight[key]].key == key
                && s'.calls[s'.inflight[key]].closes == 0
  {
    assert Refers(keys, s, t);
  }

  /** One call, open or closed, after a step. */
  lemma CallStep<V>(keys: seq<string>, s: State<V>, s': State<V>, t: nat, c: nat)
    requires t < |keys| == |s.pcs| && LeadersInv(keys, s) && CallsInv(keys, s) && Evolves(keys, s, s', t)
        && c < |s'.calls|
    ensures s'.calls[c].closes <= 1 && (s'.calls[c].closes == 1 ==> s'.calls[c].outcome.Some?)
    ensures s'.calls[c].closes == 0 ==> s'.calls[c].key in s'.inflight && s'.inflight[s'.calls[c].key] == c
    ensures |s'.pcs| == |keys| && (s'.calls[c].closes == 0 ==> HasLeader(keys, s', c))
  {
    assert Refers(keys, s, t);
    CallsStep(keys, s, s', t);
    if s'.calls[c].closes == 0 {
      if c < |s.calls| {
        assert HasLeader(keys, s, c);
        var u: nat :| u < |keys| && LeadsOpen(s.pcs[u], c);
        assert LeadsOpen(s'.pcs[u], c);
      } else {
        assert LeadsOpen(s'.pcs[t], c);
      }
    }
  }

  lemma GenuineGrows<V>(initial: map<string, Entry<V>>, s: State<V>, s': State<V>, key: string, verdict: V)
    requires CallsGrow(s, s') && Genuine(initial, s, key, verdict)
    ensures Genuine(initial, s', key, verdict)
  {
    if c: nat :| c < |s.calls| && IsSuccess(s.calls[c], key, verdict) {
      assert s'.calls[c] == s.calls[c];
    }
  }

  /** What a leader caches is the outcome of the call it has just closed. */
  lemma CachedIsGenuine<V(!new)>(
    expiry: Expiry<V>, keys: seq<string>, initial: map<string, Entry<V>>, s: State<V>, s': State<V>, t: nat)
    requires |s.pcs| == |keys| && LeadersInv(keys, s) && t < |keys| && Step(expiry, keys, s, s', t)
    requires s.pcs[t].Assigned? || s.pcs[t].Saving?
    ensures var outcome := s'.calls[s.pcs[t].call].outcome;
            outcome.Some? && (outcome.value.Ok? ==> Genuine(initial, s', keys[t], outcome.value.value))
  {
    assert Refers(keys, s, t);
    var c := s.pcs[t].call;
    assert s'.calls[c].key == keys[t] && s'.calls[c].closes == 1;
  }

  /** Where a cached entry comes from: the same entry before the step, or one copied from disk, or
      the verdict of a call that its leader is finishing. */
  ghost predicate Sourced<V>(keys: seq<string>, s: State<V>, s': State<V>, t: nat, key: string, verdict: V)
    requires t < |keys| == |s.pcs|
  {
    || (key in s.memory && s.memory[key].verdict == verdict)
    || (key in s.disk && s.disk[key].verdict == verdict)
    || (key == keys[t] && s.pcs[t].Restore? && s.pcs[t].entry.verdict == verdict)
    || (key == keys[t] && (s.pcs[t].Assigned? || s.pcs[t].Saving?)
        && s.pcs[t].call < |s'.calls| && s'.calls[s.pcs[t].call].outcome == Some(Ok(verdict)))
  }

  lemma LookUpSources<V>(keys: seq<string>, s: State<V>, s': State<V>, t: nat, key: string)
    requires t < |keys| == |s.pcs| && LooksUp(s.pcs[t]) && LookUpStep(keys[t], s, s', t)
    ensures key in s'.memory ==> Sourced(keys, s, s', t, key, s'.memory[key].verdict)
    ensures key in s'.disk ==> Sourced(keys, s, s', t, key, s'.disk[key].verdict)
    ensures |s'.pcs| == |keys| && s'.pcs == s.pcs[t := s'.pcs[t]]
    ensures FromEntry(s'.pcs[t]).Some? ==> Sourced(keys, s, s', t, keys[t], FromEntry(s'.pcs[t]).value)
  {
  }

  lemma FlightSources<V(!new)>(expiry: Expiry<V>, keys: seq<string>, s: State<V>, s': State<V>, t: nat, key: string)
    requires t < |keys| == |s.pcs| && !LooksUp(s.pcs[t]) && FlightStep(expiry, keys[t], s, s', t)
    ensures key in s'.memory ==> Sourced(keys, s, s', t, key, s'.memory[key].verdict)
    ensures key in s'.disk ==> Sourced(keys, s, s', t, key, s'.disk[key].verdict)
    ensures |s'.pcs| == |keys| && s'.pcs == s.pcs[t := s'.pcs[t]] && FromEntry(s'.pcs[t]).None?
  {
    FlightCaches(expiry, keys[t], s, s', t);
  }

  /** What a step outside the look-up does to the two caches. */
  lemma FlightCaches<V(!new)>(expiry: Expiry<V>, key: string, s: State<V>, s': State<V>, t: nat)
    requires t < |s.pcs| && !LooksUp(s.pcs[t]) && FlightStep(expiry, key, s, s', t)
    ensures |s'.pcs| == |s.pcs| && s'.pcs == s.pcs[t := s'.pcs[t]] && FromEntry(s'.pcs[t]).None?
    ensures s'.memory != s.memory || s'.disk != s.disk ==>
              && (s.pcs[t].Assigned? || s.pcs[t].Saving?) && s.pcs[t].call < |s'.calls| == |s.calls|
              && s'.calls[s.pcs[t].call].outcome.Some?
              && (var outcome := s'.calls[s.pcs[t].call].outcome.value;
                  && s'.memory in {s.memory, Keep(expiry, s.memory, key, outcome)}
                  && s'.disk in {s.disk, Keep(expiry, s.disk, key, outcome)})
  {
  }

  lemma StepSources<V(!new)>(expiry: Expiry<V>, keys: seq<string>, s: State<V>, s': State<V>, t: nat, key: string)
    requires t < |keys| == |s.pcs| && Step(expiry, keys, s, s', t)
    ensures key in s'.memory ==> Sourced(keys, s, s', t, key, s'.memory[key].verdict)
    ensures key in s'.disk ==> Sourced(keys, s, s', t, key, s'.disk[key].verdict)
    ensures |s'.pcs| == |keys| && s'.pcs == s.pcs[t := s'.pcs[t]]
    ensures FromEntry(s'.pcs[t]).Some? ==> Sourced(keys, s, s', t, keys[t], FromEntry(s'.pcs[t]).value)
  {
    if LooksUp(s.pcs[t]) {
      LookUpSources(keys, s, s', t, key);
    } else {
      FlightSources(expiry, keys, s, s', t, key);
    }
  }

  lemma SourcedIsGenuine<V(!new)>(
    expiry: Expiry<V>, keys: seq<string>, initial: map<string, Entry<V>>, s: State<V>, s': State<V>, t: nat,
    key: string, verdict: V)
    requires t < |keys| == |s.pcs| && LeadersInv(keys, s) && CacheInv(keys, initial, s) && CallsGrow(s, s')
    requires Step(expiry, keys, s, s', t) && Sourced(keys, s, s', t, key, verdict)
    ensures Genuine(initial, s', key, verdict)
  {
    if s.pcs[t].Assigned? || s.pcs[t].Saving? {
      CachedIsGenuine(expiry, keys, initial, s, s', t);
    }
    if Genuine(initial, s, key, verdict) {
      GenuineGrows(initial, s, s', key, verdict);
    }
  }

  lemma CacheStep<V(!new)>(
    expiry: Expiry<V>, keys: seq<string>, initial: map<string, Entry<V>>, s: State<V>, s': State<V>, t: nat)
    requires t < |keys| == |s.pcs| && LeadersInv(keys, s) && CacheInv(keys, initial, s) && CallsGrow(s, s')
    requires Step(expiry, keys, s, s', t)
    ensures |s'.pcs| == |keys| && CacheInv(keys, initial, s')
  {
    forall key, verdict | Sourced(keys, s, s', t, key, verdict)
      ensures Genuine(initial, s', key, verdict)
    {
      SourcedIsGenuine(expiry, keys, initial, s, s', t, key, verdict);
    }
    forall key
      ensures key in s'.memory ==> Genuine(initial, s', key, s'.memory[key].verdict)
      ensures key in s'.disk ==> Genuine(initial, s', key, s'.disk[key].verdict)
    {
      StepSources(expiry, keys, s, s', t, key);
    }
    StepSources(expiry, keys, s, s', t, keys[t]);
    forall u: nat | u < |keys| && FromEntry(s'.pcs[u]).Some?
      ensures Genuine(initial, s', keys[u], FromEntry(s'.pcs[u]).value)
    {
      if u != t {
        GenuineGrows(initial, s, s', keys[u], FromEntry(s'.pcs[u]).value);
      }
    }
  }

  lemma NextHolds<V(!new)>(
    expiry: Expiry<V>, keys: seq<string>, initial: map<string, Entry<V>>, s: State<V>, s': State<V>)
    requires Inv(keys, initial, s) && Next(expiry, keys, s, s')
    ensures Inv(keys, initial, s') && CallsGrow(s, s')
  {
    if t: nat :| t < |keys| && Step(expiry, keys, s, s', t) {
      assert Refers(keys, s, t);
      StepEvolves(expiry, keys, s, s', t);
      CallsStep(keys, s, s', t);
      LeadersStep(keys, s, s', t);
      forall c: nat | c < |s'.calls|
        ensures s'.calls[c].closes <= 1 && (s'.calls[c].closes == 1 ==> s'.calls[c].outcome.Some?)
        ensures s'.calls[c].closes == 0 ==>
                  s'.calls[c].key in s'.inflight && s'.inflight[s'.calls[c].key] == c && HasLeader(keys, s', c)
      {
        CallStep(keys, s, s', t, c);
      }
      CacheStep(expiry, keys, initial, s, s', t);
    } else {
      TimeHolds(keys, initial, s, s');
    }
  }

  /** The passing of time changes nothing but the clock. */
  lemma TimeHolds<V>(keys: seq<string>, initial: map<string, Entry<V>>, s: State<V>, s': State<V>)
    requires Inv(keys, initial, s) && s' == s.(now := s'.now)
    ensures Inv(keys, initial, s') && CallsGrow(s, s')
  {
    forall c: nat | c < |s.calls| && s.calls[c].closes == 0
      ensures HasLeader(keys, s', c)
    {
      assert HasLeader(keys, s, c);
      var t: nat :| t < |keys| && LeadsOpen(s.pcs[t], c);
      assert LeadsOpen(s'.pcs[t], c);
    }
    forall t: nat | t < |keys|
      ensures Refers(keys, s', t)
    {
      assert Refers(keys, s, t);
    }
    assert CallsGrow(s, s');
    forall key, verdict | Genuine(initial, s, key, verdict)
      ensures Genuine(initial, s', key, verdict)
    {
      GenuineGrows(initial, s, s', key, verdict);
    }
    assert forall t: nat | t < |keys| :: s'.pcs[t] == s.pcs[t];
  }

  lemma NextOfRun<V(!new)>(expiry: Expiry<V>, keys: seq<string>, run: seq<State<V>>, n: nat)
    requires IsRun(expiry, keys, run) && n + 1 < |run|
    ensures |run[n].pcs| == |keys| && Next(expiry, keys, run[n], run[n + 1])
  {
  }

  lemma {:induction false} RunHolds<V(!new)>(expiry: Expiry<V>, keys: seq<string>, run: seq<State<V>>, n: nat)
    requires IsRun(expiry, keys, run) && n < |run|
    ensures Inv(keys, run[0].disk, run[n])
  {
    if n == 0 {
      InitHolds(keys, run[0]);
    } else {
      RunHolds(expiry, keys, run, n - 1);
      NextOfRun(expiry, keys, run, n - 1);
      NextHolds(expiry, keys, run[0].disk, run[n - 1], run[n]);
    }
  }

  // ----- what every run guarantees

  /** At most one check runs per key at any time, whatever the interleaving. */
  lemma AtMostOneCheck<V(!new)>(expiry: Expiry<V>, keys: seq<string>, run: seq<State<V>>, n: nat, t: nat, u: nat)
    requires IsRun(expiry, keys, run) && n < |run| && t < |keys| && u < |keys| && keys[t] == keys[u]
    requires run[n].pcs[t].Running? && run[n].pcs[u].Running?
    ensures t == u
  {
    RunHolds(expiry, keys, run, n);
    var s := run[n];
    assert Refers(keys, s, t) && Refers(keys, s, u);
    assert LeadsOpen(s.pcs[t], s.pcs[t].call) && LeadsOpen(s.pcs[u], s.pcs[u].call);
  }

  lemma CallNow<V(!new)>(expiry: Expiry<V>, keys: seq<string>, run: seq<State<V>>, n: nat, c: nat)
    requires IsRun(expiry, keys, run) && n < |run| && c < |run[n].calls|
    ensures run[n].calls[c].closes <= 1
    ensures run[n].calls[c].closes == 1 ==> run[n].calls[c].outcome.Some?
    ensures forall t: nat | t < |keys| && run[n].pcs[t].Returned? && run[n].pcs[t].from == Some(c) ::
              run[n].calls[c].closes == 1
  {
    RunHolds(expiry, keys, run, n);
    forall t: nat | t < |keys| && run[n].pcs[t].Returned? && run[n].pcs[t].from == Some(c)
      ensures run[n].calls[c].closes == 1
    {
      assert Refers(keys, run[n], t);
    }
  }

  lemma CallNext<V(!new)>(expiry: Expiry<V>, keys: seq<string>, run: seq<State<V>>, n: nat, c: nat)
    requires IsRun(expiry, keys, run) && n + 1 < |run| && c < |run[n].calls|
    ensures c < |run[n + 1].calls| && run[n].calls[c].closes <= run[n + 1].calls[c].closes
    ensures run[n].calls[c].closes == 1 ==> run[n + 1].calls[c] == run[n].calls[c]
  {
    RunHolds(expiry, keys, run, n);
    NextOfRun(expiry, keys, run, n);
    NextHolds(expiry, keys, run[0].disk, run[n], run[n + 1]);
  }

  /** `done` is closed at most once per call, and exactly once when its leader or one of its waiters
      has returned; from then on the call never changes. */
  lemma {:induction false} ClosedOnce<V(!new)>(
    expiry: Expiry<V>, keys: seq<string>, run: seq<State<V>>, n: nat, m: nat, c: nat)
    requires IsRun(expiry, keys, run) && n <= m < |run| && c < |run[n].calls|
    ensures c < |run[m].calls| && run[n].calls[c].closes <= run[m].calls[c].closes <= 1
    ensures run[n].calls[c].closes == 1 ==> run[n].calls[c].outcome.Some? && run[m].calls[c] == run[n].calls[c]
    ensures forall t: nat | t < |keys| && run[n].pcs[t].Returned? && run[n].pcs[t].from == Some(c) ::
              run[n].calls[c].closes == 1
    decreases m - n
  {
    CallNow(expiry, keys, run, n, c);
    if n < m {
      CallNext(expiry, keys, run, n, c);
      ClosedOnce(expiry, keys, run, n + 1, m, c);
    }
  }

  /** Everyone who led or waited for one call gets the same answer: the outcome of that call, which
      was for their key. */
  lemma SharedAnswer<V(!new)>(expiry: Expiry<V>, keys: seq<string>, run: seq<State<V>>, n: nat, t: nat, m: nat, u: nat)
    requires IsRun(expiry, keys, run) && n <= m < |run| && t < |keys| && u < |keys|
    requires run[n].pcs[t].Returned? && run[n].pcs[t].from.Some?
    requires run[m].pcs[u].Returned? && run[m].pcs[u].from == run[n].pcs[t].from
    ensures keys[t] == keys[u] && run[n].pcs[t].answer == run[m].pcs[u].answer
    ensures var c := run[n].pcs[t].from.value;
            && c < |run[m].calls| && run[m].calls[c].key == keys[u]
            && run[m].calls[c].outcome.Some? && run[m].pcs[u].answer == FromCall(run[m].calls[c].outcome.value)
  {
    RunHolds(expiry, keys, run, n);
    RunHolds(expiry, keys, run, m);
    assert Refers(keys, run[n], t) && Refers(keys, run[m], u);
    ClosedOnce(expiry, keys, run, n, m, run[n].pcs[t].from.value);
  }

  /** No waiter is orphaned: its call is for its key, and is closed with an outcome or still led by
      exactly one request, which has not returned. */
  lemma WaiterHasLeader<V(!new)>(expiry: Expiry<V>, keys: seq<string>, run: seq<State<V>>, n: nat, t: nat)
    requires IsRun(expiry, keys, run) && n < |run| && t < |keys| && run[n].pcs[t].Waiting?
    ensures var s, c := run[n], run[n].pcs[t].call;
            && c < |s.calls| && s.calls[c].key == keys[t]
            && (|| (s.calls[c].closes == 1 && s.calls[c].outcome.Some?)
                || (&& HasLeader(keys, s, c)
                    && forall u: nat, v: nat | u < |keys| && v < |keys| ::
                         LeadsOpen(s.pcs[u], c) && LeadsOpen(s.pcs[v], c) ==> u == v))
  {
    RunHolds(expiry, keys, run, n);
    assert Refers(keys, run[n], t);
  }

  /** A failed check is never cached: every cached verdict, in memory or on disk, and every answer from
      a cache, was on disk at the start or is the verdict of a closed call for its key that ended
      well. */
  lemma OnlySuccessIsCached<V(!new)>(expiry: Expiry<V>, keys: seq<string>, run: seq<State<V>>, n: nat, key: string)
    requires IsRun(expiry, keys, run) && n < |run|
    ensures key in run[n].memory ==> Genuine(run[0].disk, run[n], key, run[n].memory[key].verdict)
    ensures key in run[n].disk ==> Genuine(run[0].disk, run[n], key, run[n].disk[key].verdict)
    ensures forall t: nat | t < |keys| && FromEntry(run[n].pcs[t]).Some? ::
              Genuine(run[0].disk, run[n], keys[t], FromEntry(run[n].pcs[t]).value)
  {
    RunHolds(expiry, keys, run, n);
  }

  ghost predicate Finished<V>(s: State<V>) {
    forall t | 0 <= t < |s.pcs| :: s.pcs[t].Returned?
  }

  lemma CanLookUp<V>(key: string, s: State<V>, t: nat) returns (s': State<V>)
    requires t < |s.pcs| && LooksUp(s.pcs[t])
    ensures LookUpStep(key, s, s', t)
  {
    match s.pcs[t]
    case LookUp =>
      if key in s.memory {
        if s.now > s.memory[key].expiresAt {
          s' := Go(s, t, Expired).(memory := s.memory - {key});
        } else {
          s' := Go(s, t, Returned(FromCache(s.memory[key].verdict), None));
        }
      } else {
        s' := Go(s, t, LookUpDisk);
      }
    case LookUpDisk =>
      s' := Go(s, t,
               if key !in s.disk then Missed
               else if s.now > s.disk[key].expiresAt then DiskExpired
               else Restore(s.disk[key]));
    case Restore(entry) => s' := Go(s, t, Returned(FromCache(entry.verdict), None)).(memory := s.memory[key := entry]);
    case Expired => s' := Go(s, t, Missed).(disk := s.disk - {key});
    case DiskExpired => s' := Go(s, t, Missed).(disk := s.disk - {key});
  }

  lemma CanFly<V(!new)>(expiry: Expiry<V>, keys: seq<string>, s: State<V>, t: nat, verdict: Outcome<V>)
    returns (s': State<V>)
    requires |s.pcs| == |keys| && t < |keys| && !LooksUp(s.pcs[t]) && !s.pcs[t].Returned? && CallsInv(keys, s)
        && Refers(keys, s, t)
    requires s.pcs[t].Waiting? ==> s.calls[s.pcs[t].call].closes == 1
    ensures FlightStep(expiry, keys[t], s, s', t)
  {
    var key := keys[t];
    match s.pcs[t]
    case Missed =>
      if key in s.inflight {
        s' := Go(s, t, Waiting(s.inflight[key]));
      } else {
        s' := Go(s, t, Running(|s.calls|)).(
          inflight := s.inflight[key := |s.calls|],
          calls := s.calls + [Call(key, None, 0)]);
      }
    case Running(c) => s' := Go(s, t, Ran(c, verdict));
    case Ran(c, outcome) => s' := Go(s, t, Assigned(c)).(calls := s.calls[c := s.calls[c].(outcome := Some(outcome))]);
    case Assigned(c) =>
      s' := Go(s, t, Saving(c)).(
        memory := Keep(expiry, s.memory, key, s.calls[c].outcome.value),
        inflight := s.inflight - {key},
        calls := s.calls[c := s.calls[c].(closes := s.calls[c].closes + 1)]);
    case Saving(c) =>
      s' := Go(s, t, Returned(FromCall(s.calls[c].outcome.value), Some(c))).(
        disk := Keep(expiry, s.disk, key, s.calls[c].outcome.value));
    case Waiting(c) => s' := Go(s, t, Returned(FromCall(s.calls[c].outcome.value), Some(c)));
  }

  /** No deadlock: until every request has returned, some request can move, whichever outcome the
      checks have. */
  lemma NeverStuck<V(!new)>(expiry: Expiry<V>, keys: seq<string>, run: seq<State<V>>, n: nat, outcome: Outcome<V>)
    returns (t: nat, s': State<V>)
    requires IsRun(expiry, keys, run) && n < |run| && !Finished(run[n])
    ensures t < |keys| && Step(expiry, keys, run[n], s', t)
  {
    var s := run[n];
    RunHolds(expiry, keys, run, n);
    t :| t < |s.pcs| && !s.pcs[t].Returned?;
    assert Refers(keys, s, t);
    if s.pcs[t].Waiting? && s.calls[s.pcs[t].call].closes == 0 {
      var c := s.pcs[t].call;
      assert HasLeader(keys, s, c);
      t :| t < |keys| && LeadsOpen(s.pcs[t], c);
    }
    assert Refers(keys, s, t);
    if LooksUp(s.pcs[t]) {
      s' := CanLookUp(keys[t], s, t);
    } else {
      s' := CanFly(expiry, keys, s, t, outcome);
    }
  }

  // ----- and they all return

  /** How far a request has got; every step takes it further. */
  function Rank<V>(pc: Pc<V>): nat {
    match pc
    case LookUp => 0
    case Expired => 1
    case LookUpDisk => 1
    case DiskExpired => 2
    case Restore(_) => 2
    case Missed => 3
    case Running(_) => 4
    case Ran(_, _) => 5
    case Assigned(_) => 6
    case Saving(_) => 7
    case Waiting(_) => 4
    case Returned(_, _) => 8
  }

  function TotalRank<V>(pcs: seq<Pc<V>>): (n: nat)
    ensures n <= 8 * |pcs|
  {
    if pcs == [] then 0 else TotalRank(pcs[..|pcs| - 1]) + Rank(pcs[|pcs| - 1])
  }

  lemma {:induction false} RankAfter<V>(pcs: seq<Pc<V>>, t: nat, pc: Pc<V>)
    requires t < |pcs|
    ensures TotalRank(pcs[t := pc]) == TotalRank(pcs) - Rank(pcs[t]) + Rank(pc)
  {
    var n := |pcs| - 1;
    if t == n {
      assert pcs[t := pc][..n] == pcs[..n];
    } else {
      assert pcs[t := pc][..n] == pcs[..n][t := pc];
      RankAfter(pcs[..n], t, pc);
    }
  }

  lemma LookUpAdvances<V>(key: string, s: State<V>, s': State<V>, t: nat)
    requires t < |s.pcs| && LooksUp(s.pcs[t]) && LookUpStep(key, s, s', t)
    ensures |s'.pcs| == |s.pcs| && s'.pcs == s.pcs[t := s'.pcs[t]] && Rank(s.pcs[t]) < Rank(s'.pcs[t])
  {
  }

  lemma FlightAdvances<V(!new)>(expiry: Expiry<V>, key: string, s: State<V>, s': State<V>, t: nat)
    requires t < |s.pcs| && !LooksUp(s.pcs[t]) && FlightStep(expiry, key, s, s', t)
    ensures |s'.pcs| == |s.pcs| && s'.pcs == s.pcs[t := s'.pcs[t]] && Rank(s.pcs[t]) < Rank(s'.pcs[t])
  {
  }

  lemma StepAdvances<V(!new)>(expiry: Expiry<V>, keys: seq<string>, s: State<V>, s': State<V>, t: nat)
    requires t < |keys| == |s.pcs| && Step(expiry, keys, s, s', t)
    ensures TotalRank(s.pcs) < TotalRank(s'.pcs)
  {
    if LooksUp(s.pcs[t]) {
      LookUpAdvances(keys[t], s, s', t);
    } else {
      FlightAdvances(expiry, keys[t], s, s', t);
    }
    RankAfter(s.pcs, t, s'.pcs[t]);
  }

  /** How many of the first `n` transitions of a run are steps of requests, not the passing of time. */
  ghost function StepsTaken<V>(run: seq<State<V>>, n: nat): nat
    requires n < |run|
  {
    if n == 0 then 0 else StepsTaken(run, n - 1) + if run[n].pcs == run[n - 1].pcs then 0 else 1
  }

  lemma {:induction false} MovesRank<V(!new)>(expiry: Expiry<V>, keys: seq<string>, run: seq<State<V>>, n: nat)
    requires IsRun(expiry, keys, run) && n < |run|
    ensures StepsTaken(run, n) <= TotalRank(run[n].pcs)
  {
    if n > 0 {
      MovesRank(expiry, keys, run, n - 1);
      NextOfRun(expiry, keys, run, n - 1);
      var s, s' := run[n - 1], run[n];
      if t: nat :| t < |keys| && Step(expiry, keys, s, s', t) {
        StepAdvances(expiry, keys, s, s', t);
      }
    }
  }

  /** Requests take at most eight steps each, whatever the interleaving: every run is finite but for the
      passing of time. When all have returned, every call was closed exactly once, with an outcome, and
      nothing is in flight. */
  lemma RequestsReturn<V(!new)>(expiry: Expiry<V>, keys: seq<string>, run: seq<State<V>>, n: nat)
    requires IsRun(expiry, keys, run) && n < |run|
    ensures StepsTaken(run, n) <= 8 * |keys|
    ensures Finished(run[n]) ==>
              && run[n].inflight == map[]
              && forall c: nat | c < |run[n].calls| :: run[n].calls[c].closes == 1 && run[n].calls[c].outcome.Some?
  {
    MovesRank(expiry, keys, run, n);
    RunHolds(expiry, keys, run, n);
    if Finished(run[n]) {
      forall c: nat | c < |run[n].calls|
        ensures run[n].calls[c].closes == 1
      {
        ClosedWhenFinished(keys, run[n], c);
      }
      assert forall key :: key !in run[n].inflight;
    }
  }

  lemma ClosedWhenFinished<V>(keys: seq<string>, s: State<V>, c: nat)
    requires |s.pcs| == |keys| && CallsInv(keys, s) && Finished(s) && c < |s.calls|
    ensures s.calls[c].closes == 1
  {
    assert s.calls[c].closes == 0 ==> HasLeader(keys, s, c);
  }

  // ----- the regions under the mutex as code

  /** The fields that the mutex guards; a call is named by its index in `calls`. */
  class CheckService<V(!new)> {
    var memory: map<string, Entry<V>>
    var inflight: map<string, nat>
    var calls: seq<Call<V>>

    constructor ()
      ensures memory == map[] && inflight == map[] && calls == []
    {
      memory, inflight, calls := map[], map[], [];
    }

    /** The guarded fields are those of `s`. */
    ghost predicate Shows(s: State<V>)
      reads this
    {
      memory == s.memory && inflight == s.inflight && calls == s.calls
    }

    /** The first region of `getCached`: a fresh entry is a hit, a stale one is dropped. */
    method GetCached(key: string, now: int, ghost s: State<V>, ghost t: nat) returns (hit: Option<V>, expired: bool)
      requires Shows(s) && s.now == now && t < |s.pcs| && s.pcs[t] == LookUp
      modifies this`memory
      ensures hit.Some? <==> key in old(memory) && now <= old(memory)[key].expiresAt
      ensures hit.Some? ==> hit.value == old(memory)[key].verdict
      ensures expired <==> key in old(memory) && now > old(memory)[key].expiresAt
      ensures memory == if expired then old(memory) - {key} else old(memory)
      ensures var pc :=
                if hit.Some? then Returned(FromCache(hit.value), None) else if expired then Expired else LookUpDisk;
              LookUpStep(key, s, Go(s, t, pc).(memory := memory), t)
    {
      hit, expired := None, false;
      if key in memory {
        if now > memory[key].expiresAt {
          memory := memory - {key};
          expired := true;
        } else {
          hit := Some(memory[key].verdict);
        }
      }
    }

    /** `acquireInflight`. */
    method AcquireInflight(expiry: Expiry<V>, key: string, ghost s: State<V>, ghost t: nat)
      returns (call: nat, wait: bool)
      requires Shows(s) && t < |s.pcs| && s.pcs[t] == Missed
      modifies this`inflight, this`calls
      ensures wait <==> key in old(inflight)
      ensures wait ==> call == old(inflight)[key] && inflight == old(inflight) && calls == old(calls)
      ensures !wait ==> call == |old(calls)| && inflight == old(inflight)[key := call] && |calls| == call + 1
      ensures var pc := if wait then Waiting(call) else Running(call);
              FlightStep(expiry, key, s, Go(s, t, pc).(inflight := inflight, calls := calls), t)
    {
      if key in inflight {
        call, wait := inflight[key], true;
      } else {
        call, wait := |calls|, false;
        calls := calls + [Call(key, None, 0)];
        inflight := inflight[key := call];
      }
    }

    /** The region of `finishInflight`. */
    method FinishInflight(
      expiry: Expiry<V>, key: string, call: nat, outcome: Outcome<V>, ghost s: State<V>, ghost t: nat)
      requires Shows(s) && t < |s.pcs| && s.pcs[t] == Assigned(call) && call < |calls|
          && calls[call].outcome == Some(outcome)
      modifies this
      ensures |calls| == |old(calls)| && key !in inflight && calls[call].closes == old(calls)[call].closes + 1
      ensures outcome.Ok? ==>
                memory == old(memory)[key := Entry(outcome.value, expiry(outcome.value))]
      ensures outcome.Err? ==> memory == old(memory)
      ensures var s' := Go(s, t, Saving(call)).(memory := memory, inflight := inflight, calls := calls);
              FlightStep(expiry, key, s, s', t)
    {
      if outcome.Ok? {
        memory := memory[key := Entry(outcome.value, expiry(outcome.value))];
      }
      inflight := inflight - {key};
      calls := calls[call := calls[call].(closes := calls[call].closes + 1)];
    }
  }
}
