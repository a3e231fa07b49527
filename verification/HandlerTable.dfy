/** The dispatcher's handler table: groups in ascending order of their keys, edited on a copy that
    replaces the table while a lock is held, so that a dispatching worker keeps the table it has. */
module HandlerTable {
  import opened Prelude

  /** One entry of the ordered dictionary; `handlers` is a list, or a reference to one. */
  datatype Group<+T> = Group(key: int, handlers: T)

  type Groups<H> = seq<Group<seq<H>>>

  /** The two ways in which removing a handler raises `ValueError`. */
  datatype Error = NoSuchGroup | NotInGroup

  predicate Ascending<H>(groups: Groups<H>) {
    forall i, j | 0 <= i < j < |groups| :: groups[i].key < groups[j].key
  }

  predicate Valid<H>(groups: Groups<H>) {
    Ascending(groups) && NoneEmpty(groups)
  }

  predicate NoneEmpty<H>(groups: Groups<H>) {
    forall i | 0 <= i < |groups| :: groups[i].handlers != []
  }

  predicate DistinctKeys<H>(groups: Groups<H>) {
    forall i, j | 0 <= i < j < |groups| :: groups[i].key != groups[j].key
  }

  /** The handlers registered under `key`, in order; none when there is no such group. */
  function Handlers<H>(groups: Groups<H>, key: int): seq<H> {
    if groups == [] then []
    else if groups[0].key == key then groups[0].handlers
    else Handlers(groups[1..], key)
  }

  lemma {:induction false} HandlersAt<H>(groups: Groups<H>, i: nat)
    requires DistinctKeys(groups) && i < |groups|
    ensures Handlers(groups, groups[i].key) == groups[i].handlers
  {
    if i > 0 {
      HandlersAt(groups[1..], i - 1);
    }
  }

  lemma {:induction false} HandlersOfNone<H>(groups: Groups<H>, key: int)
    requires forall i | 0 <= i < |groups| :: groups[i].key != key
    ensures Handlers(groups, key) == []
  {
    if groups != [] {
      HandlersOfNone(groups[1..], key);
    }
  }

  ghost predicate HasKey<H>(groups: Groups<H>, key: int) {
    exists i :: 0 <= i < |groups| && groups[i].key == key
  }

  lemma ConsFacts<H>(groups: Groups<H>)
    requires groups != []
    ensures forall k :: HasKey(groups, k) <==> groups[0].key == k || HasKey(groups[1..], k)
    ensures DistinctKeys(groups) <==> DistinctKeys(groups[1..]) && !HasKey(groups[1..], groups[0].key)
    ensures Ascending(groups) <==> Ascending(groups[1..]) && forall k | HasKey(groups[1..], k) :: groups[0].key < k
    ensures NoneEmpty(groups) <==> groups[0].handlers != [] && NoneEmpty(groups[1..])
  {
    KeysOfCons(groups);
    DistinctCons(groups);
    AscendingCons(groups);
    NoneEmptyCons(groups);
  }

  lemma DistinctCons<H>(groups: Groups<H>)
    requires groups != []
    ensures DistinctKeys(groups) <==> DistinctKeys(groups[1..]) && !HasKey(groups[1..], groups[0].key)
  {
    var rest := groups[1..];
    if DistinctKeys(rest) && !HasKey(rest, groups[0].key) {
      forall i, j | 0 <= i < j < |groups|
        ensures groups[i].key != groups[j].key
      {
        assert groups[j] == rest[j - 1];
        assert i > 0 ==> groups[i] == rest[i - 1];
      }
    }
  }

  lemma AscendingCons<H>(groups: Groups<H>)
    requires groups != []
    ensures Ascending(groups) <==> Ascending(groups[1..]) && forall k | HasKey(groups[1..], k) :: groups[0].key < k
  {
    var rest := groups[1..];
    if Ascending(rest) && forall k | HasKey(rest, k) :: groups[0].key < k {
      forall i, j | 0 <= i < j < |groups|
        ensures groups[i].key < groups[j].key
      {
        assert groups[j] == rest[j - 1] && HasKey(rest, rest[j - 1].key);
        assert i > 0 ==> groups[i] == rest[i - 1];
      }
    }
  }

  lemma NoneEmptyCons<H>(groups: Groups<H>)
    requires groups != []
    ensures NoneEmpty(groups) <==> groups[0].handlers != [] && NoneEmpty(groups[1..])
  {
    var rest := groups[1..];
    if groups[0].handlers != [] && NoneEmpty(rest) {
      assert forall i | 0 < i < |groups| :: groups[i] == rest[i - 1];
    }
  }

  lemma KeysOfCons<H>(groups: Groups<H>)
    requires groups != []
    ensures forall k :: HasKey(groups, k) <==> groups[0].key == k || HasKey(groups[1..], k)
  {
    var rest := groups[1..];
    forall k
      ensures HasKey(groups, k) <==> groups[0].key == k || HasKey(rest, k)
    {
      if i :| 0 <= i < |groups| && groups[i].key == k {
        assert i > 0 ==> rest[i - 1].key == k;
      }
      if i :| 0 <= i < |rest| && rest[i].key == k {
        assert groups[i + 1].key == k;
      }
    }
  }

  /** A valid table is determined by what is registered under each key. */
  lemma {:induction false} TableIsCanonical<H>(a: Groups<H>, b: Groups<H>)
    requires Valid(a) && Valid(b) && forall key :: Handlers(a, key) == Handlers(b, key)
    ensures a == b
  {
    forall key
      ensures HasKey(a, key) <==> HasKey(b, key)
    {
      HasKeyIff(a, key);
      HasKeyIff(b, key);
    }
    if a != [] && b != [] {
      ConsFacts(a);
      ConsFacts(b);
      assert HasKey(a, a[0].key) && HasKey(b, b[0].key);
      assert a[0] == b[0] by {
        assert a[0].key == b[0].key;
        assert Handlers(a, a[0].key) == a[0].handlers && Handlers(b, a[0].key) == b[0].handlers;
      }
      forall key
        ensures Handlers(a[1..], key) == Handlers(b[1..], key)
      {
        assert Handlers(a, key) == Handlers(b, key);
        HasKeyIff(a[1..], key);
        HasKeyIff(b[1..], key);
      }
      TableIsCanonical(a[1..], b[1..]);
    }
    NoKeys(a);
    NoKeys(b);
  }

  lemma NoKeys<H>(groups: Groups<H>)
    ensures groups == [] <==> forall k :: !HasKey(groups, k)
  {
    if groups != [] {
      assert HasKey(groups, groups[0].key);
    }
  }

  lemma HasKeyIff<H>(groups: Groups<H>, key: int)
    requires Valid(groups)
    ensures HasKey(groups, key) <==> Handlers(groups, key) != []
  {
    if HasKey(groups, key) {
      var i :| 0 <= i < |groups| && groups[i].key == key;
      HandlersAt(groups, i);
    } else {
      HandlersOfNone(groups, key);
    }
  }

  // ----- the edits of a copy

  /** `setdefault(key, []).append(h)`: a new group goes to the end of the dictionary. */
  function Append<H>(groups: Groups<H>, key: int, h: H): Groups<H> {
    if groups == [] then [Group(key, [h])]
    else if groups[0].key == key then [Group(key, groups[0].handlers + [h])] + groups[1..]
    else [groups[0]] + Append(groups[1..], key, h)
  }

  function InsertByKey<T>(g: Group<T>, sorted: seq<Group<T>>): seq<Group<T>> {
    if sorted == [] || g.key < sorted[0].key then [g] + sorted
    else [sorted[0]] + InsertByKey(g, sorted[1..])
  }

  function SortByKey<T>(groups: seq<Group<T>>): seq<Group<T>> {
    if groups == [] then [] else InsertByKey(groups[0], SortByKey(groups[1..]))
  }

  function Without<H(==)>(handlers: seq<H>, h: H): seq<H> {
    if handlers == [] then [] else if handlers[0] == h then handlers[1..] else [handlers[0]] + Without(handlers[1..], h)
  }

  /** Replaces the group's handlers, and drops the group when none are left. */
  function Replace<H>(groups: Groups<H>, key: int, handlers: seq<H>): Groups<H> {
    if groups == [] then []
    else if groups[0].key == key then (if handlers == [] then [] else [Group(key, handlers)]) + groups[1..]
    else [groups[0]] + Replace(groups[1..], key, handlers)
  }

  function Add<H>(groups: Groups<H>, key: int, h: H): Groups<H> {
    SortByKey(Append(groups, key, h))
  }

  function Remove<H(==)>(groups: Groups<H>, key: int, h: H): Result<Groups<H>, Error> {
    if Handlers(groups, key) == [] then Err(NoSuchGroup)
    else if h !in Handlers(groups, key) then Err(NotInGroup)
    else Ok(Replace(groups, key, Without(Handlers(groups, key), h)))
  }

  lemma {:induction false} AppendFacts<H>(groups: Groups<H>, key: int, h: H)
    requires DistinctKeys(groups) && NoneEmpty(groups)
    ensures var r := Append(groups, key, h);
            && (forall k :: HasKey(r, k) <==> HasKey(groups, k) || k == key)
            && DistinctKeys(r) && NoneEmpty(r)
            && forall k :: Handlers(r, k) == Handlers(groups, k) + if k == key then [h] else []
  {
    var r := Append(groups, key, h);
    ConsFacts(r);
    if groups != [] {
      ConsFacts(groups);
      if groups[0].key != key {
        AppendFacts(groups[1..], key, h);
        assert r[1..] == Append(groups[1..], key, h);
      } else {
        assert r[1..] == groups[1..];
      }
    }
  }

  lemma {:induction false} InsertFacts<H>(g: Group<seq<H>>, sorted: Groups<H>)
    requires Ascending(sorted) && !HasKey(sorted, g.key)
    ensures var r := InsertByKey(g, sorted);
            && Ascending(r) && (forall k :: HasKey(r, k) <==> HasKey(sorted, k) || k == g.key)
            && (NoneEmpty(r) <==> g.handlers != [] && NoneEmpty(sorted))
  {
    var r := InsertByKey(g, sorted);
    ConsFacts(r);
    if sorted != [] {
      ConsFacts(sorted);
      if g.key >= sorted[0].key {
        InsertFacts(g, sorted[1..]);
        assert r[1..] == InsertByKey(g, sorted[1..]);
      } else {
        assert r[1..] == sorted;
      }
    }
  }

  lemma {:induction false} InsertHandlers<H>(g: Group<seq<H>>, sorted: Groups<H>, k: int)
    requires !HasKey(sorted, g.key)
    ensures Handlers(InsertByKey(g, sorted), k) == if k == g.key then g.handlers else Handlers(sorted, k)
  {
    if sorted != [] && g.key >= sorted[0].key {
      KeysOfCons(sorted);
      InsertHandlers(g, sorted[1..], k);
    }
  }

  lemma {:induction false} SortFacts<H>(groups: Groups<H>)
    requires DistinctKeys(groups)
    ensures var r := SortByKey(groups);
            && Ascending(r) && (forall k :: HasKey(r, k) <==> HasKey(groups, k))
            && (NoneEmpty(r) <==> NoneEmpty(groups))
            && forall k :: Handlers(r, k) == Handlers(groups, k)
  {
    if groups != [] {
      ConsFacts(groups);
      SortFacts(groups[1..]);
      InsertFacts(groups[0], SortByKey(groups[1..]));
      forall k
        ensures Handlers(SortByKey(groups), k) == Handlers(groups, k)
      {
        InsertHandlers(groups[0], SortByKey(groups[1..]), k);
      }
    }
  }

  /** Adding keeps the table valid and changes exactly one list, at its end. */
  lemma AddFacts<H>(groups: Groups<H>, key: int, h: H)
    requires Valid(groups)
    ensures Valid(Add(groups, key, h))
    ensures forall k :: Handlers(Add(groups, key, h), k) == Handlers(groups, k) + if k == key then [h] else []
  {
    AppendFacts(groups, key, h);
    SortFacts(Append(groups, key, h));
  }

  lemma {:induction false} ReplaceFacts<H>(groups: Groups<H>, key: int, handlers: seq<H>)
    requires Valid(groups)
    ensures var r := Replace(groups, key, handlers);
            && Valid(r) && (forall k | HasKey(r, k) :: HasKey(groups, k))
            && forall k :: Handlers(r, k) == if k == key && HasKey(groups, key) then handlers else Handlers(groups, k)
  {
    if groups != [] {
      ConsFacts(groups);
      if groups[0].key != key {
        ReplaceFacts(groups[1..], key, handlers);
        ReplaceCons(groups[0], Replace(groups[1..], key, handlers));
      } else if handlers == [] {
        assert Replace(groups, key, handlers) == groups[1..];
        HandlersOfNone(groups[1..], key);
      } else {
        ReplaceCons(Group(key, handlers), groups[1..]);
      }
    }
  }

  lemma ReplaceCons<H>(first: Group<seq<H>>, rest: Groups<H>)
    requires Valid(rest) && first.handlers != [] && forall k | HasKey(rest, k) :: first.key < k
    ensures Valid([first] + rest) && forall k :: HasKey([first] + rest, k) <==> k == first.key || HasKey(rest, k)
    ensures forall k :: Handlers([first] + rest, k) == if k == first.key then first.handlers else Handlers(rest, k)
  {
    ConsFacts([first] + rest);
    assert ([first] + rest)[1..] == rest;
  }

  /** A removal succeeds exactly when the handler is registered under the key; it takes out the first
      occurrence and nothing else, and keeps the table valid. */
  lemma RemoveFacts<H>(groups: Groups<H>, key: int, h: H)
    requires Valid(groups)
    ensures var r := Remove(groups, key, h);
            && (r.Ok? <==> h in Handlers(groups, key))
            && (r == Err(NoSuchGroup) <==> !HasKey(groups, key))
            && (r.Ok? ==>
                  && Valid(r.value)
                  && forall k :: Handlers(r.value, k) == if k == key then Without(Handlers(groups, k), h)
                      else Handlers(groups, k))
  {
    if HasKey(groups, key) {
      var i :| 0 <= i < |groups| && groups[i].key == key;
      HandlersAt(groups, i);
      ReplaceFacts(groups, key, Without(Handlers(groups, key), h));
    } else {
      HandlersOfNone(groups, key);
    }
  }

  lemma {:induction false} WithoutCounts<H>(handlers: seq<H>, h: H)
    requires h in handlers
    ensures multiset(Without(handlers, h)) == multiset(handlers) - multiset{h}
  {
    assert handlers == [handlers[0]] + handlers[1..];
    if handlers[0] != h {
      WithoutCounts(handlers[1..], h);
    }
  }

  // ----- any number of registrations at once

  datatype Op<H> = AddHandler(handler: H, key: int) | RemoveHandler(handler: H, key: int)

  /** Where a registration stands; an edited copy waits to be published. */
  datatype Pc<H> = Start | Locked | Copied(copy: Groups<H>) | Edited(copy: Groups<H>) | Done(ok: bool)

  datatype State<H> = State(groups: Groups<H>, lock: Option<nat>, pcs: seq<Pc<H>>)

  ghost predicate Step<H>(ops: seq<Op<H>>, s: State<H>, s': State<H>, t: nat)
    requires t < |ops| == |s.pcs|
  {
    match s.pcs[t]
    case Start => s.lock.None? && s' == s.(lock := Some(t), pcs := s.pcs[t := Locked])
    case Locked =>
      if ops[t].RemoveHandler? && !HasKey(s.groups, ops[t].key) then
        s' == s.(lock := None, pcs := s.pcs[t := Done(false)])
      else s' == s.(pcs := s.pcs[t := Copied(s.groups)])
    case Copied(copy) =>
      (match ops[t]
       case AddHandler(h, key) => s' == s.(pcs := s.pcs[t := Edited(Add(copy, key, h))])
       case RemoveHandler(h, key) =>
         match Remove(copy, key, h)
         case Ok(edited) => s' == s.(pcs := s.pcs[t := Edited(edited)])
         case Err(_) => s' == s.(lock := None, pcs := s.pcs[t := Done(false)]))
    case Edited(copy) => s' == s.(groups := copy, lock := None, pcs := s.pcs[t := Done(true)])
    case Done(_) => false
  }

  /** `n` steps of registration `t` with nobody in between. */
  ghost predicate Steps<H(!new)>(ops: seq<Op<H>>, s: State<H>, s': State<H>, t: nat, n: nat)
    requires t < |ops| == |s.pcs|
    decreases n
  {
    if n == 0 then s == s'
    else exists m :: Step(ops, s, m, t) && |m.pcs| == |ops| && Steps(ops, m, s', t, n - 1)
  }

  ghost predicate Next<H>(ops: seq<Op<H>>, s: State<H>, s': State<H>)
    requires |s.pcs| == |ops|
  {
    exists t: nat :: t < |ops| && Step(ops, s, s', t)
  }

  ghost predicate IsRun<H>(ops: seq<Op<H>>, run: seq<State<H>>) {
    && run != [] && (forall i | 0 <= i < |run| :: |run[i].pcs| == |ops|)
    && Valid(run[0].groups) && run[0].lock.None? && (forall t | 0 <= t < |ops| :: run[0].pcs[t] == Start)
    && forall i | 0 <= i < |run| - 1 :: Next(ops, run[i], run[i + 1])
  }

  /** What a registration does to the count of one handler under one key. */
  function Change<H(==)>(op: Op<H>, key: int, h: H): int {
    if op.key != key || op.handler != h then 0 else if op.AddHandler? then 1 else -1
  }

  /** How often a registration that is in force was made, less how often it was taken back. */
  function Balance<H(==)>(ops: seq<Op<H>>, pcs: seq<Pc<H>>, key: int, h: H): int
    requires |ops| == |pcs|
  {
    if ops == [] then 0
    else
      var n := |ops| - 1;
      Balance(ops[..n], pcs[..n], key, h)
      + if pcs[n] == Done(true) then Change(ops[n], key, h) else 0
  }

  lemma {:induction false} BalanceStep<H>(ops: seq<Op<H>>, pcs: seq<Pc<H>>, t: nat, pc: Pc<H>, key: int, h: H)
    requires t < |ops| == |pcs| && pcs[t] != Done(true)
    ensures Balance(ops, pcs[t := pc], key, h) - Balance(ops, pcs, key, h)
            == if pc == Done(true) then Change(ops[t], key, h) else 0
  {
    var n := |ops| - 1;
    if t == n {
      assert pcs[t := pc][..n] == pcs[..n];
    } else {
      assert pcs[t := pc][..n] == pcs[..n][t := pc];
      BalanceStep(ops[..n], pcs[..n], t, pc, key, h);
    }
  }

  lemma {:induction false} BalanceAtStart<H>(ops: seq<Op<H>>, pcs: seq<Pc<H>>, key: int, h: H)
    requires |ops| == |pcs| && forall t | 0 <= t < |ops| :: pcs[t] == Start
    ensures Balance(ops, pcs, key, h) == 0
  {
    if ops != [] {
      BalanceAtStart(ops[..|ops| - 1], pcs[..|ops| - 1], key, h);
    }
  }

  predicate Holds<H>(pc: Pc<H>) {
    pc.Locked? || pc.Copied? || pc.Edited?
  }

  /** What the copy of a registration under way is. */
  ghost predicate CopyOk<H>(op: Op<H>, groups: Groups<H>, pc: Pc<H>) {
    match pc
    case Copied(copy) => copy == groups
    case Edited(copy) =>
      (match op
       case AddHandler(h, key) => copy == Add(groups, key, h)
       case RemoveHandler(h, key) => Remove(groups, key, h) == Ok(copy))
    case _ => true
  }

  ghost predicate LockInv<H>(ops: seq<Op<H>>, s: State<H>) {
    && |s.pcs| == |ops|
    && (forall t | 0 <= t < |ops| :: Holds(s.pcs[t]) <==> s.lock == Some(t))
    && (s.lock.Some? ==> s.lock.value < |ops|)
    && (forall t | 0 <= t < |ops| :: CopyOk(ops[t], s.groups, s.pcs[t]))
  }

  function Count<H(==)>(groups: Groups<H>, key: int, h: H): int {
    multiset(Handlers(groups, key))[h]
  }

  ghost predicate CountInv<H(!new)>(ops: seq<Op<H>>, initial: Groups<H>, s: State<H>)
    requires |s.pcs| == |ops|
  {
    Valid(s.groups) && forall key, h :: Count(s.groups, key, h) == Count(initial, key, h) + Balance(ops, s.pcs, key, h)
  }

  lemma LockStep<H>(ops: seq<Op<H>>, s: State<H>, s': State<H>, t: nat)
    requires LockInv(ops, s) && t < |ops| && Step(ops, s, s', t)
    ensures LockInv(ops, s')
  {
    assert CopyOk(ops[t], s.groups, s.pcs[t]);
    forall u | 0 <= u < |ops|
      ensures (Holds(s'.pcs[u]) <==> s'.lock == Some(u)) && CopyOk(ops[u], s'.groups, s'.pcs[u])
    {
      assert CopyOk(ops[u], s.groups, s.pcs[u]);
    }
  }

  /** Publishing an edited copy adds or takes back one registration. */
  lemma PublishCounts<H>(op: Op<H>, groups: Groups<H>, copy: Groups<H>, key: int, h: H)
    requires Valid(groups) && CopyOk(op, groups, Edited(copy))
    ensures Valid(copy)
    ensures Count(copy, key, h) - Count(groups, key, h)
            == Change(op, key, h)
  {
    if op.AddHandler? {
      AddFacts(groups, op.key, op.handler);
    } else {
      RemoveFacts(groups, op.key, op.handler);
      WithoutCounts(Handlers(groups, op.key), op.handler);
    }
  }

  lemma CountStep<H(!new)>(ops: seq<Op<H>>, initial: Groups<H>, s: State<H>, s': State<H>, t: nat)
    requires LockInv(ops, s) && CountInv(ops, initial, s) && t < |ops| && Step(ops, s, s', t)
    ensures |s'.pcs| == |ops| && CountInv(ops, initial, s')
  {
    assert CopyOk(ops[t], s.groups, s.pcs[t]);
    if s.pcs[t].Edited? {
      PublishCounts(ops[t], s.groups, s.pcs[t].copy, ops[t].key, ops[t].handler);
    }
    forall key, h
      ensures Count(s'.groups, key, h) == Count(initial, key, h) + Balance(ops, s'.pcs, key, h)
    {
      BalanceStep(ops, s.pcs, t, s'.pcs[t], key, h);
      assert s'.pcs == s.pcs[t := s'.pcs[t]];
      assert Count(s.groups, key, h) == Count(initial, key, h) + Balance(ops, s.pcs, key, h);
      if s.pcs[t].Edited? {
        PublishCounts(ops[t], s.groups, s.pcs[t].copy, key, h);
      }
    }
  }

  lemma {:induction false} RunHolds<H(!new)>(ops: seq<Op<H>>, run: seq<State<H>>, n: nat)
    requires IsRun(ops, run) && n < |run|
    ensures LockInv(ops, run[n]) && CountInv(ops, run[0].groups, run[n])
  {
    if n == 0 {
      forall key, h
        ensures Balance(ops, run[0].pcs, key, h) == 0
      {
        BalanceAtStart(ops, run[0].pcs, key, h);
      }
    } else {
      RunHolds(ops, run, n - 1);
      assert Next(ops, run[n - 1], run[n - 1 + 1]);
      var t: nat :| t < |ops| && Step(ops, run[n - 1], run[n], t);
      LockStep(ops, run[n - 1], run[n], t);
      CountStep(ops, run[0].groups, run[n - 1], run[n], t);
    }
  }

  /** In every interleaving and at every moment the table that a worker would see has strictly
      ascending group keys and no empty group, and no registration is lost or made up: each handler
      is registered as often as at the start, plus the additions that are done, less the removals
      that succeeded. */
  lemma RegistrationsConserved<H(!new)>(ops: seq<Op<H>>, run: seq<State<H>>, n: nat, key: int, h: H)
    requires IsRun(ops, run) && n < |run|
    ensures Valid(run[n].groups)
    ensures Count(run[n].groups, key, h) == Count(run[0].groups, key, h) + Balance(ops, run[n].pcs, key, h)
  {
    RunHolds(ops, run, n);
  }

  // ----- a registration without interruption

  /** A registration whose turn has come: nobody holds the lock. */
  predicate Ready<H(==)>(ops: seq<Op<H>>, s: State<H>, t: nat, op: Op<H>) {
    t < |ops| == |s.pcs| && ops[t] == op && s.pcs[t] == Start && s.lock.None?
  }

  function Finish<H>(s: State<H>, groups: Groups<H>, t: nat, ok: bool): State<H>
    requires t < |s.pcs|
  {
    s.(groups := groups, pcs := s.pcs[t := Done(ok)])
  }

  lemma OneStep<H(!new)>(ops: seq<Op<H>>, s: State<H>, m: State<H>, s': State<H>, t: nat, n: nat)
    requires t < |ops| == |s.pcs| && |m.pcs| == |ops| && Step(ops, s, m, t) && Steps(ops, m, s', t, n)
    ensures Steps(ops, s, s', t, n + 1)
  {
  }

  /** An addition is four steps: lock, copy, edit, and publish with unlocking. */
  lemma AddSteps<H(!new)>(ops: seq<Op<H>>, s: State<H>, t: nat, h: H, key: int) returns (n: nat)
    requires Ready(ops, s, t, AddHandler(h, key))
    ensures n == 4 && Steps(ops, s, Finish(s, Add(s.groups, key, h), t, true), t, n)
  {
    var last := Finish(s, Add(s.groups, key, h), t, true);
    var s1 := s.(lock := Some(t), pcs := s.pcs[t := Locked]);
    var s2 := s1.(pcs := s1.pcs[t := Copied(s.groups)]);
    var s3 := s2.(pcs := s2.pcs[t := Edited(Add(s.groups, key, h))]);
    assert last.pcs == s3.pcs[t := Done(true)] && Step(ops, s3, last, t) && Steps(ops, last, last, t, 0);
    OneStep(ops, s3, last, last, t, 0);
    OneStep(ops, s2, s3, last, t, 1);
    OneStep(ops, s1, s2, last, t, 2);
    OneStep(ops, s, s1, last, t, 3);
    n := 4;
  }

  /** A removal is four steps when it succeeds; it ends after two or three, with the table as it was,
      when the group or the handler is not there. */
  lemma RemoveSteps<H(!new)>(ops: seq<Op<H>>, s: State<H>, t: nat, h: H, key: int) returns (n: nat)
    requires Ready(ops, s, t, RemoveHandler(h, key)) && Valid(s.groups)
    ensures var r := Remove(s.groups, key, h);
            && n == (if r == Err(NoSuchGroup) then 2 else if r.Err? then 3 else 4)
            && Steps(ops, s, Finish(s, if r.Ok? then r.value else s.groups, t, r.Ok?), t, n)
  {
    RemoveFacts(s.groups, key, h);
    var r := Remove(s.groups, key, h);
    var last := Finish(s, if r.Ok? then r.value else s.groups, t, r.Ok?);
    var s1 := s.(lock := Some(t), pcs := s.pcs[t := Locked]);
    assert Steps(ops, last, last, t, 0);
    if r == Err(NoSuchGroup) {
      assert last.pcs == s1.pcs[t := Done(false)];
      OneStep(ops, s1, last, last, t, 0);
      n := 2;
    } else {
      n := RemoveCopySteps(ops, s1, last, t, h, key);
    }
    OneStep(ops, s, s1, last, t, n - 1);
  }

  lemma RemoveCopySteps<H(!new)>(ops: seq<Op<H>>, s1: State<H>, last: State<H>, t: nat, h: H, key: int) returns (n: nat)
    requires t < |ops| == |s1.pcs| && ops[t] == RemoveHandler(h, key) && s1.pcs[t] == Locked && HasKey(s1.groups, key)
    requires var r := Remove(s1.groups, key, h);
             last == Finish(s1.(lock := None), if r.Ok? then r.value else s1.groups, t, r.Ok?)
    ensures n == (if Remove(s1.groups, key, h).Err? then 3 else 4) && Steps(ops, s1, last, t, n - 1)
  {
    var r := Remove(s1.groups, key, h);
    var s2 := s1.(pcs := s1.pcs[t := Copied(s1.groups)]);
    assert Steps(ops, last, last, t, 0);
    if r.Err? {
      assert last.pcs == s2.pcs[t := Done(false)];
      OneStep(ops, s2, last, last, t, 0);
      n := 3;
    } else {
      var s3 := s2.(pcs := s2.pcs[t := Edited(r.value)]);
      assert last.pcs == s3.pcs[t := Done(true)];
      OneStep(ops, s3, last, last, t, 0);
      OneStep(ops, s2, s3, last, t, 1);
      n := 4;
    }
    OneStep(ops, s1, s2, last, t, n - 2);
  }
}
