/** The registration methods on the heap: the table refers to lists that are mutable objects, an edit is
    made on a copy of all of them, and no list of a published table is ever changed. */
module HandlerLists {
  import opened Prelude
  import opened HandlerTable

  class HandlerList<H(==)> {
    var items: seq<H>

    constructor (items: seq<H>)
      ensures this.items == items
    {
      this.items := items;
    }

    method Append(h: H)
      modifies this
      ensures items == old(items) + [h]
    {
      items := items + [h];
    }

    /** `list.remove`: takes out the first occurrence, or tells that there is none. */
    method RemoveFirst(h: H) returns (found: bool)
      modifies this
      ensures found <==> h in old(items)
      ensures items == if found then Without(old(items), h) else old(items)
    {
      for i := 0 to |items|
        invariant items == old(items) && h !in items[..i]
      {
        if items[i] == h {
          WithoutAt(items, h, i);
          items := items[..i] + items[i + 1..];
          return true;
        }
        assert items[..i + 1] == items[..i] + [items[i]];
      }
      assert items[..|items|] == items;
      return false;
    }
  }

  lemma {:induction false} WithoutAt<H>(items: seq<H>, h: H, i: nat)
    requires i < |items| && items[i] == h && h !in items[..i]
    ensures h in items && Without(items, h) == items[..i] + items[i + 1..]
  {
    if i > 0 {
      assert items[..i][0] == items[0];
      assert items[1..][..i - 1] == items[..i][1..];
      WithoutAt(items[1..], h, i - 1);
    }
  }

  type Entries<H(==)> = seq<Group<HandlerList<H>>>

  /** The lists hold what `groups` says. */
  ghost predicate Shows<H>(entries: Entries<H>, groups: Groups<H>)
    reads set i | 0 <= i < |entries| :: entries[i].handlers
  {
    && |groups| == |entries|
    && forall i | 0 <= i < |entries| :: groups[i] == Group(entries[i].key, entries[i].handlers.items)
  }

  lemma {:induction false} ShowsInsert<H>(g: Group<HandlerList<H>>, entries: Entries<H>, groups: Groups<H>)
    requires Shows(entries, groups)
    ensures Shows(InsertByKey(g, entries), InsertByKey(Group(g.key, g.handlers.items), groups))
  {
    if entries != [] && g.key >= entries[0].key {
      ShowsInsert(g, entries[1..], groups[1..]);
    }
  }

  lemma {:induction false} ShowsSort<H>(entries: Entries<H>, groups: Groups<H>)
    requires Shows(entries, groups)
    ensures Shows(SortByKey(entries), SortByKey(groups))
  {
    if entries != [] {
      ShowsSort(entries[1..], groups[1..]);
      ShowsInsert(entries[0], SortByKey(entries[1..]), SortByKey(groups[1..]));
    }
  }

  lemma {:induction false} MembersOfSort<H>(entries: Entries<H>, e: Group<HandlerList<H>>)
    ensures e in SortByKey(entries) <==> e in entries
  {
    if entries != [] {
      MembersOfSort(entries[1..], e);
      MembersOfInsert(entries[0], SortByKey(entries[1..]), e);
    }
  }

  lemma {:induction false} MembersOfInsert<H>(g: Group<HandlerList<H>>, entries: Entries<H>, e: Group<HandlerList<H>>)
    ensures e in InsertByKey(g, entries) <==> e == g || e in entries
  {
    if entries != [] && g.key >= entries[0].key {
      MembersOfInsert(g, entries[1..], e);
    }
  }

  /** The first entry with `key` is the one at `i`, or there is none. */
  predicate Finds<T>(groups: seq<Group<T>>, key: int, i: nat) {
    && i <= |groups| && (forall j | 0 <= j < i :: groups[j].key != key)
    && (i < |groups| ==> groups[i].key == key)
  }

  method Find<T>(groups: seq<Group<T>>, key: int) returns (i: nat)
    ensures Finds(groups, key, i)
  {
    i := 0;
    while i < |groups| && groups[i].key != key
      invariant i <= |groups| && forall j | 0 <= j < i :: groups[j].key != key
    {
      i := i + 1;
    }
  }

  lemma {:induction false} FoundHandlers<H>(groups: Groups<H>, key: int, i: nat)
    requires Finds(groups, key, i)
    ensures Handlers(groups, key) == if i < |groups| then groups[i].handlers else []
    ensures HasKey(groups, key) <==> i < |groups|
  {
    if i > 0 {
      FoundHandlers(groups[1..], key, i - 1);
    }
  }

  lemma {:induction false} AppendAt<H>(groups: Groups<H>, key: int, h: H, i: nat)
    requires Finds(groups, key, i)
    ensures Append(groups, key, h)
         == if i < |groups| then groups[i := Group(key, groups[i].handlers + [h])] else groups + [Group(key, [h])]
  {
    if i > 0 {
      AppendAt(groups[1..], key, h, i - 1);
    }
  }

  lemma {:induction false} ReplaceAt<H>(groups: Groups<H>, key: int, handlers: seq<H>, i: nat)
    requires Finds(groups, key, i) && i < |groups|
    ensures Replace(groups, key, handlers)
         == if handlers == [] then groups[..i] + groups[i + 1..] else groups[i := Group(key, handlers)]
  {
    if i > 0 {
      ReplaceAt(groups[1..], key, handlers, i - 1);
    }
  }

  // ----- the table

  ghost predicate Separate<H>(entries: Entries<H>) {
    forall i, j | 0 <= i < j < |entries| :: entries[i].handlers != entries[j].handlers
  }

  /** `_copy_groups`: new lists with the same contents. */
  method CopyGroups<H(==)>(entries: Entries<H>, ghost groups: Groups<H>) returns (copy: Entries<H>)
    requires Shows(entries, groups)
    ensures Shows(copy, groups) && Separate(copy) && forall i | 0 <= i < |copy| :: fresh(copy[i].handlers)
  {
    copy := [];
    for n := 0 to |entries|
      invariant |copy| == n && Separate(copy) && forall i | 0 <= i < n :: fresh(copy[i].handlers)
      invariant forall i | 0 <= i < n :: groups[i] == Group(copy[i].key, copy[i].handlers.items)
    {
      var list := new HandlerList(entries[n].handlers.items);
      copy := copy + [Group(entries[n].key, list)];
    }
  }

  /** `setdefault(key, []).append(h)` on a copy. */
  method Appended<H(==)>(copy: Entries<H>, key: int, h: H, ghost groups: Groups<H>) returns (r: Entries<H>)
    requires Shows(copy, groups) && Separate(copy)
    modifies set i | 0 <= i < |copy| :: copy[i].handlers
    ensures Shows(r, Append(groups, key, h))
    ensures forall i | 0 <= i < |r| :: fresh(r[i].handlers) || r[i] in copy
  {
    var i := Find(copy, key);
    AppendAt(groups, key, h, i);
    r := copy;
    if i < |copy| {
      copy[i].handlers.Append(h);
    } else {
      var list := new HandlerList([h]);
      r := copy + [Group(key, list)];
    }
  }

  /** The lists of the table that an addition publishes; all of them are new. */
  method AddToCopy<H(==)>(entries: Entries<H>, h: H, key: int, ghost groups: Groups<H>) returns (r: Entries<H>)
    requires Shows(entries, groups)
    ensures Shows(r, Add(groups, key, h)) && forall i | 0 <= i < |r| :: fresh(r[i].handlers)
  {
    var copy := CopyGroups(entries, groups);
    copy := Appended(copy, key, h, groups);
    ShowsSort(copy, Append(groups, key, h));
    r := SortByKey(copy);
    forall i | 0 <= i < |r|
      ensures fresh(r[i].handlers)
    {
      MembersOfSort(copy, r[i]);
    }
  }

  /** Takes the first occurrence of `h` out of the list at `i` of a copy, and the group with it if that
      leaves none. */
  method RemoveAt<H(==)>(copy: Entries<H>, key: int, h: H, i: nat, ghost groups: Groups<H>)
    returns (r: Entries<H>, found: bool)
    requires Shows(copy, groups) && Separate(copy) && Finds(groups, key, i) && i < |copy|
    modifies copy[i].handlers
    ensures found <==> h in groups[i].handlers
    ensures found ==> Shows(r, Replace(groups, key, Without(groups[i].handlers, h)))
    ensures forall e | e in r :: e in copy
  {
    found := copy[i].handlers.RemoveFirst(h);
    r := copy;
    if found {
      ReplaceAt(groups, key, Without(groups[i].handlers, h), i);
      if copy[i].handlers.items == [] {
        r := copy[..i] + copy[i + 1..];
      }
    }
  }

  /** Removal in terms of the place where the group is found. */
  lemma RemoveFound<H>(groups: Groups<H>, key: int, h: H, i: nat)
    requires Finds(groups, key, i) && NoneEmpty(groups)
    ensures Remove(groups, key, h)
         == if i == |groups| then Err(NoSuchGroup)
            else if h !in groups[i].handlers then Err(NotInGroup)
            else Ok(Replace(groups, key, Without(groups[i].handlers, h)))
  {
    FoundHandlers(groups, key, i);
  }

  /** The lists of the table that a removal publishes; all of them are new. */
  method RemoveFromCopy<H(==)>(entries: Entries<H>, h: H, key: int, ghost groups: Groups<H>)
    returns (r: Result<Entries<H>, Error>)
    requires Shows(entries, groups) && NoneEmpty(groups)
    ensures match Remove(groups, key, h)
            case Ok(edited) => r.Ok? && Shows(r.value, edited) && forall e | e in r.value :: fresh(e.handlers)
            case Err(error) => r == Err(error)
  {
    var i := Find(entries, key);
    RemoveFound(groups, key, h, i);
    if i == |entries| {
      return Err(NoSuchGroup);
    }
    var copy := CopyGroups(entries, groups);
    var left, found := RemoveAt(copy, key, h, i, groups);
    if !found {
      return Err(NotInGroup);
    }
    return Ok(left);
  }

  class Table<H(==, !new)> {
    var entries: Entries<H>

    constructor ()
      ensures entries == []
    {
      entries := [];
    }

    /** `add_handler`, on its turn: it publishes new lists only, and a snapshot taken before reads as it
        did. The effect is the four steps of an addition. */
    method AddHandler(h: H, key: int, ghost ops: seq<Op<H>>, ghost s: State<H>, ghost t: nat) returns (ghost n: nat)
      requires Ready(ops, s, t, HandlerTable.AddHandler(h, key)) && Shows(entries, s.groups)
      modifies this
      ensures Shows(entries, Add(s.groups, key, h)) && forall i | 0 <= i < |entries| :: fresh(entries[i].handlers)
      ensures n == 4 && Steps(ops, s, Finish(s, Add(s.groups, key, h), t, true), t, n)
      ensures Shows(old(entries), s.groups)
    {
      entries := AddToCopy(entries, h, key, s.groups);
      n := AddSteps(ops, s, t, h, key);
    }

    /** `remove_handler`, on its turn: an error leaves the table as it was, and a snapshot taken before
        reads as it did. The effect is the steps of a removal. */
    method RemoveHandler(h: H, key: int, ghost ops: seq<Op<H>>, ghost s: State<H>, ghost t: nat)
      returns (r: Result<(), Error>, ghost n: nat)
      requires Ready(ops, s, t, HandlerTable.RemoveHandler(h, key)) && Shows(entries, s.groups) && Valid(s.groups)
      modifies this
      ensures match Remove(s.groups, key, h)
              case Ok(edited) => r == Ok(()) && Shows(entries, edited) && forall e | e in entries :: fresh(e.handlers)
              case Err(error) => r == Err(error) && entries == old(entries)
      ensures var after := Remove(s.groups, key, h);
              Steps(ops, s, Finish(s, if after.Ok? then after.value else s.groups, t, after.Ok?), t, n)
      ensures Shows(old(entries), s.groups)
    {
      var left := RemoveFromCopy(entries, h, key, s.groups);
      n := RemoveSteps(ops, s, t, h, key);
      if left.Err? {
        return Err(left.error), n;
      }
      entries := left.value;
      return Ok(()), n;
    }

    /** The end of `stop(clear_handlers=True)`: here too a snapshot reads as it did. */
    method ClearHandlers(ghost groups: Groups<H>)
      requires Shows(entries, groups)
      modifies this
      ensures entries == [] && Shows(old(entries), groups)
    {
      entries := [];
    }
  }
}
