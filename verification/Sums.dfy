/** Sums over the keys of a map, whatever the order in which it is walked. */
module Sums {

  function Sum(weight: string -> int, order: seq<string>): int {
    if order == [] then 0 else weight(order[0]) + Sum(weight, order[1..])
  }

  predicate NoRepeats(order: seq<string>) {
    forall i, j | 0 <= i < j < |order| :: order[i] != order[j]
  }

  lemma {:induction false} SumRemove(weight: string -> int, order: seq<string>, i: nat)
    requires i < |order|
    ensures Sum(weight, order) == weight(order[i]) + Sum(weight, order[..i] + order[i + 1..])
  {
    var rest := order[..i] + order[i + 1..];
    if i == 0 {
      assert rest == order[1..];
    } else {
      SumRemove(weight, order[1..], i - 1);
      assert rest[1..] == order[1..][..i - 1] + order[1..][i..];
    }
  }

  lemma Removed(a: seq<string>, i: nat, x: string)
    requires NoRepeats(a) && i < |a|
    ensures x in a[..i] + a[i + 1..] <==> x in a && x != a[i]
  {
    assert a == a[..i] + [a[i]] + a[i + 1..];
  }

  lemma {:induction false} SumIrrelevantOrder(weight: string -> int, a: seq<string>, b: seq<string>)
    requires NoRepeats(a) && NoRepeats(b) && forall x :: x in a <==> x in b
    ensures Sum(weight, a) == Sum(weight, b)
  {
    assert b != [] ==> b[0] in b;
    if a != [] {
      assert a[0] in b;
      var i :| 0 <= i < |b| && b[i] == a[0];
      var rest := b[..i] + b[i + 1..];
      forall x
        ensures x in a[1..] <==> x in rest
      {
        Removed(a, 0, x);
        Removed(b, i, x);
        assert a[..0] + a[1..] == a[1..];
      }
      SumIrrelevantOrder(weight, a[1..], rest);
      SumRemove(weight, b, i);
    }
  }

  /** Raising the weight of one key raises the sum by as much. */
  lemma {:induction false} SumBump(before: string -> int, after: string -> int, order: seq<string>, key: string)
    requires NoRepeats(order) && (forall x | x != key :: after(x) == before(x)) && after(key) == before(key) + 1
    ensures Sum(after, order) == Sum(before, order) + if key in order then 1 else 0
  {
    if order != [] {
      SumBump(before, after, order[1..], key);
      assert order == [order[0]] + order[1..];
    }
  }
}
