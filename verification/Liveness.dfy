/** The sliding window in which the health of a plugin or a channel is judged. */
module Liveness {
  import opened Prelude

  const WINDOW := 20
  const MIN_ROUNDS := 5

  datatype Code = Yield | Zero | Fail

  datatype Status = InsufficientData | Failing | ZeroYield | Degraded | Fine

  function LastRounds(history: seq<Code>): (w: seq<Code>)
    ensures |w| == Min(|history|, 20)
  {
    if |history| <= WINDOW then history else history[|history| - WINDOW..]
  }

  lemma LastRoundsAreLast(history: seq<Code>)
    ensures LastRounds(history) == history[|history| - Min(|history|, 20)..]
  {
    assert history[0..] == history;
  }

  lemma LastAppend(history: seq<Code>, code: Code)
    ensures var w := LastRounds(history); LastRounds(history + [code]) == (if |w| == WINDOW then w[1..] else w) + [code]
  {
  }

  function Classify(window: seq<Code>): Status {
    var yielded, failed := multiset(window)[Yield], multiset(window)[Fail];
    if |window| < MIN_ROUNDS then InsufficientData
    else if yielded == 0 then (if failed > 0 then Failing else ZeroYield)
    else if failed * 2 > |window| then Degraded
    else Fine
  }

  /** Fewer than five rounds decide nothing. After that a window without a yield is failing or merely
      empty, and one with a yield is degraded when more than half of it failed. */
  lemma StatusMeaning(w: seq<Code>)
    ensures Classify(w) == InsufficientData <==> |w| < 5
    ensures Classify(w) == Failing <==> |w| >= 5 && Yield !in w && Fail in w
    ensures Classify(w) == ZeroYield <==> |w| >= 5 && forall c | c in w :: c == Zero
    ensures Classify(w) == Degraded <==> |w| >= 5 && Yield in w && 2 * multiset(w)[Fail] > |w|
  {
    assert Yield in w <==> multiset(w)[Yield] > 0;
    assert Fail in w <==> multiset(w)[Fail] > 0;
    if Yield !in w && Fail !in w {
      assert forall c | c in w :: c == Zero;
    }
  }

  /** Twenty rounds later what went before no longer matters. */
  lemma OldRoundsForgotten(before: seq<Code>, after: seq<Code>)
    requires |after| >= 20
    ensures Classify(LastRounds(before + after)) == Classify(LastRounds(after))
  {
    assert LastRounds(before + after) == LastRounds(after);
  }

  class Entry {
    const buffer: array<Code>
    var len: nat
    ghost var history: seq<Code>

    ghost predicate Valid()
      reads this, buffer
    {
      buffer.Length == WINDOW && len <= WINDOW && buffer[..len] == LastRounds(history)
    }

    constructor ()
      ensures Valid() && fresh(buffer) && history == []
    {
      buffer := new Code[WINDOW](_ => Zero);
      len, history := 0, [];
    }

    /** Moves every element but the first one place forward. */
    method Shift()
      requires buffer.Length == WINDOW
      modifies buffer
      ensures forall i | 0 <= i < WINDOW - 1 :: buffer[i] == old(buffer[i + 1])
    {
      for i := 0 to WINDOW - 1
        invariant forall j | 0 <= j < i :: buffer[j] == old(buffer[j + 1])
        invariant forall j | i <= j < WINDOW :: buffer[j] == old(buffer[j])
      {
        buffer[i] := buffer[i + 1];
      }
    }

    /** Shifts the ring by one when it is full, then appends: it always holds the last rounds. */
    method Push(code: Code)
      requires Valid()
      modifies this, buffer
      ensures Valid() && history == old(history) + [code]
    {
      ghost var before := buffer[..len];
      LastAppend(history, code);
      history := history + [code];
      if len >= WINDOW {
        Shift();
        len := len - 1;
        assert buffer[..len] == before[1..];
      }
      buffer[len] := code;
      len := len + 1;
      assert buffer[..len] == buffer[..len - 1] + [code];
    }

    method Record(failed: bool, yielded: int)
      requires Valid()
      modifies this, buffer
      ensures Valid() && |history| == |old(history)| + 1 && history[..|old(history)|] == old(history)
      ensures var code := history[|old(history)|];
              (code == Fail <==> failed) && (code == Yield <==> !failed && yielded > 0)
    {
      Push(if failed then Fail else if yielded > 0 then Yield else Zero);
    }

    method Counts() returns (rounds: nat, yielded: nat, failed: nat, zero: nat)
      requires Valid()
      ensures var w := LastRounds(history);
              rounds == |w| == yielded + failed + zero && yielded == multiset(w)[Yield] && failed == multiset(w)[Fail]
    {
      yielded, failed, zero := 0, 0, 0;
      for i := 0 to len
        invariant yielded + failed + zero == i
        invariant yielded == multiset(buffer[..i])[Yield] && failed == multiset(buffer[..i])[Fail]
      {
        assert buffer[..i + 1] == buffer[..i] + [buffer[i]];
        match buffer[i]
        case Yield => yielded := yielded + 1;
        case Fail => failed := failed + 1;
        case Zero => zero := zero + 1;
      }
      rounds := len;
    }

    method CurrentStatus() returns (s: Status)
      requires Valid()
      ensures s == Classify(LastRounds(history))
    {
      var rounds, yielded, failed, _ := Counts();
      if rounds < MIN_ROUNDS {
        return InsufficientData;
      }
      if yielded == 0 {
        return if failed > 0 then Failing else ZeroYield;
      }
      return if failed * 2 > rounds then Degraded else Fine;
    }
  }
}
