/** Zero-run length coding of file ids: a run of n zero bytes is written as the pair 0, n. */
module Rle {
  import opened Prelude

  /** Python's `bytes(list)` raises when an element does not fit a byte. */
  datatype Error = ValueError

  function Flush(n: nat): seq<nat> {
    if n > 0 then [0, n] else []
  }

  /** What the encoder still appends when `n` zeros are pending and `s` is unread. */
  function EncodeFrom(s: seq<Byte>, n: nat): seq<nat> {
    if s == [] then Flush(n)
    else if s[0] == 0 then EncodeFrom(s[1..], n + 1)
    else Flush(n) + [s[0]] + EncodeFrom(s[1..], 0)
  }

  predicate Fits(r: seq<nat>) {
    forall i | 0 <= i < |r| :: r[i] < 256
  }

  function ToBytes(r: seq<nat>): Result<seq<Byte>, Error> {
    if Fits(r) then Ok(r) else Err(ValueError)
  }

  function Encode(s: seq<Byte>): Result<seq<Byte>, Error> {
    ToBytes(EncodeFrom(s, 0))
  }

  function Zeros(n: nat): (z: seq<Byte>) {
    seq(n, _ => 0)
  }

  /** What the decoder still appends; `z` says that the last byte read was a zero. */
  function DecodeFrom(t: seq<Byte>, z: bool): seq<Byte> {
    if t == [] then []
    else if t[0] == 0 then DecodeFrom(t[1..], true)
    else if z then Zeros(t[0]) + DecodeFrom(t[1..], false)
    else [t[0]] + DecodeFrom(t[1..], false)
  }

  function Decode(t: seq<Byte>): seq<Byte> {
    DecodeFrom(t, false)
  }

  method RleEncode(s: seq<Byte>) returns (out: Result<seq<Byte>, Error>)
    ensures out == Encode(s)
  {
    var r: seq<nat> := [];
    var n: nat := 0;
    for i := 0 to |s|
      invariant r + EncodeFrom(s[i..], n) == EncodeFrom(s, 0)
    {
      assert s[i..][0] == s[i] && s[i..][1..] == s[i + 1..];
      if s[i] == 0 {
        n := n + 1;
      } else {
        assert r + EncodeFrom(s[i..], n) == r + Flush(n) + [s[i]] + EncodeFrom(s[i + 1..], 0);
        if n > 0 {
          r := r + [0, n];
          n := 0;
        }
        r := r + [s[i]];
      }
    }
    assert s[|s|..] == [] && r + [] == r;
    if n > 0 {
      r := r + [0, n];
    }
    assert r == EncodeFrom(s, 0);
    out := ToBytes(r);
  }

  method RleDecode(t: seq<Byte>) returns (r: seq<Byte>)
    ensures r == Decode(t)
  {
    r := [];
    var z := false;
    for i := 0 to |t|
      invariant r + DecodeFrom(t[i..], z) == Decode(t)
    {
      assert t[i..][0] == t[i] && t[i..][1..] == t[i + 1..];
      var b := t[i];
      if b == 0 {
        z := true;
      } else if z {
        assert r + (Zeros(b) + DecodeFrom(t[i + 1..], false)) == r + Zeros(b) + DecodeFrom(t[i + 1..], false);
        r := r + Zeros(b);
        z := false;
      } else {
        assert r + ([b] + DecodeFrom(t[i + 1..], false)) == r + [b] + DecodeFrom(t[i + 1..], false);
        r := r + [b];
      }
    }
    assert t[|t|..] == [];
  }

  // ----- when the encoder raises

  ghost predicate ZeroRunAt(s: seq<Byte>, k: nat, i: nat) {
    i + k <= |s| && forall j | i <= j < i + k :: s[j] == 0
  }

  /** Somewhere in `s` there are `k` consecutive zero bytes. */
  ghost predicate HasZeroRun(s: seq<Byte>, k: nat) {
    exists i: nat :: ZeroRunAt(s, k, i)
  }

  lemma ZeroRunAcrossNonZero(n: nat, b: Byte, s: seq<Byte>, k: nat)
    requires b != 0 && k > 0
    ensures HasZeroRun(Zeros(n) + [b] + s, k) <==> n >= k || HasZeroRun(s, k)
  {
    var whole := Zeros(n) + [b] + s;
    assert whole[n] == b;
    if i: nat :| ZeroRunAt(whole, k, i) {
      if i + k <= n {
      } else if i > n {
        forall j | i - n - 1 <= j < i - n - 1 + k
          ensures s[j] == 0
        {
          assert whole[j + n + 1] == s[j];
        }
        assert ZeroRunAt(s, k, i - n - 1);
      }
    }
    if n >= k {
      assert ZeroRunAt(whole, k, 0);
    }
    if i: nat :| ZeroRunAt(s, k, i) {
      assert forall j | i + n + 1 <= j < i + n + 1 + k :: whole[j] == s[j - n - 1];
      assert ZeroRunAt(whole, k, i + n + 1);
    }
  }

  lemma {:induction false} EncodeFitsFrom(s: seq<Byte>, n: nat)
    ensures Fits(EncodeFrom(s, n)) <==> !HasZeroRun(Zeros(n) + s, 256)
    decreases |s|
  {
    if s == [] {
      assert Zeros(n) + s == Zeros(n) && EncodeFrom(s, n) == Flush(n);
      if n >= 256 {
        assert ZeroRunAt(Zeros(n), 256, 0);
        assert Flush(n)[1] == n;
      }
    } else if s[0] == 0 {
      assert Zeros(n) + s == Zeros(n + 1) + s[1..];
      EncodeFitsFrom(s[1..], n + 1);
    } else {
      assert Zeros(n) + s == Zeros(n) + [s[0]] + s[1..];
      ZeroRunAcrossNonZero(n, s[0], s[1..], 256);
      EncodeFitsFrom(s[1..], 0);
      assert Zeros(0) + s[1..] == s[1..];
      var head, tail := Flush(n) + [s[0]], EncodeFrom(s[1..], 0);
      assert Fits(head + tail) <==> Fits(head) && Fits(tail) by {
        FitsConcat(head, tail);
      }
      assert Fits(head) <==> n < 256 by {
        if n > 0 { assert head[1] == n; }
      }
    }
  }

  lemma FitsConcat(a: seq<nat>, b: seq<nat>)
    ensures Fits(a + b) <==> Fits(a) && Fits(b)
  {
    if Fits(a + b) {
      assert forall i | 0 <= i < |a| :: (a + b)[i] == a[i];
      assert forall i | 0 <= i < |b| :: (a + b)[|a| + i] == b[i];
    }
  }

  /** `rle_encode` raises exactly on inputs with 256 consecutive zero bytes. */
  lemma EncodeRaisesIff(s: seq<Byte>)
    ensures Encode(s).Err? <==> HasZeroRun(s, 256)
  {
    EncodeFitsFrom(s, 0);
    assert Zeros(0) + s == s;
  }

  lemma ShortHasNoZeroRun(s: seq<Byte>, k: nat)
    requires |s| < k
    ensures !HasZeroRun(s, k)
  {
  }

  // ----- decode after encode

  lemma {:induction false} DecodeEncodeFrom(s: seq<Byte>, n: nat)
    requires Fits(EncodeFrom(s, n))
    ensures DecodeFrom(EncodeFrom(s, n), false) == Zeros(n) + s
    decreases |s|
  {
    if s == [] {
      assert Zeros(n) + s == Zeros(n);
      if n > 0 {
        var pair: seq<Byte> := [0, n];
        assert pair[1..] == [n] && pair[1..][1..] == [];
        assert DecodeFrom(pair[1..], true) == Zeros(n) + DecodeFrom([], false);
        assert EncodeFrom(s, n) == pair;
        assert Zeros(n) + [] == Zeros(n);
      }
    } else if s[0] == 0 {
      assert Zeros(n) + s == Zeros(n + 1) + s[1..];
      DecodeEncodeFrom(s[1..], n + 1);
    } else {
      FitsConcat(Flush(n) + [s[0]], EncodeFrom(s[1..], 0));
      DecodeEncodeFrom(s[1..], 0);
      assert Zeros(0) + s[1..] == s[1..];
      var tail: seq<Byte> := EncodeFrom(s[1..], 0);
      var lit: seq<Byte> := [s[0]] + tail;
      assert lit[1..] == tail;
      assert DecodeFrom(lit, false) == s;
      if n > 0 {
        FitsConcat(Flush(n), [s[0]]);
        assert Flush(n)[1] == n;
        var t: seq<Byte> := Flush(n) + [s[0]] + tail;
        assert t[1..][0] == n && t[1..][1..] == lit;
        assert DecodeFrom(t, false) == Zeros(n) + DecodeFrom(lit, false);
      } else {
        assert Flush(n) + [s[0]] + tail == lit;
        assert Zeros(n) + s == s;
      }
    }
  }

  /** Decoding undoes encoding on every input the encoder accepts, and it accepts exactly those
      without 256 consecutive zeros. */
  lemma DecodeAfterEncode(s: seq<Byte>)
    ensures !HasZeroRun(s, 256) <==> Encode(s).Ok?
    ensures Encode(s).Ok? ==> Decode(Encode(s).value) == s
  {
    EncodeRaisesIff(s);
    if Encode(s).Ok? {
      DecodeEncodeFrom(s, 0);
      assert Zeros(0) + s == s;
    }
  }

  // ----- encode after decode

  /** Every 0 is followed by a nonzero count, and no zero pair directly follows another. */
  predicate Canonical(t: seq<Byte>) {
    if t == [] then true
    else if t[0] != 0 then Canonical(t[1..])
    else |t| >= 2 && t[1] != 0 && (|t| == 2 || t[2] != 0) && Canonical(t[2..])
  }

  lemma {:induction false} EncodeCanonicalFrom(s: seq<Byte>, n: nat)
    requires Fits(EncodeFrom(s, n))
    ensures Canonical(EncodeFrom(s, n))
    decreases |s|
  {
    if s == [] {
      if n > 0 {
        var pair: seq<Byte> := [0, n];
        assert pair[2..] == [];
      }
    } else if s[0] == 0 {
      EncodeCanonicalFrom(s[1..], n + 1);
    } else {
      FitsConcat(Flush(n) + [s[0]], EncodeFrom(s[1..], 0));
      EncodeCanonicalFrom(s[1..], 0);
      var tail: seq<Byte> := EncodeFrom(s[1..], 0);
      var lit: seq<Byte> := [s[0]] + tail;
      assert lit[1..] == tail;
      if n > 0 {
        FitsConcat(Flush(n), [s[0]]);
        assert Flush(n)[1] == n;
        var t: seq<Byte> := Flush(n) + [s[0]] + tail;
        assert t[2..] == lit && t[1] == n && t[2] == s[0];
      } else {
        assert Flush(n) + [s[0]] + tail == lit;
      }
    }
  }

  lemma {:induction false} PendingZeros(s: seq<Byte>, c: nat, n: nat)
    ensures EncodeFrom(Zeros(c) + s, n) == EncodeFrom(s, n + c)
    decreases c
  {
    if c == 0 {
      assert Zeros(c) + s == s;
    } else {
      assert (Zeros(c) + s)[1..] == Zeros(c - 1) + s;
      PendingZeros(s, c - 1, n + 1);
    }
  }

  lemma {:induction false} EncodeDecodeFrom(t: seq<Byte>)
    requires Canonical(t)
    ensures EncodeFrom(DecodeFrom(t, false), 0) == t
    decreases |t|
  {
    if t == [] {
    } else if t[0] != 0 {
      EncodeDecodeFrom(t[1..]);
      var rest := DecodeFrom(t[1..], false);
      assert ([t[0]] + rest)[1..] == rest;
      assert Flush(0) + [t[0]] + t[1..] == t;
    } else {
      var c, rest := t[1], DecodeFrom(t[2..], false);
      assert t[1..][1..] == t[2..];
      assert DecodeFrom(t, false) == Zeros(c) + rest;
      PendingZeros(rest, c, 0);
      EncodeDecodeFrom(t[2..]);
      if rest != [] {
        assert rest[0] == t[2];
        assert EncodeFrom(rest, c) == Flush(c) + [rest[0]] + EncodeFrom(rest[1..], 0);
        assert EncodeFrom(rest, 0) == Flush(0) + [rest[0]] + EncodeFrom(rest[1..], 0);
        assert EncodeFrom(rest, c) == Flush(c) + EncodeFrom(rest, 0);
      }
      assert Flush(c) + t[2..] == t;
    }
  }

  /** Encoding undoes decoding exactly on canonical inputs. */
  lemma EncodeAfterDecodeIff(t: seq<Byte>)
    ensures Encode(Decode(t)) == Ok(t) <==> Canonical(t)
  {
    if Canonical(t) {
      EncodeDecodeFrom(t);
    }
    if Encode(Decode(t)) == Ok(t) {
      EncodeCanonicalFrom(Decode(t), 0);
    }
  }
}
