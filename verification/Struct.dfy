/** Fixed-width little-endian integers as the `struct` module packs them, and the length-prefixed
    byte string of the "Base types" section of Telegram's "Binary Data Serialization". */
module Struct {
  import opened Prelude

  datatype Error = UnknownFileType | UnknownThumbnailSource | NoLayout | Malformed

  function Pow256(n: nat): (p: nat)
    ensures p >= 1
  {
    if n == 0 then 1 else 256 * Pow256(n - 1)
  }

  /** The `n` low-order bytes of `u`, least significant first. */
  function LittleEndian(u: nat, n: nat): (s: seq<Byte>)
    ensures |s| == n
  {
    if n == 0 then [] else [u % 256] + LittleEndian(u / 256, n - 1)
  }

  function FromLittleEndian(s: seq<Byte>): (u: nat)
    ensures u < Pow256(|s|)
  {
    if s == [] then 0 else s[0] + 256 * FromLittleEndian(s[1..])
  }

  lemma {:induction false} LittleEndianRoundTrip(u: nat, n: nat)
    requires u < Pow256(n)
    ensures FromLittleEndian(LittleEndian(u, n)) == u
    decreases n
  {
    if n > 0 {
      LittleEndianRoundTrip(u / 256, n - 1);
      assert LittleEndian(u, n)[1..] == LittleEndian(u / 256, n - 1);
    }
  }

  /** The values an `n`-byte signed integer can hold. */
  predicate InRange(v: int, n: nat) {
    0 <= 2 * v + Pow256(n) && 2 * v < Pow256(n)
  }

  function Pack(v: int, n: nat): (s: seq<Byte>)
    requires InRange(v, n)
    ensures |s| == n
  {
    LittleEndian(if v < 0 then v + Pow256(n) else v, n)
  }

  function Unpack(s: seq<Byte>): (v: int)
    requires s != []
    ensures InRange(v, |s|)
  {
    var u := FromLittleEndian(s);
    assert Pow256(|s|) == 256 * Pow256(|s| - 1);
    if 2 * u >= Pow256(|s|) then u - Pow256(|s|) else u
  }

  lemma UnpackPack(v: int, n: nat)
    requires n > 0 && InRange(v, n)
    ensures Unpack(Pack(v, n)) == v
  {
    LittleEndianRoundTrip(if v < 0 then v + Pow256(n) else v, n);
  }

  /** `struct.pack` raises on `None` and on a value out of range. */
  function PackField(v: Option<int>, n: nat): Result<seq<Byte>, Error> {
    if v.Some? && InRange(v.value, n) then Ok(Pack(v.value, n)) else Err(Malformed)
  }

  /** `struct.unpack` over the next `n` bytes; a short read raises. */
  function ReadInt(buf: seq<Byte>, n: nat): (r: Result<(int, seq<Byte>), Error>)
    requires n > 0
    ensures r.Ok? ==> InRange(r.value.0, n)
  {
    if |buf| < n then Err(Malformed) else Ok((Unpack(buf[..n]), buf[n..]))
  }

  lemma ReadIntPack(v: int, n: nat, rest: seq<Byte>)
    requires n > 0 && InRange(v, n)
    ensures ReadInt(Pack(v, n) + rest, n) == Ok((v, rest))
  {
    UnpackPack(v, n);
    var buf := Pack(v, n) + rest;
    assert buf[..n] == Pack(v, n) && buf[n..] == rest;
  }

  lemma ReadFieldPack(v: Option<int>, n: nat, rest: seq<Byte>)
    requires n > 0 && PackField(v, n).Ok?
    ensures ReadInt(PackField(v, n).value + rest, n) == Ok((v.value, rest))
  {
    ReadIntPack(v.value, n, rest);
  }

  // ----- byte strings

  function Fill(n: nat): seq<Byte> {
    seq(n, _ => 0)
  }

  /** Bytes needed to reach a multiple of four. */
  function Padding(n: nat): nat {
    (4 - n % 4) % 4
  }

  function WriteBytes(value: seq<Byte>): Result<seq<Byte>, Error> {
    if |value| <= 253 then
      Ok([|value|] + value + Fill(Padding(|value| + 1)))
    else if |value| < Pow256(3) then
      Ok([254] + LittleEndian(|value|, 3) + value + Fill(Padding(|value|)))
    else Err(Malformed)
  }

  /** `BytesIO.read`: at most `n` bytes, fewer at the end, and never an error. */
  function Take(buf: seq<Byte>, n: nat): (r: (seq<Byte>, seq<Byte>))
    ensures r.0 + r.1 == buf && |r.0| == Min(n, |buf|)
  {
    var k := Min(n, |buf|);
    (buf[..k], buf[k..])
  }

  /** `length` bytes, and then `skip` bytes dropped. */
  function TakeAndSkip(buf: seq<Byte>, length: nat, skip: nat): (seq<Byte>, seq<Byte>) {
    var (value, rest) := Take(buf, length);
    (value, Take(rest, skip).1)
  }

  function ReadBytes(buf: seq<Byte>): (seq<Byte>, seq<Byte>) {
    var (first, afterFirst) := Take(buf, 1);
    var length := FromLittleEndian(first);
    if length <= 253 then
      TakeAndSkip(afterFirst, length, Padding(length + 1))
    else
      var (wide, afterLength) := Take(afterFirst, 3);
      TakeAndSkip(afterLength, FromLittleEndian(wide), Padding(FromLittleEndian(wide)))
  }

  lemma TakeAndSkipAll(value: seq<Byte>, pad: seq<Byte>, rest: seq<Byte>)
    ensures TakeAndSkip(value + (pad + rest), |value|, |pad|) == (value, rest)
  {
    var buf := value + (pad + rest);
    assert buf[..|value|] == value && buf[|value|..] == pad + rest;
    assert (pad + rest)[|pad|..] == rest;
  }

  lemma FirstByte(b: Byte, tail: seq<Byte>)
    ensures Take([b] + tail, 1) == ([b], tail) && FromLittleEndian([b]) == b
  {
    var buf := [b] + tail;
    assert buf[..1] == [b] && buf[1..] == tail;
    assert FromLittleEndian([]) == 0;
  }

  lemma ReadWriteBytes(value: seq<Byte>, rest: seq<Byte>)
    requires WriteBytes(value).Ok?
    ensures ReadBytes(WriteBytes(value).value + rest) == (value, rest)
  {
    var n := |value|;
    if n <= 253 {
      var pad := Fill(Padding(n + 1));
      var tail := value + (pad + rest);
      assert WriteBytes(value).value + rest == [n] + tail;
      FirstByte(n, tail);
      TakeAndSkipAll(value, pad, rest);
    } else {
      var pad, wide := Fill(Padding(n)), LittleEndian(n, 3);
      var tail := value + (pad + rest);
      assert WriteBytes(value).value + rest == [254] + (wide + tail);
      FirstByte(254, wide + tail);
      assert (wide + tail)[..3] == wide && (wide + tail)[3..] == tail;
      LittleEndianRoundTrip(n, 3);
      TakeAndSkipAll(value, pad, rest);
    }
  }
}
