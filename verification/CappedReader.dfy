/** Reading an upstream body of unknown size without ever taking a part of it for the whole. */
module CappedReader {
  import opened Prelude

  /** The largest signed 64-bit integer. */
  const MAX_INT64 := 9223372036854775807
  const MAX_RESPONSE := 16 * 1024 * 1024
  const MAX_DECOMPRESSED := 64 * 1024 * 1024
  const MIN_ALLOWANCE := 400 * 1024
  const MAX_RATIO := 100

  /** Signed 64-bit wrap-around. */
  function Wrap64(x: int): (w: int)
    ensures -MAX_INT64 - 1 <= w <= MAX_INT64 && (-MAX_INT64 - 1 <= x <= MAX_INT64 ==> w == x)
  {
    (x + MAX_INT64 + 1) % (2 * (MAX_INT64 + 1)) - (MAX_INT64 + 1)
  }

  /** The wrapped value is the one in the 64-bit range that differs by a multiple of 2^64. */
  lemma WrapModulus(x: int)
    ensures -0x8000_0000_0000_0000 <= Wrap64(x) <= 0x7fff_ffff_ffff_ffff
    ensures (x - Wrap64(x)) % 0x1_0000_0000_0000_0000 == 0
  {
    var m := 0x1_0000_0000_0000_0000;
    var y := x + MAX_INT64 + 1;
    assert y == y / m * m + y % m;
    assert x - Wrap64(x) == y / m * m;
  }

  /** What a read ends with besides data. `Eof` is the normal end; `Panic` is a slice out of range. */
  datatype Signal = Eof | Broken | TooLarge | NoBody | Panic

  /** How one read call of a stream is cut: at most so many bytes, and whether the end of the stream
      is reported together with its last bytes or by a call of its own. */
  datatype Cut = Cut(size: nat, eager: bool)

  /** A stream that delivers its data in arbitrary pieces, empty ones included, and then ends or
      breaks. */
  class Source {
    const data: seq<Byte>
    const ending: Signal
    var pos: nat
    var cuts: seq<Cut>

    constructor (data: seq<Byte>, ending: Signal, cuts: seq<Cut>)
      requires ending == Eof || ending == Broken
      ensures this.data == data && this.ending == ending && this.cuts == cuts && pos == 0 && Valid()
    {
      this.data, this.ending, this.cuts, this.pos := data, ending, cuts, 0;
    }

    ghost predicate Valid()
      reads this
    {
      pos <= |data| && (ending == Eof || ending == Broken)
    }

    method Read(room: nat) returns (chunk: seq<Byte>, signal: Option<Signal>)
      requires Valid()
      modifies this
      ensures Valid() && old(pos) <= pos && chunk == data[old(pos)..pos] && |chunk| <= room
      ensures signal.Some? ==> signal == Some(ending) && pos == |data|
      ensures |cuts| <= |old(cuts)|
      ensures signal.None? && room > 0 && chunk == [] ==> |cuts| < |old(cuts)|
    {
      var n := Min(room, |data| - pos);
      if cuts == [] {
        signal := if pos == |data| then Some(ending) else None;
      } else {
        n := Min(n, cuts[0].size);
        signal := if pos + n == |data| && cuts[0].eager then Some(ending) else None;
        cuts := cuts[1..];
      }
      chunk := data[pos..pos + n];
      pos := pos + n;
    }
  }

  // ----- the capped reader

  class Capped {
    const source: Source
    const limit: int
    var read: nat

    constructor (source: Source, limit: int)
      requires limit <= MAX_INT64
      ensures this.source == source && read == 0
      ensures this.limit == if limit <= 0 then 64 * 1024 * 1024 else limit
    {
      this.source, read := source, 0;
      this.limit := if limit <= 0 then MAX_DECOMPRESSED else limit;
    }

    /** What has been read is counted, and never exceeds the limit by more than one byte. */
    ghost predicate Valid(start: nat)
      reads this, source
    {
      source.Valid() && 0 < limit <= MAX_INT64 && source.pos == start + read && read <= limit + 1
    }

    method Read(room: nat, ghost start: nat) returns (chunk: seq<Byte>, signal: Option<Signal>)
      requires Valid(start) && room <= MAX_INT64
      modifies this, source
      ensures Valid(start) && old(source.pos) <= source.pos && chunk == source.data[old(source.pos)..source.pos]
      ensures limit < MAX_INT64 ==>
                && (read > limit <==> signal == Some(TooLarge))
                && (read <= limit && signal.Some? ==> signal == Some(source.ending) && source.pos == |source.data|)
      ensures limit == MAX_INT64 && old(read) == 0 && room > 0 ==> signal == Some(Panic) && chunk == []
      ensures |source.cuts| <= |old(source.cuts)|
      ensures signal.None? && room > 0 && chunk == [] ==> |source.cuts| < |old(source.cuts)|
    {
      if read > limit {
        return [], Some(TooLarge);
      }
      var remaining := Wrap64(Wrap64(limit + 1) - read);
      var space := room;
      if space > remaining {
        if remaining < 0 {
          return [], Some(Panic);
        }
        space := remaining;
      }
      chunk, signal := source.Read(space);
      read := read + |chunk|;
      if read > limit {
        signal := Some(TooLarge);
      }
    }
  }

  /** `io.ReadAll` on the capped reader; `rooms` is how much buffer each call offers. */
  method ReadAllCapped(c: Capped, rooms: nat -> nat) returns (data: seq<Byte>, error: Option<Signal>)
    requires c.Valid(c.source.pos) && c.read == 0
    requires forall k :: 0 < rooms(k) <= MAX_INT64
    modifies c, c.source
    ensures c.source.pos - old(c.source.pos) <= c.limit + 1
    ensures c.limit < MAX_INT64 ==>
              var body := c.source.data[old(c.source.pos)..];
              if |body| > c.limit then error == Some(TooLarge)
              else if c.source.ending == Eof then error == None && data == body
              else error == Some(c.source.ending)
    ensures c.limit == MAX_INT64 ==> error == Some(Panic)
  {
    ghost var start := c.source.pos;
    data, error := [], None;
    var k := 0;
    while true
      invariant c.Valid(start) && data == c.source.data[start..c.source.pos] && k >= 0
      invariant c.limit < MAX_INT64 ==> c.read <= c.limit
      invariant c.limit == MAX_INT64 ==> c.read == 0
      decreases |c.source.data| - c.source.pos + |c.source.cuts|
    {
      var chunk, signal := c.Read(rooms(k), start);
      data := data + chunk;
      if signal.Some? {
        error := if signal == Some(Eof) then None else signal;
        break;
      }
      k := k + 1;
    }
  }

  // ----- reading everything at once

  /** `io.LimitReader`: after `left` bytes it reports a normal end. */
  method ReadLimited(source: Source, left: int, room: nat) returns (chunk: seq<Byte>, signal: Option<Signal>)
    requires source.Valid()
    modifies source
    ensures source.Valid() && old(source.pos) <= source.pos && chunk == source.data[old(source.pos)..source.pos]
    ensures |chunk| <= Max(0, left) && (left <= 0 ==> signal == Some(Eof))
    ensures left > 0 && signal.Some? ==> signal == Some(source.ending) && source.pos == |source.data|
    ensures |source.cuts| <= |old(source.cuts)|
    ensures signal.None? && room > 0 && chunk == [] ==> |source.cuts| < |old(source.cuts)|
  {
    if left <= 0 {
      return [], Some(Eof);
    }
    chunk, signal := source.Read(if room > left then left else room);
  }

  /** `io.ReadAll(io.LimitReader(source, allowance))`. */
  method ReadAllOfLimited(source: Source, allowance: int, rooms: nat -> nat)
    returns (data: seq<Byte>, error: Option<Signal>)
    requires source.Valid() && forall k :: 0 < rooms(k)
    modifies source
    ensures source.Valid() && source.pos - old(source.pos) == |data| <= Max(0, allowance)
    ensures allowance <= 0 ==> error.None?
    ensures var body := source.data[old(source.pos)..];
            && data == body[..|data|]
            && (error.None? ==> |data| >= allowance || (data == body && source.ending == Eof))
            && (error.Some? ==> error == Some(Broken) && source.ending == Broken && data == body)
  {
    ghost var start := source.pos;
    data, error := [], None;
    var k, left := 0, allowance;
    while true
      invariant source.Valid() && start <= source.pos && data == source.data[start..source.pos] && k >= 0
      invariant left == allowance - |data| && |data| <= Max(0, allowance) && error.None?
      decreases |source.data| - source.pos + |source.cuts|
    {
      var chunk, signal := ReadLimited(source, left, rooms(k));
      data, left := data + chunk, left - |chunk|;
      if signal.Some? {
        error := if signal == Some(Eof) then None else signal;
        break;
      }
      k := k + 1;
    }
  }

  function EffectiveLimit(limit: int): int {
    if limit <= 0 then MAX_RESPONSE else limit
  }

  /** Reads everything or fails, except at the largest limit, where the extra byte wraps around: there
      it takes any stream for an empty one. So it is right exactly when the limit is smaller or the
      stream is empty and does not break. */
  method ReadAllLimited(source: Source?, limit: int, rooms: nat -> nat) returns (r: Result<seq<Byte>, Signal>)
    requires source != null ==> source.Valid()
    requires limit <= MAX_INT64 && forall k :: 0 < rooms(k)
    modifies source
    ensures source == null ==> r == Err(NoBody)
    ensures source != null ==>
              var body, most := source.data[old(source.pos)..], if limit <= 0 then 16 * 1024 * 1024 else limit;
              && source.pos - old(source.pos) <= most + 1
              && (limit < MAX_INT64 ==>
                    && (|body| <= most ==> r == if source.ending == Eof then Ok(body) else Err(Broken))
                    && (|body| > most ==>
                          || r == Err(TooLarge)
                          || (r == Err(Broken) && source.ending == Broken && |body| == most + 1)))
              && (limit == MAX_INT64 ==> r == Ok([]) && source.pos == old(source.pos))
  {
    if source == null {
      return Err(NoBody);
    }
    var most := EffectiveLimit(limit);
    var data, error := ReadAllOfLimited(source, Wrap64(most + 1), rooms);
    if error.Some? {
      return Err(error.value);
    }
    if |data| > most {
      return Err(TooLarge);
    }
    return Ok(data);
  }

  /** The limit on decompressed data, computed with 64-bit wrap-around; a size that is not positive is
      an unknown one. */
  function DecompressionLimit(compressedSize: int): (limit: int)
    ensures 400 * 1024 <= limit <= 64 * 1024 * 1024
    ensures compressedSize <= 0 ==> limit == 64 * 1024 * 1024
    ensures 0 < compressedSize <= MAX_INT64 / 100 ==>
              limit == Max(400 * 1024, Min(100 * compressedSize, 64 * 1024 * 1024))
  {
    if compressedSize > 0 then
      var ratioLimit := Wrap64(compressedSize * MAX_RATIO);
      if ratioLimit < MIN_ALLOWANCE then MIN_ALLOWANCE
      else if ratioLimit < MAX_DECOMPRESSED then ratioLimit
      else MAX_DECOMPRESSED
    else MAX_DECOMPRESSED
  }

  /** The limit is the intended one exactly when the product does not wrap around, or wraps around to
      at least the greatest limit. */
  lemma IntendedLimitIff(compressedSize: int)
    requires 0 < compressedSize <= MAX_INT64
    ensures DecompressionLimit(compressedSize)
            == Max(MIN_ALLOWANCE, Min(MAX_RATIO * compressedSize, MAX_DECOMPRESSED))
       <==> compressedSize <= MAX_INT64 / MAX_RATIO || Wrap64(MAX_RATIO * compressedSize) >= MAX_DECOMPRESSED
  {
  }

  /** Past that size the largest inputs may get the smallest limit, or the intended one by chance. */
  lemma WrappedRatio()
    ensures DecompressionLimit(MAX_INT64 / MAX_RATIO + 1) == MIN_ALLOWANCE
    ensures DecompressionLimit(MAX_INT64 / 50 + 1000000000) == MAX_DECOMPRESSED
  {
    assert Wrap64((MAX_INT64 / MAX_RATIO + 1) * MAX_RATIO) < 0;
  }

  /** The decompressed stream is read whole or not at all, whatever its pieces and its size. */
  method ReadAllDecompressed(source: Source?, compressedSize: int, rooms: nat -> nat)
    returns (r: Result<seq<Byte>, Signal>)
    requires source != null ==> source.Valid()
    requires forall k :: 0 < rooms(k)
    modifies source
    ensures source == null ==> r == Err(NoBody)
    ensures source != null ==>
              var body, most := source.data[old(source.pos)..], DecompressionLimit(compressedSize);
              && source.pos - old(source.pos) <= most + 1
              && (r.Ok? <==> |body| <= most && source.ending == Eof) && (r.Ok? ==> r.value == body)
              && (r == Err(TooLarge) ==> |body| > most)
  {
    var limit := DecompressionLimit(compressedSize);
    r := ReadAllLimited(source, limit, rooms);
  }
}
