/** The request cipher of the 115 cloud drive: keyed xor, reversal, padded blocks and modular
    exponentiation. */
module Cipher115 {
  import opened Prelude

  datatype Error = RangeError

  // ----- modular exponentiation

  function Pow(b: nat, e: nat): nat {
    if e == 0 then 1 else b * Pow(b, e - 1)
  }

  lemma MulAtLeast(k: int, x: nat)
    requires k >= 1
    ensures k * x >= x
  {
  }

  lemma ModUnique(x: nat, q: int, r: nat, m: nat)
    requires r < m && x == q * m + r
    ensures x % m == r
  {
    var d := q - x / m;
    assert x == x / m * m + x % m;
    assert d * m == q * m - x / m * m;
    if d >= 1 {
      MulAtLeast(d, m);
    } else if d <= -1 {
      MulAtLeast(-d, m);
    }
  }

  lemma ModShift(k: nat, m: nat, z: nat)
    requires m > 0
    ensures (k * m + z) % m == z % m
  {
    assert z == z / m * m + z % m;
    assert k * m + z == (k + z / m) * m + z % m;
    ModUnique(k * m + z, k + z / m, z % m, m);
  }

  lemma ModMul(x: nat, y: nat, m: nat)
    requires m > 0
    ensures (x % m) * y % m == x * y % m
  {
    var q := x / m;
    assert x == q * m + x % m;
    assert x * y == (q * m + x % m) * y == q * y * m + x % m * y;
    ModShift(q * y, m, x % m * y);
  }

  lemma {:induction false} PowMod(b: nat, e: nat, m: nat)
    requires m > 0
    ensures Pow(b % m, e) % m == Pow(b, e) % m
    decreases e
  {
    if e > 0 {
      PowMod(b, e - 1, m);
      PowModStep(b, Pow(b % m, e - 1), Pow(b, e - 1), m);
    }
  }

  lemma PowModStep(b: nat, p: nat, q: nat, m: nat)
    requires m > 0 && p % m == q % m
    ensures (b % m) * p % m == b * q % m
  {
    ModMul(b, p, m);
    ModMul(p, b, m);
    ModMul(q, b, m);
    assert b * p == p * b && b * q == q * b;
  }

  lemma PowDouble(n: nat, x: nat)
    requires Pow(256, n) == x
    ensures Pow(256, 2 * n) == x * x
  {
    PowSquare(256, n);
    PowOfProduct(256, n);
  }

  lemma {:induction false} PowOfProduct(b: nat, e: nat)
    ensures Pow(b * b, e) == Pow(b, e) * Pow(b, e)
    decreases e
  {
    if e > 0 {
      var x := Pow(b, e - 1);
      PowOfProduct(b, e - 1);
      assert b * b * (x * x) == b * x * (b * x);
    }
  }

  lemma {:induction false} PowSquare(b: nat, e: nat)
    ensures Pow(b * b, e) == Pow(b, 2 * e)
    decreases e
  {
    if e > 0 {
      PowSquare(b, e - 1);
      assert Pow(b, 2 * e) == b * Pow(b, 2 * e - 1) == b * (b * Pow(b, 2 * e - 2));
      assert b * (b * Pow(b, 2 * e - 2)) == (b * b) * Pow(b, 2 * (e - 1));
    }
  }

  function MulMod(a: nat, b: nat, m: nat): (r: nat)
    requires m > 0
    ensures r < m
  {
    a * b % m
  }

  /** What the loop keeps: `result * base^exponent` modulo the modulus. */
  function Owed(result: nat, base: nat, exponent: nat, m: nat): nat
    requires m > 0
  {
    MulMod(result, Pow(base, exponent), m)
  }

  lemma SquareStep(result: nat, base: nat, exponent: nat, m: nat)
    requires m > 0 && exponent > 0
    ensures var kept := if exponent % 2 == 1 then MulMod(result, base, m) else result;
            Owed(kept, MulMod(base, base, m), exponent / 2, m) == Owed(result, base, exponent, m)
  {
    var half := exponent / 2;
    var kept := if exponent % 2 == 1 then MulMod(result, base, m) else result;
    var square := Pow(base * base % m, half);
    PowMod(base * base, half, m);
    PowSquare(base, half);
    ModMul(square, kept, m);
    ModMul(Pow(base, 2 * half), kept, m);
    assert kept * square % m == kept * Pow(base, 2 * half) % m;
    if exponent % 2 == 1 {
      ModMul(result * base, Pow(base, 2 * half), m);
      assert Pow(base, exponent) == base * Pow(base, 2 * half);
      assert result * base * Pow(base, 2 * half) == result * (base * Pow(base, 2 * half));
    }
  }

  lemma OwedAtStart(base: nat, exponent: nat, m: nat)
    requires m > 0
    ensures Owed(1, base % m, exponent, m) == Pow(base, exponent) % m
  {
    PowMod(base, exponent, m);
  }

  lemma OwedAtEnd(result: nat, base: nat, m: nat)
    requires result < m
    ensures Owed(result, base, 0, m) == result
  {
  }

  /** `pow`: plain without a modulus, square-and-multiply with one. */
  method ModularPow(base: nat, exponent: nat, modulus: Option<nat>) returns (r: Result<nat, Error>)
    ensures modulus.None? ==> r == Ok(Pow(base, exponent))
    ensures modulus == Some(0) ==> r == Err(RangeError)
    ensures modulus.Some? && modulus.value > 0 ==> r == Ok(Pow(base, exponent) % modulus.value)
  {
    if modulus.None? {
      return Ok(Pow(base, exponent));
    }
    var m := modulus.value;
    if m == 1 {
      return Ok(0);
    }
    if m == 0 {
      return Err(RangeError);
    }
    var result: nat, b: nat, e: nat := 1, base % m, exponent;
    OwedAtStart(base, exponent, m);
    while e > 0
      invariant result < m
      invariant Owed(result, b, e, m) == Pow(base, exponent) % m
    {
      SquareStep(result, b, e, m);
      if e % 2 == 1 {
        result := MulMod(result, b, m);
      }
      e := e / 2;
      b := MulMod(b, b, m);
    }
    OwedAtEnd(result, b, m);
    r := Ok(result);
  }

  // ----- big-endian bytes

  function ToBytes(value: nat, length: nat): (s: seq<Byte>)
    ensures |s| == length
  {
    if length == 0 then [] else ToBytes(value / 256, length - 1) + [value % 256]
  }

  function FromBytes(s: seq<Byte>): nat {
    if s == [] then 0 else FromBytes(s[..|s| - 1]) * 256 + s[|s| - 1]
  }

  method WriteBytes(value: nat, length: nat) returns (buffer: array<Byte>)
    ensures buffer[..] == ToBytes(value, length)
  {
    buffer := new Byte[length](_ => 0);
    var v, i := value, length;
    while i > 0
      invariant 0 <= i <= length == buffer.Length
      invariant ToBytes(v, i) + buffer[i..] == ToBytes(value, length)
    {
      i := i - 1;
      ghost var done := buffer[i + 1..];
      buffer[i] := v % 256;
      assert buffer[i..] == [v % 256] + done;
      assert ToBytes(v, i + 1) + done == ToBytes(v / 256, i) + ([v % 256] + done);
      v := v / 256;
    }
    assert buffer[..] == buffer[0..];
  }

  method ReadBytes(s: seq<Byte>) returns (value: nat)
    ensures value == FromBytes(s)
  {
    value := 0;
    for i := 0 to |s|
      invariant value == FromBytes(s[..i])
    {
      assert s[..i + 1][..i] == s[..i];
      value := value * 256 + s[i];
    }
    assert s[..|s|] == s;
  }

  lemma {:induction false} FromToBytes(value: nat, length: nat)
    requires value < Pow(256, length)
    ensures FromBytes(ToBytes(value, length)) == value
    decreases length
  {
    if length > 0 {
      FromToBytes(value / 256, length - 1);
      assert ToBytes(value, length)[..length - 1] == ToBytes(value / 256, length - 1);
    }
  }

  lemma {:induction false} ToFromBytes(s: seq<Byte>)
    ensures FromBytes(s) < Pow(256, |s|)
    ensures ToBytes(FromBytes(s), |s|) == s
  {
    if s != [] {
      var front := s[..|s| - 1];
      ToFromBytes(front);
      assert FromBytes(s) / 256 == FromBytes(front) && FromBytes(s) % 256 == s[|s| - 1];
      assert front + [s[|s| - 1]] == s;
    }
  }

  function HexDigits(v: nat): nat {
    if v < 16 then 1 else 1 + HexDigits(v / 16)
  }

  /** The length `toBytes` takes when none is given: half the hexadecimal digits, rounded up. */
  function MinimalLength(v: nat): nat {
    (HexDigits(v) + 1) / 2
  }

  lemma {:induction false} MinimalLengthTight(v: nat)
    requires v > 0
    ensures MinimalLength(v) > 0
    ensures Pow(256, MinimalLength(v) - 1) <= v < Pow(256, MinimalLength(v))
    decreases v
  {
    if v < 16 {
      assert Pow(256, 1) == 256 * Pow(256, 0);
    } else if v < 256 {
      assert HexDigits(v) == 2;
      assert Pow(256, 1) == 256 * Pow(256, 0);
    } else {
      assert v / 16 / 16 == v / 256;
      assert HexDigits(v) == 2 + HexDigits(v / 256);
      MinimalLengthTight(v / 256);
    }
  }

  lemma {:induction false} PowGrows(m: nat, n: nat)
    ensures Pow(256, n) >= 1
    ensures m <= n ==> Pow(256, m) <= Pow(256, n)
    decreases n
  {
    if n > 0 {
      PowGrows(m, n - 1);
      assert Pow(256, n) == 256 * Pow(256, n - 1);
    }
  }

  lemma AppendDigit(x: nat, p: nat, y: nat)
    ensures (x * p + y) * 256 == x * (256 * p) + y * 256
  {
    assert x * (256 * p) == x * p * 256;
  }

  lemma {:induction false} FromConcat(a: seq<Byte>, b: seq<Byte>)
    ensures FromBytes(a + b) == FromBytes(a) * Pow(256, |b|) + FromBytes(b)
    decreases |b|
  {
    if b == [] {
      assert a + b == a;
    } else {
      var front := b[..|b| - 1];
      FromConcat(a, front);
      assert (a + b)[..|a + b| - 1] == a + front;
      AppendDigit(FromBytes(a), Pow(256, |front|), FromBytes(front));
    }
  }

  /** A number whose leading byte is not zero fills its bytes. */
  lemma LeadingByte(t: seq<Byte>)
    requires t != [] && t[0] > 0
    ensures Pow(256, |t| - 1) <= FromBytes(t) < Pow(256, |t|)
  {
    ToFromBytes(t);
    FromConcat([t[0]], t[1..]);
    assert t == [t[0]] + t[1..];
    assert [t[0]][..0] == [] && FromBytes([t[0]]) == t[0];
    MulAtLeast(t[0], Pow(256, |t| - 1));
  }

  lemma MinimalLengthUnique(v: nat, n: nat)
    requires n > 0 && Pow(256, n - 1) <= v < Pow(256, n)
    ensures v > 0 && MinimalLength(v) == n
  {
    PowGrows(0, n - 1);
    MinimalLengthTight(v);
    var l := MinimalLength(v);
    if l < n {
      PowGrows(l, n - 1);
    } else if l > n {
      PowGrows(n, l - 1);
    }
  }

  lemma LeadingZero(t: seq<Byte>)
    ensures FromBytes([0] + t) == FromBytes(t)
  {
    FromConcat([0], t);
    assert [0][..0] == [] && FromBytes([0]) == 0;
  }

  /** The minimal bytes of a big-endian number are the number without its leading zero. */
  lemma DropLeadingZero(t: seq<Byte>)
    requires t != [] && t[0] > 0
    ensures ToBytes(FromBytes([0] + t), MinimalLength(FromBytes([0] + t))) == t
  {
    LeadingZero(t);
    LeadingByte(t);
    MinimalLengthUnique(FromBytes(t), |t|);
    ToFromBytes(t);
  }

  // ----- blocks

  function Twos(n: nat): seq<Byte> {
    seq(n, _ => 2)
  }

  /** A block of `size` bytes, 128 in the source: 0, filler bytes 2, a separating 0 and the message
      at the end. */
  function Block(message: seq<Byte>, size: nat): (b: seq<Byte>)
    ensures |message| + 2 <= size ==> |b| == size
  {
    [0] + Twos(Max(size - 2 - |message|, 0)) + [0] + message
  }

  /** `padPkcs1V1_5`. A message of 127 or 128 bytes overwrites the separator or the whole block,
      and a longer one does not fit. */
  method PadBlock(message: seq<Byte>) returns (r: Result<array<Byte>, Error>)
    ensures |message| <= 126 ==> r.Ok? && r.value[..] == Block(message, 128)
    ensures |message| == 127 ==> r.Ok? && r.value[..] == [0] + message
    ensures |message| == 128 ==> r.Ok? && r.value[..] == message
    ensures |message| > 128 ==> r.Err?
  {
    var n := |message|;
    if n > 128 {
      return Err(RangeError);
    }
    var buffer := new Byte[128](_ => 0);
    var end := if 127 - n < 0 then 127 - n + 128 else 127 - n;
    for i := 1 to Max(end, 1)
      invariant forall k | 0 <= k < 128 :: buffer[k] == if 1 <= k < i then 2 else 0
    {
      buffer[i] := 2;
    }
    for i := 0 to n
      invariant forall k | 0 <= k < 128 - n :: buffer[k] == if 1 <= k < end then 2 else 0
      invariant forall k | 0 <= k < i :: buffer[128 - n + k] == message[k]
    {
      buffer[128 - n + i] := message[i];
    }
    assert buffer[..] == buffer[..128 - n] + buffer[128 - n..];
    assert buffer[128 - n..] == message;
    if n <= 126 {
      assert buffer[..128 - n] == [0] + Twos(126 - n) + [0];
    } else if n == 127 {
      assert buffer[..1] == [0];
    } else {
      assert buffer[..0] == [];
    }
    r := Ok(buffer);
  }

  function IndexOfZero(s: seq<Byte>): (i: nat)
    ensures i <= |s|
    ensures forall k | 0 <= k < i :: s[k] != 0
    ensures i < |s| ==> s[i] == 0
  {
    if s == [] || s[0] == 0 then 0 else 1 + IndexOfZero(s[1..])
  }

  /** `b.subarray(b.indexOf(0) + 1)`; without a zero `indexOf` is -1 and nothing is cut. */
  function CutAfterZero(s: seq<Byte>): seq<Byte> {
    var i := IndexOfZero(s);
    if i == |s| then s else s[i + 1..]
  }

  lemma BlockSplit(message: seq<Byte>, size: nat)
    requires |message| + 2 <= size
    ensures Block(message, size) == [0] + (Twos(size - 2 - |message|) + [0] + message)
  {
  }

  lemma CutRecoversMessage(message: seq<Byte>, size: nat)
    requires |message| + 3 <= size
    ensures var p := FromBytes(Block(message, size)); CutAfterZero(ToBytes(p, MinimalLength(p))) == message
  {
    var n := size - 2 - |message|;
    var t := Twos(n) + [0] + message;
    BlockSplit(message, size);
    DropLeadingZero(t);
    assert forall k | 0 <= k < n :: t[k] == 2;
    assert t[n] == 0;
    assert IndexOfZero(t) == n;
    assert t[n + 1..] == message;
  }

  lemma BlockBound(message: seq<Byte>, size: nat)
    requires |message| + 2 <= size
    ensures FromBytes(Block(message, size)) < Pow(256, size - 1)
  {
    var t := Twos(size - 2 - |message|) + [0] + message;
    BlockSplit(message, size);
    LeadingZero(t);
    ToFromBytes(t);
  }

  /** Cut into pieces of `n` as `accStep` does, the last one possibly shorter, map each piece with
      `f` and join the results. */
  function MapChunks(x: seq<Byte>, n: nat, f: seq<Byte> -> seq<Byte>): seq<Byte>
    requires n > 0
  {
    if x == [] then []
    else
      var k := Min(n, |x|);
      f(x[..k]) + MapChunks(x[k..], n, f)
  }

  lemma Append(a: seq<Byte>, b: seq<Byte>, c: seq<Byte>)
    ensures a + (b + c) == a + b + c
  {
  }

  lemma ChunkStep(x: seq<Byte>, l: nat, r: nat, n: nat, f: seq<Byte> -> seq<Byte>)
    requires n > 0 && l < |x| && r == Min(l + n, |x|)
    ensures MapChunks(x[l..], n, f) == f(x[l..r]) + MapChunks(x[r..], n, f)
  {
    assert x[l..][..r - l] == x[l..r] && x[l..][r - l..] == x[r..];
  }

  lemma {:induction false} MapChunksInverse(
    x: seq<Byte>, n: nat, f: seq<Byte> -> seq<Byte>, size: nat, g: seq<Byte> -> seq<Byte>)
    requires n > 0 && size > 0
    requires forall m: seq<Byte> {:trigger f(m)} | |m| <= n :: |f(m)| == size && g(f(m)) == m
    ensures MapChunks(MapChunks(x, n, f), size, g) == x
    decreases |x|
  {
    if x != [] {
      var k := Min(n, |x|);
      var first, rest := f(x[..k]), MapChunks(x[k..], n, f);
      MapChunksInverse(x[k..], n, f, size, g);
      assert (first + rest)[..size] == first && (first + rest)[size..] == rest;
      assert x[..k] + x[k..] == x;
    }
  }

  function SealedBlock(message: seq<Byte>, seal: nat -> nat, size: nat): (c: seq<Byte>)
    ensures |c| == size
  {
    ToBytes(seal(FromBytes(Block(message, size))), size)
  }

  /** Message bytes to cipher bytes through the map `seal` on numbers: `size - 11` bytes in, 117 in
      the source, and `size` bytes out. */
  function SealBlocks(x: seq<Byte>, seal: nat -> nat, size: nat): seq<Byte>
    requires size >= 12
  {
    MapChunks(x, size - 11, (m: seq<Byte>) => SealedBlock(m, seal, size))
  }

  function OpenBlock(c: seq<Byte>, open: nat -> nat): seq<Byte> {
    var p := open(FromBytes(c));
    CutAfterZero(ToBytes(p, MinimalLength(p)))
  }

  function OpenBlocks(c: seq<Byte>, open: nat -> nat, size: nat): seq<Byte>
    requires size > 0
  {
    MapChunks(c, size, (b: seq<Byte>) => OpenBlock(b, open))
  }

  /** `open` undoes `seal` on the residues below `modulus`. */
  ghost predicate Inverses(seal: nat -> nat, open: nat -> nat, modulus: nat) {
    forall v: nat | v < modulus :: seal(v) < modulus && open(seal(v)) == v
  }

  /** The modulus has exactly `size` bytes. */
  ghost predicate ModulusOfSize(modulus: nat, size: nat) {
    size > 0 && Pow(256, size - 1) <= modulus <= Pow(256, size)
  }

  lemma OpenSealedBlock(message: seq<Byte>, seal: nat -> nat, open: nat -> nat, modulus: nat, size: nat)
    requires |message| + 11 <= size && Inverses(seal, open, modulus) && ModulusOfSize(modulus, size)
    ensures OpenBlock(SealedBlock(message, seal, size), open) == message
  {
    var p := FromBytes(Block(message, size));
    BlockBound(message, size);
    FromToBytes(seal(p), size);
    CutRecoversMessage(message, size);
  }

  /** Every message, of any length, survives chunking, padding, the number maps and cutting. */
  lemma OpenSealedBlocks(x: seq<Byte>, seal: nat -> nat, open: nat -> nat, modulus: nat, size: nat)
    requires size >= 12 && Inverses(seal, open, modulus) && ModulusOfSize(modulus, size)
    ensures OpenBlocks(SealBlocks(x, seal, size), open, size) == x
  {
    var f := (m: seq<Byte>) => SealedBlock(m, seal, size);
    var g := (b: seq<Byte>) => OpenBlock(b, open);
    forall m: seq<Byte> | |m| <= size - 11
      ensures |f(m)| == size && g(f(m)) == m
    {
      OpenSealedBlock(m, seal, open, modulus, size);
    }
    MapChunksInverse(x, size - 11, f, size, g);
  }

  // ----- keyed xor

  function XorBits(a: nat, b: nat, bits: nat): (r: nat)
    ensures r < Pow(2, bits)
  {
    if bits == 0 then 0 else (a + b) % 2 + 2 * XorBits(a / 2, b / 2, bits - 1)
  }

  lemma XorLowBit(a: nat, b: nat, y: nat)
    ensures var x := (a + b) % 2 + 2 * y; x / 2 == y && (x + b) % 2 == a % 2
  {
  }

  lemma {:induction false} XorInvolutive(a: nat, b: nat, bits: nat)
    requires a < Pow(2, bits)
    ensures XorBits(XorBits(a, b, bits), b, bits) == a
    decreases bits
  {
    if bits > 0 {
      var y := XorBits(a / 2, b / 2, bits - 1);
      XorLowBit(a, b, y);
      XorInvolutive(a / 2, b / 2, bits - 1);
    }
  }

  function XorByte(a: Byte, b: Byte): Byte {
    assert Pow(2, 8) == 256;
    XorBits(a, b, 8)
  }

  lemma XorByteInvolutive(a: Byte, b: Byte)
    ensures XorByte(XorByte(a, b), b) == a
  {
    assert Pow(2, 8) == 256;
    XorInvolutive(a, b, 8);
  }

  lemma XorCommutes(a: nat, b: nat, bits: nat)
    ensures XorBits(a, b, bits) == XorBits(b, a, bits)
  {
  }

  /** The first `n % 4` bytes use the start of the key; after them the key repeats. */
  function KeyIndex(n: nat, keyLength: nat, j: nat): nat
    requires keyLength > 0
  {
    if j < n % 4 then j else (j - n % 4) % keyLength
  }

  function XorLayer(src: seq<Byte>, key: seq<Byte>): (out: seq<Byte>)
    requires |key| >= 3
    ensures |out| == |src|
  {
    seq(|src|, j requires 0 <= j < |src| => XorByte(src[j], key[KeyIndex(|src|, |key|, j)]))
  }

  lemma XorLayerInvolutive(src: seq<Byte>, key: seq<Byte>)
    requires |key| >= 3
    ensures XorLayer(XorLayer(src, key), key) == src
  {
    forall j | 0 <= j < |src|
      ensures XorLayer(XorLayer(src, key), key)[j] == src[j]
    {
      XorByteInvolutive(src[j], key[KeyIndex(|src|, |key|, j)]);
    }
  }

  lemma KeyIndexInPiece(q: nat, keyLength: nat, t: nat)
    requires t < keyLength
    ensures (q * keyLength + t) % keyLength == t
  {
    ModShift(q, keyLength, t);
  }

  lemma MulNext(q: nat, n: nat)
    ensures (q + 1) * n == q * n + n
  {
  }

  /** One piece of `xor`: bytes `start` to `stop` with the key from its beginning. */
  method XorPiece(src: seq<Byte>, key: seq<Byte>, buffer: array<Byte>, start: nat, stop: nat, ghost q: nat)
    requires |key| >= 3 && buffer.Length == |src| && start <= stop <= |src| && stop <= start + |key|
    requires start == |src| % 4 + q * |key|
    requires forall k | 0 <= k < start :: buffer[k] == XorLayer(src, key)[k]
    modifies buffer
    ensures forall k | 0 <= k < stop :: buffer[k] == XorLayer(src, key)[k]
  {
    for j := start to stop
      invariant forall k | 0 <= k < j :: buffer[k] == XorLayer(src, key)[k]
    {
      KeyIndexInPiece(q, |key|, j - start);
      assert j - |src| % 4 == q * |key| + (j - start);
      buffer[j] := XorByte(src[j], key[j - start]);
    }
  }

  /** `xor`, which writes the buffer piece by piece. */
  method XorBuffer(src: seq<Byte>, key: seq<Byte>) returns (buffer: array<Byte>)
    requires |key| >= 3
    ensures fresh(buffer) && buffer[..] == XorLayer(src, key)
  {
    buffer := new Byte[|src|](_ => 0);
    var head := |src| % 4;
    for j := 0 to head
      invariant forall k | 0 <= k < j :: buffer[k] == XorLayer(src, key)[k]
    {
      buffer[j] := XorByte(src[j], key[j]);
    }
    var start := head;
    ghost var q := 0;
    while start < |src|
      invariant head <= start <= |src| == buffer.Length
      invariant start < |src| ==> start == head + q * |key|
      invariant forall k | 0 <= k < start :: buffer[k] == XorLayer(src, key)[k]
    {
      var stop := Min(start + |key|, |src|);
      XorPiece(src, key, buffer, start, stop, q);
      MulNext(q, |key|);
      start, q := stop, q + 1;
    }
    assert buffer[..] == XorLayer(src, key);
  }

  function Reverse(s: seq<Byte>): (r: seq<Byte>)
    ensures |r| == |s|
  {
    seq(|s|, i requires 0 <= i < |s| => s[|s| - 1 - i])
  }

  const SHORT_KEY: seq<Byte> := [0x8d, 0xa5, 0xa5, 0x8d]
  const LONG_KEY: seq<Byte> := [0x78, 0x06, 0xad, 0x4c, 0x33, 0x86, 0x5d, 0x18, 0x4c, 0x01, 0x3f, 0x46]

  function Scramble(data: seq<Byte>, key: seq<Byte>): seq<Byte>
    requires |key| >= 3
  {
    XorLayer(Reverse(XorLayer(data, SHORT_KEY)), key)
  }

  function Unscramble(data: seq<Byte>, key: seq<Byte>): seq<Byte>
    requires |key| >= 3
  {
    XorLayer(Reverse(XorLayer(data, key)), SHORT_KEY)
  }

  lemma UnscrambleScrambled(data: seq<Byte>, key: seq<Byte>)
    requires |key| >= 3
    ensures Unscramble(Scramble(data, key), key) == data
  {
    var inner := XorLayer(data, SHORT_KEY);
    XorLayerInvolutive(Reverse(inner), key);
    assert Reverse(Reverse(inner)) == inner;
    XorLayerInvolutive(data, SHORT_KEY);
  }

  // ----- requests and replies

  const KEY_TABLE: seq<Byte> :=
      [0xf0, 0xe5, 0x69, 0xae, 0xbf, 0xdc, 0xbf, 0x8a, 0x1a, 0x45, 0xe8, 0xbe, 0x7d, 0xa6, 0x73, 0xb8]
    + [0xde, 0x8f, 0xe7, 0xc4, 0x45, 0xda, 0x86, 0xc4, 0x9b, 0x64, 0x8b, 0x14, 0x6a, 0xb4, 0xf1, 0xaa]
    + [0x38, 0x01, 0x35, 0x9e, 0x26, 0x69, 0x2c, 0x86, 0x00, 0x6b, 0x4f, 0xa5, 0x36, 0x34, 0x62, 0xa6]
    + [0x2a, 0x96, 0x68, 0x18, 0xf2, 0x4a, 0xfd, 0xbd, 0x6b, 0x97, 0x8f, 0x4d, 0x8f, 0x89, 0x13, 0xb7]
    + [0x6c, 0x8e, 0x93, 0xed, 0x0e, 0x0d, 0x48, 0x3e, 0xd7, 0x2f, 0x88, 0xd8, 0xfe, 0xfe, 0x7e, 0x86]
    + [0x50, 0x95, 0x4f, 0xd1, 0xeb, 0x83, 0x26, 0x34, 0xdb, 0x66, 0x7b, 0x9c, 0x7e, 0x9d, 0x7a, 0x81]
    + [0x32, 0xea, 0xb6, 0x33, 0xde, 0x3a, 0xa9, 0x59, 0x34, 0x66, 0x3b, 0xaa, 0xba, 0x81, 0x60, 0x48]
    + [0xb9, 0xd5, 0x81, 0x9c, 0xf8, 0x6c, 0x84, 0x77, 0xff, 0x54, 0x78, 0x26, 0x5f, 0xbe, 0xe8, 0x1e]
    + [0x36, 0x9f, 0x34, 0x80, 0x5c, 0x45, 0x2c, 0x9b, 0x76, 0xd5, 0x1b, 0x8f, 0xcc, 0xc3, 0xb8, 0xf5]

  /** `(randKey[i] + place) & 0xff`; a missing random byte makes an undefined sum, which masks to zero. */
  function MaskedSum(rand: seq<Byte>, i: nat, place: Byte): Byte {
    if i < |rand| then (rand[i] + place) % 256 else 0
  }

  /** `genKey` for the one length in use: every twelfth place of the table, forwards for the sum and
      backwards for the exclusive or. */
  function KeyFrom(table: seq<Byte>, rand: seq<Byte>): (key: seq<Byte>)
    requires |table| == 144
    ensures |key| == 12
  {
    seq(12, i requires 0 <= i < 12 => XorByte(table[132 - 12 * i], MaskedSum(rand, i, table[12 * i])))
  }

  function GenKey(rand: seq<Byte>): (key: seq<Byte>)
    ensures |key| == 12
  {
    KeyFrom(KEY_TABLE, rand)
  }

  /** The loop of `genKey`. */
  method GenerateKey(table: seq<Byte>, rand: seq<Byte>) returns (key: array<Byte>)
    requires |table| == 144
    ensures fresh(key) && key[..] == KeyFrom(table, rand)
  {
    key := new Byte[12](_ => 0);
    var length, index := 132, 0;
    for i := 0 to 12
      invariant length == 132 - 12 * i && index == 12 * i
      invariant forall k | 0 <= k < i :: key[k] == KeyFrom(table, rand)[k]
    {
      var x := MaskedSum(rand, i, table[index]);
      key[i] := XorByte(table[length], x);
      length := length - 12;
      index := index + 12;
    }
  }

  function PowerMap(exponent: nat, modulus: nat): nat -> nat
    requires modulus > 0
  {
    (v: nat) => Pow(v, exponent) % modulus
  }

  /** The bytes a request carries before they are written as Base64 text. */
  function Encrypt(data: seq<Byte>, exponent: nat, modulus: nat, size: nat): seq<Byte>
    requires modulus > 0 && size >= 12
  {
    SealBlocks(seq(16, _ => 0) + Scramble(data, LONG_KEY), PowerMap(exponent, modulus), size)
  }

  function Decrypt(cipher: seq<Byte>, exponent: nat, modulus: nat, size: nat): seq<Byte>
    requires modulus > 0 && size > 0
  {
    var data := OpenBlocks(cipher, PowerMap(exponent, modulus), size);
    var n := Min(16, |data|);
    Unscramble(data[n..], GenKey(data[..n]))
  }

  /** A reply whose sender prefixes 16 bytes, scrambles with the key they generate and seals with
      the other half of the key pair is read back in full, whatever the prefix and the data. */
  lemma DecryptOpensReply(data: seq<Byte>, prefix: seq<Byte>, seal: nat -> nat, exponent: nat, modulus: nat, size: nat)
    requires |prefix| == 16 && size >= 12 && modulus > 0 && ModulusOfSize(modulus, size)
    requires Inverses(seal, PowerMap(exponent, modulus), modulus)
    ensures Decrypt(SealBlocks(prefix + Scramble(data, GenKey(prefix)), seal, size), exponent, modulus, size) == data
  {
    var body := Scramble(data, GenKey(prefix));
    OpenSealedBlocks(prefix + body, seal, PowerMap(exponent, modulus), modulus, size);
    assert (prefix + body)[..16] == prefix && (prefix + body)[16..] == body;
    UnscrambleScrambled(data, GenKey(prefix));
  }

  /** A request is read back by whoever inverts the modular power and knows the fixed key. */
  lemma EncryptIsUndone(data: seq<Byte>, open: nat -> nat, exponent: nat, modulus: nat, size: nat)
    requires size >= 12 && modulus > 0 && ModulusOfSize(modulus, size)
    requires Inverses(PowerMap(exponent, modulus), open, modulus)
    ensures var plain := OpenBlocks(Encrypt(data, exponent, modulus, size), open, size);
            |plain| == 16 + |data| && Unscramble(plain[16..], LONG_KEY) == data
  {
    var zeros: seq<Byte> := seq(16, _ => 0);
    var body := Scramble(data, LONG_KEY);
    OpenSealedBlocks(zeros + body, PowerMap(exponent, modulus), open, modulus, size);
    assert (zeros + body)[16..] == body;
    UnscrambleScrambled(data, LONG_KEY);
  }

  const REQUEST_MODULUS: nat := 0x8686980c0f5a24c4b9d43020cd2c22703ff3f450756529058b1cf88f09b8602136477198a6e2683149659bd122c33592fdb5ad47944ad1ea4d36c6b172aad6338c3bb6ac6227502d010993ac967d1aef00f0c8e038de2e4d3bc2ec368af2e9f10a6f1eda4f7262f136420c07c331b871bf139f74f3010e3c4fe57df3afb71683

  /** The modulus in use has 128 bytes, so the results above apply to blocks of 128. */
  lemma RequestModulusSize()
    ensures ModulusOfSize(REQUEST_MODULUS, 128)
  {
    var p := 256;
    assert Pow(256, 1) == 256 * Pow(256, 0);
    PowDouble(1, p);
    PowDouble(2, p * p);
    var q := p * p * p * p;
    PowDouble(4, q);
    PowDouble(8, q * q);
    var r := q * q * (q * q);
    PowDouble(16, r);
    PowDouble(32, r * r);
    var s := r * r * (r * r);
    PowDouble(64, s);
    assert Pow(256, 128) == 256 * Pow(256, 127);
  }

  // ----- the loops of encrypt and decrypt, one piece of `accStep` a round

  /** `f` seals one piece; the trigger keeps what sealing is out of the loop below. */
  ghost predicate IsSealer(f: seq<Byte> -> seq<Byte>, exponent: nat, modulus: nat, size: nat)
    requires modulus > 0
  {
    forall m: seq<Byte> {:trigger SealedBlock(m, PowerMap(exponent, modulus), size)} ::
      f(m) == SealedBlock(m, PowerMap(exponent, modulus), size)
  }

  method SealBlock(chunk: seq<Byte>, exponent: nat, modulus: nat, size: nat, ghost f: seq<Byte> -> seq<Byte>)
    returns (bytes: seq<Byte>)
    requires modulus > 0 && |chunk| + 11 <= size && IsSealer(f, exponent, modulus, size)
    ensures bytes == f(chunk)
  {
    var p := ReadBytes(Block(chunk, size));
    var power := ModularPow(p, exponent, Some(modulus));
    var buffer := WriteBytes(power.value, size);
    bytes := buffer[..];
    assert bytes == SealedBlock(chunk, PowerMap(exponent, modulus), size);
  }

  ghost predicate IsOpener(g: seq<Byte> -> seq<Byte>, exponent: nat, modulus: nat)
    requires modulus > 0
  {
    forall b: seq<Byte> {:trigger OpenBlock(b, PowerMap(exponent, modulus))} ::
        g(b) == OpenBlock(b, PowerMap(exponent, modulus))
  }

  method UnsealBlock(c: seq<Byte>, exponent: nat, modulus: nat, ghost g: seq<Byte> -> seq<Byte>)
    returns (chunk: seq<Byte>)
    requires modulus > 0 && IsOpener(g, exponent, modulus)
    ensures chunk == g(c)
  {
    var v := ReadBytes(c);
    var power := ModularPow(v, exponent, Some(modulus));
    var buffer := WriteBytes(power.value, MinimalLength(power.value));
    chunk := CutAfterZero(buffer[..]);
    assert chunk == OpenBlock(c, PowerMap(exponent, modulus));
  }

  method SealText(text: seq<Byte>, exponent: nat, modulus: nat, size: nat, ghost f: seq<Byte> -> seq<Byte>)
    returns (cipher: seq<Byte>)
    requires modulus > 0 && size >= 12 && IsSealer(f, exponent, modulus, size)
    ensures cipher == MapChunks(text, size - 11, f)
  {
    cipher := [];
    var l := 0;
    assert text[0..] == text;
    while l < |text|
      invariant 0 <= l <= |text|
      invariant cipher + MapChunks(text[l..], size - 11, f) == MapChunks(text, size - 11, f)
    {
      var r := Min(l + size - 11, |text|);
      ChunkStep(text, l, r, size - 11, f);
      var bytes := SealBlock(text[l..r], exponent, modulus, size, f);
      Append(cipher, bytes, MapChunks(text[r..], size - 11, f));
      cipher := cipher + bytes;
      l := r;
    }
    assert cipher + [] == cipher;
  }

  method OpenText(cipher: seq<Byte>, exponent: nat, modulus: nat, size: nat, ghost g: seq<Byte> -> seq<Byte>)
    returns (data: seq<Byte>)
    requires modulus > 0 && size > 0 && IsOpener(g, exponent, modulus)
    ensures data == MapChunks(cipher, size, g)
  {
    data := [];
    var l := 0;
    assert cipher[0..] == cipher;
    while l < |cipher|
      invariant 0 <= l <= |cipher|
      invariant data + MapChunks(cipher[l..], size, g) == MapChunks(cipher, size, g)
    {
      var r := Min(l + size, |cipher|);
      ChunkStep(cipher, l, r, size, g);
      var chunk := UnsealBlock(cipher[l..r], exponent, modulus, g);
      Append(data, chunk, MapChunks(cipher[r..], size, g));
      data := data + chunk;
      l := r;
    }
    assert data + [] == data;
  }

  method EncryptRequest(data: seq<Byte>, exponent: nat, modulus: nat, size: nat) returns (cipher: seq<Byte>)
    requires modulus > 0 && size >= 12
    ensures cipher == Encrypt(data, exponent, modulus, size)
  {
    var inner := XorBuffer(data, SHORT_KEY);
    var outer := XorBuffer(Reverse(inner[..]), LONG_KEY);
    ghost var seal := PowerMap(exponent, modulus);
    cipher := SealText(
      seq(16, _ => 0) + outer[..], exponent, modulus, size, (m: seq<Byte>) => SealedBlock(m, seal, size));
  }

  method DecryptReply(cipher: seq<Byte>, exponent: nat, modulus: nat, size: nat) returns (plain: seq<Byte>)
    requires modulus > 0 && size > 0
    ensures plain == Decrypt(cipher, exponent, modulus, size)
  {
    ghost var open := PowerMap(exponent, modulus);
    var data := OpenText(cipher, exponent, modulus, size, (b: seq<Byte>) => OpenBlock(b, open));
    var n := Min(16, |data|);
    var key := GenerateKey(KEY_TABLE, data[..n]);
    var tmp := XorBuffer(data[n..], key[..]);
    var out := XorBuffer(Reverse(tmp[..]), SHORT_KEY);
    plain := out[..];
  }
}
