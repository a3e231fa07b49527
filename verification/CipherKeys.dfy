/** The bytes the request cipher works with: the exclusive or, the keys and the padding. */
module CipherKeys {
  import opened Prelude
  import opened Cipher115

  // ----- exclusive or

  function Shifted(v: nat, k: nat): nat {
    if k == 0 then v else Shifted(v / 2, k - 1)
  }

  lemma {:induction false} XorBitAt(a: nat, b: nat, bits: nat, k: nat)
    requires k < bits
    ensures Shifted(XorBits(a, b, bits), k) % 2 == (Shifted(a, k) + Shifted(b, k)) % 2
    decreases k
  {
    XorLowBit(a, b, XorBits(a / 2, b / 2, bits - 1));
    if k > 0 {
      XorBitAt(a / 2, b / 2, bits - 1, k - 1);
    }
  }

  /** A bit of an exclusive or is set exactly when it differs in the two bytes. */
  lemma XorByteBits(a: Byte, b: Byte, k: nat)
    requires k < 8
    ensures Shifted(XorByte(a, b), k) % 2 == 1 <==> Shifted(a, k) % 2 != Shifted(b, k) % 2
  {
    XorBitAt(a, b, 8, k);
  }

  // ----- the key of a reply

  lemma SumReadsBack(r: Byte, place: Byte)
    ensures ((r + place) % 256 - place) % 256 == r
  {
  }

  lemma XorReadsBack(place: Byte, x: Byte)
    ensures XorByte(XorByte(place, x), place) == x
  {
    XorCommutes(place, x, 8);
    XorByteInvolutive(x, place);
  }

  /** A random byte is read back from its byte of the key and two places of the table, whatever table
      the key is generated from. */
  lemma KeyReadsBack(table: seq<Byte>, rand: seq<Byte>, i: nat)
    requires |table| == 144 && i < 12 && i < |rand|
    ensures rand[i] == (XorByte(KeyFrom(table, rand)[i], table[12 * (11 - i)]) - table[12 * i]) % 256
  {
    XorReadsBack(table[132 - 12 * i], MaskedSum(rand, i, table[12 * i]));
    SumReadsBack(rand[i], table[12 * i]);
  }

  lemma KeyByte(rand: seq<Byte>, i: nat)
    requires i < 12
    ensures |KEY_TABLE| == 144
    ensures GenKey(rand)[i] == XorByte(KEY_TABLE[12 * (11 - i)], MaskedSum(rand, i, KEY_TABLE[12 * i]))
  {
  }

  /** The twelve places of the table that a key uses. */
  function KeyPlace(i: nat): Byte
    requires i < 12
  {
    match i
    case 0 => 0xf0
    case 1 => 0x7d
    case 2 => 0x9b
    case 3 => 0x26
    case 4 => 0x2a
    case 5 => 0x8f
    case 6 => 0xd7
    case 7 => 0xeb
    case 8 => 0x32
    case 9 => 0xba
    case 10 => 0xff
    case _ => 0x5c
  }

  lemma TableColumn(i: nat)
    requires i < 12
    ensures |KEY_TABLE| == 144 && KEY_TABLE[12 * i] == KeyPlace(i)
  {
    assert KEY_TABLE[0] == 0xf0 && KEY_TABLE[12] == 0x7d && KEY_TABLE[24] == 0x9b && KEY_TABLE[36] == 0x26;
    assert KEY_TABLE[48] == 0x2a && KEY_TABLE[60] == 0x8f && KEY_TABLE[72] == 0xd7 && KEY_TABLE[84] == 0xeb;
    assert KEY_TABLE[96] == 0x32 && KEY_TABLE[108] == 0xba && KEY_TABLE[120] == 0xff && KEY_TABLE[132] == 0x5c;
  }

  /** The key in numbers. */
  lemma KeyBytes(rand: seq<Byte>, i: nat)
    requires i < 12
    ensures i < |rand| ==> GenKey(rand)[i] == XorByte(KeyPlace(11 - i), (rand[i] + KeyPlace(i)) % 256)
    ensures i >= |rand| ==> GenKey(rand)[i] == XorByte(KeyPlace(11 - i), 0)
  {
    KeyByte(rand, i);
    TableColumn(i);
    TableColumn(11 - i);
  }

  // ----- the bytes of a request

  /** Where byte `j` of the message is found again: the text is reversed, and each of the two layers
      takes the start of its key for the first `n % 4` bytes and repeats it from there. */
  lemma ScrambledByte(data: seq<Byte>, j: nat)
    requires j < |data|
    ensures var n, k := |data|, |data| - 1 - j;
            && |Scramble(data, LONG_KEY)| == n
            && Scramble(data, LONG_KEY)[j]
               == XorByte(
                    XorByte(data[k], [0x8d, 0xa5, 0xa5, 0x8d][if k < n % 4 then k else (k - n % 4) % 4]),
                    [0x78, 0x06, 0xad, 0x4c, 0x33, 0x86, 0x5d, 0x18, 0x4c, 0x01, 0x3f, 0x46][
                      if j < n % 4 then j else (j - n % 4) % 12])
  {
  }

  /** A request opens to sixteen zeros and the scrambled message. */
  lemma RequestBytes(data: seq<Byte>, open: nat -> nat, exponent: nat, modulus: nat, size: nat)
    requires size >= 12 && modulus > 0 && ModulusOfSize(modulus, size)
    requires Inverses(PowerMap(exponent, modulus), open, modulus)
    ensures OpenBlocks(Encrypt(data, exponent, modulus, size), open, size)
            == seq(16, _ => 0) + Scramble(data, LONG_KEY)
  {
    OpenSealedBlocks(seq(16, _ => 0) + Scramble(data, LONG_KEY), PowerMap(exponent, modulus), open, modulus, size);
  }

  /** A block of 128 bytes: zero, twos, zero and the message at the end. */
  lemma BlockBytes(message: seq<Byte>, i: nat)
    requires |message| <= 117 && i < 128
    ensures |Block(message, 128)| == 128
    ensures var b, n := Block(message, 128), |message|;
            b[i] == if i == 0 || i == 127 - n then 0 else if i < 127 - n then 2 else message[i - (128 - n)]
  {
  }

  function Pieces(length: nat, n: nat): nat
    requires n > 0
  {
    (length + n - 1) / n
  }

  lemma QuotientUnique(x: nat, q: nat, r: nat, m: nat)
    requires r < m && x == q * m + r
    ensures x / m == q
  {
    ModUnique(x, q, r, m);
    assert (x / m - q) * m == 0;
  }

  lemma PiecesStep(length: nat, n: nat)
    requires n > 0
    ensures length == 0 ==> Pieces(length, n) == 0
    ensures 0 < length <= n ==> Pieces(length, n) == 1
    ensures length > n ==> Pieces(length, n) == Pieces(length - n, n) + 1
  {
    if length == 0 {
      QuotientUnique(n - 1, 0, n - 1, n);
    } else if length <= n {
      QuotientUnique(length + n - 1, 1, length - 1, n);
    } else {
      var x := length - 1;
      QuotientUnique(x + n, x / n + 1, x % n, n);
    }
  }

  lemma {:induction false} ChunkLengths(x: seq<Byte>, n: nat, size: nat, f: seq<Byte> -> seq<Byte>)
    requires n > 0 && forall m: seq<Byte> {:trigger f(m)} :: |f(m)| == size
    ensures |MapChunks(x, n, f)| == Pieces(|x|, n) * size
    decreases |x|
  {
    PiecesStep(|x|, n);
    if x != [] {
      var k := Min(n, |x|);
      ChunkLengths(x[k..], n, size, f);
      PiecesStep(|x[k..]|, n);
      MulNext(Pieces(|x[k..]|, n), size);
    }
  }

  /** A request of `n` bytes takes one block of 128 for every 117 bytes of the prefix and the message. */
  lemma RequestLength(data: seq<Byte>, exponent: nat, modulus: nat)
    requires modulus > 0
    ensures |Encrypt(data, exponent, modulus, 128)| == 128 * ((16 + |data| + 116) / 117)
  {
    var seal := PowerMap(exponent, modulus);
    ChunkLengths(
      seq(16, _ => 0) + Scramble(data, LONG_KEY), 117, 128, (m: seq<Byte>) => SealedBlock(m, seal, 128));
  }
}
