/** The two codes a file id goes through, byte by byte: runs of zeros, and text of six bits a character. */
module ByteCodes {
  import opened Prelude
  import Base64Url
  import Rle

  /** A byte that is not zero stands for itself, and one behind a zero for so many zeros; of several zeros
      in a row one counts, and one at the end means nothing. */
  lemma ZeroRuns(b: Byte, t: seq<Byte>)
    requires b != 0
    ensures Rle.Decode([b] + t) == [b] + Rle.Decode(t)
    ensures Rle.Decode([0, b] + t) == seq(b, _ => 0) + Rle.Decode(t)
    ensures Rle.Decode([0, 0] + t) == Rle.Decode([0] + t)
    ensures Rle.Decode([0]) == []
  {
    var plain, zero := [b] + t, [0] + t;
    assert plain[0] == b && plain[1..] == t && zero[0] == 0 && zero[1..] == t;
    var pair: seq<Byte> := [0, b] + t;
    assert pair[1..] == plain;
    assert Rle.Decode(pair) == Rle.DecodeFrom(plain, true) == Rle.Zeros(b) + Rle.DecodeFrom(t, false);
    var doubled: seq<Byte> := [0, 0] + t;
    assert doubled[1..] == zero;
    assert Rle.Decode(doubled) == Rle.DecodeFrom(zero, true) == Rle.DecodeFrom(t, true) == Rle.Decode(zero);
  }

  /** The alphabet: capital letters, small letters, digits, a hyphen and an underscore. */
  lemma Alphabet(v: Base64Url.Sextet)
    ensures Base64Url.SextetToChar(0) == 'A' && Base64Url.SextetToChar(26) == 'a'
    ensures Base64Url.SextetToChar(52) == '0' && Base64Url.SextetToChar(62) == '-' && Base64Url.SextetToChar(63) == '_'
    ensures v !in {25, 51, 61, 62, 63} ==>
              Base64Url.SextetToChar(v + 1) as int == Base64Url.SextetToChar(v) as int + 1
  {
  }

  function Number(base: int, a: int, b: int, c: int): int {
    (a * base + b) * base + c
  }

  /** Three bytes and the four groups they become are the same 24-bit number, the first byte and the
      first group being the highest; one or two bytes at the end count as the upper part of one. */
  lemma GroupNumber(s: seq<Byte>)
    ensures |s| >= 3 ==>
              var v := Base64Url.Sextets(s);
              && |v| >= 4 && v[4..] == Base64Url.Sextets(s[3..])
              && Number(64, v[0], v[1], v[2]) * 64 + v[3] == Number(256, s[0], s[1], s[2])
    ensures |s| == 2 ==>
              var v := Base64Url.Sextets(s);
              |v| == 3 && Number(64, v[0], v[1], v[2]) * 64 == Number(256, s[0], s[1], 0)
    ensures |s| == 1 ==>
              var v := Base64Url.Sextets(s);
              |v| == 2 && Number(64, v[0], v[1], 0) * 64 == Number(256, s[0], 0, 0)
  {
  }

  /** The decoder takes both alphabets, and skips what is in neither. */
  lemma {:induction false} OtherCharacters(s: string, c: char, t: string, quad: nat, left: nat, pads: nat)
    requires Base64Url.Partial(quad, left) && c != '=' && Base64Url.CharToSextet(c).None?
    ensures Base64Url.CharToSextet('+') == Base64Url.CharToSextet('-') == Some(62)
    ensures Base64Url.CharToSextet('/') == Base64Url.CharToSextet('_') == Some(63)
    ensures Base64Url.DecodeFrom(s + [c] + t, quad, left, pads) == Base64Url.DecodeFrom(s + t, quad, left, pads)
    decreases |s|
  {
    if s == "" {
      assert s + [c] + t == [c] + t && ([c] + t)[1..] == t && s + t == t;
    } else {
      var skipped, kept := s + [c] + t, s + t;
      assert skipped[0] == kept[0] == s[0] && skipped[1..] == s[1..] + [c] + t && kept[1..] == s[1..] + t;
      if s[0] == '=' {
        if !(quad >= 2 && quad + pads + 1 >= 4) {
          OtherCharacters(s[1..], c, t, quad, left, if quad >= 2 then pads + 1 else pads);
        }
      } else {
        match Base64Url.CharToSextet(s[0])
        case None => OtherCharacters(s[1..], c, t, quad, left, pads);
        case Some(v) =>
          if quad == 0 {
            OtherCharacters(s[1..], c, t, 1, v, 0);
          } else if quad == 1 {
            OtherCharacters(s[1..], c, t, 2, v % 16, 0);
          } else if quad == 2 {
            OtherCharacters(s[1..], c, t, 3, v % 4, 0);
          } else {
            OtherCharacters(s[1..], c, t, 0, 0, 0);
          }
      }
    }
  }

  lemma NextCharacter(v: Base64Url.Sextet, t: string, quad: nat, left: nat)
    requires Base64Url.Partial(quad, left) && quad < 3
    ensures Base64Url.DecodeFrom([Base64Url.SextetToChar(v)] + t, quad, left, 0) ==
            if quad == 0 then Base64Url.DecodeFrom(t, 1, v, 0)
            else if quad == 1 then Base64Url.Prepend(left * 4 + v / 16, Base64Url.DecodeFrom(t, 2, v % 16, 0))
            else Base64Url.Prepend(left * 16 + v / 4, Base64Url.DecodeFrom(t, 3, v % 4, 0))
  {
    Base64Url.SextetRoundTrip(v);
    assert ([Base64Url.SextetToChar(v)] + t)[1..] == t;
  }

  lemma PaddingStops(rest: string, two: nat, three: nat)
    requires two < 16 && three < 4
    ensures Base64Url.DecodeFrom("==" + rest, 2, two, 0) == Ok([])
    ensures Base64Url.DecodeFrom("=" + rest, 3, three, 0) == Ok([])
  {
    assert ("==" + rest)[1..] == "=" + rest;
  }

  lemma PrependLast(x: Byte, y: Byte)
    ensures Base64Url.Prepend(x, Ok([])) == Ok([x])
    ensures Base64Url.Prepend(x, Ok([y])) == Ok([x, y])
  {
    assert [x] + [] == [x] && [x] + [y] == [x, y];
  }

  /** Padding that completes a group ends the text, whatever is behind it. */
  lemma PaddingEnds(a: Base64Url.Sextet, b: Base64Url.Sextet, c: Base64Url.Sextet, rest: string)
    ensures Base64Url.DecodeFrom(Base64Url.ToText([a, b]) + "==" + rest, 0, 0, 0) == Ok([a * 4 + b / 16])
    ensures Base64Url.DecodeFrom(Base64Url.ToText([a, b, c]) + "=" + rest, 0, 0, 0)
            == Ok([a * 4 + b / 16, b % 16 * 16 + c / 4])
  {
    var first, second, third := [Base64Url.SextetToChar(a)], [Base64Url.SextetToChar(b)], [Base64Url.SextetToChar(c)];
    PaddingStops(rest, b % 16, c % 4);
    assert Base64Url.ToText([a, b]) + "==" + rest == first + (second + ("==" + rest));
    NextCharacter(a, second + ("==" + rest), 0, 0);
    NextCharacter(b, "==" + rest, 1, a);
    assert Base64Url.ToText([a, b, c]) + "=" + rest == first + (second + (third + ("=" + rest)));
    NextCharacter(a, second + (third + ("=" + rest)), 0, 0);
    NextCharacter(b, third + ("=" + rest), 1, a);
    NextCharacter(c, "=" + rest, 2, b % 16);
    PrependLast(a * 4 + b / 16, b % 16 * 16 + c / 4);
    PrependLast(b % 16 * 16 + c / 4, 0);
  }
}
