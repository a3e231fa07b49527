/** URL-safe Base64 (section 5 of RFC 4648) with the padding left out (section 3.2). */
module Base64Url {
  import opened Prelude

  datatype Error = IncorrectPadding | NotAscii

  type Sextet = v: int | 0 <= v < 64

  function SextetToChar(v: Sextet): char {
    if v < 26 then ('A' as int + v) as char
    else if v < 52 then ('a' as int + v - 26) as char
    else if v < 62 then ('0' as int + v - 52) as char
    else if v == 62 then '-'
    else '_'
  }

  /** The decoder also takes the two characters of the ordinary alphabet. */
  function CharToSextet(c: char): Option<Sextet> {
    if 'A' <= c <= 'Z' then Some(c as int - 'A' as int)
    else if 'a' <= c <= 'z' then Some(c as int - 'a' as int + 26)
    else if '0' <= c <= '9' then Some(c as int - '0' as int + 52)
    else if c == '-' || c == '+' then Some(62)
    else if c == '_' || c == '/' then Some(63)
    else None
  }

  lemma SextetRoundTrip(v: Sextet)
    ensures CharToSextet(SextetToChar(v)) == Some(v)
    ensures SextetToChar(v) != '=' && SextetToChar(v) as int < 128
  {
  }

  // ----- encoding

  /** Three bytes become four groups of six bits; a shorter tail is filled up with zero bits. */
  function Sextets(s: seq<Byte>): seq<Sextet> {
    if |s| == 0 then []
    else if |s| == 1 then [s[0] / 4, s[0] % 4 * 16]
    else if |s| == 2 then [s[0] / 4, s[0] % 4 * 16 + s[1] / 16, s[1] % 16 * 4]
    else [s[0] / 4, s[0] % 4 * 16 + s[1] / 16, s[1] % 16 * 4 + s[2] / 64, s[2] % 64] + Sextets(s[3..])
  }

  function ToText(v: seq<Sextet>): (t: string)
    ensures |t| == |v|
  {
    seq(|v|, i requires 0 <= i < |v| => SextetToChar(v[i]))
  }

  function Pads(n: nat): string {
    seq(n, _ => '=')
  }

  function PadCount(n: nat): nat {
    (4 - n % 4) % 4
  }

  /** `urlsafe_b64encode`, with its padding. */
  function EncodePadded(s: seq<Byte>): string {
    var text := ToText(Sextets(s));
    text + Pads(PadCount(|text|))
  }

  function StripLeft(s: string): string {
    if s != "" && s[0] == '=' then StripLeft(s[1..]) else s
  }

  function StripRight(s: string): string {
    if s != "" && s[|s| - 1] == '=' then StripRight(s[..|s| - 1]) else s
  }

  function Encode(s: seq<Byte>): string {
    StripRight(StripLeft(EncodePadded(s)))
  }

  // ----- decoding

  /** Invariant of the decoder: how much of the current byte `left` may hold. */
  predicate Partial(quad: nat, left: nat) {
    (quad == 0 && left == 0) || (quad == 1 && left < 64) || (quad == 2 && left < 16) || (quad == 3 && left < 4)
  }

  function Prepend(b: Byte, r: Result<seq<Byte>, Error>): Result<seq<Byte>, Error> {
    match r
    case Ok(v) => Ok([b] + v)
    case Err(e) => Err(e)
  }

  /** The library's decoder over the unread characters: `quad` characters of the current group of
      four are read, `left` holds their unused bits and `pads` padding characters were just seen.
      Enough padding ends the input; characters outside the alphabet are skipped. */
  function DecodeFrom(s: string, quad: nat, left: nat, pads: nat): Result<seq<Byte>, Error>
    requires Partial(quad, left)
    decreases |s|
  {
    if s == "" then
      if quad == 0 then Ok([]) else Err(IncorrectPadding)
    else if s[0] == '=' then
      if quad >= 2 && quad + pads + 1 >= 4 then Ok([])
      else DecodeFrom(s[1..], quad, left, if quad >= 2 then pads + 1 else pads)
    else
      match CharToSextet(s[0])
      case None => DecodeFrom(s[1..], quad, left, pads)
      case Some(v) =>
        if quad == 0 then DecodeFrom(s[1..], 1, v, 0)
        else if quad == 1 then Prepend(left * 4 + v / 16, DecodeFrom(s[1..], 2, v % 16, 0))
        else if quad == 2 then Prepend(left * 16 + v / 4, DecodeFrom(s[1..], 3, v % 4, 0))
        else Prepend(left * 64 + v, DecodeFrom(s[1..], 0, 0, 0))
  }

  predicate IsAscii(s: string) {
    forall i | 0 <= i < |s| :: s[i] as int < 128
  }

  /** `b64_decode`: pads to a multiple of four characters first; the library refuses text that is not
      ASCII. */
  function Decode(s: string): Result<seq<Byte>, Error> {
    if !IsAscii(s) then Err(NotAscii) else DecodeFrom(s + Pads(PadCount(|s|)), 0, 0, 0)
  }

  // ----- round trip

  lemma {:induction false} StripRightPads(core: string, n: nat)
    requires core != "" ==> core[|core| - 1] != '='
    ensures StripRight(core + Pads(n)) == core
    decreases n
  {
    if n == 0 {
      assert core + Pads(n) == core;
    } else {
      assert (core + Pads(n))[..|core| + n - 1] == core + Pads(n - 1);
      StripRightPads(core, n - 1);
    }
  }

  /** Stripping removes the padding and nothing else. */
  lemma EncodeIsText(s: seq<Byte>)
    ensures Encode(s) == ToText(Sextets(s))
  {
    var text := ToText(Sextets(s));
    if text != "" {
      assert EncodePadded(s)[0] == text[0];
      SextetRoundTrip(Sextets(s)[0]);
      SextetRoundTrip(Sextets(s)[|text| - 1]);
    } else {
      assert EncodePadded(s) == "";
    }
    StripRightPads(text, PadCount(|text|));
  }

  /** The decoder over groups of six bits, followed by `pads` padding characters. */
  function Join(v: seq<Sextet>, quad: nat, left: nat, pads: nat): Result<seq<Byte>, Error>
    requires Partial(quad, left)
    decreases |v|
  {
    if v == [] then
      if quad == 0 || (quad >= 2 && pads > 0 && quad + pads >= 4) then Ok([]) else Err(IncorrectPadding)
    else if quad == 0 then Join(v[1..], 1, v[0], pads)
    else if quad == 1 then Prepend(left * 4 + v[0] / 16, Join(v[1..], 2, v[0] % 16, pads))
    else if quad == 2 then Prepend(left * 16 + v[0] / 4, Join(v[1..], 3, v[0] % 4, pads))
    else Prepend(left * 64 + v[0], Join(v[1..], 0, 0, pads))
  }

  lemma {:induction false} DecodePads(n: nat, quad: nat, left: nat, seen: nat)
    requires Partial(quad, left) && quad + seen < 4
    ensures DecodeFrom(Pads(n), quad, left, seen) ==
            if quad == 0 || (quad >= 2 && n > 0 && quad + seen + n >= 4) then Ok([]) else Err(IncorrectPadding)
    decreases n
  {
    if n > 0 {
      assert Pads(n)[1..] == Pads(n - 1);
      if !(quad >= 2 && quad + seen + 1 >= 4) {
        DecodePads(n - 1, quad, left, if quad >= 2 then seen + 1 else seen);
      }
    }
  }

  lemma {:induction false} DecodeText(v: seq<Sextet>, quad: nat, left: nat, pads: nat)
    requires Partial(quad, left)
    ensures DecodeFrom(ToText(v) + Pads(pads), quad, left, 0) == Join(v, quad, left, pads)
    decreases |v|
  {
    var s := ToText(v) + Pads(pads);
    if v == [] {
      assert s == Pads(pads);
      DecodePads(pads, quad, left, 0);
    } else {
      SextetRoundTrip(v[0]);
      assert s[0] == SextetToChar(v[0]);
      assert s[1..] == ToText(v[1..]) + Pads(pads);
      if quad == 0 {
        DecodeText(v[1..], 1, v[0], pads);
      } else if quad == 1 {
        DecodeText(v[1..], 2, v[0] % 16, pads);
      } else if quad == 2 {
        DecodeText(v[1..], 3, v[0] % 4, pads);
      } else {
        DecodeText(v[1..], 0, 0, pads);
      }
    }
  }

  lemma JoinFour(v0: Sextet, v1: Sextet, v2: Sextet, v3: Sextet, rest: seq<Sextet>, pads: nat)
    ensures Join([v0, v1, v2, v3] + rest, 0, 0, pads) ==
            Prepend(v0 * 4 + v1 / 16, Prepend(v1 % 16 * 16 + v2 / 4, Prepend(v2 % 4 * 64 + v3, Join(rest, 0, 0, pads))))
  {
    var v := [v0, v1, v2, v3] + rest;
    assert v[1..] == [v1, v2, v3] + rest;
    assert v[1..][1..] == [v2, v3] + rest;
    assert v[1..][1..][1..] == [v3] + rest;
    assert v[1..][1..][1..][1..] == rest;
    assert Join(v, 0, 0, pads) == Join(v[1..], 1, v0, pads);
    assert Join(v[1..], 1, v0, pads) == Prepend(v0 * 4 + v1 / 16, Join(v[1..][1..], 2, v1 % 16, pads));
    assert Join(v[1..][1..], 2, v1 % 16, pads)
        == Prepend(v1 % 16 * 16 + v2 / 4, Join(v[1..][1..][1..], 3, v2 % 4, pads));
  }

  lemma JoinOne(a: Byte)
    ensures Join([a / 4, a % 4 * 16], 0, 0, 2) == Ok([a])
  {
    var v: seq<Sextet> := [a / 4, a % 4 * 16];
    assert v[1..] == [v[1]] && v[1..][1..] == [];
    assert Join(v[1..], 1, v[0], 2) == Prepend(a, Join([], 2, 0, 2));
    assert [a] + [] == [a];
  }

  lemma JoinTwo(a: Byte, b: Byte)
    ensures Join([a / 4, a % 4 * 16 + b / 16, b % 16 * 4], 0, 0, 1) == Ok([a, b])
  {
    var v: seq<Sextet> := [a / 4, a % 4 * 16 + b / 16, b % 16 * 4];
    assert v[1..] == [v[1], v[2]] && v[1..][1..] == [v[2]] && v[1..][1..][1..] == [];
    assert Join([v[2]], 2, v[1] % 16, 1) == Prepend(b, Join([], 3, 0, 1));
    assert Join(v[1..], 1, v[0], 1) == Prepend(a, Join([v[2]], 2, v[1] % 16, 1));
    assert [a] + ([b] + []) == [a, b];
  }

  lemma JoinThree(a: Byte, b: Byte, c: Byte, rest: seq<Sextet>, pads: nat)
    ensures Join([a / 4, a % 4 * 16 + b / 16, b % 16 * 4 + c / 64, c % 64] + rest, 0, 0, pads) ==
            Prepend(a, Prepend(b, Prepend(c, Join(rest, 0, 0, pads))))
  {
    JoinFour(a / 4, a % 4 * 16 + b / 16, b % 16 * 4 + c / 64, c % 64, rest, pads);
  }

  lemma PadsOfRest(n: nat)
    ensures PadCount(4 + n) == PadCount(n)
  {
  }

  lemma PrependThree(s: seq<Byte>)
    requires |s| >= 3
    ensures Prepend(s[0], Prepend(s[1], Prepend(s[2], Ok(s[3..])))) == Ok(s)
  {
    assert [s[0]] + ([s[1]] + ([s[2]] + s[3..])) == s;
  }

  lemma {:induction false} JoinSextets(s: seq<Byte>)
    ensures Join(Sextets(s), 0, 0, PadCount(|Sextets(s)|)) == Ok(s)
    decreases |s|
  {
    if |s| == 1 {
      JoinOne(s[0]);
      assert s == [s[0]];
    } else if |s| == 2 {
      JoinTwo(s[0], s[1]);
      assert s == [s[0], s[1]];
    } else if |s| >= 3 {
      var rest := Sextets(s[3..]);
      JoinSextets(s[3..]);
      PadsOfRest(|rest|);
      JoinThree(s[0], s[1], s[2], rest, PadCount(|rest|));
      PrependThree(s);
    }
  }

  /** Every byte string survives the unpadded text form. */
  lemma DecodeAfterEncode(s: seq<Byte>)
    ensures Decode(Encode(s)) == Ok(s)
  {
    EncodeIsText(s);
    forall i | 0 <= i < |Sextets(s)|
      ensures ToText(Sextets(s))[i] as int < 128
    {
      SextetRoundTrip(Sextets(s)[i]);
    }
    DecodeText(Sextets(s), 0, 0, PadCount(|Sextets(s)|));
    JoinSextets(s);
  }
}
