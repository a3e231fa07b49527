/** How long a file reference may be so that the zero-run coding of its file id cannot fail, whatever the
    reference and the other fields hold. */
module FileIdLengths {
  import opened Prelude
  import opened Struct
  import opened FileIds
  import opened FileIdRoundTrip
  import Rle

  /** A byte that is not zero ends every run before it. */
  lemma RunBroken(a: seq<Byte>, b: Byte, c: seq<Byte>, k: nat)
    requires |a| < k && b != 0 && !Rle.HasZeroRun(c, k)
    ensures !Rle.HasZeroRun(a + ([b] + c), k)
  {
    var s := a + ([b] + c);
    assert s[|a|] == b;
    forall i: nat
      ensures !Rle.ZeroRunAt(s, k, i)
    {
      if Rle.ZeroRunAt(s, k, i) && i > |a| {
        var start := i - |a| - 1;
        forall j | start <= j < start + k
          ensures c[j] == 0
        {
          assert s[j + |a| + 1] == c[j];
        }
        assert Rle.ZeroRunAt(c, k, start);
      }
    }
  }

  // ----- the parts of a payload

  lemma PayloadParts(f: FileId)
    requires Representable(f)
    ensures HeadBytes(f).Ok? && ReferenceBytes(f).Ok? && IdBytes(f).Ok? && ExtraBytes(f).Ok?
    ensures |HeadBytes(f).value| == 8 && |IdBytes(f).value| == 16
    ensures var rest := IdBytes(f).value + (ExtraBytes(f).value + [f.minor, f.major]);
            Payload(f) == Ok(HeadBytes(f).value + (ReferenceBytes(f).value + rest))
  {
    TagFlags(f);
    ExtraOk(f);
    BodyBytes(f, [f.minor, f.major]);
    VersionOf(f);
  }

  lemma ConcatFour(
    a: Result<seq<Byte>, Error>, b: Result<seq<Byte>, Error>, c: Result<seq<Byte>, Error>, d: Result<seq<Byte>, Error>)
    requires Concat(a, Concat(b, Concat(c, d))).Ok?
    ensures a.Ok? && b.Ok? && c.Ok? && d.Ok?
    ensures Concat(a, Concat(b, Concat(c, d))) == Ok(a.value + (b.value + (c.value + d.value)))
  {
  }

  lemma TailLength(t: PhotoTail, source: ThumbnailSource)
    requires TailBytes(t, Some(source)).Ok?
    ensures |TailBytes(t, Some(source)).value| <= if source == LEGACY then 8 else 28
  {
    if source >= FULL_LEGACY {
      assert |LaterTailBytes(t, source).value| <= 28;
    }
  }

  lemma SourceByte(source: ThumbnailSource) returns (more: seq<Byte>)
    ensures PackField(Some(source), 4) == Ok([source] + more) && |more| == 3
  {
    SmallFits(source);
    more := Pack(source, 4)[1..];
  }

  /** `s` is short, or has a byte that is not zero near its beginning. */
  ghost predicate Breaks(s: seq<Byte>) {
    |s| <= 24 || exists i :: 0 <= i <= 8 && i < |s| <= i + 36 && s[i] != 0
  }

  lemma PartsBreak(volume: seq<Byte>, tag: seq<Byte>, tail: seq<Byte>, local: seq<Byte>, source: ThumbnailSource)
    requires |volume| <= 8 && |tag| <= 4 && |local| <= 4 && |tail| <= if source == LEGACY then 8 else 28
    requires source != LEGACY ==> tag != [] && tag[0] == source
    ensures Breaks(volume + (tag + (tail + local)))
  {
    var s := volume + (tag + (tail + local));
    assert |s| == |volume| + |tag| + |tail| + |local|;
    if source != LEGACY {
      assert s[|volume|] == source;
    }
  }

  lemma FieldLength(c: bool, v: Option<int>, n: nat)
    requires n > 0 && When(c, PackField(v, n)).Ok?
    ensures |When(c, PackField(v, n)).value| <= n
  {
  }

  /** What a photo id has after the ids is short for a legacy source, and else names its source. */
  lemma PhotoBreaks(f: FileId)
    requires PhotoBytes(f).Ok? && f.thumbnailSource.Some? && (f.major < 4 ==> f.thumbnailSource.value == LEGACY)
    ensures Breaks(PhotoBytes(f).value)
  {
    var outer, source := f.minor < NO_VOLUME_AND_LOCAL_ID_MINOR, f.thumbnailSource.value;
    var volume, tag := When(outer, PackField(f.tail.volumeId, 8)), When(f.major >= 4, PackField(f.thumbnailSource, 4));
    var tail, local := TailBytes(f.tail, f.thumbnailSource), When(outer, PackField(f.tail.localId, 4));
    ConcatFour(volume, tag, tail, local);
    FieldLength(outer, f.tail.volumeId, 8);
    FieldLength(f.major >= 4, f.thumbnailSource, 4);
    FieldLength(outer, f.tail.localId, 4);
    TailLength(f.tail, source);
    var more := SourceByte(source);
    PartsBreak(volume.value, tag.value, tail.value, local.value, source);
  }

  /** The bytes behind the length of a reference of at most 211 bytes, whatever they are. */
  lemma NoRunBehind(filled: seq<Byte>, ids: seq<Byte>, extra: seq<Byte>, version: seq<Byte>)
    requires |filled| <= 211 && |ids| == 16 && Breaks(extra) && |version| == 2
    ensures !Rle.HasZeroRun(filled + (ids + (extra + version)), 256)
  {
    var rest := filled + (ids + (extra + version));
    if |extra| <= 24 {
      Rle.ShortHasNoZeroRun(rest, 256);
    } else {
      var i :| 0 <= i <= 8 && i < |extra| <= i + 36 && extra[i] != 0;
      var a, b, c := extra[..i], extra[i], extra[i + 1..];
      assert rest == (filled + ids + a) + ([b] + (c + version));
      Rle.ShortHasNoZeroRun(c + version, 256);
      RunBroken(filled + ids + a, b, c + version, 256);
    }
  }

  lemma ExtraBreaks(f: FileId)
    requires Representable(f) && ExtraBytes(f).Ok?
    ensures Breaks(ExtraBytes(f).value)
  {
    if f.fileType in PHOTO_TYPES {
      PhotoBreaks(f);
    }
  }

  /** With a file reference of at most 211 bytes, in particular with none, no zero-run premise is needed:
      being representable is enough. */
  lemma ShortReferenceRoundTrip(f: FileId)
    requires Representable(f) && |f.fileReference| <= 211
    ensures Render(f).Ok? && Parse(Render(f).value) == Ok(f)
  {
    PayloadParts(f);
    ExtraBreaks(f);
    var n, version := |f.fileReference|, [f.minor, f.major];
    var head, ids, extra := HeadBytes(f).value, IdBytes(f).value, ExtraBytes(f).value;
    if n == 0 {
      ShortWithout(head, ids, extra, version);
    } else {
      NoRunWith(head, n, f.fileReference + Fill(Padding(n + 1)), ids, extra, version);
      assert ReferenceBytes(f).value == [n] + (f.fileReference + Fill(Padding(n + 1)));
    }
    RoundTripIff(f);
  }

  lemma ShortWithout(head: seq<Byte>, ids: seq<Byte>, extra: seq<Byte>, version: seq<Byte>)
    requires |head| == 8 && |ids| == 16 && Breaks(extra) && |version| == 2
    ensures !Rle.HasZeroRun(head + ([] + (ids + (extra + version))), 256)
  {
    Rle.ShortHasNoZeroRun(head + ([] + (ids + (extra + version))), 256);
  }

  lemma NoRunWith(head: seq<Byte>, n: Byte, filled: seq<Byte>, ids: seq<Byte>, extra: seq<Byte>, version: seq<Byte>)
    requires |head| == 8 && n != 0 && |filled| <= 211 && |ids| == 16 && Breaks(extra) && |version| == 2
    ensures !Rle.HasZeroRun(head + (([n] + filled) + (ids + (extra + version))), 256)
  {
    NoRunBehind(filled, ids, extra, version);
    RunBroken(head, n, filled + (ids + (extra + version)), 256);
    assert ([n] + filled) + (ids + (extra + version)) == [n] + (filled + (ids + (extra + version)));
  }

  // ----- and no longer one

  lemma {:induction false} ZeroBytes(n: nat)
    ensures LittleEndian(0, n) == Fill(n)
    decreases n
  {
    if n > 0 {
      ZeroBytes(n - 1);
    }
  }

  lemma ZeroField(n: nat)
    requires n > 0
    ensures PackField(Some(0), n) == Ok(Fill(n))
  {
    ZeroBytes(n);
    assert Pow256(n) > 1;
  }

  /** A photo id of version 4.0 in which everything that can be zero is. */
  function Blank(n: nat): FileId {
    FileId(4, 0, 0, 0, Fill(n), None, Some(0), Some(0), Some(LEGACY),
           EMPTY_TAIL.(volumeId := Some(0), localId := Some(0), secret := Some(0)))
  }

  lemma BlankRepresentable(n: nat)
    requires n < Pow256(3)
    ensures Representable(Blank(n)) && Blank(n).fileReference == Fill(n)
  {
    SmallFits(0);
    assert Pow256(8) > 1;
  }

  /** Its payload has, from the first byte of the reference to the minor version, nothing but zeros. */
  lemma BlankPayload(n: nat) returns (prefix: seq<Byte>, zeros: nat)
    requires 0 < n < Pow256(3)
    ensures Payload(Blank(n)) == Ok(prefix + (Fill(zeros) + [4]))
    ensures zeros == n + (if n <= 253 then Padding(n + 1) else Padding(n)) + 41
  {
    var f := Blank(n);
    BlankRepresentable(n);
    PayloadParts(f);
    ZeroField(8);
    ZeroField(4);
    BlankExtra(n);
    var pad := if n <= 253 then Padding(n + 1) else Padding(n);
    var length: seq<Byte> := if n <= 253 then [n] else [254] + LittleEndian(n, 3);
    prefix, zeros := HeadBytes(f).value + length, n + pad + 41;
    assert ReferenceBytes(f).value == length + Fill(n) + Fill(pad);
    assert IdBytes(f).value == Fill(16);
    assert Fill(n) + Fill(pad) + (Fill(16) + (Fill(24) + [0, 4])) == Fill(zeros) + [4];
    assert HeadBytes(f).value + (length + Fill(n) + Fill(pad) + (Fill(16) + (Fill(24) + [0, 4])))
        == prefix + (Fill(n) + Fill(pad) + (Fill(16) + (Fill(24) + [0, 4])));
  }

  lemma BlankExtra(n: nat)
    ensures ExtraBytes(Blank(n)) == Ok(Fill(24))
  {
    var f := Blank(n);
    ZeroField(8);
    ZeroField(4);
    var volume, tag := When(true, PackField(f.tail.volumeId, 8)), When(true, PackField(f.thumbnailSource, 4));
    var tail, local := TailBytes(f.tail, f.thumbnailSource), When(true, PackField(f.tail.localId, 4));
    assert Fill(8) + (Fill(4) + (Fill(8) + Fill(4))) == Fill(24);
    assert ExtraBytes(f) == Concat(volume, Concat(tag, Concat(tail, local)));
  }

  /** One byte more and an id exists that cannot be encoded: among the references of one length all file
      ids round-trip exactly when the length is at most 211. */
  lemma ReferenceLengthIff(n: nat)
    requires n < Pow256(3)
    ensures (forall f: FileId | Representable(f) && |f.fileReference| == n ::
               Render(f).Ok? && Parse(Render(f).value) == Ok(f))
       <==> n <= 211
  {
    if n <= 211 {
      forall f: FileId | Representable(f) && |f.fileReference| == n
        ensures Render(f).Ok? && Parse(Render(f).value) == Ok(f)
      {
        ShortReferenceRoundTrip(f);
      }
    } else {
      var f := Blank(n);
      BlankRepresentable(n);
      var prefix, zeros := BlankPayload(n);
      RunInside(prefix, zeros, [4]);
      RoundTripIff(f);
      assert |f.fileReference| == n;
    }
  }

  lemma RunInside(prefix: seq<Byte>, zeros: nat, rest: seq<Byte>)
    requires zeros >= 256
    ensures Rle.HasZeroRun(prefix + (Fill(zeros) + rest), 256)
  {
    assert Rle.ZeroRunAt(prefix + (Fill(zeros) + rest), 256, |prefix|);
  }
}
