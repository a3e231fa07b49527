/** `FileId.decode(FileId.encode(f)) == f`, through all three layers, exactly on the representable
    file ids. */
module FileIdRoundTrip {
  import opened Prelude
  import opened Struct
  import opened FileIds
  import Rle
  import Base64Url

  lemma ConcatOk(a: Result<seq<Byte>, Error>, b: Result<seq<Byte>, Error>, rest: seq<Byte>)
    requires a.Ok? && b.Ok?
    ensures Concat(a, b).Ok? && Concat(a, b).value + rest == a.value + (b.value + rest)
  {
  }

  lemma Read2Packed(a: Option<int>, m: nat, b: Option<int>, n: nat, rest: seq<Byte>)
    requires m > 0 && n > 0 && Carried(a, true, m) && Carried(b, true, n)
    ensures Concat(PackField(a, m), PackField(b, n)).Ok?
    ensures Read2(Concat(PackField(a, m), PackField(b, n)).value + rest, m, n) == Ok((a.value, b.value, rest))
  {
    ConcatOk(PackField(a, m), PackField(b, n), rest);
    ReadFieldPack(a, m, PackField(b, n).value + rest);
    ReadFieldPack(b, n, rest);
  }

  lemma Read3Packed(a: Option<int>, m: nat, b: Option<int>, n: nat, c: Option<int>, k: nat, rest: seq<Byte>)
    requires m > 0 && n > 0 && k > 0
    requires Carried(a, true, m) && Carried(b, true, n) && Carried(c, true, k)
    ensures var more := Concat(PackField(b, n), PackField(c, k));
            && Concat(PackField(a, m), more).Ok?
            && Read3(Concat(PackField(a, m), more).value + rest, m, n, k) == Ok((a.value, b.value, c.value, rest))
  {
    var more := Concat(PackField(b, n), PackField(c, k));
    Read2Packed(b, n, c, k, rest);
    ConcatOk(PackField(a, m), more, rest);
    ReadFieldPack(a, m, more.value + rest);
  }

  lemma Read4Packed(
    a: Option<int>, m: nat, b: Option<int>, n: nat, c: Option<int>, k: nat, d: Option<int>, l: nat, rest: seq<Byte>)
    requires m > 0 && n > 0 && k > 0 && l > 0
    requires Carried(a, true, m) && Carried(b, true, n) && Carried(c, true, k) && Carried(d, true, l)
    ensures var more := Concat(PackField(b, n), Concat(PackField(c, k), PackField(d, l)));
            && Concat(PackField(a, m), more).Ok?
            && Read4(Concat(PackField(a, m), more).value + rest, m, n, k, l)
               == Ok((a.value, b.value, c.value, d.value, rest))
  {
    var more := Concat(PackField(b, n), Concat(PackField(c, k), PackField(d, l)));
    Read3Packed(b, n, c, k, d, l, rest);
    ConcatOk(PackField(a, m), more, rest);
    ReadFieldPack(a, m, more.value + rest);
  }

  lemma SmallFits(c: int)
    requires -0x8000_0000 <= c < 0x8000_0000
    ensures InRange(c, 4)
  {
    assert Pow256(4) == 256 * (256 * (256 * 256));
  }

  /** What `ParseTail` makes of the tail bytes: the outer volume and local id are not in them. */
  function Inner(t: PhotoTail, source: ThumbnailSource): PhotoTail {
    if source in {FULL_LEGACY, CHAT_PHOTO_SMALL_LEGACY, CHAT_PHOTO_BIG_LEGACY, STICKER_SET_THUMBNAIL_LEGACY} then t
    else t.(volumeId := None, localId := None)
  }

  lemma TailRoundTrip(t: PhotoTail, source: ThumbnailSource, outer: bool, rest: seq<Byte>)
    requires TailMatches(t, source, outer)
    ensures TailBytes(t, Some(source)).Ok?
    ensures ParseTail(TailBytes(t, Some(source)).value + rest, source) == Ok((Inner(t, source), rest))
  {
    if source == LEGACY {
      ReadFieldPack(t.secret, 8, rest);
    } else if source == THUMBNAIL {
      SmallFits(t.thumbnailSize[0]);
      assert [t.thumbnailSize[0]] == t.thumbnailSize;
      Read2Packed(t.thumbnailFileType, 4, Some(t.thumbnailSize[0]), 4, rest);
    } else if source == CHAT_PHOTO_SMALL || source == CHAT_PHOTO_BIG {
      Read2Packed(t.chatId, 8, t.chatAccessHash, 8, rest);
    } else if source == STICKER_SET_THUMBNAIL {
      Read2Packed(t.stickerSetId, 8, t.stickerSetAccessHash, 8, rest);
    } else {
      LaterTailRoundTrip(t, source, outer, rest);
    }
  }

  lemma LaterTailRoundTrip(t: PhotoTail, source: ThumbnailSource, outer: bool, rest: seq<Byte>)
    requires source >= FULL_LEGACY && TailMatches(t, source, outer)
    ensures LaterTailBytes(t, source).Ok?
    ensures ParseLaterTail(LaterTailBytes(t, source).value + rest, source) == Ok((Inner(t, source), rest))
  {
    if source == FULL_LEGACY {
      Read3Packed(t.volumeId, 8, t.secret, 8, t.localId, 4, rest);
    } else if source == CHAT_PHOTO_SMALL_LEGACY || source == CHAT_PHOTO_BIG_LEGACY {
      Read4Packed(t.chatId, 8, t.chatAccessHash, 8, t.volumeId, 8, t.localId, 4, rest);
    } else if source == STICKER_SET_THUMBNAIL_LEGACY {
      Read4Packed(t.stickerSetId, 8, t.stickerSetAccessHash, 8, t.volumeId, 8, t.localId, 4, rest);
    } else {
      Read3Packed(t.stickerSetId, 8, t.stickerSetAccessHash, 8, t.stickerSetVersion, 4, rest);
    }
  }

  lemma ReadWhenPacked(c: bool, v: Option<int>, n: nat, otherwise: int, rest: seq<Byte>)
    requires n > 0 && (c ==> Carried(v, true, n))
    ensures When(c, PackField(v, n)).Ok?
    ensures ReadWhen(c, When(c, PackField(v, n)).value + rest, n, otherwise)
         == Ok((if c then v.value else otherwise, rest))
  {
    if c {
      ReadFieldPack(v, n, rest);
    } else {
      assert [] + rest == rest;
    }
  }

  lemma PhotoRoundTrip(f: FileId, rest: seq<Byte>)
    requires f.fileType in PHOTO_TYPES && FieldsMatch(f) && f.major >= 0 && f.minor >= 0
    ensures PhotoBytes(f).Ok?
    ensures ParsePhoto(PhotoBytes(f).value + rest, f.major, f.minor) == Ok((f.thumbnailSource.value, f.tail))
  {
    var outer := f.minor < NO_VOLUME_AND_LOCAL_ID_MINOR;
    var source := f.thumbnailSource.value;
    var local := When(outer, PackField(f.tail.localId, 4));
    ReadWhenPacked(outer, f.tail.localId, 4, 0, rest);
    var tail := TailBytes(f.tail, f.thumbnailSource);
    TailRoundTrip(f.tail, source, outer, local.value + rest);
    ConcatOk(tail, local, rest);
    var afterSource := Concat(tail, local).value + rest;
    var tag := When(f.major >= 4, PackField(f.thumbnailSource, 4));
    SmallFits(source);
    ReadWhenPacked(f.major >= 4, f.thumbnailSource, 4, 0, afterSource);
    ConcatOk(tag, Concat(tail, local), rest);
    var afterVolume := Concat(tag, Concat(tail, local)).value + rest;
    var volume := When(outer, PackField(f.tail.volumeId, 8));
    ReadWhenPacked(outer, f.tail.volumeId, 8, 0, afterVolume);
    ConcatOk(volume, Concat(tag, Concat(tail, local)), rest);
    assert outer ==> Inner(f.tail, source).(volumeId := f.tail.volumeId, localId := f.tail.localId) == f.tail;
    assert !outer ==> Inner(f.tail, source) == f.tail;
  }

  lemma TagFlags(f: FileId)
    requires !IsWeb(f)
    ensures InRange(Tag(f), 4)
    ensures !HasFlag(Tag(f), WEB_LOCATION_FLAG)
    ensures HasFlag(Tag(f), FILE_REFERENCE_FLAG) <==> f.fileReference != []
    ensures PlainType(Tag(f)) == f.fileType
  {
    SmallFits(Tag(f));
  }

  lemma ExtraOk(f: FileId)
    requires Representable(f)
    ensures ExtraBytes(f).Ok?
  {
    SmallFits(f.minor);
    SmallFits(f.major);
    if f.fileType in PHOTO_TYPES {
      PhotoRoundTrip(f, []);
    }
  }

  lemma MediaRoundTrip(f: FileId, rest: seq<Byte>)
    requires Representable(f)
    ensures ReferenceBytes(f).Ok? && IdBytes(f).Ok? && ExtraBytes(f).Ok?
    ensures var buf := ReferenceBytes(f).value + (IdBytes(f).value + (ExtraBytes(f).value + rest));
            ParseMedia(buf, f.fileReference != [], f.fileType, f.dcId, f.major, f.minor) == Ok(f)
  {
    ExtraOk(f);
    var afterIds := ExtraBytes(f).value + rest;
    if f.fileType in PHOTO_TYPES {
      PhotoRoundTrip(f, rest);
    }
    Read2Packed(f.mediaId, 8, f.accessHash, 8, afterIds);
    var afterReference := IdBytes(f).value + afterIds;
    if f.fileReference != [] {
      ReadWriteBytes(f.fileReference, afterReference);
    } else {
      assert [] + afterReference == afterReference;
    }
  }

  lemma BodyBytes(f: FileId, rest: seq<Byte>)
    requires f.url.None? && HeadBytes(f).Ok? && ReferenceBytes(f).Ok? && IdBytes(f).Ok? && ExtraBytes(f).Ok?
    ensures Body(f).Ok?
    ensures Body(f).value + rest
         == HeadBytes(f).value + (ReferenceBytes(f).value + (IdBytes(f).value + (ExtraBytes(f).value + rest)))
  {
    var media := Concat(ReferenceBytes(f), Concat(IdBytes(f), ExtraBytes(f)));
    ConcatOk(IdBytes(f), ExtraBytes(f), rest);
    ConcatOk(ReferenceBytes(f), Concat(IdBytes(f), ExtraBytes(f)), rest);
    ConcatOk(UrlBytes(f), media, rest);
    assert [] + (media.value + rest) == media.value + rest;
    ConcatOk(HeadBytes(f), Concat(UrlBytes(f), media), rest);
  }

  /** The part of the payload before the version, with anything behind it. */
  lemma BodyRoundTrip(f: FileId, rest: seq<Byte>)
    requires Representable(f)
    ensures Body(f).Ok? && ParseBody(Body(f).value + rest, f.major, f.minor) == Ok(f)
  {
    MediaRoundTrip(f, rest);
    var afterHead := ReferenceBytes(f).value + (IdBytes(f).value + (ExtraBytes(f).value + rest));
    TagFlags(f);
    Read2Packed(Some(Tag(f)), 4, Some(f.dcId), 4, afterHead);
    BodyBytes(f, rest);
  }

  lemma PackByte(v: int)
    requires 0 <= v <= 127
    ensures PackField(Some(v), 1) == Ok([v])
  {
    assert Pow256(1) == 256;
    assert LittleEndian(v, 1) == [v] + LittleEndian(v / 256, 0) == [v];
  }

  lemma VersionOf(f: FileId)
    requires 0 <= f.major <= 127 && 0 <= f.minor <= 127
    ensures VersionBytes(f) == Ok([f.minor, f.major])
  {
    PackByte(f.minor);
    PackByte(f.major);
    assert [f.minor] + [f.major] == [f.minor, f.major];
  }

  /** The binary layer: a representable id is read back from its payload. */
  lemma PayloadRoundTrip(f: FileId)
    requires Representable(f)
    ensures Payload(f).Ok? && ParsePayload(Payload(f).value) == Ok(f)
  {
    VersionOf(f);
    BodyRoundTrip(f, []);
    var p, body := Payload(f).value, Body(f).value;
    assert p == body + [f.minor, f.major];
    if f.major < 4 {
      assert p[..|p| - 1] == body + [f.minor];
      BodyRoundTrip(f, [f.minor]);
    } else {
      assert p[..|p| - 2] == body + [];
    }
  }

  // ----- what decode can return

  lemma ReadBytesBound(buf: seq<Byte>)
    ensures |ReadBytes(buf).0| < Pow256(3)
  {
    assert Pow256(3) == 256 * (256 * 256);
  }

  lemma TailImage(buf: seq<Byte>, source: ThumbnailSource)
    requires ParseTail(buf, source).Ok?
    ensures TailMatches(ParseTail(buf, source).value.0, source, false)
  {
  }

  lemma PhotoImage(buf: seq<Byte>, major: nat, minor: nat)
    requires ParsePhoto(buf, major, minor).Ok?
    ensures var (source, tail) := ParsePhoto(buf, major, minor).value;
            && TailMatches(tail, source, minor < NO_VOLUME_AND_LOCAL_ID_MINOR)
            && (major < 4 ==> source == LEGACY)
  {
    var outer := minor < NO_VOLUME_AND_LOCAL_ID_MINOR;
    var afterVolume := ReadWhen(outer, buf, 8, 0).value.1;
    var (source, afterSource) := ReadWhen(major >= 4, afterVolume, 4, 0).value;
    TailImage(afterSource, source);
  }

  lemma MediaImage(buf: seq<Byte>, referenced: bool, fileType: FileType, dcId: int, major: nat, minor: nat)
    requires ParseMedia(buf, referenced, fileType, dcId, major, minor).Ok?
    requires InRange(dcId, 4) && (major < 4 ==> minor == 0)
    ensures Decoded(ParseMedia(buf, referenced, fileType, dcId, major, minor).value)
  {
    ReadBytesBound(buf);
    var (reference, afterReference) := if referenced then ReadBytes(buf) else ([], buf);
    var (id, hash, afterIds) := Read2(afterReference, 8, 8).value;
    var f := ParseMedia(buf, referenced, fileType, dcId, major, minor).value;
    if fileType in PHOTO_TYPES {
      PhotoImage(afterIds, major, minor);
      var (source, tail) := ParsePhoto(afterIds, major, minor).value;
      assert f == FileId(major, minor, fileType, dcId, reference, None, Some(id), Some(hash), Some(source), tail);
    } else {
      assert f == FileId(major, minor, fileType, dcId, reference, None, Some(id), Some(hash), None, EMPTY_TAIL);
    }
  }

  /** Decoding yields either a web id, which has no media id, or matching fields. */
  ghost predicate Decoded(f: FileId) {
    f.major >= 0 && f.minor >= 0 && (f.url.Some? ==> f.mediaId.None?) && (f.url.None? ==> FieldsMatch(f))
  }

  lemma WebImage(buf: seq<Byte>, fileType: FileType, dcId: int, major: nat, minor: nat)
    requires ParseWeb(buf, fileType, dcId, major, minor).Ok?
    ensures Decoded(ParseWeb(buf, fileType, dcId, major, minor).value)
  {
  }

  lemma BodyImage(buf: seq<Byte>, major: nat, minor: nat)
    requires ParseBody(buf, major, minor).Ok?
    requires major < 4 ==> minor == 0
    ensures Decoded(ParseBody(buf, major, minor).value)
  {
    var (tag, dcId, afterHead) := Read2(buf, 4, 4).value;
    var web, referenced := HasFlag(tag, WEB_LOCATION_FLAG), HasFlag(tag, FILE_REFERENCE_FLAG);
    var plain := PlainType(tag);
    if web {
      assert ParseBody(buf, major, minor) == ParseWeb(afterHead, plain, dcId, major, minor);
      WebImage(afterHead, plain, dcId, major, minor);
    } else {
      assert ParseBody(buf, major, minor) == ParseMedia(afterHead, referenced, plain, dcId, major, minor);
      MediaImage(afterHead, referenced, plain, dcId, major, minor);
    }
  }

  /** Whatever text is decoded, the result is a web id without a media id, or has the fields that its
      type, source and version carry; its version bytes may be too large for the encoder. */
  lemma ParseImage(text: string)
    requires Parse(text).Ok?
    ensures Decoded(Parse(text).value)
  {
    var decoded := Rle.Decode(Base64Url.Decode(text).value);
    var major := decoded[|decoded| - 1];
    if major < 4 {
      BodyImage(decoded[..|decoded| - 1], major, 0);
    } else {
      BodyImage(decoded[..|decoded| - 2], major, decoded[|decoded| - 2]);
    }
  }

  lemma RenderedFits(f: FileId)
    requires Payload(f).Ok?
    ensures f.mediaId.Some? && f.major <= 127 && f.minor <= 127
  {
    assert Pow256(1) == 256;
  }

  // ----- all three layers

  lemma RenderParse(f: FileId)
    requires Payload(f).Ok? && !Rle.HasZeroRun(Payload(f).value, 256)
    ensures Render(f).Ok? && Parse(Render(f).value) == ParsePayload(Payload(f).value)
  {
    var p := Payload(f).value;
    Rle.DecodeAfterEncode(p);
    Base64Url.DecodeAfterEncode(Rle.Encode(p).value);
  }

  /** The full-stack round trip and its exact domain: encoding succeeds and decoding returns the
      same file id if and only if the id is representable and its binary form has no 256
      consecutive zero bytes. */
  lemma RoundTripIff(f: FileId)
    ensures Render(f).Ok? && Parse(Render(f).value) == Ok(f)
       <==> Representable(f) && Payload(f).Ok? && !Rle.HasZeroRun(Payload(f).value, 256)
  {
    if Representable(f) {
      PayloadRoundTrip(f);
      if !Rle.HasZeroRun(Payload(f).value, 256) {
        RenderParse(f);
      }
    }
    if Render(f).Ok? && Parse(Render(f).value) == Ok(f) {
      ParseImage(Render(f).value);
      RenderedFits(f);
      Rle.DecodeAfterEncode(Payload(f).value);
    }
  }

  /** Encoding again: a non-web id that was decoded from some text can be encoded if and only if its
      version fits signed bytes and its payload has no 256 zeros in a row, and is then read back. */
  lemma DecodedRendersIff(text: string)
    requires Parse(text).Ok? && Parse(text).value.url.None?
    ensures var f := Parse(text).value;
            && (Render(f).Ok? <==>
                  f.major <= 127 && f.minor <= 127 && !Rle.HasZeroRun(PayloadOf(f), 256))
            && (Render(f).Ok? ==> Parse(Render(f).value) == Ok(f))
  {
    var f := Parse(text).value;
    ParseImage(text);
    if f.major <= 127 && f.minor <= 127 {
      PayloadRoundTrip(f);
      RoundTripIff(f);
      Rle.DecodeAfterEncode(Payload(f).value);
    } else if Payload(f).Ok? {
      RenderedFits(f);
    }
  }

  /** The failing half is real: every document id without a reference, with any version bytes of which
      the last is at least 4, is decoded from some text, though the encoder packs the version signed. */
  lemma AnyVersionDecodes(f: FileId) returns (text: string)
    requires FieldsMatch(f) && f.fileType !in PHOTO_TYPES && f.fileReference == []
    requires 4 <= f.major <= 255 && 0 <= f.minor <= 255
    ensures Parse(text) == Ok(f)
  {
    var head, ids := HeadBytes(f), IdBytes(f);
    TagFlags(f);
    assert ids.Ok?;
    Read2Packed(Some(Tag(f)), 4, Some(f.dcId), 4, ids.value);
    Read2Packed(f.mediaId, 8, f.accessHash, 8, []);
    assert ids.value + [] == ids.value;
    var body := head.value + ids.value;
    var payload := body + [f.minor, f.major];
    assert payload[..|payload| - 2] == body;
    assert ParseBody(body, f.major, f.minor) == Ok(f);
    assert |payload| == 26;
    Rle.ShortHasNoZeroRun(payload, 256);
    Rle.DecodeAfterEncode(payload);
    text := Base64Url.Encode(Rle.Encode(payload).value);
    Base64Url.DecodeAfterEncode(Rle.Encode(payload).value);
  }

  /** The payload, or nothing when a field cannot be packed. */
  function PayloadOf(f: FileId): seq<Byte> {
    if Payload(f).Ok? then Payload(f).value else []
  }

  /** No web id survives: the decoder reads the media id as the access hash and drops the rest. */
  lemma WebNeverRoundTrips(f: FileId)
    ensures IsWeb(f) && Render(f).Ok? ==> Parse(Render(f).value) != Ok(f)
  {
    RoundTripIff(f);
  }

  /** Distinct representable file ids never share a text form. */
  lemma RenderInjective(f: FileId, g: FileId)
    requires Representable(f) && Representable(g)
    ensures Render(f).Ok? && Render(f) == Render(g) ==> f == g
  {
    if Render(f).Ok? && Render(f) == Render(g) {
      Rle.DecodeAfterEncode(Payload(f).value);
      Rle.DecodeAfterEncode(Payload(g).value);
      RoundTripIff(f);
      RoundTripIff(g);
    }
  }
}
