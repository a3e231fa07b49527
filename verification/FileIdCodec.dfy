/** The reader and writer of file ids as they advance a byte buffer, refined from the layout. */
module FileIdCodec {
  import opened Prelude
  import opened Struct
  import opened FileIds
  import Rle
  import Base64Url

  /** An in-memory byte stream open for reading. */
  class BytesIO {
    const data: seq<Byte>
    var pos: nat

    ghost predicate Valid()
      reads this
    {
      pos <= |data|
    }

    ghost function Rest(): seq<Byte>
      requires Valid()
      reads this
    {
      data[pos..]
    }

    constructor (data: seq<Byte>)
      ensures Valid() && Rest() == data
    {
      this.data, pos := data, 0;
    }

    /** Up to `n` bytes, and the position moves past them. */
    method Read(n: nat) returns (chunk: seq<Byte>)
      requires Valid()
      modifies this
      ensures Valid() && (chunk, Rest()) == Take(old(Rest()), n)
    {
      var end := Min(pos + n, |data|);
      chunk := data[pos..end];
      assert chunk == data[pos..][..Min(n, |data[pos..]|)];
      assert data[end..] == data[pos..][Min(n, |data[pos..]|)..];
      pos := end;
    }

    /** `struct.unpack` of one `n`-byte integer. */
    method Unpack(n: nat) returns (r: Result<int, Error>)
      requires Valid() && n > 0
      modifies this
      ensures Valid()
      ensures match ReadInt(old(Rest()), n)
              case Ok((v, rest)) => r == Ok(v) && Rest() == rest
              case Err(e) => r == Err(e)
    {
      var chunk := Read(n);
      if |chunk| < n {
        return Err(Malformed);
      }
      r := Ok(Struct.Unpack(chunk));
    }

    /** `struct.unpack` of two, three or four consecutive integers. */
    method Unpack2(m: nat, n: nat) returns (r: Result<(int, int), Error>)
      requires Valid() && m > 0 && n > 0
      modifies this
      ensures Valid()
      ensures match Read2(old(Rest()), m, n)
              case Ok((a, b, rest)) => r == Ok((a, b)) && Rest() == rest
              case Err(e) => r == Err(e)
    {
      var a :- Unpack(m);
      var b :- Unpack(n);
      r := Ok((a, b));
    }

    method Unpack3(m: nat, n: nat, k: nat) returns (r: Result<(int, int, int), Error>)
      requires Valid() && m > 0 && n > 0 && k > 0
      modifies this
      ensures Valid()
      ensures match Read3(old(Rest()), m, n, k)
              case Ok((a, b, c, rest)) => r == Ok((a, b, c)) && Rest() == rest
              case Err(e) => r == Err(e)
    {
      var a :- Unpack(m);
      var more :- Unpack2(n, k);
      r := Ok((a, more.0, more.1));
    }

    method Unpack4(m: nat, n: nat, k: nat, l: nat) returns (r: Result<(int, int, int, int), Error>)
      requires Valid() && m > 0 && n > 0 && k > 0 && l > 0
      modifies this
      ensures Valid()
      ensures match Read4(old(Rest()), m, n, k, l)
              case Ok((a, b, c, d, rest)) => r == Ok((a, b, c, d)) && Rest() == rest
              case Err(e) => r == Err(e)
    {
      var a :- Unpack(m);
      var more :- Unpack3(n, k, l);
      r := Ok((a, more.0, more.1, more.2));
    }

    method ReadAndSkip(length: nat, skip: nat) returns (value: seq<Byte>)
      requires Valid()
      modifies this
      ensures Valid() && (value, Rest()) == TakeAndSkip(old(Rest()), length, skip)
    {
      value := Read(length);
      var _ := Read(skip);
    }

    /** `Bytes.read`. */
    method ReadByteString() returns (value: seq<Byte>)
      requires Valid()
      modifies this
      ensures Valid() && (value, Rest()) == ReadBytes(old(Rest()))
    {
      var first := Read(1);
      var length := FromLittleEndian(first);
      if length <= 253 {
        value := ReadAndSkip(length, Padding(length + 1));
      } else {
        var wide := Read(3);
        length := FromLittleEndian(wide);
        value := ReadAndSkip(length, Padding(length));
      }
    }
  }

  method ReadPhotoTail(buffer: BytesIO, source: ThumbnailSource) returns (r: Result<PhotoTail, Error>)
    requires buffer.Valid()
    modifies buffer
    ensures buffer.Valid()
    ensures match ParseTail(old(buffer.Rest()), source)
            case Ok((tail, rest)) => r == Ok(tail) && buffer.Rest() == rest
            case Err(e) => r == Err(e)
  {
    if source == LEGACY {
      var secret :- buffer.Unpack(8);
      return Ok(EMPTY_TAIL.(secret := Some(secret)));
    }
    if source == THUMBNAIL {
      var v :- buffer.Unpack2(4, 4);
      if !(0 <= v.1 < 0x11_0000) {
        return Err(Malformed);
      }
      return Ok(EMPTY_TAIL.(thumbnailFileType := Some(v.0), thumbnailSize := [v.1]));
    }
    if source == CHAT_PHOTO_SMALL || source == CHAT_PHOTO_BIG {
      var v :- buffer.Unpack2(8, 8);
      return Ok(EMPTY_TAIL.(chatId := Some(v.0), chatAccessHash := Some(v.1)));
    }
    if source == STICKER_SET_THUMBNAIL {
      var v :- buffer.Unpack2(8, 8);
      return Ok(EMPTY_TAIL.(stickerSetId := Some(v.0), stickerSetAccessHash := Some(v.1)));
    }
    r := ReadLaterTail(buffer, source);
  }

  method ReadLaterTail(buffer: BytesIO, source: ThumbnailSource) returns (r: Result<PhotoTail, Error>)
    requires buffer.Valid()
    modifies buffer
    ensures buffer.Valid()
    ensures match ParseLaterTail(old(buffer.Rest()), source)
            case Ok((tail, rest)) => r == Ok(tail) && buffer.Rest() == rest
            case Err(e) => r == Err(e)
  {
    if source == FULL_LEGACY {
      var v :- buffer.Unpack3(8, 8, 4);
      return Ok(EMPTY_TAIL.(volumeId := Some(v.0), secret := Some(v.1), localId := Some(v.2)));
    }
    if source == CHAT_PHOTO_SMALL_LEGACY || source == CHAT_PHOTO_BIG_LEGACY {
      var v :- buffer.Unpack4(8, 8, 8, 4);
      return Ok(EMPTY_TAIL.(chatId := Some(v.0), chatAccessHash := Some(v.1), volumeId := Some(v.2),
        localId := Some(v.3)));
    }
    if source == STICKER_SET_THUMBNAIL_LEGACY {
      var v :- buffer.Unpack4(8, 8, 8, 4);
      return Ok(EMPTY_TAIL.(stickerSetId := Some(v.0), stickerSetAccessHash := Some(v.1), volumeId := Some(v.2),
                            localId := Some(v.3)));
    }
    var v :- buffer.Unpack3(8, 8, 4);
    return Ok(EMPTY_TAIL.(stickerSetId := Some(v.0), stickerSetAccessHash := Some(v.1),
      stickerSetVersion := Some(v.2)));
  }

  /** The photo part: volume id, source tag, tail and local id, as the version lays them out. */
  method ReadPhoto(buffer: BytesIO, major: nat, minor: nat) returns (r: Result<(ThumbnailSource, PhotoTail), Error>)
    requires buffer.Valid()
    modifies buffer
    ensures r == ParsePhoto(old(buffer.Rest()), major, minor)
  {
    var outer := minor < NO_VOLUME_AND_LOCAL_ID_MINOR;
    var volume, source := 0, 0;
    if outer {
      volume :- buffer.Unpack(8);
    }
    if major >= 4 {
      source :- buffer.Unpack(4);
    }
    if !(0 <= source < 10) {
      return Err(UnknownThumbnailSource);
    }
    var tail :- ReadPhotoTail(buffer, source);
    if outer {
      var local :- buffer.Unpack(4);
      tail := tail.(volumeId := Some(volume), localId := Some(local));
    }
    return Ok((source, tail));
  }

  method ReadMedia(buffer: BytesIO, referenced: bool, fileType: FileType, dcId: int, major: nat, minor: nat)
    returns (r: Result<FileId, Error>)
    requires buffer.Valid()
    modifies buffer
    ensures r == ParseMedia(old(buffer.Rest()), referenced, fileType, dcId, major, minor)
  {
    var reference := [];
    if referenced {
      reference := buffer.ReadByteString();
    }
    var ids :- buffer.Unpack2(8, 8);
    if fileType in PHOTO_TYPES {
      var photo :- ReadPhoto(buffer, major, minor);
      return Ok(
          FileId(major, minor, fileType, dcId, reference, None, Some(ids.0), Some(ids.1), Some(photo.0), photo.1));
    }
    return Ok(FileId(major, minor, fileType, dcId, reference, None, Some(ids.0), Some(ids.1), None, EMPTY_TAIL));
  }

  method ReadWeb(buffer: BytesIO, fileType: FileType, dcId: int, major: nat, minor: nat)
    returns (r: Result<FileId, Error>)
    requires buffer.Valid()
    modifies buffer
    ensures r == ParseWeb(old(buffer.Rest()), fileType, dcId, major, minor)
  {
    var url := buffer.ReadByteString();
    var hash :- buffer.Unpack(8);
    return Ok(FileId(major, minor, fileType, dcId, [], Some(url), None, Some(hash), None, EMPTY_TAIL));
  }

  method ReadBody(buffer: BytesIO, major: nat, minor: nat) returns (r: Result<FileId, Error>)
    requires buffer.Valid()
    modifies buffer
    ensures r == ParseBody(old(buffer.Rest()), major, minor)
  {
    var head :- buffer.Unpack2(4, 4);
    var (tag, dcId) := head;
    var web, referenced := HasFlag(tag, WEB_LOCATION_FLAG), HasFlag(tag, FILE_REFERENCE_FLAG);
    var fileType := PlainType(tag);
    if !(0 <= fileType < 18) {
      return Err(UnknownFileType);
    }
    if web {
      r := ReadWeb(buffer, fileType, dcId, major, minor);
    } else {
      r := ReadMedia(buffer, referenced, fileType, dcId, major, minor);
    }
  }

  method DecodeFileId(text: string) returns (r: Result<FileId, Error>)
    ensures r == Parse(text)
  {
    var coded := Base64Url.Decode(text);
    if coded.Err? {
      return Err(Malformed);
    }
    var decoded := Rle.RleDecode(coded.value);
    if decoded == [] {
      return Err(Malformed);
    }
    var major := decoded[|decoded| - 1];
    if major < 4 {
      var buffer := new BytesIO(decoded[..|decoded| - 1]);
      r := ReadBody(buffer, major, 0);
    } else if |decoded| < 2 {
      return Err(Malformed);
    } else {
      var buffer := new BytesIO(decoded[..|decoded| - 2]);
      r := ReadBody(buffer, major, decoded[|decoded| - 2]);
    }
  }

  lemma ConcatAssociates(a: Result<seq<Byte>, Error>, b: Result<seq<Byte>, Error>, c: Result<seq<Byte>, Error>)
    ensures Concat(Concat(a, b), c) == Concat(a, Concat(b, c))
  {
    if a.Ok? && b.Ok? && c.Ok? {
      assert a.value + b.value + c.value == a.value + (b.value + c.value);
    }
  }

  lemma PhotoInOrder(f: FileId, prefix: Result<seq<Byte>, Error>)
    ensures var outer := f.minor < NO_VOLUME_AND_LOCAL_ID_MINOR;
            var volume, local := When(outer, PackField(f.tail.volumeId, 8)), When(outer, PackField(f.tail.localId, 4));
            var source := When(f.major >= 4, PackField(f.thumbnailSource, 4));
            var tail := TailBytes(f.tail, f.thumbnailSource);
            Concat(Concat(Concat(Concat(prefix, volume), source), tail), local) == Concat(prefix, PhotoBytes(f))
  {
    var outer := f.minor < NO_VOLUME_AND_LOCAL_ID_MINOR;
    var volume, local := When(outer, PackField(f.tail.volumeId, 8)), When(outer, PackField(f.tail.localId, 4));
    var source, tail := When(f.major >= 4, PackField(f.thumbnailSource, 4)), TailBytes(f.tail, f.thumbnailSource);
    ConcatAssociates(Concat(Concat(prefix, volume), source), tail, local);
    ConcatAssociates(Concat(prefix, volume), source, Concat(tail, local));
    ConcatAssociates(prefix, volume, Concat(source, Concat(tail, local)));
  }

  method WritePhoto(f: FileId, prefix: seq<Byte>) returns (r: Result<seq<Byte>, Error>)
    ensures r == Concat(Ok(prefix), PhotoBytes(f))
  {
    PhotoInOrder(f, Ok(prefix));
    var outer := f.minor < NO_VOLUME_AND_LOCAL_ID_MINOR;
    var buffer :- Concat(Ok(prefix), When(outer, PackField(f.tail.volumeId, 8)));
    buffer :- Concat(Ok(buffer), When(f.major >= 4, PackField(f.thumbnailSource, 4)));
    buffer :- Concat(Ok(buffer), TailBytes(f.tail, f.thumbnailSource));
    buffer :- Concat(Ok(buffer), When(outer, PackField(f.tail.localId, 4)));
    r := Ok(buffer);
  }

  method WriteExtra(f: FileId, tag: int, prefix: seq<Byte>) returns (r: Result<seq<Byte>, Error>)
    requires tag == Tag(f)
    ensures r == Concat(Ok(prefix), ExtraBytes(f))
  {
    if f.fileType in PHOTO_TYPES {
      r := WritePhoto(f, prefix);
    } else if tag == f.fileType {
      var bytes :- Concat(PackField(Some(f.minor), 4), PackField(Some(f.major), 4));
      r := Ok(prefix + bytes);
    } else {
      assert prefix + [] == prefix;
      r := Ok(prefix);
    }
  }

  method WriteStrings(f: FileId, prefix: seq<Byte>) returns (r: Result<seq<Byte>, Error>)
    ensures r == Concat(Concat(Ok(prefix), UrlBytes(f)), ReferenceBytes(f))
  {
    var buffer := prefix;
    if IsWeb(f) {
      var bytes :- WriteBytes(f.url.value);
      buffer := buffer + bytes;
    }
    assert prefix + [] == prefix && Concat(Ok(prefix), UrlBytes(f)) == Ok(buffer);
    ghost var before := buffer;
    if f.fileReference != [] {
      var bytes :- WriteBytes(f.fileReference);
      buffer := buffer + bytes;
    }
    assert before + [] == before && Concat(Ok(before), ReferenceBytes(f)) == Ok(buffer);
    r := Ok(buffer);
  }

  /** The writes of `encode`, in order, make up the body. */
  lemma BodyInOrder(f: FileId)
    ensures Concat(Concat(Concat(Concat(HeadBytes(f), UrlBytes(f)), ReferenceBytes(f)), IdBytes(f)), ExtraBytes(f))
         == Body(f)
  {
    var h, u, r, i, e := HeadBytes(f), UrlBytes(f), ReferenceBytes(f), IdBytes(f), ExtraBytes(f);
    ConcatAssociates(Concat(Concat(h, u), r), i, e);
    ConcatAssociates(Concat(h, u), r, Concat(i, e));
    ConcatAssociates(h, u, Concat(r, Concat(i, e)));
  }

  /** `encode`, with the version overrides it accepts. */
  method EncodeFileId(f: FileId, major: Option<int>, minor: Option<int>) returns (r: Result<string, Error>)
    ensures var majorUsed := if major.Some? then major.value else f.major;
            var minorUsed := if minor.Some? then minor.value else f.minor;
            r == Render(f.(major := majorUsed, minor := minorUsed))
  {
    var g := f.(
      major := if major.Some? then major.value else f.major,
      minor := if minor.Some? then minor.value else f.minor);
    var tag := g.fileType as int;
    if IsWeb(g) {
      tag := tag + WEB_LOCATION_FLAG;
    }
    if g.fileReference != [] {
      tag := tag + FILE_REFERENCE_FLAG;
    }
    BodyInOrder(g);
    var buffer :- Concat(PackField(Some(tag), 4), PackField(Some(g.dcId), 4));
    buffer :- WriteStrings(g, buffer);
    var ids :- Concat(PackField(g.mediaId, 8), PackField(g.accessHash, 8));
    buffer :- WriteExtra(g, tag, buffer + ids);
    assert Body(g) == Ok(buffer);
    var version :- Concat(PackField(Some(g.minor), 1), PackField(Some(g.major), 1));
    var coded := Rle.RleEncode(buffer + version);
    if coded.Err? {
      return Err(Malformed);
    }
    r := Ok(Base64Url.Encode(coded.value));
  }
}
