/** Telegram file ids: a versioned binary layout, then zero-run coding, then unpadded Base64. */
module FileIds {
  import opened Prelude
  import opened Struct
  import Rle
  import Base64Url

  /** A Python `str` is a sequence of code points, surrogates included. */
  type CodePoint = c: int | 0 <= c < 0x11_0000

  type FileType = t: int | 0 <= t < 18
  type ThumbnailSource = s: int | 0 <= s < 10

  const PHOTO_TYPES: set<int> := {0, 1, 2, 12, 11}

  const LEGACY: ThumbnailSource := 0
  const THUMBNAIL: ThumbnailSource := 1
  const CHAT_PHOTO_SMALL: ThumbnailSource := 2
  const CHAT_PHOTO_BIG: ThumbnailSource := 3
  const STICKER_SET_THUMBNAIL: ThumbnailSource := 4
  const FULL_LEGACY: ThumbnailSource := 5
  const CHAT_PHOTO_SMALL_LEGACY: ThumbnailSource := 6
  const CHAT_PHOTO_BIG_LEGACY: ThumbnailSource := 7
  const STICKER_SET_THUMBNAIL_LEGACY: ThumbnailSource := 8
  const STICKER_SET_THUMBNAIL_VERSION: ThumbnailSource := 9

  const NO_VOLUME_AND_LOCAL_ID_MINOR := 32
  const WEB_LOCATION_FLAG := 0x100_0000
  const FILE_REFERENCE_FLAG := 0x200_0000

  datatype PhotoTail = PhotoTail(
    volumeId: Option<int>,
    localId: Option<int>,
    secret: Option<int>,
    thumbnailFileType: Option<int>,
    thumbnailSize: seq<CodePoint>,
    chatId: Option<int>,
    chatAccessHash: Option<int>,
    stickerSetId: Option<int>,
    stickerSetAccessHash: Option<int>,
    stickerSetVersion: Option<int>)

  const EMPTY_TAIL := PhotoTail(None, None, None, None, [], None, None, None, None, None)

  /** `url` holds the UTF-8 form. */
  datatype FileId = FileId(
    major: int,
    minor: int,
    fileType: FileType,
    dcId: int,
    fileReference: seq<Byte>,
    url: Option<seq<Byte>>,
    mediaId: Option<int>,
    accessHash: Option<int>,
    thumbnailSource: Option<ThumbnailSource>,
    tail: PhotoTail)

  // ----- the layout as functions

  /** Consecutive fields; the first error wins. */
  function Concat(a: Result<seq<Byte>, Error>, b: Result<seq<Byte>, Error>): Result<seq<Byte>, Error> {
    var x :- a;
    var y :- b;
    Ok(x + y)
  }

  /** `struct.unpack` of two, three or four consecutive integers. */
  function Read2(buf: seq<Byte>, m: nat, n: nat): (r: Result<(int, int, seq<Byte>), Error>)
    requires m > 0 && n > 0
    ensures r.Ok? ==> InRange(r.value.0, m) && InRange(r.value.1, n)
  {
    var (a, more) :- ReadInt(buf, m);
    var (b, rest) :- ReadInt(more, n);
    Ok((a, b, rest))
  }

  function Read3(buf: seq<Byte>, m: nat, n: nat, k: nat): (r: Result<(int, int, int, seq<Byte>), Error>)
    requires m > 0 && n > 0 && k > 0
    ensures r.Ok? ==> InRange(r.value.0, m) && InRange(r.value.1, n) && InRange(r.value.2, k)
  {
    var (a, more) :- ReadInt(buf, m);
    var (b, c, rest) :- Read2(more, n, k);
    Ok((a, b, c, rest))
  }

  function Read4(buf: seq<Byte>, m: nat, n: nat, k: nat, l: nat): (r: Result<(int, int, int, int, seq<Byte>), Error>)
    requires m > 0 && n > 0 && k > 0 && l > 0
    ensures r.Ok? ==> InRange(r.value.0, m) && InRange(r.value.1, n) && InRange(r.value.2, k) && InRange(r.value.3, l)
  {
    var (a, more) :- ReadInt(buf, m);
    var (b, c, d, rest) :- Read3(more, n, k, l);
    Ok((a, b, c, d, rest))
  }

  /** `write_photo_tail`; `ord` raises unless the size is one character. */
  function TailBytes(t: PhotoTail, source: Option<ThumbnailSource>): Result<seq<Byte>, Error> {
    if source.None? then Err(NoLayout)
    else if source.value == LEGACY then PackField(t.secret, 8)
    else if source.value == THUMBNAIL then
      Concat(PackField(t.thumbnailFileType, 4),
             PackField(if |t.thumbnailSize| == 1 then Some(t.thumbnailSize[0]) else None, 4))
    else if source.value == CHAT_PHOTO_SMALL || source.value == CHAT_PHOTO_BIG then
      Concat(PackField(t.chatId, 8), PackField(t.chatAccessHash, 8))
    else if source.value == STICKER_SET_THUMBNAIL then
      Concat(PackField(t.stickerSetId, 8), PackField(t.stickerSetAccessHash, 8))
    else LaterTailBytes(t, source.value)
  }

  function LaterTailBytes(t: PhotoTail, source: ThumbnailSource): Result<seq<Byte>, Error> {
    if source == FULL_LEGACY then
      Concat(PackField(t.volumeId, 8), Concat(PackField(t.secret, 8), PackField(t.localId, 4)))
    else if source == CHAT_PHOTO_SMALL_LEGACY || source == CHAT_PHOTO_BIG_LEGACY then
      Concat(PackField(t.chatId, 8),
             Concat(PackField(t.chatAccessHash, 8), Concat(PackField(t.volumeId, 8), PackField(t.localId, 4))))
    else if source == STICKER_SET_THUMBNAIL_LEGACY then
      Concat(PackField(t.stickerSetId, 8),
             Concat(PackField(t.stickerSetAccessHash, 8), Concat(PackField(t.volumeId, 8), PackField(t.localId, 4))))
    else
      Concat(PackField(t.stickerSetId, 8),
             Concat(PackField(t.stickerSetAccessHash, 8), PackField(t.stickerSetVersion, 4)))
  }

  /** `read_photo_tail`; `chr` raises outside the code points. */
  function ParseTail(buf: seq<Byte>, source: ThumbnailSource): Result<(PhotoTail, seq<Byte>), Error> {
    if source == LEGACY then
      var (secret, rest) :- ReadInt(buf, 8);
      Ok((EMPTY_TAIL.(secret := Some(secret)), rest))
    else if source == THUMBNAIL then
      var (fileType, size, rest) :- Read2(buf, 4, 4);
      if 0 <= size < 0x11_0000 then
        Ok((EMPTY_TAIL.(thumbnailFileType := Some(fileType), thumbnailSize := [size]), rest))
      else Err(Malformed)
    else if source == CHAT_PHOTO_SMALL || source == CHAT_PHOTO_BIG then
      var (id, hash, rest) :- Read2(buf, 8, 8);
      Ok((EMPTY_TAIL.(chatId := Some(id), chatAccessHash := Some(hash)), rest))
    else if source == STICKER_SET_THUMBNAIL then
      var (id, hash, rest) :- Read2(buf, 8, 8);
      Ok((EMPTY_TAIL.(stickerSetId := Some(id), stickerSetAccessHash := Some(hash)), rest))
    else ParseLaterTail(buf, source)
  }

  /** The sources that a photo id of minor version 32 or later may also have. */
  function ParseLaterTail(buf: seq<Byte>, source: ThumbnailSource): Result<(PhotoTail, seq<Byte>), Error> {
    if source == FULL_LEGACY then
      var (volume, secret, local, rest) :- Read3(buf, 8, 8, 4);
      Ok((EMPTY_TAIL.(volumeId := Some(volume), secret := Some(secret), localId := Some(local)), rest))
    else if source == CHAT_PHOTO_SMALL_LEGACY || source == CHAT_PHOTO_BIG_LEGACY then
      var (id, hash, volume, local, rest) :- Read4(buf, 8, 8, 8, 4);
      Ok((EMPTY_TAIL.(chatId := Some(id), chatAccessHash := Some(hash), volumeId := Some(volume),
                      localId := Some(local)), rest))
    else if source == STICKER_SET_THUMBNAIL_LEGACY then
      var (id, hash, volume, local, rest) :- Read4(buf, 8, 8, 8, 4);
      Ok((EMPTY_TAIL.(stickerSetId := Some(id), stickerSetAccessHash := Some(hash), volumeId := Some(volume),
                      localId := Some(local)), rest))
    else
      var (id, hash, version, rest) :- Read3(buf, 8, 8, 4);
      Ok((EMPTY_TAIL.(stickerSetId := Some(id), stickerSetAccessHash := Some(hash),
                      stickerSetVersion := Some(version)), rest))
  }

  function When(c: bool, r: Result<seq<Byte>, Error>): Result<seq<Byte>, Error> {
    if c then r else Ok([])
  }

  function PhotoBytes(f: FileId): Result<seq<Byte>, Error> {
    var outer := f.minor < NO_VOLUME_AND_LOCAL_ID_MINOR;
    Concat(When(outer, PackField(f.tail.volumeId, 8)),
           Concat(When(f.major >= 4, PackField(f.thumbnailSource, 4)),
                  Concat(TailBytes(f.tail, f.thumbnailSource), When(outer, PackField(f.tail.localId, 4)))))
  }

  predicate IsWeb(f: FileId) {
    f.url.Some? && f.url.value != []
  }

  /** The file type with its two flags. */
  function Tag(f: FileId): int {
    f.fileType
    + (if IsWeb(f) then WEB_LOCATION_FLAG else 0)
    + (if f.fileReference != [] then FILE_REFERENCE_FLAG else 0)
  }

  function VersionBytes(f: FileId): Result<seq<Byte>, Error> {
    Concat(PackField(Some(f.minor), 1), PackField(Some(f.major), 1))
  }

  /** What follows the ids. The document branch tests the flagged type, so it writes the version
      a first time only when no flag is set. */
  function ExtraBytes(f: FileId): Result<seq<Byte>, Error> {
    if f.fileType in PHOTO_TYPES then PhotoBytes(f)
    else if Tag(f) == f.fileType then Concat(PackField(Some(f.minor), 4), PackField(Some(f.major), 4))
    else Ok([])
  }

  function HeadBytes(f: FileId): Result<seq<Byte>, Error> {
    Concat(PackField(Some(Tag(f)), 4), PackField(Some(f.dcId), 4))
  }

  function IdBytes(f: FileId): Result<seq<Byte>, Error> {
    Concat(PackField(f.mediaId, 8), PackField(f.accessHash, 8))
  }

  function ReferenceBytes(f: FileId): Result<seq<Byte>, Error> {
    When(f.fileReference != [], WriteBytes(f.fileReference))
  }

  function UrlBytes(f: FileId): Result<seq<Byte>, Error> {
    if IsWeb(f) then WriteBytes(f.url.value) else Ok([])
  }

  function Body(f: FileId): Result<seq<Byte>, Error> {
    Concat(HeadBytes(f), Concat(UrlBytes(f), Concat(ReferenceBytes(f), Concat(IdBytes(f), ExtraBytes(f)))))
  }

  /** Everything that goes into zero-run coding. */
  function Payload(f: FileId): Result<seq<Byte>, Error> {
    Concat(Body(f), VersionBytes(f))
  }

  function Render(f: FileId): Result<string, Error> {
    var payload :- Payload(f);
    match Rle.Encode(payload)
    case Ok(coded) => Ok(Base64Url.Encode(coded))
    case Err(_) => Err(Malformed)
  }

  predicate HasFlag(tag: int, flag: int)
    requires flag > 0
  {
    tag / flag % 2 == 1
  }

  /** The type with both flags removed. */
  function PlainType(tag: int): int {
    tag - (if HasFlag(tag, WEB_LOCATION_FLAG) then WEB_LOCATION_FLAG else 0)
        - (if HasFlag(tag, FILE_REFERENCE_FLAG) then FILE_REFERENCE_FLAG else 0)
  }

  function ReadWhen(c: bool, buf: seq<Byte>, n: nat, otherwise: int): (r: Result<(int, seq<Byte>), Error>)
    requires n > 0
    ensures c && r.Ok? ==> InRange(r.value.0, n)
  {
    if c then ReadInt(buf, n) else Ok((otherwise, buf))
  }

  function ParsePhoto(buf: seq<Byte>, major: nat, minor: nat): Result<(ThumbnailSource, PhotoTail), Error> {
    var outer := minor < NO_VOLUME_AND_LOCAL_ID_MINOR;
    var (volume, afterVolume) :- ReadWhen(outer, buf, 8, 0);
    var (source, afterSource) :- ReadWhen(major >= 4, afterVolume, 4, 0);
    if !(0 <= source < 10) then Err(UnknownThumbnailSource)
    else
      var (tail, afterTail) :- ParseTail(afterSource, source);
      if outer then
        var (local, _) :- ReadInt(afterTail, 4);
        Ok((source, tail.(volumeId := Some(volume), localId := Some(local))))
      else Ok((source, tail))
  }

  /** What follows the head of a non-web id. */
  function ParseMedia(buf: seq<Byte>, referenced: bool, fileType: FileType, dcId: int, major: nat, minor: nat)
    : Result<FileId, Error>
  {
    var (reference, afterReference) := if referenced then ReadBytes(buf) else ([], buf);
    var (id, hash, afterIds) :- Read2(afterReference, 8, 8);
    if fileType in PHOTO_TYPES then
      var (source, tail) :- ParsePhoto(afterIds, major, minor);
      Ok(FileId(major, minor, fileType, dcId, reference, None, Some(id), Some(hash), Some(source), tail))
    else
      Ok(FileId(major, minor, fileType, dcId, reference, None, Some(id), Some(hash), None, EMPTY_TAIL))
  }

  function ParseWeb(buf: seq<Byte>, fileType: FileType, dcId: int, major: nat, minor: nat): Result<FileId, Error> {
    var (url, afterUrl) := ReadBytes(buf);
    var (hash, _) :- ReadInt(afterUrl, 8);
    Ok(FileId(major, minor, fileType, dcId, [], Some(url), None, Some(hash), None, EMPTY_TAIL))
  }

  function ParseBody(buf: seq<Byte>, major: nat, minor: nat): Result<FileId, Error> {
    var (tag, dcId, afterHead) :- Read2(buf, 4, 4);
    var web, referenced := HasFlag(tag, WEB_LOCATION_FLAG), HasFlag(tag, FILE_REFERENCE_FLAG);
    var plain := PlainType(tag);
    if !(0 <= plain < 18) then Err(UnknownFileType)
    else if web then ParseWeb(afterHead, plain, dcId, major, minor)
    else ParseMedia(afterHead, referenced, plain, dcId, major, minor)
  }

  /** Major versions below 4 have no minor version. */
  function ParsePayload(decoded: seq<Byte>): Result<FileId, Error> {
    if decoded == [] then Err(Malformed)
    else
      var major := decoded[|decoded| - 1];
      if major < 4 then ParseBody(decoded[..|decoded| - 1], major, 0)
      else if |decoded| < 2 then Err(Malformed)
      else ParseBody(decoded[..|decoded| - 2], major, decoded[|decoded| - 2])
  }

  function Parse(text: string): Result<FileId, Error> {
    match Base64Url.Decode(text)
    case Ok(coded) => ParsePayload(Rle.Decode(coded))
    case Err(_) => Err(Malformed)
  }

  // ----- which file ids the format can hold

  /** A field is present and in range when the layout carries it, and absent otherwise. */
  predicate Carried(v: Option<int>, used: bool, width: nat) {
    if used then v.Some? && InRange(v.value, width) else v.None?
  }

  predicate TailMatches(t: PhotoTail, source: ThumbnailSource, outer: bool) {
    var placed := outer
      || source in {FULL_LEGACY, CHAT_PHOTO_SMALL_LEGACY, CHAT_PHOTO_BIG_LEGACY, STICKER_SET_THUMBNAIL_LEGACY};
    var chat := source in {CHAT_PHOTO_SMALL, CHAT_PHOTO_BIG, CHAT_PHOTO_SMALL_LEGACY, CHAT_PHOTO_BIG_LEGACY};
    var sticker := source in {STICKER_SET_THUMBNAIL, STICKER_SET_THUMBNAIL_LEGACY, STICKER_SET_THUMBNAIL_VERSION};
    && Carried(t.volumeId, placed, 8)
    && Carried(t.localId, placed, 4)
    && Carried(t.secret, source in {LEGACY, FULL_LEGACY}, 8)
    && Carried(t.thumbnailFileType, source == THUMBNAIL, 4)
    && |t.thumbnailSize| == (if source == THUMBNAIL then 1 else 0)
    && Carried(t.chatId, chat, 8)
    && Carried(t.chatAccessHash, chat, 8)
    && Carried(t.stickerSetId, sticker, 8)
    && Carried(t.stickerSetAccessHash, sticker, 8)
    && Carried(t.stickerSetVersion, source == STICKER_SET_THUMBNAIL_VERSION, 4)
  }

  predicate FieldsMatch(f: FileId) {
    && f.url.None?
    && (f.major < 4 ==> f.minor == 0)
    && InRange(f.dcId, 4)
    && |f.fileReference| < Pow256(3)
    && Carried(f.mediaId, true, 8)
    && Carried(f.accessHash, true, 8)
    && if f.fileType in PHOTO_TYPES then
         && f.thumbnailSource.Some?
         && (f.major < 4 ==> f.thumbnailSource.value == LEGACY)
         && TailMatches(f.tail, f.thumbnailSource.value, f.minor < NO_VOLUME_AND_LOCAL_ID_MINOR)
       else
         f.thumbnailSource.None? && f.tail == EMPTY_TAIL
  }

  /** Non-web ids whose version fits a signed byte and whose fields are the ones their type, source
      and version carry. */
  predicate Representable(f: FileId) {
    0 <= f.major <= 127 && 0 <= f.minor <= 127 && FieldsMatch(f)
  }
}
