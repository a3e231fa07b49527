/** Where the fields of a file id lie in its payload, in plain numbers, and which fields a decoded id has. */
module FileIdLayout {
  import opened Prelude
  import opened Struct
  import opened FileIds
  import opened FileIdRoundTrip
  import opened FileIdLengths

  /** The bytes of small integers, least significant first, and of a negative one. */
  lemma LittleEndianBytes(v: int)
    ensures 0 <= v < 0x8000_0000 ==>
              InRange(v, 4) && Pack(v, 4) == [v % 256, v / 256 % 256, v / 256 / 256 % 256, v / 256 / 256 / 256 % 256]
    ensures InRange(-1, 4) && Pack(-1, 4) == [255, 255, 255, 255]
  {
    assert Pow256(4) == 0x1_0000_0000;
    var a := v / 256;
    var b := a / 256;
    var c := b / 256;
    if 0 <= v < 0x8000_0000 {
      assert LittleEndian(c, 1) == [c % 256];
      assert LittleEndian(b, 2) == [b % 256] + LittleEndian(c, 1);
      assert LittleEndian(a, 3) == [a % 256] + LittleEndian(b, 2);
      assert LittleEndian(v, 4) == [v % 256] + LittleEndian(a, 3);
    }
    assert LittleEndian(255, 1) == [255];
    assert LittleEndian(0xffff, 2) == [255] + LittleEndian(255, 1);
    assert LittleEndian(0xff_ffff, 3) == [255] + LittleEndian(0xffff, 2);
    assert LittleEndian(0xffff_ffff, 4) == [255] + LittleEndian(0xff_ffff, 3);
  }

  // ----- fields

  /** `s` is the signed little-endian integer `v` of `n` bytes. */
  predicate Encodes(s: seq<Byte>, n: nat, v: int) {
    |s| == n > 0 && Unpack(s) == v
  }

  /** The integer of `n` bytes at `i` is `v`. */
  predicate FieldAt(p: seq<Byte>, i: nat, n: nat, v: int) {
    i + n <= |p| && Encodes(p[i..i + n], n, v)
  }

  lemma PackedField(v: Option<int>, n: nat)
    requires n > 0 && PackField(v, n).Ok?
    ensures Encodes(PackField(v, n).value, n, v.value)
  {
    UnpackPack(v.value, n);
  }

  lemma PackedTwo(v: Option<int>, m: nat, w: Option<int>, n: nat) returns (x: seq<Byte>, y: seq<Byte>)
    requires m > 0 && n > 0 && Concat(PackField(v, m), PackField(w, n)).Ok?
    ensures Concat(PackField(v, m), PackField(w, n)).value == x + y && Encodes(x, m, v.value) && Encodes(y, n, w.value)
  {
    PackedField(v, m);
    PackedField(w, n);
    x, y := PackField(v, m).value, PackField(w, n).value;
  }

  lemma FieldHere(a: seq<Byte>, s: seq<Byte>, rest: seq<Byte>, n: nat, v: int)
    requires Encodes(s, n, v)
    ensures FieldAt(a + (s + rest), |a|, n, v)
  {
    assert (a + (s + rest))[|a|..|a| + n] == s;
  }

  lemma FieldInside(a: seq<Byte>, s: seq<Byte>, rest: seq<Byte>, i: nat, n: nat, v: int)
    requires FieldAt(s, i, n, v)
    ensures FieldAt(a + (s + rest), |a| + i, n, v)
  {
    assert (a + (s + rest))[|a| + i..|a| + i + n] == s[i..i + n];
  }

  // ----- the head

  lemma HeadParts(f: FileId) returns (tag: seq<Byte>, dc: seq<Byte>)
    requires HeadBytes(f).Ok?
    ensures HeadBytes(f).value == tag + dc && Encodes(tag, 4, Tag(f)) && Encodes(dc, 4, f.dcId)
  {
    tag, dc := PackedTwo(Some(Tag(f)), 4, Some(f.dcId), 4);
  }

  lemma TwoAtFront(a: seq<Byte>, x: seq<Byte>, m: nat, v: int, y: seq<Byte>, n: nat, w: int, rest: seq<Byte>)
    requires Encodes(x, m, v) && Encodes(y, n, w)
    ensures FieldAt(a + (x + (y + rest)), |a|, m, v) && FieldAt(a + (x + (y + rest)), |a| + m, n, w)
  {
    FieldHere(a, x, y + rest, m, v);
    FieldHere(a + x, y, rest, n, w);
    assert a + x + (y + rest) == a + (x + (y + rest));
  }

  /** The type in the four low bytes, with bit 25 for a file reference and bit 24 for a URL, and then the
      data centre, for every id that can be written. */
  lemma HeadLayout(f: FileId)
    requires Payload(f).Ok?
    ensures var p := Payload(f).value;
            && FieldAt(p, 0, 4, f.fileType
                                + (if f.fileReference != [] then 0x200_0000 else 0)
                                + (if f.url.Some? && f.url.value != [] then 0x100_0000 else 0))
            && FieldAt(p, 4, 4, f.dcId)
  {
    var more := PayloadFront(f);
    var tag, dc := HeadParts(f);
    TwoAtFront([], tag, 4, Tag(f), dc, 4, f.dcId, more);
    assert tag + dc + more == [] + (tag + (dc + more));
  }

  lemma PayloadFront(f: FileId) returns (more: seq<Byte>)
    requires Payload(f).Ok?
    ensures HeadBytes(f).Ok? && Payload(f).value == HeadBytes(f).value + more
  {
    var p := Payload(f).value;
    assert HeadBytes(f).value + p[|HeadBytes(f).value|..] == p;
    more := p[|HeadBytes(f).value|..];
  }

  // ----- the reference

  /** How much of the payload the reference takes: its length, itself, and zeros up to a multiple of four. */
  function ReferenceSize(n: nat): nat {
    if n == 0 then 0 else if n <= 253 then (n + 4) / 4 * 4 else (n + 7) / 4 * 4
  }

  /** The written form of no reference, of one of up to 253 bytes, and of a longer one. */
  predicate ReferenceForm(s: seq<Byte>, reference: seq<Byte>) {
    var n := |reference|;
    && |s| == ReferenceSize(n)
    && (0 < n <= 253 ==> s[0] == n && s[1..1 + n] == reference)
    && (n > 253 ==>
          && s[0] == 254 && s[1] as int + 256 * s[2] as int + 65536 * s[3] as int == n
          && s[4..4 + n] == reference)
  }

  lemma ShortForm(reference: seq<Byte>, fill: seq<Byte>)
    requires 0 < |reference| <= 253 && |fill| == Padding(|reference| + 1)
    ensures ReferenceForm([|reference|] + reference + fill, reference)
  {
    var n := |reference|;
    var s := [n] + reference + fill;
    assert s[1..1 + n] == reference;
  }

  lemma LongForm(reference: seq<Byte>, wide: seq<Byte>, fill: seq<Byte>)
    requires |reference| > 253 && |fill| == Padding(|reference|) && |wide| == 3
    requires wide[0] as int + 256 * wide[1] as int + 65536 * wide[2] as int == |reference|
    ensures ReferenceForm([254] + wide + reference + fill, reference)
  {
    var n := |reference|;
    var s := [254] + wide + reference + fill;
    assert s[1] == wide[0] && s[2] == wide[1] && s[3] == wide[2];
    assert s[4..4 + n] == reference;
  }

  lemma WideLength(n: nat)
    requires n < Pow256(3)
    ensures var w := LittleEndian(n, 3); w[0] as int + 256 * w[1] as int + 65536 * w[2] as int == n
  {
    assert Pow256(3) == 0x100_0000;
    var a := n / 256;
    var b := a / 256;
    assert LittleEndian(b, 1) == [b % 256];
    assert LittleEndian(a, 2) == [a % 256] + LittleEndian(b, 1);
    assert LittleEndian(n, 3) == [n % 256] + LittleEndian(a, 2);
  }

  lemma WrittenReference(reference: seq<Byte>)
    requires reference != [] && WriteBytes(reference).Ok?
    ensures ReferenceForm(WriteBytes(reference).value, reference)
  {
    var n := |reference|;
    if n <= 253 {
      ShortForm(reference, Fill(Padding(n + 1)));
    } else {
      WideLength(n);
      LongForm(reference, LittleEndian(n, 3), Fill(Padding(n)));
    }
  }

  // ----- the tail of a photo id

  /** How long the tail of each source is. */
  function TailSize(source: ThumbnailSource): nat {
    if source <= 1 then 8 else if source <= 4 then 16 else if source == 5 || source == 9 then 20 else 28
  }

  /** Where each source has its fields. */
  predicate TailForm(s: seq<Byte>, t: PhotoTail, source: ThumbnailSource) {
    && |s| == TailSize(source)
    && (source == 0 ==> HasField(s, 0, 8, t.secret))
    && (source == 1 ==>
          HasField(s, 0, 4, t.thumbnailFileType) && |t.thumbnailSize| == 1 && FieldAt(s, 4, 4, t.thumbnailSize[0]))
    && (source == 2 || source == 3 || source == 6 || source == 7 ==>
          HasField(s, 0, 8, t.chatId) && HasField(s, 8, 8, t.chatAccessHash))
    && (source == 4 || source == 8 || source == 9 ==>
          HasField(s, 0, 8, t.stickerSetId) && HasField(s, 8, 8, t.stickerSetAccessHash))
    && (source == 5 ==> HasField(s, 0, 8, t.volumeId) && HasField(s, 8, 8, t.secret) && HasField(s, 16, 4, t.localId))
    && (6 <= source <= 8 ==> HasField(s, 16, 8, t.volumeId) && HasField(s, 24, 4, t.localId))
    && (source == 9 ==> HasField(s, 16, 4, t.stickerSetVersion))
  }

  predicate HasField(s: seq<Byte>, i: nat, n: nat, v: Option<int>) {
    v.Some? && FieldAt(s, i, n, v.value)
  }

  lemma OneField(v: Option<int>, n: nat)
    requires n > 0 && PackField(v, n).Ok?
    ensures var s := PackField(v, n).value; |s| == n && HasField(s, 0, n, v)
  {
    PackedField(v, n);
    assert PackField(v, n).value[0..n] == PackField(v, n).value;
  }

  /** A field in front of others, which move behind it. */
  lemma FieldAndMore(v: Option<int>, n: nat, more: Result<seq<Byte>, Error>)
    requires n > 0 && Concat(PackField(v, n), more).Ok?
    ensures var s := Concat(PackField(v, n), more).value;
            && |s| == n + |more.value| && HasField(s, 0, n, v)
            && forall i: nat, m: nat, w :: HasField(more.value, i, m, w) ==> HasField(s, n + i, m, w)
  {
    var x, s := PackField(v, n).value, Concat(PackField(v, n), more).value;
    PackedField(v, n);
    FieldHere([], x, more.value, n, v.value);
    assert s == [] + (x + more.value);
    forall i: nat, m: nat, w | HasField(more.value, i, m, w)
      ensures HasField(s, n + i, m, w)
    {
      FieldInside(x, more.value, [], i, m, w.value);
      assert s == x + (more.value + []);
    }
  }

  lemma TwoFields(v: Option<int>, m: nat, w: Option<int>, n: nat)
    requires m > 0 && n > 0 && Concat(PackField(v, m), PackField(w, n)).Ok?
    ensures var s := Concat(PackField(v, m), PackField(w, n)).value;
            |s| == m + n && HasField(s, 0, m, v) && HasField(s, m, n, w)
  {
    OneField(w, n);
    FieldAndMore(v, m, PackField(w, n));
    assert HasField(PackField(w, n).value, 0, n, w);
  }

  lemma ThreeFields(v: Option<int>, m: nat, w: Option<int>, n: nat, x: Option<int>, k: nat)
    requires m > 0 && n > 0 && k > 0 && Concat(PackField(v, m), Concat(PackField(w, n), PackField(x, k))).Ok?
    ensures var s := Concat(PackField(v, m), Concat(PackField(w, n), PackField(x, k))).value;
            |s| == m + n + k && HasField(s, 0, m, v) && HasField(s, m, n, w) && HasField(s, m + n, k, x)
  {
    TwoFields(w, n, x, k);
    FieldAndMore(v, m, Concat(PackField(w, n), PackField(x, k)));
    var more := Concat(PackField(w, n), PackField(x, k)).value;
    assert HasField(more, 0, n, w) && HasField(more, n, k, x);
  }

  lemma FourFields(v: Option<int>, m: nat, w: Option<int>, n: nat, x: Option<int>, k: nat, y: Option<int>, l: nat)
    requires m > 0 && n > 0 && k > 0 && l > 0
    requires Concat(PackField(v, m), Concat(PackField(w, n), Concat(PackField(x, k), PackField(y, l)))).Ok?
    ensures var s := Concat(PackField(v, m), Concat(PackField(w, n), Concat(PackField(x, k), PackField(y, l)))).value;
            && |s| == m + n + k + l && HasField(s, 0, m, v) && HasField(s, m, n, w)
            && HasField(s, m + n, k, x) && HasField(s, m + n + k, l, y)
  {
    ThreeFields(w, n, x, k, y, l);
    FieldAndMore(v, m, Concat(PackField(w, n), Concat(PackField(x, k), PackField(y, l))));
    var more := Concat(PackField(w, n), Concat(PackField(x, k), PackField(y, l))).value;
    assert HasField(more, 0, n, w) && HasField(more, n, k, x) && HasField(more, n + k, l, y);
  }

  lemma TailLayout(t: PhotoTail, source: ThumbnailSource)
    requires TailBytes(t, Some(source)).Ok?
    ensures TailForm(TailBytes(t, Some(source)).value, t, source)
  {
    if source == 0 {
      OneField(t.secret, 8);
    } else if source == 1 {
      TwoFields(t.thumbnailFileType, 4, if |t.thumbnailSize| == 1 then Some(t.thumbnailSize[0]) else None, 4);
    } else if source == 2 || source == 3 {
      TwoFields(t.chatId, 8, t.chatAccessHash, 8);
    } else if source == 4 {
      TwoFields(t.stickerSetId, 8, t.stickerSetAccessHash, 8);
    } else {
      LaterTailLayout(t, source);
    }
  }

  lemma LaterTailLayout(t: PhotoTail, source: ThumbnailSource)
    requires source >= 5 && LaterTailBytes(t, source).Ok?
    ensures TailForm(LaterTailBytes(t, source).value, t, source)
  {
    if source == 5 {
      ThreeFields(t.volumeId, 8, t.secret, 8, t.localId, 4);
    } else if source == 6 || source == 7 {
      FourFields(t.chatId, 8, t.chatAccessHash, 8, t.volumeId, 8, t.localId, 4);
    } else if source == 8 {
      FourFields(t.stickerSetId, 8, t.stickerSetAccessHash, 8, t.volumeId, 8, t.localId, 4);
    } else {
      ThreeFields(t.stickerSetId, 8, t.stickerSetAccessHash, 8, t.stickerSetVersion, 4);
    }
  }

  // ----- what follows the ids

  /** Before minor version 32 the volume id comes first and the local id last. */
  predicate OuterForm(s: seq<Byte>, f: FileId, end: nat) {
    && |s| == end + (if f.minor < 32 then 4 else 0)
    && (f.minor < 32 ==> HasField(s, 0, 8, f.tail.volumeId) && HasField(s, end, 4, f.tail.localId))
  }

  predicate TailFormAt(s: seq<Byte>, i: nat, t: PhotoTail, source: ThumbnailSource) {
    i + TailSize(source) <= |s| && TailForm(s[i..i + TailSize(source)], t, source)
  }

  lemma TailJoined(
    volume: seq<Byte>, tag: seq<Byte>, tail: seq<Byte>, local: seq<Byte>, t: PhotoTail, source: ThumbnailSource)
    requires |tail| == TailSize(source) && TailForm(tail, t, source)
    ensures TailFormAt(volume + (tag + (tail + local)), |volume| + |tag|, t, source)
  {
    FourSlices(volume, tag, tail, local);
  }

  /** Of a photo id: from major version 4 on the source is named, after the volume id if there is one; then
      comes its tail. */
  predicate PhotoForm(s: seq<Byte>, f: FileId) {
    && f.thumbnailSource.Some?
    && var source := f.thumbnailSource.value;
       var at := if f.minor < 32 then 8 else 0;
       var tail := at + if f.major >= 4 then 4 else 0;
       && OuterForm(s, f, tail + TailSize(source))
       && (f.major >= 4 ==> FieldAt(s, at, 4, source))
       && TailFormAt(s, tail, f.tail, source)
  }

  /** Of any other id: nothing, or the version once more when there is no reference. */
  predicate OtherForm(s: seq<Byte>, f: FileId) {
    if f.fileReference != [] then s == []
    else |s| == 8 && FieldAt(s, 0, 4, f.minor) && FieldAt(s, 4, 4, f.major)
  }

  lemma OuterJoined(volume: seq<Byte>, middle: seq<Byte>, local: seq<Byte>, f: FileId)
    requires if f.minor < 32 then |volume| == 8 && HasField(volume, 0, 8, f.tail.volumeId) else volume == []
    requires if f.minor < 32 then |local| == 4 && HasField(local, 0, 4, f.tail.localId) else local == []
    ensures OuterForm(volume + (middle + local), f, |volume| + |middle|)
  {
    if f.minor < 32 {
      FieldFirst(volume, middle + local, 8, f.tail.volumeId.value);
      FieldLast(volume + middle, local, 4, f.tail.localId.value);
    }
    assert volume + middle + local == volume + (middle + local);
  }

  lemma FieldFirst(s: seq<Byte>, rest: seq<Byte>, n: nat, v: int)
    requires FieldAt(s, 0, n, v)
    ensures FieldAt(s + rest, 0, n, v)
  {
    assert (s + rest)[0..n] == s[0..n];
  }

  lemma FieldLast(a: seq<Byte>, s: seq<Byte>, n: nat, v: int)
    requires FieldAt(s, 0, n, v)
    ensures FieldAt(a + s, |a|, n, v)
  {
    assert (a + s)[|a|..|a| + n] == s[0..n];
  }

  lemma FourSlices(a: seq<Byte>, b: seq<Byte>, c: seq<Byte>, d: seq<Byte>)
    ensures var s := a + (b + (c + d)); s == a + ((b + c) + d) && s[|a| + |b|..|a| + |b| + |c|] == c
  {
  }

  lemma PhotoJoined(
    volume: seq<Byte>, tag: seq<Byte>, tail: seq<Byte>, local: seq<Byte>, f: FileId, source: ThumbnailSource)
    requires f.thumbnailSource == Some(source) && |tail| == TailSize(source) && TailForm(tail, f.tail, source)
    requires if f.minor < 32 then |volume| == 8 && HasField(volume, 0, 8, f.tail.volumeId) else volume == []
    requires if f.major >= 4 then |tag| == 4 && FieldAt(tag, 0, 4, source) else tag == []
    requires if f.minor < 32 then |local| == 4 && HasField(local, 0, 4, f.tail.localId) else local == []
    ensures PhotoForm(volume + (tag + (tail + local)), f)
  {
    FourSlices(volume, tag, tail, local);
    TailJoined(volume, tag, tail, local, f.tail, source);
    OuterJoined(volume, tag + tail, local, f);
    if f.major >= 4 {
      FieldInside(volume, tag, tail + local, 0, 4, source);
    }
  }

  lemma FieldWhen(c: bool, v: Option<int>, n: nat)
    requires n > 0 && When(c, PackField(v, n)).Ok?
    ensures var s := When(c, PackField(v, n)).value; if c then |s| == n && HasField(s, 0, n, v) else s == []
  {
    if c {
      OneField(v, n);
    }
  }

  lemma PhotoLayout(f: FileId)
    requires PhotoBytes(f).Ok? && f.thumbnailSource.Some?
    ensures PhotoForm(PhotoBytes(f).value, f)
  {
    var outer, source := f.minor < NO_VOLUME_AND_LOCAL_ID_MINOR, f.thumbnailSource.value;
    var volume, tag := When(outer, PackField(f.tail.volumeId, 8)), When(f.major >= 4, PackField(f.thumbnailSource, 4));
    var tail, local := TailBytes(f.tail, f.thumbnailSource), When(outer, PackField(f.tail.localId, 4));
    ConcatFour(volume, tag, tail, local);
    FieldWhen(outer, f.tail.volumeId, 8);
    FieldWhen(f.major >= 4, f.thumbnailSource, 4);
    FieldWhen(outer, f.tail.localId, 4);
    TailLayout(f.tail, source);
    PhotoJoined(volume.value, tag.value, tail.value, local.value, f, source);
  }

  predicate ExtraForm(s: seq<Byte>, f: FileId) {
    if f.fileType == 0 || f.fileType == 1 || f.fileType == 2 || f.fileType == 11 || f.fileType == 12
    then PhotoForm(s, f)
    else OtherForm(s, f)
  }

  lemma ExtraLayout(f: FileId)
    requires Representable(f) && ExtraBytes(f).Ok?
    ensures ExtraForm(ExtraBytes(f).value, f)
  {
    if f.fileType in PHOTO_TYPES {
      PhotoLayout(f);
    } else if f.fileReference == [] {
      TwoFields(Some(f.minor), 4, Some(f.major), 4);
    }
  }

  // ----- the whole payload

  /** Everything behind the head. */
  predicate Layout(p: seq<Byte>, f: FileId) {
    var ids := 8 + ReferenceSize(|f.fileReference|);
    && |p| >= ids + 18
    && ReferenceForm(p[8..ids], f.fileReference)
    && HasField(p, ids, 8, f.mediaId) && HasField(p, ids + 8, 8, f.accessHash)
    && ExtraForm(p[ids + 16..|p| - 2], f)
    && p[|p| - 2] == f.minor && p[|p| - 1] == f.major
  }

  lemma IdParts(f: FileId) returns (id: seq<Byte>, hash: seq<Byte>)
    requires IdBytes(f).Ok?
    ensures IdBytes(f).value == id + hash && Encodes(id, 8, f.mediaId.value) && Encodes(hash, 8, f.accessHash.value)
  {
    id, hash := PackedTwo(f.mediaId, 8, f.accessHash, 8);
  }

  lemma Assembled(
    head: seq<Byte>, reference: seq<Byte>, id: seq<Byte>, hash: seq<Byte>, extra: seq<Byte>,
    version: seq<Byte>, f: FileId)
    requires |head| == 8 && ReferenceForm(reference, f.fileReference) && ExtraForm(extra, f)
    requires f.mediaId.Some? && Encodes(id, 8, f.mediaId.value)
    requires f.accessHash.Some? && Encodes(hash, 8, f.accessHash.value)
    requires |version| == 2 && version[0] == f.minor && version[1] == f.major
    ensures Layout(head + (reference + ((id + hash) + (extra + version))), f)
  {
    var front, ids := head + reference, 8 + |reference|;
    PartSlices(head, reference, id + hash, extra, version);
    TwoAtFront(front, id, 8, f.mediaId.value, hash, 8, f.accessHash.value, extra + version);
    assert front + (id + (hash + (extra + version))) == head + (reference + ((id + hash) + (extra + version)));
  }

  lemma PartSlices(head: seq<Byte>, reference: seq<Byte>, ids: seq<Byte>, extra: seq<Byte>, version: seq<Byte>)
    requires |version| == 2
    ensures var p := head + (reference + (ids + (extra + version)));
            && |p| == |head| + |reference| + |ids| + |extra| + 2
            && p[|head|..|head| + |reference|] == reference
            && p[|head| + |reference| + |ids|..|p| - 2] == extra
            && p[|p| - 2] == version[0] && p[|p| - 1] == version[1]
  {
  }

  /** Where every field of a representable id lies. */
  lemma PayloadLayout(f: FileId)
    requires Representable(f)
    ensures Payload(f).Ok? && Layout(Payload(f).value, f)
  {
    PayloadParts(f);
    if f.fileReference != [] {
      WrittenReference(f.fileReference);
    }
    var id, hash := IdParts(f);
    ExtraLayout(f);
    Assembled(HeadBytes(f).value, ReferenceBytes(f).value, id, hash, ExtraBytes(f).value, [f.minor, f.major], f);
  }

  // ----- what decode gives

  /** Which fields the tail of each source has, the volume and local id being there for every source of an
      older id. */
  predicate TailFields(t: PhotoTail, source: ThumbnailSource, outer: bool) {
    && (t.volumeId.Some? <==> outer || 5 <= source <= 8)
    && (t.localId.Some? <==> outer || 5 <= source <= 8)
    && (t.secret.Some? <==> source == 0 || source == 5)
    && (t.thumbnailFileType.Some? <==> source == 1) && |t.thumbnailSize| == (if source == 1 then 1 else 0)
    && (t.chatId.Some? <==> source == 2 || source == 3 || source == 6 || source == 7)
    && (t.chatAccessHash.Some? <==> t.chatId.Some?)
    && (t.stickerSetId.Some? <==> source == 4 || source == 8 || source == 9)
    && (t.stickerSetAccessHash.Some? <==> t.stickerSetId.Some?)
    && (t.stickerSetVersion.Some? <==> source == 9)
  }

  /** The fields of an id decoded from any text, in plain numbers: which types are photos, when the source
      is named, and which sources have which fields. */
  lemma DecodedFields(text: string)
    requires Parse(text).Ok? && Parse(text).value.url.None?
    ensures var f := Parse(text).value;
            && f.mediaId.Some? && f.accessHash.Some?
            && (f.thumbnailSource.Some? <==> f.fileType == 0 || f.fileType == 1 || f.fileType == 2 || f.fileType == 11
                                             || f.fileType == 12)
            && (f.thumbnailSource.None? ==>
                  f.tail == PhotoTail(None, None, None, None, [], None, None, None, None, None))
            && (f.major < 4 ==> f.minor == 0 && (f.thumbnailSource.Some? ==> f.thumbnailSource.value == 0))
    ensures var f := Parse(text).value;
            f.thumbnailSource.Some? ==> TailFields(f.tail, f.thumbnailSource.value, f.minor < 32)
  {
    ParseImage(text);
    FieldsInNumbers(Parse(text).value);
    if Parse(text).value.thumbnailSource.Some? {
      TailInNumbers(Parse(text).value.tail, Parse(text).value.thumbnailSource.value, Parse(text).value.minor < 32);
    }
  }

  lemma FieldsInNumbers(f: FileId)
    requires FieldsMatch(f)
    ensures f.mediaId.Some? && f.accessHash.Some?
    ensures f.thumbnailSource.Some? <==>
              f.fileType == 0 || f.fileType == 1 || f.fileType == 2 || f.fileType == 11 || f.fileType == 12
    ensures f.thumbnailSource.None? ==> f.tail == PhotoTail(None, None, None, None, [], None, None, None, None, None)
    ensures f.major < 4 ==> f.minor == 0 && (f.thumbnailSource.Some? ==> f.thumbnailSource.value == 0)
    ensures f.thumbnailSource.Some? ==> TailMatches(f.tail, f.thumbnailSource.value, f.minor < 32)
  {
  }

  lemma TailInNumbers(t: PhotoTail, source: ThumbnailSource, outer: bool)
    requires TailMatches(t, source, outer)
    ensures TailFields(t, source, outer)
  {
  }

  // ----- web ids

  lemma WebTag(f: FileId)
    requires IsWeb(f) && f.fileReference == []
    ensures Tag(f) == f.fileType + 0x100_0000
    ensures InRange(Tag(f), 4) && HasFlag(Tag(f), WEB_LOCATION_FLAG) && PlainType(Tag(f)) == f.fileType
  {
    SmallFits(Tag(f));
  }

  lemma WebParts(f: FileId) returns (rest: seq<Byte>)
    requires IsWeb(f) && f.fileReference == [] && Payload(f).Ok? && 0 <= f.minor <= 127 && 0 <= f.major <= 127
    ensures HeadBytes(f).Ok? && WriteBytes(f.url.value).Ok? && f.mediaId.Some? && InRange(f.mediaId.value, 8)
    ensures var front := HeadBytes(f).value + (WriteBytes(f.url.value).value + (Pack(f.mediaId.value, 8) + rest));
            Payload(f).value == front + [f.minor, f.major]
  {
    VersionOf(f);
    var extra := ExtraBytes(f).value;
    rest := Pack(f.accessHash.value, 8) + extra;
    WebBody(HeadBytes(f), WriteBytes(f.url.value), f.mediaId, f.accessHash, ExtraBytes(f));
  }

  lemma WebBody(
    head: Result<seq<Byte>, Error>, url: Result<seq<Byte>, Error>, id: Option<int>, hash: Option<int>,
    extra: Result<seq<Byte>, Error>)
    requires Concat(head, Concat(url, Concat(Ok([]), Concat(Concat(PackField(id, 8), PackField(hash, 8)), extra)))).Ok?
    ensures head.Ok? && url.Ok? && extra.Ok? && id.Some? && InRange(id.value, 8) && hash.Some? && InRange(hash.value, 8)
    ensures Concat(head, Concat(url, Concat(Ok([]), Concat(Concat(PackField(id, 8), PackField(hash, 8)), extra))))
         == Ok(head.value + (url.value + (Pack(id.value, 8) + (Pack(hash.value, 8) + extra.value))))
  {
    var ids := Pack(id.value, 8) + Pack(hash.value, 8);
    assert [] + (ids + extra.value) == Pack(id.value, 8) + (Pack(hash.value, 8) + extra.value);
  }

  /** What becomes of a web id without a reference: the decoder takes its media id for the access hash, and
      everything behind that is lost. */
  lemma WebOutcome(f: FileId)
    requires IsWeb(f) && f.fileReference == [] && Payload(f).Ok? && 0 <= f.minor && 0 <= f.major
    ensures ParsePayload(Payload(f).value)
         == Ok(FileId(f.major, if f.major < 4 then 0 else f.minor, f.fileType, f.dcId,
                      [], f.url, None, f.mediaId, None, EMPTY_TAIL))
  {
    RenderedFits(f);
    var rest := WebParts(f);
    var front := HeadBytes(f).value + (WriteBytes(f.url.value).value + (Pack(f.mediaId.value, 8) + rest));
    var p := front + [f.minor, f.major];
    if f.major < 4 {
      assert p[..|p| - 1] == HeadBytes(f).value
                             + (WriteBytes(f.url.value).value + (Pack(f.mediaId.value, 8) + (rest + [f.minor])));
      WebRead(f, rest + [f.minor], 0);
    } else {
      assert p[..|p| - 2] == front;
      WebRead(f, rest, f.minor);
    }
  }

  lemma WebRead(f: FileId, rest: seq<Byte>, minor: nat)
    requires IsWeb(f) && f.fileReference == [] && f.major >= 0 && HeadBytes(f).Ok? && WriteBytes(f.url.value).Ok?
    requires f.mediaId.Some? && InRange(f.mediaId.value, 8)
    ensures var buf := HeadBytes(f).value + (WriteBytes(f.url.value).value + (Pack(f.mediaId.value, 8) + rest));
            ParseBody(buf, f.major, minor)
            == Ok(FileId(f.major, minor, f.fileType, f.dcId, [], f.url, None, f.mediaId, None, EMPTY_TAIL))
  {
    WebTag(f);
    var afterUrl := Pack(f.mediaId.value, 8) + rest;
    Read2Packed(Some(Tag(f)), 4, Some(f.dcId), 4, WriteBytes(f.url.value).value + afterUrl);
    ReadWriteBytes(f.url.value, afterUrl);
    ReadIntPack(f.mediaId.value, 8, rest);
  }
}
