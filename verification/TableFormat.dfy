/** Block handles, the footer and stored blocks (table/format.h,
    table/format.cc). */
module TableFormat {
  import opened Options
  import opened Coding

  const TRAILER_SIZE: nat := 5
  const NO_COMPRESSION: Byte := 0
  const SNAPPY: Byte := 1

  // ---- block handles ----

  datatype Handle = Handle(offset: nat, size: nat)

  predicate Fits(h: Handle) {
    h.offset < LIMIT64 && h.size < LIMIT64
  }

  // BlockHandle::EncodeTo
  function EncodeHandle(h: Handle): (r: Bytes) {
    EncodeVarint(h.offset) + EncodeVarint(h.size)
  }

  // BlockHandle::DecodeFrom
  function DecodeHandle(b: Bytes): Option<Rest<Handle>> {
    HandleWith(GetVarint64, b)
  }

  function HandleWith(read: Bytes -> Option<Rest<nat>>, b: Bytes): Option<Rest<Handle>> {
    match read(b)
    case None => None
    case Some(o) => match read(o.rest)
      case None => None
      case Some(s) => Some(Rest(Handle(o.value, s.value), s.rest))
  }

  /** An encoded handle decodes to itself and leaves what follows it. */
  lemma HandleRoundTrip(h: Handle, tail: Bytes)
    requires Fits(h)
    ensures |EncodeHandle(h)| <= 20 && DecodeHandle(EncodeHandle(h) + tail) == Some(Rest(h, tail))
  {
    var o, s := EncodeVarint(h.offset), EncodeVarint(h.size);
    Varint64RoundTrip(h.offset, s + tail);
    Varint64RoundTrip(h.size, tail);
    TwoVarints(GetVarint64, h, o, s, tail);
  }

  lemma TwoVarints(read: Bytes -> Option<Rest<nat>>, h: Handle, o: Bytes, s: Bytes, tail: Bytes)
    requires read(o + (s + tail)) == Some(Rest(h.offset, s + tail)) && read(s + tail) == Some(Rest(h.size, tail))
    ensures HandleWith(read, o + s + tail) == Some(Rest(h, tail))
  {
    assert o + s + tail == o + (s + tail);
  }

  // ---- the footer ----

  const MAX_HANDLE: nat := 20
  const FOOTER_SIZE: nat := 48
  const MAGIC_LOW: Uint32 := 0x8b80fb57
  const MAGIC_HIGH: Uint32 := 0xdb477524

  function Magic(): (r: Bytes)
    ensures |r| == 8
  {
    EncodeFixed32(MAGIC_LOW) + EncodeFixed32(MAGIC_HIGH)
  }

  // Footer::EncodeTo
  function EncodeFooter(meta: Handle, index: Handle): (r: Bytes)
    requires Fits(meta) && Fits(index)
    ensures |r| == FOOTER_SIZE
  {
    HandleRoundTrip(meta, []);
    HandleRoundTrip(index, []);
    var handles := EncodeHandle(meta) + EncodeHandle(index);
    handles + Zeros(2 * MAX_HANDLE - |handles|) + Magic()
  }

  datatype Footer = Footer(meta: Handle, index: Handle)

  // Footer::DecodeFrom
  function DecodeFooter(b: Bytes): Option<Footer>
    requires |b| == FOOTER_SIZE
  {
    FooterWith(DecodeHandle, b)
  }

  function FooterWith(decode: Bytes -> Option<Rest<Handle>>, b: Bytes): Option<Footer>
    requires |b| == FOOTER_SIZE
  {
    if Fixed32At(b, FOOTER_SIZE - 8) != MAGIC_LOW || Fixed32At(b, FOOTER_SIZE - 4) != MAGIC_HIGH then None
    else match decode(b)
      case None => None
      case Some(m) => match decode(m.rest)
        case None => None
        case Some(i) => Some(Footer(m.value, i.value))
  }

  /** A footer gives back its two handles. */
  lemma FooterRoundTrip(meta: Handle, index: Handle)
    requires Fits(meta) && Fits(index)
    ensures DecodeFooter(EncodeFooter(meta, index)) == Some(Footer(meta, index))
  {
    var m, i := EncodeHandle(meta), EncodeHandle(index);
    HandleRoundTrip(meta, []);
    HandleRoundTrip(index, []);
    var tail := Zeros(2 * MAX_HANDLE - |m + i|) + Magic();
    var b := m + i + tail;
    assert EncodeFooter(meta, index) == b;
    FooterReads(meta, index, m, i, 2 * MAX_HANDLE - |m + i|, tail, b);
  }

  lemma FooterReads(meta: Handle, index: Handle, m: Bytes, i: Bytes, n: nat, tail: Bytes, b: Bytes)
    requires Fits(meta) && Fits(index) && m == EncodeHandle(meta) && i == EncodeHandle(index)
    requires tail == Zeros(n) + Magic() && b == m + i + tail && |b| == FOOTER_SIZE
    ensures DecodeFooter(b) == Some(Footer(meta, index))
  {
    HandleRoundTrip(meta, i + tail);
    HandleRoundTrip(index, tail);
    assert b == m + i + Zeros(n) + Magic();
    MagicReads(m + i + Zeros(n), b);
    TwoHandles(DecodeHandle, meta, index, m, i, tail, b);
  }

  lemma TwoHandles(decode: Bytes -> Option<Rest<Handle>>, meta: Handle, index: Handle, m: Bytes, i: Bytes, tail: Bytes,
    b: Bytes)
    requires decode(m + (i + tail)) == Some(Rest(meta, i + tail)) && decode(i + tail) == Some(Rest(index, tail))
    requires |b| == FOOTER_SIZE && b == m + i + tail && Fixed32At(b, FOOTER_SIZE - 8) == MAGIC_LOW
      && Fixed32At(b, FOOTER_SIZE - 4) == MAGIC_HIGH
    ensures FooterWith(decode, b) == Some(Footer(meta, index))
  {
    assert m + (i + tail) == b;
  }

  lemma MagicReads(before: Bytes, b: Bytes)
    requires |before| == FOOTER_SIZE - 8 && b == before + Magic()
    ensures Fixed32At(b, FOOTER_SIZE - 8) == MAGIC_LOW && Fixed32At(b, FOOTER_SIZE - 4) == MAGIC_HIGH
  {
    Fixed32Reads(b, FOOTER_SIZE - 8, MAGIC_LOW, EncodeFixed32(MAGIC_LOW));
    Fixed32Reads(b, FOOTER_SIZE - 4, MAGIC_HIGH, EncodeFixed32(MAGIC_HIGH));
  }

  // ---- stored blocks ----

  /** The checksum and the compressor, whose code is not part of this model. */
  datatype Codec = Codec(crc: Crc, compress: Bytes -> Option<Bytes>, uncompress: Bytes -> Option<Bytes>)

  ghost predicate Sound(c: Codec) {
    forall raw, packed :: c.compress(raw) == Some(packed) ==> c.uncompress(packed) == Some(raw)
  }

  // A block as it is written: its type byte and masked checksum follow it.
  function StoredForm(c: Codec, contents: Bytes, kind: Byte): (r: Bytes)
    ensures |r| == |contents| + TRAILER_SIZE
  {
    contents + [kind] + EncodeFixed32(Mask(c.crc(contents + [kind])))
  }

  // ReadBlock
  function ReadBlock(c: Codec, verify: bool, file: Bytes, h: Handle): Option<Bytes> {
    if h.offset + h.size + TRAILER_SIZE > |file| then None
    else
      var data := file[h.offset..h.offset + h.size + TRAILER_SIZE];
      if verify && Unmask(Fixed32At(data, h.size + 1)) != c.crc(data[..h.size + 1]) then None
      else if data[h.size] == NO_COMPRESSION then Some(data[..h.size])
      else if data[h.size] == SNAPPY then c.uncompress(data[..h.size])
      else None
  }

  /** Reading at h gives these bytes, checksums verified or not. */
  ghost predicate Reads(c: Codec, file: Bytes, h: Handle, raw: Bytes) {
    Fits(h) && ReadBlock(c, true, file, h) == Some(raw) && ReadBlock(c, false, file, h) == Some(raw)
  }

  lemma ReadsStored(c: Codec, before: Bytes, contents: Bytes, kind: Byte, raw: Bytes)
    requires |before| + |contents| < LIMIT64
    requires (kind == NO_COMPRESSION && raw == contents) || (kind == SNAPPY && c.uncompress(contents) == Some(raw))
    ensures Reads(c, before + StoredForm(c, contents, kind), Handle(|before|, |contents|), raw)
  {
    var crc := c.crc(contents + [kind]);
    UnmaskMask(crc);
    StoredParts(before + StoredForm(c, contents, kind), |before|, contents, kind, Mask(crc),
      StoredForm(c, contents, kind));
  }

  lemma StoredParts(file: Bytes, p: nat, contents: Bytes, kind: Byte, masked: Uint32, form: Bytes)
    requires form == contents + [kind] + EncodeFixed32(masked) && p + |form| == |file| && file[p..] == form
    ensures file[p..p + |contents| + TRAILER_SIZE] == form
    ensures form[..|contents|] == contents && form[|contents|] == kind && form[..|contents| + 1] == contents + [kind]
    ensures Fixed32At(form, |contents| + 1) == masked
  {
    Fixed32Reads(form, |contents| + 1, masked, EncodeFixed32(masked));
  }

  /** What is appended later does not change what is read. */
  lemma ReadsStays(c: Codec, file: Bytes, file': Bytes, h: Handle, raw: Bytes)
    requires Reads(c, file, h, raw) && file <= file'
    ensures Reads(c, file', h, raw)
  {
    assert file'[h.offset..h.offset + h.size + TRAILER_SIZE] == file[h.offset..h.offset + h.size + TRAILER_SIZE];
  }
}
