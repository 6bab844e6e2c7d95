/** The local header and the central record of a new entry (`local_header`,
    `central_record`). */
module ZipRecords {
  import opened Bytes
  import opened Text
  import opened ZipBytes

  const LOCAL_HEADER_SIG := 0x04034b50
  const CENTRAL_HEADER_SIG := 0x02014b50
  const LOCAL_HEADER_SIZE := 30
  const CENTRAL_HEADER_SIZE := 46

  const FLAG_UTF8_NAMES := 0x800
  const ZIP64_EXTRA_ID := 0x0001
  const UNICODE_NAME_EXTRA_ID := 0x7075
  const EXTENDED_TIMESTAMP_EXTRA_ID := 0x5455

  const SLASH: byte := 0x2F

  /** An entry to add, with what compressing it once has found out, and its MS-DOS time.
      `data` is what streaming it into the archive writes, piece by piece, and `readable`
      whether that gets to the end of its source. */
  datatype Measured = Measured(
    path: seq<byte>, isDirectory: bool, size: nat, compressedSize: nat, compression: nat, crc: nat, time: nat, date: nat, data: seq<seq<byte>>, readable: bool)

  function NameBytes(m: Measured): seq<byte> { if m.isDirectory then m.path + [SLASH] else m.path }

  predicate ValidMeasured(m: Measured) {
    && |NameBytes(m)| <= U16_MAX && ValidUtf8(NameBytes(m))
    && m.size < TWO_63 && m.compressedSize < TWO_63 && (m.isDirectory ==> m.size == m.compressedSize == 0)
    && (!m.isDirectory && m.path != [] ==> m.path[|m.path| - 1] != SLASH)
    && m.compression <= U16_MAX && m.crc <= U32_MAX && m.time <= U16_MAX && m.date <= U16_MAX
  }

  // ---- written --------------------------------------------------------------------------

  function BigSizes(m: Measured): bool { m.size > U32_MAX || m.compressedSize > U32_MAX }

  /** The fixed part of a local header says this. */
  ghost predicate LocalFields(h: seq<byte>, m: Measured) {
    && |h| >= LOCAL_HEADER_SIZE && U32At(h, 0) == LOCAL_HEADER_SIG && U16At(h, 6) == FLAG_UTF8_NAMES
    && U16At(h, 8) == m.compression && U16At(h, 10) == m.time && U16At(h, 12) == m.date && U32At(h, 14) == m.crc
    && U32At(h, 18) == (if BigSizes(m) then U32_MAX else m.compressedSize) && U32At(h, 22) == (if BigSizes(m) then U32_MAX else m.size)
    && U16At(h, 26) == |NameBytes(m)| && U16At(h, 28) == if BigSizes(m) then 20 else 0
  }

  ghost predicate IsLocalHeader(h: seq<byte>, m: Measured) {
    var n := |NameBytes(m)|;
    && LocalFields(h, m) && |h| == LOCAL_HEADER_SIZE + n + (if BigSizes(m) then 20 else 0)
    && h[LOCAL_HEADER_SIZE..LOCAL_HEADER_SIZE + n] == NameBytes(m)
    && (BigSizes(m) ==> LocalExtra(h[LOCAL_HEADER_SIZE + n..], m))
  }

  /** The zip64 extra field of a local header: both sizes. */
  ghost predicate LocalExtra(e: seq<byte>, m: Measured) {
    |e| == 20 && U16At(e, 0) == ZIP64_EXTRA_ID && U16At(e, 2) == 16 && U64At(e, 4) == m.size && U64At(e, 12) == m.compressedSize
  }

  method LocalFixed(m: Measured) returns (h: seq<byte>)
    requires ValidMeasured(m)
    ensures |h| == LOCAL_HEADER_SIZE && LocalFields(h, m)
  {
    hide PutU16, PutU32, U16At, U32At, Zeros, NameBytes;
    var zip64 := BigSizes(m);
    h := Zeros(LOCAL_HEADER_SIZE);
    h := PutU32(h, 0, LOCAL_HEADER_SIG);
    h := PutU16(h, 4, if zip64 then 45 else 20);
    h := PutU16(h, 6, FLAG_UTF8_NAMES);
    h := PutU16(h, 8, m.compression);
    h := PutU16(h, 10, m.time);
    h := PutU16(h, 12, m.date);
    h := PutU32(h, 14, m.crc);
    h := PutU32(h, 18, if zip64 then U32_MAX else m.compressedSize);
    h := PutU32(h, 22, if zip64 then U32_MAX else m.size);
    h := PutU16(h, 26, |NameBytes(m)|);
    h := PutU16(h, 28, if zip64 then 20 else 0);
  }

  /** `local_header` */
  method LocalHeader(m: Measured) returns (h: seq<byte>)
    requires ValidMeasured(m)
    ensures IsLocalHeader(h, m)
  {
    hide U16At, U32At, U64At, NameBytes, PutU16, PutU64;
    var fixed := LocalFixed(m);
    var extra: seq<byte> := [];
    if BigSizes(m) {
      extra := Zeros(20);
      extra := PutU16(extra, 0, ZIP64_EXTRA_ID);
      extra := PutU16(extra, 2, 16);
      extra := PutU64(extra, 4, m.size);
      extra := PutU64(extra, 12, m.compressedSize);
    }
    h := fixed + NameBytes(m) + extra;
    assert h[LOCAL_HEADER_SIZE + |NameBytes(m)|..] == extra;
    LocalPrefix(fixed, NameBytes(m) + extra, m);
    assert h == fixed + (NameBytes(m) + extra);
  }

  lemma FieldsOfPrefix(a: seq<byte>, b: seq<byte>)
    ensures forall i: nat :: i + 2 <= |a| ==> U16At(a + b, i) == U16At(a, i)
    ensures forall i: nat :: i + 4 <= |a| ==> U32At(a + b, i) == U32At(a, i)
  {}

  lemma LocalPrefix(fixed: seq<byte>, rest: seq<byte>, m: Measured)
    requires |fixed| == LOCAL_HEADER_SIZE && LocalFields(fixed, m)
    ensures LocalFields(fixed + rest, m)
  {
    FieldsOfPrefix(fixed, rest);
    hide U16At, U32At, NameBytes;
  }

  /** Where `read_to` finds the data that follows a local header. */
  lemma DataFollows(file: seq<byte>, at: nat, h: seq<byte>, m: Measured)
    requires at + |h| <= |file| && file[at..at + |h|] == h && IsLocalHeader(h, m)
    ensures U32At(file, at) == LOCAL_HEADER_SIG && U16At(file, at + 8) == m.compression
    ensures at + LOCAL_HEADER_SIZE + U16At(file, at + 26) + U16At(file, at + 28) == at + |h|
  {
    FieldsOfSlice(file, at, |h|, 0);
    FieldsOfSlice(file, at, |h|, 8);
    FieldsOfSlice(file, at, |h|, 26);
    FieldsOfSlice(file, at, |h|, 28);
    hide U16At, U32At, NameBytes;
  }

  /** A field of a slice is the field of the whole at the shifted position. */
  lemma FieldsOfSlice(d: seq<byte>, o: nat, n: nat, i: nat)
    requires o + n <= |d|
    ensures i + 2 <= n ==> U16At(d[o..o + n], i) == U16At(d, o + i)
    ensures i + 4 <= n ==> U32At(d[o..o + n], i) == U32At(d, o + i)
    ensures i + 8 <= n ==> U64At(d[o..o + n], i) == U64At(d, o + i)
  {}

  function BigOffset(offset: nat): bool { offset > U32_MAX }

  function ExtraLength(m: Measured, offset: nat): nat {
    if BigSizes(m) || BigOffset(offset) then 4 + (if BigSizes(m) then 16 else 0) + if BigOffset(offset) then 8 else 0 else 0
  }

  ghost predicate CentralFields(r: seq<byte>, m: Measured, offset: nat) {
    && |r| >= CENTRAL_HEADER_SIZE && U32At(r, 0) == CENTRAL_HEADER_SIG && U16At(r, 8) == FLAG_UTF8_NAMES
    && U16At(r, 10) == m.compression && U16At(r, 12) == m.time && U16At(r, 14) == m.date && U32At(r, 16) == m.crc
    && U32At(r, 20) == (if BigSizes(m) then U32_MAX else m.compressedSize) && U32At(r, 24) == (if BigSizes(m) then U32_MAX else m.size)
    && U16At(r, 28) == |NameBytes(m)| && U16At(r, 30) == ExtraLength(m, offset) && U16At(r, 32) == 0
    && U32At(r, 38) == (if m.isDirectory then 0x41ED_0010 else 0x81A4_0000)
    && U32At(r, 42) == if BigOffset(offset) then U32_MAX else offset
  }

  /** The zip64 extra field: only what the fixed fields could not say. */
  ghost predicate ExtraFields(e: seq<byte>, m: Measured, offset: nat) {
    && |e| == ExtraLength(m, offset)
    && (e != [] ==> U16At(e, 0) == ZIP64_EXTRA_ID && U16At(e, 2) == |e| - 4)
    && (BigSizes(m) ==> U64At(e, 4) == m.size && U64At(e, 12) == m.compressedSize)
    && (BigOffset(offset) && offset < TWO_63 ==> U64At(e, if BigSizes(m) then 20 else 4) == offset)
  }

  ghost predicate IsCentralRecord(r: seq<byte>, m: Measured, offset: nat) {
    var n := |NameBytes(m)|;
    && CentralFields(r, m, offset) && |r| == CENTRAL_HEADER_SIZE + n + ExtraLength(m, offset)
    && r[CENTRAL_HEADER_SIZE..CENTRAL_HEADER_SIZE + n] == NameBytes(m) && ExtraFields(r[CENTRAL_HEADER_SIZE + n..], m, offset)
  }

  method CentralFixed(m: Measured, offset: nat) returns (r: seq<byte>)
    requires ValidMeasured(m)
    ensures |r| == CENTRAL_HEADER_SIZE && CentralFields(r, m, offset)
  {
    hide PutU16, PutU32, U16At, U32At, NameBytes;
    r := CentralStart(m, offset);
    r := PutU32(r, 20, if BigSizes(m) then U32_MAX else m.compressedSize);
    r := PutU32(r, 24, if BigSizes(m) then U32_MAX else m.size);
    r := PutU16(r, 28, |NameBytes(m)|);
    r := PutU16(r, 30, ExtraLength(m, offset));
    r := PutU32(r, 38, if m.isDirectory then 0x41ED_0010 else 0x81A4_0000);
    r := PutU32(r, 42, if BigOffset(offset) then U32_MAX else offset);
  }

  lemma ZeroField(n: nat, i: nat)
    requires i + 2 <= n
    ensures U16At(Zeros(n), i) == 0
  {}

  method CentralStart(m: Measured, offset: nat) returns (r: seq<byte>)
    requires ValidMeasured(m)
    ensures |r| == CENTRAL_HEADER_SIZE && U32At(r, 0) == CENTRAL_HEADER_SIG && U16At(r, 8) == FLAG_UTF8_NAMES
    ensures U16At(r, 10) == m.compression && U16At(r, 12) == m.time && U16At(r, 14) == m.date && U32At(r, 16) == m.crc && U16At(r, 32) == 0
  {
    hide PutU16, PutU32, U16At, U32At, NameBytes, Zeros;
    r := Zeros(CENTRAL_HEADER_SIZE);
    ZeroField(CENTRAL_HEADER_SIZE, 32);
    r := PutU32(r, 0, CENTRAL_HEADER_SIG);
    r := PutU16(r, 4, 0x031E);
    r := PutU16(r, 6, if BigSizes(m) || BigOffset(offset) then 45 else 20);
    r := PutU16(r, 8, FLAG_UTF8_NAMES);
    r := PutU16(r, 10, m.compression);
    r := PutU16(r, 12, m.time);
    r := PutU16(r, 14, m.date);
    r := PutU32(r, 16, m.crc);
  }

  method CentralExtra(m: Measured, offset: nat) returns (e: seq<byte>)
    requires ValidMeasured(m)
    ensures ExtraFields(e, m, offset)
  {
    hide PutU16, PutU64, U16At, U32At, U64At, NameBytes, Zeros;
    e := Zeros(ExtraLength(m, offset));
    if |e| > 0 {
      e := PutU16(e, 0, ZIP64_EXTRA_ID);
      e := PutU16(e, 2, |e| - 4);
      var v := 4;
      if BigSizes(m) {
        e := PutU64(e, v, m.size);
        e := PutU64(e, v + 8, m.compressedSize);
        v := v + 16;
      }
      if BigOffset(offset) {
        e := PutU64(e, v, offset);
      }
    }
  }

  /** `central_record` */
  method CentralRecord(m: Measured, offset: nat) returns (r: seq<byte>)
    requires ValidMeasured(m)
    ensures IsCentralRecord(r, m, offset)
  {
    hide U16At, U32At, U64At, NameBytes, ExtraFields;
    var fixed := CentralFixed(m, offset);
    var extra := CentralExtra(m, offset);
    r := fixed + NameBytes(m) + extra;
    CentralPrefix(fixed, NameBytes(m) + extra, m, offset);
    assert r == fixed + (NameBytes(m) + extra);
    assert r[CENTRAL_HEADER_SIZE + |NameBytes(m)|..] == extra;
    ExtraSize(extra, m, offset);
  }

  lemma ExtraSize(e: seq<byte>, m: Measured, offset: nat)
    requires ExtraFields(e, m, offset)
    ensures |e| == ExtraLength(m, offset)
  {}

  lemma CentralPrefix(fixed: seq<byte>, rest: seq<byte>, m: Measured, offset: nat)
    requires |fixed| == CENTRAL_HEADER_SIZE && CentralFields(fixed, m, offset)
    ensures CentralFields(fixed + rest, m, offset)
  {
    FieldsOfPrefix(fixed, rest);
    hide U16At, U32At, NameBytes, ExtraLength;
  }

  /** On disk: sections 4.3.7 and 4.3.12 of APPNOTE. Names are flagged as UTF-8, lengths
      are low byte first. */
  lemma HeadersOnDisk(h: seq<byte>, r: seq<byte>, m: Measured, offset: nat)
    requires IsLocalHeader(h, m) && IsCentralRecord(r, m, offset)
    ensures h[0..4] == [0x50, 0x4b, 0x03, 0x04] && r[0..4] == [0x50, 0x4b, 0x01, 0x02]
    ensures h[6] == 0 && h[7] == 8 && r[8] == 0 && r[9] == 8
    ensures h[26] as int + 0x100 * h[27] as int == |NameBytes(m)| == r[28] as int + 0x100 * r[29] as int
  {
    hide NameBytes, LocalExtra, ExtraFields, ExtraLength, BigSizes, BigOffset;
    FourBytes(h, 0, 0x50, 0x4b, 0x03, 0x04);
    FourBytes(r, 0, 0x50, 0x4b, 0x01, 0x02);
  }
}
