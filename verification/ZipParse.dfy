/** Reading a central directory: its records and the entry each one describes (`records`,
    `from_central_directory`). */
module ZipParse {
  import opened Bytes
  import opened Text
  import opened ZipBytes
  import opened ZipRecords

  datatype ZipError = InvalidRecord | InvalidName | ValueTooLarge | Corrupt | NotAZip | TooBig | ChangedWhileAdded | SourceFailed | WriteFailed

  /** What the reader asks of its surroundings: code page 437, path normalisation, the
      CRC, and MS-DOS times. */
  datatype Names = Names(
    cp437: seq<byte> -> seq<byte>, normalise: seq<byte> -> Option<seq<byte>>, crc: seq<byte> -> nat, dosMillis: (nat, nat) -> int)

  datatype ZipEntry = ZipEntry(
    path: seq<byte>, isDirectory: bool, size: nat, compressedSize: nat, compression: nat, crc: nat, localHeaderOffset: int, millis: int, flags: nat)

  function DecodeName(names: Names, raw: seq<byte>, utf8: bool): Result<seq<byte>, ZipError> {
    if !utf8 then Ok(names.cp437(raw)) else if ValidUtf8(raw) then Ok(raw) else Err(InvalidName)
  }

  /** `u64_at` */
  function ReadU64(d: seq<byte>, i: nat): Result<nat, ZipError>
    requires i + 8 <= |d|
  {
    if U64At(d, i) >= TWO_63 then Err(ValueTooLarge) else Ok(U64At(d, i))
  }

  /** The fields an extra field may replace. */
  datatype Fields = Fields(size: nat, compressedSize: nat, offset: nat, name: seq<byte>, millis: int)

  /** A zip64 field gives, in this order, those of the values that the fixed fields left out. */
  function Zip64Extra(d: seq<byte>, body: nat, end: nat, f: Fields): Result<Fields, ZipError>
    requires body <= end <= |d|
  {
    if f.size == U32_MAX && body + 8 <= end then
      match ReadU64(d, body)
      case Err(e) => Err(e)
      case Ok(v) => Zip64Compressed(d, body + 8, end, f.(size := v))
    else Zip64Compressed(d, body, end, f)
  }

  function Zip64Compressed(d: seq<byte>, at: nat, end: nat, f: Fields): Result<Fields, ZipError>
    requires at <= end <= |d|
  {
    if f.compressedSize == U32_MAX && at + 8 <= end then
      match ReadU64(d, at)
      case Err(e) => Err(e)
      case Ok(v) => Zip64Offset(d, at + 8, end, f.(compressedSize := v))
    else Zip64Offset(d, at, end, f)
  }

  function Zip64Offset(d: seq<byte>, at: nat, end: nat, f: Fields): Result<Fields, ZipError>
    requires at <= end <= |d|
  {
    if f.offset == U32_MAX && at + 8 <= end then
      match ReadU64(d, at)
      case Err(e) => Err(e)
      case Ok(v) => Ok(f.(offset := v))
    else Ok(f)
  }

  function Signed32(v: nat): int { if v >= 0x8000_0000 then v - 0x1_0000_0000 else v }

  /** One extra field, of this id, in `d[body..end]`. `raw` is the name as recorded. */
  function OneExtra(names: Names, d: seq<byte>, id: nat, body: nat, end: nat, raw: seq<byte>, utf8: bool, f: Fields): Result<Fields, ZipError>
    requires body <= end <= |d|
  {
    if id == ZIP64_EXTRA_ID then Zip64Extra(d, body, end, f)
    else if id == UNICODE_NAME_EXTRA_ID && !utf8 && end - body > 5 && d[body] == 1 then
      if names.crc(raw) == U32At(d, body + 1) then
        match DecodeName(names, d[body + 5..end], true)
        case Err(e) => Err(e)
        case Ok(name) => Ok(f.(name := name))
      else Ok(f)
    else if id == EXTENDED_TIMESTAMP_EXTRA_ID && end - body >= 5 && d[body] % 2 == 1 then
      Ok(f.(millis := Signed32(U32At(d, body + 1)) * 1000))
    else Ok(f)
  }

  /** The loop over the extra fields in `d[i..end]`. */
  function Extras(names: Names, d: seq<byte>, i: nat, end: nat, raw: seq<byte>, utf8: bool, f: Fields): Result<Fields, ZipError>
    requires i <= end <= |d|
    decreases end - i
  {
    if i + 4 > end then Ok(f)
    else
      var next := i + 4 + U16At(d, i + 2);
      if next > end then Ok(f)
      else
        match OneExtra(names, d, U16At(d, i), i + 4, next, raw, utf8, f)
        case Err(e) => Err(e)
        case Ok(g) => Extras(names, d, next, end, raw, utf8, g)
  }

  // ---- records ------------------------------------------------------------------------------

  function RecordLength(d: seq<byte>, o: nat): (n: nat)
    requires o + CENTRAL_HEADER_SIZE <= |d|
    ensures n >= CENTRAL_HEADER_SIZE
  {
    CENTRAL_HEADER_SIZE + U16At(d, o + 28) + U16At(d, o + 30) + U16At(d, o + 32)
  }

  /** A whole central record stands at `o`. */
  predicate RecordAt(d: seq<byte>, o: nat) {
    o + CENTRAL_HEADER_SIZE <= |d| && U32At(d, o) == CENTRAL_HEADER_SIG && o + RecordLength(d, o) <= |d|
  }

  /** `records`: the offset and length of each record, up to the first that is not one. */
  function RecordsFrom(d: seq<byte>, pos: nat): (r: seq<(nat, nat)>)
    ensures forall i :: 0 <= i < |r| ==> RecordAt(d, r[i].0) && r[i].1 == RecordLength(d, r[i].0)
    decreases |d| - pos
  {
    if RecordAt(d, pos) then [(pos, RecordLength(d, pos))] + RecordsFrom(d, pos + RecordLength(d, pos)) else []
  }

  method Records(d: seq<byte>) returns (r: seq<(nat, nat)>)
    ensures r == RecordsFrom(d, 0)
  {
    r := [];
    var pos := 0;
    while |d| - pos >= CENTRAL_HEADER_SIZE && U32At(d, pos) == CENTRAL_HEADER_SIG
      invariant pos <= |d| && r + RecordsFrom(d, pos) == RecordsFrom(d, 0)
      decreases |d| - pos
    {
      var len := CENTRAL_HEADER_SIZE + U16At(d, pos + 28) + U16At(d, pos + 30) + U16At(d, pos + 32);
      if |d| - pos < len {
        break;
      }
      r := r + [(pos, len)];
      pos := pos + len;
    }
  }

  /** `from_central_directory`: `None` when the name is not a path within the archive. */
  function ParseEntry(names: Names, d: seq<byte>, o: nat, delta: int): Result<Option<ZipEntry>, ZipError>
    requires o + CENTRAL_HEADER_SIZE <= |d| && o + RecordLength(d, o) <= |d|
  {
    if U32At(d, o) != CENTRAL_HEADER_SIG then Err(InvalidRecord)
    else
      var nameStart := o + CENTRAL_HEADER_SIZE;
      var extraStart := nameStart + U16At(d, o + 28);
      var raw, utf8 := d[nameStart..extraStart], U16At(d, o + 8) / FLAG_UTF8_NAMES % 2 == 1;
      match DecodeName(names, raw, utf8)
      case Err(e) => Err(e)
      case Ok(name) =>
        var fixed := Fields(U32At(d, o + 24), U32At(d, o + 20), U32At(d, o + 42), name, names.dosMillis(U16At(d, o + 12), U16At(d, o + 14)));
        match Extras(names, d, extraStart, extraStart + U16At(d, o + 30), raw, utf8, fixed)
        case Err(e) => Err(e)
        case Ok(f) => Ok(EntryOf(names, f, U32At(d, o + 38), U16At(d, o + 10), U32At(d, o + 16), U16At(d, o + 8), delta))
  }

  function EntryOf(names: Names, f: Fields, external: nat, compression: nat, crc: nat, flags: nat, delta: int): Option<ZipEntry> {
    var isDirectory := (f.name != [] && f.name[|f.name| - 1] == SLASH) || external / 0x10 % 2 == 1;
    match names.normalise(f.name)
    case None => None
    case Some(path) =>
      if path == [] then None
      else Some(ZipEntry(path, isDirectory, if isDirectory then 0 else f.size, if isDirectory then 0 else f.compressedSize,
                         compression, crc, f.offset + delta, f.millis, flags))
  }

  // ---- a record says the same wherever it stands -----------------------------------------------

  lemma Zip64Local(d: seq<byte>, o: nat, n: nat, body: nat, end: nat, f: Fields)
    requires o + n <= |d| && body <= end <= n
    ensures Zip64Extra(d[o..o + n], body, end, f) == Zip64Extra(d, o + body, o + end, f)
  {
    if body + 8 <= n { FieldsOfSlice(d, o, n, body); }
    if body + 16 <= n { FieldsOfSlice(d, o, n, body + 8); }
    if body + 24 <= n { FieldsOfSlice(d, o, n, body + 16); }
    hide U64At;
  }

  lemma SliceOfSlice(d: seq<byte>, o: nat, n: nat, i: nat, j: nat)
    requires o + n <= |d| && i <= j <= n
    ensures d[o..o + n][i..j] == d[o + i..o + j]
  {
    var a, b := d[o..o + n][i..j], d[o + i..o + j];
    forall k | 0 <= k < j - i ensures a[k] == b[k] {
      assert a[k] == d[o..o + n][i + k];
    }
    assert a == b;
  }

  lemma OneExtraLocal(names: Names, d: seq<byte>, o: nat, n: nat, id: nat, body: nat, end: nat, raw: seq<byte>, utf8: bool, f: Fields)
    requires o + n <= |d| && body <= end <= n
    ensures OneExtra(names, d[o..o + n], id, body, end, raw, utf8, f) == OneExtra(names, d, id, o + body, o + end, raw, utf8, f)
  {
    hide Zip64Extra, U32At, DecodeName;
    Zip64Local(d, o, n, body, end, f);
    if body + 5 <= end {
      FieldsOfSlice(d, o, n, body + 1);
      SliceOfSlice(d, o, n, body + 5, end);
    }
  }

  lemma {:induction false} ExtrasLocal(names: Names, d: seq<byte>, o: nat, n: nat, i: nat, end: nat, raw: seq<byte>, utf8: bool, f: Fields)
    requires o + n <= |d| && i <= end <= n
    ensures Extras(names, d[o..o + n], i, end, raw, utf8, f) == Extras(names, d, o + i, o + end, raw, utf8, f)
    decreases end - i
  {
    if i + 4 <= end {
      FieldsOfSlice(d, o, n, i);
      FieldsOfSlice(d, o, n, i + 2);
      hide U16At, OneExtra;
      var s := d[o..o + n];
      var next := i + 4 + U16At(s, i + 2);
      if next <= end {
        OneExtraLocal(names, d, o, n, U16At(s, i), i + 4, next, raw, utf8, f);
        var g := OneExtra(names, s, U16At(s, i), i + 4, next, raw, utf8, f);
        if g.Ok? { ExtrasLocal(names, d, o, n, next, end, raw, utf8, g.value); }
      }
    }
  }

  lemma RecordLocal(d: seq<byte>, o: nat, n: nat)
    requires n >= CENTRAL_HEADER_SIZE && o + n <= |d|
    ensures RecordLength(d[o..o + n], 0) == RecordLength(d, o) && U32At(d[o..o + n], 0) == U32At(d, o)
  {
    FieldsOfSlice(d, o, n, 0);
    FieldsOfSlice(d, o, n, 28);
    FieldsOfSlice(d, o, n, 30);
    FieldsOfSlice(d, o, n, 32);
    hide U16At, U32At;
  }

  /** The entry a record describes depends on the record's own bytes and the shift alone. */
  lemma ParseLocal(names: Names, d: seq<byte>, o: nat, delta: int)
    requires RecordAt(d, o)
    ensures var s := d[o..o + RecordLength(d, o)];
      RecordLength(s, 0) == |s| && ParseEntry(names, s, 0, delta) == ParseEntry(names, d, o, delta)
  {
    hide U16At, U32At, Extras, DecodeName, EntryOf;
    var n := RecordLength(d, o);
    var s := d[o..o + n];
    RecordLocal(d, o, n);
    FixedLocal(d, o, n);
    var nameLen := U16At(d, o + 28);
    SliceOfSlice(d, o, n, CENTRAL_HEADER_SIZE, CENTRAL_HEADER_SIZE + nameLen);
    var raw, utf8 := s[CENTRAL_HEADER_SIZE..CENTRAL_HEADER_SIZE + nameLen], U16At(d, o + 8) / FLAG_UTF8_NAMES % 2 == 1;
    var name := DecodeName(names, raw, utf8);
    if name.Ok? {
      var fixed := Fields(U32At(d, o + 24), U32At(d, o + 20), U32At(d, o + 42), name.value, names.dosMillis(U16At(d, o + 12), U16At(d, o + 14)));
      ExtrasLocal(names, d, o, n, CENTRAL_HEADER_SIZE + nameLen, CENTRAL_HEADER_SIZE + nameLen + U16At(d, o + 30), raw, utf8, fixed);
    }
  }

  lemma FixedLocal(d: seq<byte>, o: nat, n: nat)
    requires n >= CENTRAL_HEADER_SIZE && o + n <= |d|
    ensures var s := d[o..o + n];
      && U16At(s, 8) == U16At(d, o + 8) && U16At(s, 10) == U16At(d, o + 10) && U16At(s, 12) == U16At(d, o + 12) && U16At(s, 14) == U16At(d, o + 14)
      && U32At(s, 16) == U32At(d, o + 16) && U32At(s, 20) == U32At(d, o + 20) && U32At(s, 24) == U32At(d, o + 24)
      && U16At(s, 28) == U16At(d, o + 28) && U16At(s, 30) == U16At(d, o + 30)
      && U32At(s, 38) == U32At(d, o + 38) && U32At(s, 42) == U32At(d, o + 42)
  {
    FieldsOfSlice(d, o, n, 8);
    FieldsOfSlice(d, o, n, 10);
    FieldsOfSlice(d, o, n, 12);
    FieldsOfSlice(d, o, n, 14);
    FieldsOfSlice(d, o, n, 16);
    FieldsOfSlice(d, o, n, 20);
    FieldsOfSlice(d, o, n, 24);
    FieldsOfSlice(d, o, n, 28);
    FieldsOfSlice(d, o, n, 30);
    FieldsOfSlice(d, o, n, 38);
    FieldsOfSlice(d, o, n, 42);
    hide U16At, U32At;
  }

  // ---- the record of a new entry -----------------------------------------------------------------

  /** The writer gives a zip64 field for a value above the limit, the reader looks for one
      when it is at the limit: a size exactly at it, beside a large offset, takes the offset's place. */
  predicate Misread(m: Measured, offset: nat) {
    BigOffset(offset) && !BigSizes(m) && (m.size == U32_MAX || m.compressedSize == U32_MAX)
  }

  function WrittenFields(names: Names, m: Measured, offset: nat): Fields {
    Fields(if BigSizes(m) then U32_MAX else m.size, if BigSizes(m) then U32_MAX else m.compressedSize,
           if BigOffset(offset) then U32_MAX else offset, NameBytes(m), names.dosMillis(m.time, m.date))
  }

  function TrueFields(names: Names, m: Measured, offset: nat): Fields {
    Fields(m.size, m.compressedSize, offset, NameBytes(m), names.dosMillis(m.time, m.date))
  }

  lemma ExtraReads(names: Names, e: seq<byte>, m: Measured, offset: nat)
    requires ExtraFields(e, m, offset) && ValidMeasured(m) && offset < TWO_63 && e != []
    ensures var f := WrittenFields(names, m, offset);
      if Misread(m, offset) then Zip64Extra(e, 4, |e|, f).Ok? && Zip64Extra(e, 4, |e|, f).value.offset == U32_MAX
        && Zip64Extra(e, 4, |e|, f).value.name == NameBytes(m)
      else Zip64Extra(e, 4, |e|, f) == Ok(TrueFields(names, m, offset))
  {
    hide U64At, U16At, NameBytes;
  }

  lemma ExtrasRead(names: Names, r: seq<byte>, m: Measured, offset: nat)
    requires IsCentralRecord(r, m, offset) && ValidMeasured(m) && offset < TWO_63
    ensures var f := Extras(names, r, CENTRAL_HEADER_SIZE + |NameBytes(m)|, |r|, NameBytes(m), true, WrittenFields(names, m, offset));
      if Misread(m, offset) then f.Ok? && f.value.offset == U32_MAX && f.value.name == NameBytes(m) else f == Ok(TrueFields(names, m, offset))
  {
    hide U64At, U16At, U32At, NameBytes, CentralFields, Zip64Extra, ValidUtf8;
    var o, f := CENTRAL_HEADER_SIZE + |NameBytes(m)|, WrittenFields(names, m, offset);
    var e := r[o..];
    assert r[o..o + |e|] == e;
    if e != [] {
      ExtraReads(names, e, m, offset);
      ExtraOnce(names, e, m, offset, f);
      ExtrasLocal(names, r, o, |e|, 0, |e|, NameBytes(m), true, f);
    }
  }

  /** The one extra field of a new record. */
  lemma ExtraOnce(names: Names, e: seq<byte>, m: Measured, offset: nat, f: Fields)
    requires ExtraFields(e, m, offset) && e != []
    ensures Extras(names, e, 0, |e|, NameBytes(m), true, f) == Zip64Extra(e, 4, |e|, f)
  {
    hide U16At, U32At, U64At, Zip64Extra;
    var g := OneExtra(names, e, U16At(e, 0), 4, |e|, NameBytes(m), true, f);
    assert g == Zip64Extra(e, 4, |e|, f);
    if g.Ok? { assert Extras(names, e, |e|, |e|, NameBytes(m), true, g.value) == g; }
  }

  /** A name that is a path within the archive. */
  predicate Accepted(names: Names, m: Measured) {
    names.normalise(NameBytes(m)).Some? && names.normalise(NameBytes(m)).value != []
  }

  /** The entry that was added. */
  function AddedEntry(names: Names, m: Measured, at: int): ZipEntry
    requires Accepted(names, m)
  {
    ZipEntry(names.normalise(NameBytes(m)).value, m.isDirectory, m.size, m.compressedSize, m.compression, m.crc, at,
             names.dosMillis(m.time, m.date), FLAG_UTF8_NAMES)
  }

  /** A new record parses to the entry it was written for, local header and all, if and only
      if no size is exactly at the limit beside an offset above it. */
  lemma AddedParses(names: Names, r: seq<byte>, m: Measured, offset: nat, delta: int)
    requires IsCentralRecord(r, m, offset) && ValidMeasured(m) && offset < TWO_63 && Accepted(names, m)
    ensures RecordAt(r, 0) && RecordLength(r, 0) == |r|
    ensures ParseEntry(names, r, 0, delta).Ok? && ParseEntry(names, r, 0, delta).value.Some?
    ensures ParseEntry(names, r, 0, delta) == Ok(Some(AddedEntry(names, m, offset + delta))) <==> !Misread(m, offset)
  {
    hide U16At, U32At, ExtraFields, Extras, ValidUtf8, NameBytes, BigOffset, Misread;
    ExtrasRead(names, r, m, offset);
    assert U16At(r, 8) / FLAG_UTF8_NAMES % 2 == 1;
    AddedIsDirectory(m);
    OffsetIs(m, offset);
  }

  lemma OffsetIs(m: Measured, offset: nat)
    ensures Misread(m, offset) ==> offset > U32_MAX
  {}

  lemma AddedIsDirectory(m: Measured)
    requires ValidMeasured(m)
    ensures var name, external := NameBytes(m), if m.isDirectory then 0x41ED_0010 else 0x81A4_0000;
      m.isDirectory <==> (name != [] && name[|name| - 1] == SLASH) || external / 0x10 % 2 == 1
  {}

  /** An entry of exactly 2^32-1 bytes that lands right above that offset. */
  function MisreadExample(): Measured { Measured([0x61], false, U32_MAX, U32_MAX, 0, 0, 0, 0, [], true) }

  /** Its size is read from where its offset was written, and it is looked for elsewhere. */
  lemma MisreadHappens(names: Names, r: seq<byte>)
    requires Accepted(names, MisreadExample()) && IsCentralRecord(r, MisreadExample(), U32_MAX + 1)
    ensures ValidMeasured(MisreadExample()) && RecordAt(r, 0) && RecordLength(r, 0) == |r|
    ensures ParseEntry(names, r, 0, 0) != Ok(Some(AddedEntry(names, MisreadExample(), U32_MAX + 1)))
  {
    var m := MisreadExample();
    assert NameBytes(m)[1..] == [];
    hide IsCentralRecord, Accepted, AddedEntry, ParseEntry, RecordAt, RecordLength;
    AddedParses(names, r, m, U32_MAX + 1, 0);
  }

  // ---- extra fields of other writers ---------------------------------------------------------------------

  /** A single extra field is taken for what its id says. */
  lemma SingleField(names: Names, e: seq<byte>, raw: seq<byte>, utf8: bool, f: Fields)
    requires |e| >= 4 && U16At(e, 2) == |e| - 4
    ensures Extras(names, e, 0, |e|, raw, utf8, f) == OneExtra(names, e, U16At(e, 0), 4, |e|, raw, utf8, f)
  {
    hide U16At, OneExtra;
    var g := OneExtra(names, e, U16At(e, 0), 4, |e|, raw, utf8, f);
    if g.Ok? { assert Extras(names, e, |e|, |e|, raw, utf8, g.value) == g; }
  }

  /** An extended timestamp: bytes 55 54, a length, flags with the lowest bit set, and a
      signed 32-bit number of seconds, low byte first. */
  lemma TimestampRead(names: Names, e: seq<byte>, raw: seq<byte>, utf8: bool, f: Fields)
    requires |e| >= 9 && e[0] == 0x55 && e[1] == 0x54 && U16At(e, 2) == |e| - 4 && e[4] % 2 == 1
    ensures var seconds := e[5] as int + 0x100 * e[6] as int + 0x1_0000 * e[7] as int + 0x100_0000 * e[8] as int
                           - (if e[8] >= 0x80 then 0x1_0000_0000 else 0);
      Extras(names, e, 0, |e|, raw, utf8, f) == Ok(f.(millis := 1000 * seconds))
  {
    SingleField(names, e, raw, utf8, f);
    hide Extras, Zip64Extra;
  }

  /** A Unicode name: bytes 75 70, a length, version 1, the CRC of the recorded name, and the
      name in UTF-8. It replaces a name that is not flagged as UTF-8, when the CRC agrees. */
  lemma UnicodeNameRead(names: Names, e: seq<byte>, raw: seq<byte>, f: Fields)
    requires |e| > 9 && e[0] == 0x75 && e[1] == 0x70 && U16At(e, 2) == |e| - 4 && e[4] == 1
    ensures Extras(names, e, 0, |e|, raw, true, f) == Ok(f)
    ensures Extras(names, e, 0, |e|, raw, false, f) ==
      if names.crc(raw) != e[5] as int + 0x100 * e[6] as int + 0x1_0000 * e[7] as int + 0x100_0000 * e[8] as int then Ok(f)
      else if ValidUtf8(e[9..]) then Ok(f.(name := e[9..])) else Err(InvalidName)
  {
    SingleField(names, e, raw, true, f);
    SingleField(names, e, raw, false, f);
    assert e[4 + 5..|e|] == e[9..];
    hide Extras, Zip64Extra;
  }

  /** A field with any other id, and a timestamp or Unicode name too short or not for us,
      changes nothing. */
  lemma OtherFieldIgnored(names: Names, e: seq<byte>, raw: seq<byte>, utf8: bool, f: Fields)
    requires |e| >= 4 && U16At(e, 2) == |e| - 4
    requires U16At(e, 0) != 0x0001 && (U16At(e, 0) == 0x7075 ==> |e| <= 9 || e[4] != 1) && (U16At(e, 0) == 0x5455 ==> |e| < 9 || e[4] % 2 == 0)
    ensures Extras(names, e, 0, |e|, raw, utf8, f) == Ok(f)
  {
    SingleField(names, e, raw, utf8, f);
    hide Extras, Zip64Extra;
  }

  /** The fixed fields that overflowed take the values of a zip64 field one after the other:
      size, compressed size, offset. */
  ghost function Overflowed(f: Fields, values: seq<nat>): Fields {
    var a := if f.size == 0xFFFF_FFFF && |values| > 0 then 1 else 0;
    var b := a + if f.compressedSize == 0xFFFF_FFFF && |values| > a then 1 else 0;
    f.(size := if a == 1 then values[0] else f.size, compressedSize := if b > a then values[a] else f.compressedSize,
       offset := if f.offset == 0xFFFF_FFFF && |values| > b then values[b] else f.offset)
  }

  lemma Zip64Read(names: Names, e: seq<byte>, raw: seq<byte>, utf8: bool, f: Fields, values: seq<nat>)
    requires |e| == 4 + 8 * |values| && e[0] == 1 && e[1] == 0 && U16At(e, 2) == 8 * |values|
    requires forall i :: 0 <= i < |values| ==> values[i] == U64At(e, 4 + 8 * i) < TWO_63
    ensures Extras(names, e, 0, |e|, raw, utf8, f) == Ok(Overflowed(f, values))
  {
    SingleField(names, e, raw, utf8, f);
    hide Extras, U64At, U32At;
    if |values| > 0 { assert values[0] == U64At(e, 4); }
    if |values| > 1 { assert values[1] == U64At(e, 12); }
    if |values| > 2 { assert values[2] == U64At(e, 20); }
  }

  /** `n` bytes from `i` as a number, low byte first. */
  ghost function Le(d: seq<byte>, i: nat, n: nat): nat
    requires i + n <= |d|
    decreases n
  {
    if n == 0 then 0 else d[i] as int + 0x100 * Le(d, i + 1, n - 1)
  }

  lemma LeIs(d: seq<byte>, i: nat)
    ensures i + 2 <= |d| ==> U16At(d, i) == Le(d, i, 2)
    ensures i + 4 <= |d| ==> U32At(d, i) == Le(d, i, 4)
  {
    if i + 2 <= |d| { assert Le(d, i, 2) == d[i] as int + 0x100 * Le(d, i + 1, 1); }
    if i + 4 <= |d| {
      assert Le(d, i + 1, 3) == d[i + 1] as int + 0x100 * Le(d, i + 2, 2);
      assert Le(d, i + 2, 2) == d[i + 2] as int + 0x100 * Le(d, i + 3, 1);
    }
  }

  /** A record without extra fields, byte by byte. */
  lemma PlainRecordRead(names: Names, r: seq<byte>, delta: int)
    requires RecordAt(r, 0) && RecordLength(r, 0) == |r| && Le(r, 30, 2) == 0
    ensures 46 + Le(r, 28, 2) <= |r|
    ensures var raw, utf8 := r[46..46 + Le(r, 28, 2)], r[9] / 8 % 2 == 1;
      var name := if utf8 then raw else names.cp437(raw);
      var directory := (name != [] && name[|name| - 1] == 0x2F) || r[38] / 16 % 2 == 1;
      ParseEntry(names, r, 0, delta) ==
        if utf8 && !ValidUtf8(raw) then Err(InvalidName)
        else if names.normalise(name) == None || names.normalise(name) == Some([]) then Ok(None)
        else Ok(Some(ZipEntry(names.normalise(name).value, directory, if directory then 0 else Le(r, 24, 4), if directory then 0 else Le(r, 20, 4),
                              Le(r, 10, 2), Le(r, 16, 4), Le(r, 42, 4) + delta, names.dosMillis(Le(r, 12, 2), Le(r, 14, 2)), Le(r, 8, 2))))
  {
    FixedLe(r);
    hide Le, U16At, U32At, ValidUtf8, Extras;
    NoExtras(names, r);
  }

  lemma NoExtras(names: Names, d: seq<byte>)
    ensures forall i, raw, utf8, f :: 0 <= i <= |d| ==> Extras(names, d, i, i, raw, utf8, f) == Ok(f)
  {}

  lemma FixedLe(r: seq<byte>)
    requires |r| >= 46
    ensures U16At(r, 8) == Le(r, 8, 2) && U16At(r, 10) == Le(r, 10, 2) && U16At(r, 12) == Le(r, 12, 2) && U16At(r, 14) == Le(r, 14, 2)
    ensures U16At(r, 28) == Le(r, 28, 2) && U16At(r, 30) == Le(r, 30, 2)
    ensures U32At(r, 16) == Le(r, 16, 4) && U32At(r, 20) == Le(r, 20, 4) && U32At(r, 24) == Le(r, 24, 4) && U32At(r, 42) == Le(r, 42, 4)
    ensures U16At(r, 8) / 0x800 % 2 == r[9] / 8 % 2 && U32At(r, 38) / 0x10 % 2 == r[38] / 16 % 2
  {
    assert U16At(r, 8) / 0x800 % 2 == r[9] / 8 % 2;
    BitOf(r, 38);
    hide Le, U16At, U32At;
    LeIs(r, 8); LeIs(r, 10); LeIs(r, 12); LeIs(r, 14); LeIs(r, 16); LeIs(r, 20); LeIs(r, 24); LeIs(r, 28); LeIs(r, 30); LeIs(r, 42);
  }

  lemma BitOf(d: seq<byte>, i: nat)
    requires i + 4 <= |d|
    ensures U32At(d, i) / 0x10 % 2 == d[i] / 16 % 2
  {
    var more := d[i + 1] as int + 0x100 * U16At(d, i + 2);
    assert U32At(d, i) == d[i] as int + 16 * (16 * more);
    assert U32At(d, i) / 0x10 == d[i] as int / 16 + 2 * (8 * more);
  }
}
