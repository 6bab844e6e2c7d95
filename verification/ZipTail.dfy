/** The end of an archive, written and found again (`end_records`, `find_eocd`,
    `locate_central_directory`). */
module ZipTail {
  import opened Bytes
  import opened ZipBytes
  import opened ZipRecords
  import opened ZipParse

  const EOCD_SIG := 0x06054b50
  const ZIP64_EOCD_SIG := 0x06064b50
  const ZIP64_LOCATOR_SIG := 0x07064b50
  const EOCD_SIZE := 22
  const ZIP64_EOCD_SIZE := 56
  const ZIP64_LOCATOR_SIZE := 20
  const MAX_COMMENT_SIZE := 0xFFFF

  // ---- reading the end -------------------------------------------------------------------------

  datatype Directory = Directory(start: nat, size: nat, entries: nat, delta: int)

  predicate Eocd(tail: seq<byte>, i: nat)
    requires i + EOCD_SIZE <= |tail|
  {
    U32At(tail, i) == EOCD_SIG
  }

  /** The last end record at or before `i` whose comment reaches the end. */
  function LastExact(tail: seq<byte>, i: nat): (r: Option<nat>)
    requires i + EOCD_SIZE <= |tail|
    ensures r.Some? ==> r.value + EOCD_SIZE <= |tail|
  {
    if Eocd(tail, i) && i + EOCD_SIZE + U16At(tail, i + 20) == |tail| then Some(i)
    else if i == 0 then None else LastExact(tail, i - 1)
  }

  function LastAny(tail: seq<byte>, i: nat): (r: Option<nat>)
    requires i + EOCD_SIZE <= |tail|
    ensures r.Some? ==> r.value + EOCD_SIZE <= |tail|
  {
    if Eocd(tail, i) then Some(i) else if i == 0 then None else LastAny(tail, i - 1)
  }

  /** `find_eocd` */
  function FindEocd(tail: seq<byte>): (r: Option<nat>)
    ensures r.Some? ==> r.value + EOCD_SIZE <= |tail|
  {
    if |tail| < EOCD_SIZE then None
    else
      var exact := LastExact(tail, |tail| - EOCD_SIZE);
      if exact.Some? then exact else LastAny(tail, |tail| - EOCD_SIZE)
  }

  /** A directory that ends at `position`. */
  function EndingAt(position: nat, size: nat, entries: nat, offset: nat): Result<Directory, ZipError> {
    if size > position then Err(Corrupt) else Ok(Directory(position - size, size, entries, position - size - offset))
  }

  /** The zip64 end record at `d[at..]`, which stands at `position` in the file. */
  function ParseZip64(d: seq<byte>, at: nat, position: nat): Result<Directory, ZipError>
    requires at + ZIP64_EOCD_SIZE <= |d|
  {
    match ReadU64(d, at + 32)
    case Err(e) => Err(e)
    case Ok(entries) =>
      match ReadU64(d, at + 40)
      case Err(e) => Err(e)
      case Ok(size) =>
        match ReadU64(d, at + 48)
        case Err(e) => Err(e)
        case Ok(offset) => EndingAt(position, size, entries, offset)
  }

  /** `locate_central_directory` */
  function LocateIn(file: seq<byte>, tail: seq<byte>, tailStart: nat, eocd: nat): Result<Directory, ZipError>
    requires eocd + EOCD_SIZE <= |tail|
  {
    var entries, size, offset := U16At(tail, eocd + 10), U32At(tail, eocd + 12), U32At(tail, eocd + 16);
    if eocd < ZIP64_LOCATOR_SIZE || U32At(tail, eocd - ZIP64_LOCATOR_SIZE) != ZIP64_LOCATOR_SIG then
      if size == U32_MAX || offset == U32_MAX then Err(Corrupt) else EndingAt(tailStart + eocd, size, entries, offset)
    else
      var locator := eocd - ZIP64_LOCATOR_SIZE;
      if locator >= ZIP64_EOCD_SIZE && U32At(tail, locator - ZIP64_EOCD_SIZE) == ZIP64_EOCD_SIG then
        ParseZip64(tail, locator - ZIP64_EOCD_SIZE, tailStart + locator - ZIP64_EOCD_SIZE)
      else
        match ReadU64(tail, locator + 8)
        case Err(e) => Err(e)
        case Ok(recorded) =>
          if recorded + ZIP64_EOCD_SIZE > |file| || U32At(file, recorded) != ZIP64_EOCD_SIG then Err(Corrupt)
          else ParseZip64(file, recorded, recorded)
  }

  function TailLength(file: seq<byte>): (n: nat)
    ensures n <= |file|
  {
    if |file| < EOCD_SIZE + MAX_COMMENT_SIZE then |file| else EOCD_SIZE + MAX_COMMENT_SIZE
  }

  /** The directory of an archive, as `open` finds it. */
  function Locate(file: seq<byte>): Result<Directory, ZipError> {
    if |file| < EOCD_SIZE then Err(NotAZip)
    else
      var tailStart := |file| - TailLength(file);
      var tail := file[tailStart..];
      match FindEocd(tail)
      case None => Err(NotAZip)
      case Some(eocd) => LocateIn(file, tail, tailStart, eocd)
  }

  // ---- writing the end ---------------------------------------------------------------------------

  predicate NeedsZip64(entries: nat, size: nat, offset: nat) { entries > U16_MAX || size > U32_MAX || offset > U32_MAX }

  ghost predicate EocdFields(e: seq<byte>, entries: nat, size: nat, offset: nat) {
    && |e| == EOCD_SIZE && U32At(e, 0) == EOCD_SIG && U16At(e, 10) == entries && U32At(e, 12) == size && U32At(e, 16) == offset && U16At(e, 20) == 0
  }

  ghost predicate Zip64Fields(e: seq<byte>, entries: nat, size: nat, offset: nat) {
    && |e| == ZIP64_EOCD_SIZE && U32At(e, 0) == ZIP64_EOCD_SIG && (entries < TWO_63 ==> U64At(e, 32) == entries)
    && (size < TWO_63 ==> U64At(e, 40) == size) && (offset < TWO_63 ==> U64At(e, 48) == offset)
  }

  ghost predicate LocatorFields(e: seq<byte>, position: nat) {
    |e| == ZIP64_LOCATOR_SIZE && U32At(e, 0) == ZIP64_LOCATOR_SIG && (position < TWO_63 ==> U64At(e, 8) == position)
  }

  /** The end records: with the zip64 pair in front when the plain fields cannot say it. */
  ghost predicate IsEnd(e: seq<byte>, entries: nat, size: nat, offset: nat, position: nat) {
    if NeedsZip64(entries, size, offset) then
      && |e| == ZIP64_EOCD_SIZE + ZIP64_LOCATOR_SIZE + EOCD_SIZE
      && Zip64Fields(e[..ZIP64_EOCD_SIZE], entries, size, offset)
      && LocatorFields(e[ZIP64_EOCD_SIZE..ZIP64_EOCD_SIZE + ZIP64_LOCATOR_SIZE], position)
      && EocdFields(e[ZIP64_EOCD_SIZE + ZIP64_LOCATOR_SIZE..], U16_MAX, U32_MAX, U32_MAX)
    else EocdFields(e, entries, size, offset)
  }

  method PlainEnd(entries: nat, size: nat, offset: nat) returns (e: seq<byte>)
    requires entries <= U16_MAX && size <= U32_MAX && offset <= U32_MAX
    ensures EocdFields(e, entries, size, offset)
  {
    hide PutU16, PutU32, U16At, U32At, Zeros;
    e := Zeros(EOCD_SIZE);
    ZeroField(EOCD_SIZE, 20);
    e := PutU32(e, 0, EOCD_SIG);
    e := PutU16(e, 8, entries);
    e := PutU16(e, 10, entries);
    e := PutU32(e, 12, size);
    e := PutU32(e, 16, offset);
  }

  method Zip64Record(entries: nat, size: nat, offset: nat) returns (e: seq<byte>)
    ensures Zip64Fields(e, entries, size, offset)
  {
    hide PutU16, PutU32, PutU64, U16At, U32At, U64At, Zeros;
    e := Zeros(ZIP64_EOCD_SIZE);
    e := PutU32(e, 0, ZIP64_EOCD_SIG);
    e := PutU64(e, 4, ZIP64_EOCD_SIZE - 12);
    e := PutU16(e, 12, 0x031E);
    e := PutU16(e, 14, 45);
    e := PutU64(e, 24, entries);
    e := PutU64(e, 32, entries);
    e := PutU64(e, 40, size);
    e := PutU64(e, 48, offset);
  }

  method Zip64Locator(position: nat) returns (e: seq<byte>)
    ensures LocatorFields(e, position)
  {
    hide PutU32, PutU64, U32At, U64At, Zeros;
    e := Zeros(ZIP64_LOCATOR_SIZE);
    e := PutU32(e, 0, ZIP64_LOCATOR_SIG);
    e := PutU64(e, 8, position);
    e := PutU32(e, 16, 1);
  }

  /** `end_records` */
  method EndRecords(entries: nat, size: nat, offset: nat, position: nat) returns (e: seq<byte>)
    ensures IsEnd(e, entries, size, offset, position)
  {
    hide EocdFields, Zip64Fields, LocatorFields;
    if NeedsZip64(entries, size, offset) {
      var record := Zip64Record(entries, size, offset);
      var locator := Zip64Locator(position);
      var plain := PlainEnd(U16_MAX, U32_MAX, U32_MAX);
      EndSizes(record, locator, plain, entries, size, offset, position);
      e := record + locator + plain;
      assert e[..ZIP64_EOCD_SIZE] == record;
      assert e[ZIP64_EOCD_SIZE..ZIP64_EOCD_SIZE + ZIP64_LOCATOR_SIZE] == locator;
      assert e[ZIP64_EOCD_SIZE + ZIP64_LOCATOR_SIZE..] == plain;
    } else {
      e := PlainEnd(entries, size, offset);
    }
  }

  lemma EndSizes(record: seq<byte>, locator: seq<byte>, plain: seq<byte>, entries: nat, size: nat, offset: nat, position: nat)
    requires Zip64Fields(record, entries, size, offset) && LocatorFields(locator, position) && EocdFields(plain, U16_MAX, U32_MAX, U32_MAX)
    ensures |record| == ZIP64_EOCD_SIZE && |locator| == ZIP64_LOCATOR_SIZE && |plain| == EOCD_SIZE
  {}

  // ---- the end is found again ------------------------------------------------------------------------

  /** A plain end record that something else's bytes make look like half of a zip64 pair. */
  predicate ChanceLocator(file: seq<byte>) {
    var n := EOCD_SIZE + ZIP64_LOCATOR_SIZE;
    |file| >= n && U32At(file, |file| - n) == ZIP64_LOCATOR_SIG
  }

  lemma FieldsOfTail(file: seq<byte>, start: nat, i: nat)
    requires start <= |file|
    ensures start + i + 2 <= |file| ==> U16At(file[start..], i) == U16At(file, start + i)
    ensures start + i + 4 <= |file| ==> U32At(file[start..], i) == U32At(file, start + i)
    ensures start + i + 8 <= |file| ==> U64At(file[start..], i) == U64At(file, start + i)
  {
    assert file[start..start + (|file| - start)] == file[start..];
    FieldsOfSlice(file, start, |file| - start, i);
  }

  /** The end record just written is the one found. */
  lemma FindsLast(file: seq<byte>, entries: nat, size: nat, offset: nat)
    requires |file| >= EOCD_SIZE && EocdFields(file[|file| - EOCD_SIZE..], entries, size, offset)
    ensures var start := |file| - TailLength(file);
      var tail := file[start..];
      && FindEocd(tail) == Some(|tail| - EOCD_SIZE)
      && U16At(tail, |tail| - EOCD_SIZE + 10) == entries && U32At(tail, |tail| - EOCD_SIZE + 12) == size && U32At(tail, |tail| - EOCD_SIZE + 16) == offset
  {
    hide U16At, U32At, U64At, TailLength, LastAny;
    var start := |file| - TailLength(file);
    var tail := file[start..];
    TailHasEnd(file);
    var i := |tail| - EOCD_SIZE;
    assert tail[i..] == file[|file| - EOCD_SIZE..];
    FieldsOfTail(tail, i, 0);
    FieldsOfTail(tail, i, 10);
    FieldsOfTail(tail, i, 12);
    FieldsOfTail(tail, i, 16);
    FieldsOfTail(tail, i, 20);
  }

  lemma TailHasEnd(file: seq<byte>)
    ensures |file| >= EOCD_SIZE ==> TailLength(file) >= EOCD_SIZE
  {}

  /** A plain end: the directory is found, with the shift it was written with, if and only
      if no field is exactly at the limit, where the reader looks for a zip64 locator, and
      no stray bytes look like one. */
  lemma PlainFound(file: seq<byte>, start: nat, size: nat, entries: nat, delta: int)
    requires |file| == start + size + EOCD_SIZE && start >= delta && !NeedsZip64(entries, size, start - delta)
    requires EocdFields(file[|file| - EOCD_SIZE..], entries, size, start - delta)
    ensures Locate(file) == Ok(Directory(start, size, entries, delta)) <==>
      !ChanceLocator(file) && size != U32_MAX && start - delta != U32_MAX
  {
    hide U16At, U32At, FindEocd, EocdFields, TailLength, ParseZip64, ReadU64;
    FindsLast(file, entries, size, start - delta);
    TailIsLong(file);
    var tailStart := |file| - TailLength(file);
    var tail := file[tailStart..];
    var i := |tail| - EOCD_SIZE;
    if i >= ZIP64_LOCATOR_SIZE {
      FieldsOfTail(file, tailStart, i - ZIP64_LOCATOR_SIZE);
      if ChanceLocator(file) { StrayMisleads(file, tail, tailStart); }
    }
  }

  lemma TailIsLong(file: seq<byte>)
    ensures |file| >= EOCD_SIZE + ZIP64_LOCATOR_SIZE ==> TailLength(file) >= EOCD_SIZE + ZIP64_LOCATOR_SIZE
  {}

  /** A zip64 record is followed by at least its own size, so the directory in front of one
      does not end where a plain end record starts. */
  lemma Zip64EndsEarlier(d: seq<byte>, at: nat, position: nat)
    requires at + ZIP64_EOCD_SIZE <= |d|
    ensures var r := ParseZip64(d, at, position); r.Ok? ==> r.value.start + r.value.size == position
  {
    hide U64At;
  }

  lemma StrayMisleads(file: seq<byte>, tail: seq<byte>, tailStart: nat)
    requires |tail| >= EOCD_SIZE + ZIP64_LOCATOR_SIZE && tailStart + |tail| == |file|
    requires U32At(tail, |tail| - EOCD_SIZE - ZIP64_LOCATOR_SIZE) == ZIP64_LOCATOR_SIG
    ensures var r := LocateIn(file, tail, tailStart, |tail| - EOCD_SIZE); r.Ok? ==> r.value.start + r.value.size != |file| - EOCD_SIZE
  {
    hide U16At, U32At, U64At, ParseZip64;
    var locator := |tail| - EOCD_SIZE - ZIP64_LOCATOR_SIZE;
    if locator >= ZIP64_EOCD_SIZE {
      Zip64EndsEarlier(tail, locator - ZIP64_EOCD_SIZE, tailStart + locator - ZIP64_EOCD_SIZE);
    }
    var recorded := ReadU64(tail, locator + 8);
    if recorded.Ok? && recorded.value + ZIP64_EOCD_SIZE <= |file| {
      Zip64EndsEarlier(file, recorded.value, recorded.value);
    }
  }

  /** A zip64 end is always found. */
  lemma Zip64Found(file: seq<byte>, e: seq<byte>, start: nat, size: nat, entries: nat, delta: int, position: nat)
    requires |file| == start + size + |e| && |file| < TWO_63 && start >= delta && start - delta < TWO_63 && entries < TWO_63
    requires NeedsZip64(entries, size, start - delta) && IsEnd(e, entries, size, start - delta, position) && file[start + size..] == e
    ensures Locate(file) == Ok(Directory(start, size, entries, delta))
  {
    hide U16At, U32At, U64At, FindEocd, EocdFields, IsEnd, LocateIn;
    EndIsPlain(e, entries, size, start - delta, position);
    assert file[|file| - EOCD_SIZE..] == e[ZIP64_EOCD_SIZE + ZIP64_LOCATOR_SIZE..];
    FindsLast(file, U16_MAX, U32_MAX, U32_MAX);
    var tailStart := |file| - TailLength(file);
    var tail := file[tailStart..];
    assert tail[|tail| - |e|..] == e;
    Zip64Reads(tail, e, entries, size, start - delta, position);
    Zip64Located(file, tail, tailStart, start, size, entries, delta);
  }

  lemma EndIsPlain(e: seq<byte>, entries: nat, size: nat, offset: nat, position: nat)
    requires NeedsZip64(entries, size, offset) && IsEnd(e, entries, size, offset, position)
    ensures |e| == 98 && EocdFields(e[ZIP64_EOCD_SIZE + ZIP64_LOCATOR_SIZE..], U16_MAX, U32_MAX, U32_MAX)
  {}

  lemma Zip64Located(file: seq<byte>, tail: seq<byte>, tailStart: nat, start: nat, size: nat, entries: nat, delta: int)
    requires |tail| >= 98 && tailStart + |tail| == start + size + 98 && entries < TWO_63 && size < TWO_63 && 0 <= start - delta < TWO_63
    requires var r := |tail| - 98;
      && U32At(tail, r) == ZIP64_EOCD_SIG && U64At(tail, r + 32) == entries && U64At(tail, r + 40) == size && U64At(tail, r + 48) == start - delta
      && U32At(tail, r + ZIP64_EOCD_SIZE) == ZIP64_LOCATOR_SIG
    ensures LocateIn(file, tail, tailStart, |tail| - EOCD_SIZE) == Ok(Directory(start, size, entries, delta))
  {
    hide U16At, U32At, U64At;
  }

  lemma Zip64Reads(tail: seq<byte>, e: seq<byte>, entries: nat, size: nat, offset: nat, position: nat)
    requires |tail| >= |e| && tail[|tail| - |e|..] == e && NeedsZip64(entries, size, offset) && IsEnd(e, entries, size, offset, position)
    requires entries < TWO_63 && size < TWO_63 && offset < TWO_63
    ensures var r := |tail| - |e|;
      && |e| == 98 && U32At(tail, r) == ZIP64_EOCD_SIG && U64At(tail, r + 32) == entries && U64At(tail, r + 40) == size && U64At(tail, r + 48) == offset
      && U32At(tail, r + ZIP64_EOCD_SIZE) == ZIP64_LOCATOR_SIG
  {
    hide U16At, U32At, U64At, EocdFields;
    var r := |tail| - |e|;
    FieldsOfTail(tail, r, 0);
    FieldsOfTail(tail, r, 32);
    FieldsOfTail(tail, r, 40);
    FieldsOfTail(tail, r, 48);
    FieldsOfTail(tail, r, ZIP64_EOCD_SIZE);
    PrefixFields(e);
  }

  lemma PrefixFields(e: seq<byte>)
    requires |e| == 98
    ensures var p, l := e[..ZIP64_EOCD_SIZE], e[ZIP64_EOCD_SIZE..ZIP64_EOCD_SIZE + ZIP64_LOCATOR_SIZE];
      && U32At(p, 0) == U32At(e, 0) && U64At(p, 32) == U64At(e, 32) && U64At(p, 40) == U64At(e, 40) && U64At(p, 48) == U64At(e, 48)
      && U32At(l, 0) == U32At(e, ZIP64_EOCD_SIZE)
  {
    assert e[0..ZIP64_EOCD_SIZE] == e[..ZIP64_EOCD_SIZE];
    FieldsOfSlice(e, 0, ZIP64_EOCD_SIZE, 0);
    FieldsOfSlice(e, 0, ZIP64_EOCD_SIZE, 32);
    FieldsOfSlice(e, 0, ZIP64_EOCD_SIZE, 40);
    FieldsOfSlice(e, 0, ZIP64_EOCD_SIZE, 48);
    FieldsOfSlice(e, ZIP64_EOCD_SIZE, ZIP64_LOCATOR_SIZE, 0);
    hide U32At, U64At;
  }

  // ---- on disk, and in archives of other writers ------------------------------------------------------------

  /** Sections 4.3.14 to 4.3.16 of APPNOTE: the signatures of the end records. */
  lemma EndOnDisk(e: seq<byte>, entries: nat, size: nat, offset: nat, position: nat)
    requires IsEnd(e, entries, size, offset, position)
    ensures |e| == 22 || |e| == 98
    ensures e[|e| - 22..|e| - 18] == [0x50, 0x4b, 0x05, 0x06]
    ensures |e| == 98 ==> e[0..4] == [0x50, 0x4b, 0x06, 0x06] && e[56..60] == [0x50, 0x4b, 0x06, 0x07]
    ensures |e| == 98 <==> NeedsZip64(entries, size, offset)
  {
    hide U64At, U16At;
    if NeedsZip64(entries, size, offset) {
      FourBytes(e[..56], 0, 0x50, 0x4b, 0x06, 0x06);
      FourBytes(e[56..76], 0, 0x50, 0x4b, 0x06, 0x07);
      FourBytes(e[76..], 0, 0x50, 0x4b, 0x05, 0x06);
      assert e[..56][0..4] == e[0..4] && e[56..76][0..4] == e[56..60] && e[76..][0..4] == e[76..80];
    } else {
      FourBytes(e, 0, 0x50, 0x4b, 0x05, 0x06);
    }
    hide U32At;
  }

  /** An end record at `i` whose comment reaches the end. */
  ghost predicate ExactAt(tail: seq<byte>, i: nat) {
    i + EOCD_SIZE <= |tail| && Eocd(tail, i) && i + EOCD_SIZE + U16At(tail, i + 20) == |tail|
  }

  ghost predicate SignatureAt(tail: seq<byte>, i: nat) { i + EOCD_SIZE <= |tail| && Eocd(tail, i) }

  lemma {:induction false} LastExactIs(tail: seq<byte>, i: nat)
    requires i + EOCD_SIZE <= |tail|
    ensures match LastExact(tail, i)
      case Some(k) => k <= i && ExactAt(tail, k) && forall j: nat :: k < j <= i ==> !ExactAt(tail, j)
      case None => forall j: nat :: j <= i ==> !ExactAt(tail, j)
  {
    hide U16At, U32At;
    if i > 0 { LastExactIs(tail, i - 1); }
  }

  lemma {:induction false} LastAnyIs(tail: seq<byte>, i: nat)
    requires i + EOCD_SIZE <= |tail|
    ensures match LastAny(tail, i)
      case Some(k) => k <= i && SignatureAt(tail, k) && forall j: nat :: k < j <= i ==> !SignatureAt(tail, j)
      case None => forall j: nat :: j <= i ==> !SignatureAt(tail, j)
  {
    hide U16At, U32At;
    if i > 0 { LastAnyIs(tail, i - 1); }
  }

  /** `find_eocd` in any file: the last end record whose comment reaches the end, with any
      comment; only when there is none, the last one at all. */
  lemma FindEocdIs(tail: seq<byte>)
    ensures match FindEocd(tail)
      case Some(k) =>
        || (ExactAt(tail, k) && forall j: nat :: j > k ==> !ExactAt(tail, j))
        || ((forall j: nat :: !ExactAt(tail, j)) && SignatureAt(tail, k) && forall j: nat :: j > k ==> !SignatureAt(tail, j))
      case None => forall j: nat :: !SignatureAt(tail, j)
  {
    hide Eocd, U16At;
    if |tail| >= EOCD_SIZE {
      LastExactIs(tail, |tail| - EOCD_SIZE);
      LastAnyIs(tail, |tail| - EOCD_SIZE);
    }
  }

  /** A zip64 end record that does not stand right before its locator is read from where the
      locator says. */
  lemma Zip64Elsewhere(file: seq<byte>, tail: seq<byte>, tailStart: nat, eocd: nat, at: nat)
    requires ZIP64_LOCATOR_SIZE <= eocd && eocd + EOCD_SIZE <= |tail| && at + ZIP64_EOCD_SIZE <= |file| && at < TWO_63
    requires U32At(tail, eocd - ZIP64_LOCATOR_SIZE) == ZIP64_LOCATOR_SIG && U64At(tail, eocd - ZIP64_LOCATOR_SIZE + 8) == at
    requires eocd >= 76 ==> U32At(tail, eocd - 76) != ZIP64_EOCD_SIG
    requires U32At(file, at) == ZIP64_EOCD_SIG
    requires U64At(file, at + 32) < TWO_63 && U64At(file, at + 40) <= at && U64At(file, at + 48) < TWO_63
    ensures var size := U64At(file, at + 40);
      LocateIn(file, tail, tailStart, eocd) == Ok(Directory(at - size, size, U64At(file, at + 32), at - size - U64At(file, at + 48)))
  {
    hide U16At, U32At, U64At;
  }
}
