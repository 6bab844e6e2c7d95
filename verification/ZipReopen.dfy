/** Opening an archive, and what a rewritten one opens to. */
module ZipReopen {
  import opened Bytes
  import opened ZipBytes
  import opened ZipRecords
  import opened ZipParse
  import opened ZipTail
  import opened ZipRewrite

  const MAX_ENTRIES := 500_000
  const MAX_CENTRAL_DIRECTORY := 64 * 1024 * 1024

  /** The entries of these records, leaving out those with no path in the archive. */
  function ParseAll(names: Names, d: seq<byte>, rs: seq<(nat, nat)>, delta: int, acc: seq<ZipEntry>): Result<seq<ZipEntry>, ZipError>
    requires forall i :: 0 <= i < |rs| ==> RecordAt(d, rs[i].0)
    decreases |rs|
  {
    if rs == [] then Ok(acc)
    else
      assert RecordAt(d, rs[0].0);
      match ParseEntry(names, d, rs[0].0, delta)
      case Err(e) => Err(e)
      case Ok(None) => ParseAll(names, d, rs[1..], delta, acc)
      case Ok(Some(e)) => if |acc| + 1 > MAX_ENTRIES then Err(TooBig) else ParseAll(names, d, rs[1..], delta, acc + [e])
  }

  datatype Opened = Opened(cd: Directory, entries: seq<ZipEntry>)

  /** `open`, up to building the index. */
  function Open(names: Names, file: seq<byte>): Result<Opened, ZipError> {
    match Locate(file)
    case Err(e) => Err(e)
    case Ok(cd) =>
      if cd.entries > MAX_ENTRIES then Err(TooBig)
      else if cd.start + cd.size > |file| then Err(Corrupt)
      else if cd.size > MAX_CENTRAL_DIRECTORY then Err(TooBig)
      else
        var d := file[cd.start..cd.start + cd.size];
        match ParseAll(names, d, RecordsFrom(d, 0), cd.delta, [])
        case Err(e) => Err(e)
        case Ok(entries) => Ok(Opened(cd, entries))
  }

  // ---- entries by their records alone --------------------------------------------------------------

  function EntryIn(names: Names, r: seq<byte>, delta: int): Result<Option<ZipEntry>, ZipError>
    requires WholeRecord(r)
  {
    ParseEntry(names, r, 0, delta)
  }

  /** The entries of these records, wherever they stand; `None` if one does not parse. */
  function EntriesIn(names: Names, recs: seq<seq<byte>>, delta: int): (r: Option<seq<ZipEntry>>)
    requires forall i :: 0 <= i < |recs| ==> WholeRecord(recs[i])
    ensures r.Some? ==> |r.value| <= |recs|
  {
    if recs == [] then Some([])
    else
      match (EntryIn(names, recs[0], delta), EntriesIn(names, recs[1..], delta))
      case (Ok(None), Some(rest)) => Some(rest)
      case (Ok(Some(e)), Some(rest)) => Some([e] + rest)
      case _ => None
  }

  predicate RecordsIn(d: seq<byte>, rs: seq<(nat, nat)>) {
    forall i :: 0 <= i < |rs| ==> rs[i].0 + rs[i].1 <= |d| && RecordAt(d, rs[i].0) && rs[i].1 == RecordLength(d, rs[i].0)
  }

  ghost predicate AllWhole(recs: seq<seq<byte>>) { forall i :: 0 <= i < |recs| ==> WholeRecord(recs[i]) }

  lemma SlicesWhole(d: seq<byte>, rs: seq<(nat, nat)>)
    requires RecordsIn(d, rs)
    ensures AllWhole(Slices(d, rs))
  {
    forall i | 0 <= i < |rs| ensures WholeRecord(Slices(d, rs)[i]) {
      SliceWhole(d, rs[i].0);
    }
  }

  lemma SliceWhole(d: seq<byte>, o: nat)
    requires RecordAt(d, o)
    ensures WholeRecord(d[o..o + RecordLength(d, o)])
  {
    hide U16At, U32At;
    RecordLocal(d, o, RecordLength(d, o));
  }

  /** What `open` makes of some records depends on their own bytes alone: it fails exactly
      when one of them does not parse or there are too many entries. */
  lemma {:induction false} ParsesRecords(names: Names, d: seq<byte>, rs: seq<(nat, nat)>, recs: seq<seq<byte>>, delta: int, acc: seq<ZipEntry>)
    requires RecordsIn(d, rs) && Slices(d, rs) == recs && AllWhole(recs) && |acc| <= MAX_ENTRIES
    ensures var r, es := ParseAll(names, d, rs, delta, acc), EntriesIn(names, recs, delta);
      && (r.Ok? <==> es.Some? && |acc| + |es.value| <= MAX_ENTRIES)
      && (r.Ok? ==> r.value == acc + es.value)
    decreases |rs|
  {
    hide ParseEntry, RecordLength, RecordAt, WholeRecord, EntryIn;
    if rs == [] {
      assert acc + [] == acc;
    } else {
      FirstParses(names, d, rs, recs, delta);
      assert Slices(d, rs[1..]) == recs[1..];
      var first := EntryIn(names, recs[0], delta);
      if first.Ok? && first.value.None? {
        ParsesRecords(names, d, rs[1..], recs[1..], delta, acc);
      } else if first.Ok? && |acc| < MAX_ENTRIES {
        var e := first.value.value;
        ParsesRecords(names, d, rs[1..], recs[1..], delta, acc + [e]);
        var rest := EntriesIn(names, recs[1..], delta);
        if rest.Some? { assert acc + [e] + rest.value == acc + ([e] + rest.value); }
      }
    }
  }

  lemma FirstParses(names: Names, d: seq<byte>, rs: seq<(nat, nat)>, recs: seq<seq<byte>>, delta: int)
    requires RecordsIn(d, rs) && rs != [] && Slices(d, rs) == recs && WholeRecord(recs[0])
    ensures RecordAt(d, rs[0].0) && EntryIn(names, recs[0], delta) == ParseEntry(names, d, rs[0].0, delta)
  {
    hide ParseEntry, RecordLength;
    ParseLocal(names, d, rs[0].0, delta);
    assert recs[0] == d[rs[0].0..rs[0].0 + rs[0].1];
  }

  lemma {:induction false} EntriesAppend(names: Names, a: seq<seq<byte>>, b: seq<seq<byte>>, delta: int)
    requires (forall i :: 0 <= i < |a| ==> WholeRecord(a[i])) && (forall i :: 0 <= i < |b| ==> WholeRecord(b[i]))
    requires EntriesIn(names, a, delta).Some? && EntriesIn(names, b, delta).Some?
    ensures EntriesIn(names, a + b, delta) == Some(EntriesIn(names, a, delta).value + EntriesIn(names, b, delta).value)
  {
    hide EntryIn, WholeRecord;
    var y := EntriesIn(names, b, delta).value;
    if a == [] {
      assert a + b == b && [] + y == y;
    } else {
      assert (a + b)[1..] == a[1..] + b && (a + b)[0] == a[0];
      EntriesAppend(names, a[1..], b, delta);
      var x := EntriesIn(names, a[1..], delta).value;
      var e := EntryIn(names, a[0], delta).value;
      if e.Some? { assert [e.value] + (x + y) == [e.value] + x + y; }
    }
  }

  /** Some of `b`, in its order. */
  ghost predicate Subsequence<T(!new)>(a: seq<T>, b: seq<T>) {
    if a == [] then true
    else if b == [] then false
    else (a[0] == b[0] && Subsequence(a[1..], b[1..])) || Subsequence(a, b[1..])
  }

  /** Leaving out records leaves out their entries, and changes no other. */
  lemma {:induction false} KeptEntries(names: Names, a: seq<seq<byte>>, b: seq<seq<byte>>, delta: int)
    requires Subsequence(a, b) && AllWhole(b) && EntriesIn(names, b, delta).Some?
    ensures AllWhole(a) && EntriesIn(names, a, delta).Some?
    ensures Subsequence(EntriesIn(names, a, delta).value, EntriesIn(names, b, delta).value)
    decreases |b|
  {
    hide EntryIn, WholeRecord;
    if a != [] {
      var rest := EntriesIn(names, b[1..], delta).value;
      if a[0] == b[0] && Subsequence(a[1..], b[1..]) {
        KeptEntries(names, a[1..], b[1..], delta);
        WholeCons(a);
        var kept := EntriesIn(names, a[1..], delta).value;
        var e := EntryIn(names, b[0], delta).value;
        if e.Some? { assert ([e.value] + kept)[1..] == kept && ([e.value] + rest)[1..] == rest; }
      } else {
        KeptEntries(names, a, b[1..], delta);
        var kept := EntriesIn(names, a, delta).value;
        var e := EntryIn(names, b[0], delta).value;
        if e.Some? { assert ([e.value] + rest)[1..] == rest; }
      }
    }
  }

  lemma WholeCons(a: seq<seq<byte>>)
    requires a != [] && WholeRecord(a[0]) && AllWhole(a[1..])
    ensures AllWhole(a)
  {
    hide WholeRecord;
    forall i | 0 <= i < |a| ensures WholeRecord(a[i]) {
      if i > 0 { assert a[i] == a[1..][i - 1]; }
    }
  }

  lemma RecordsRest(d: seq<byte>, rs: seq<(nat, nat)>)
    requires rs != []
    ensures RecordsIn(d, rs) <==> RecordsIn(d, rs[..1]) && RecordsIn(d, rs[1..])
    ensures RecordsIn(d, rs) ==> |Slices(d, rs)| > 0 && Slices(d, rs)[0] == Slices(d, rs[..1])[0] && Slices(d, rs)[1..] == Slices(d, rs[1..])
  {
    hide RecordAt, RecordLength;
    if RecordsIn(d, rs[..1]) && RecordsIn(d, rs[1..]) {
      forall i | 0 <= i < |rs| ensures rs[i].0 + rs[i].1 <= |d| && RecordAt(d, rs[i].0) && rs[i].1 == RecordLength(d, rs[i].0) {
        assert rs[i] == if i == 0 then rs[..1][0] else rs[1..][i - 1];
      }
    }
  }

  lemma {:induction false} KeptSlices(d: seq<byte>, a: seq<(nat, nat)>, b: seq<(nat, nat)>)
    requires Subsequence(a, b) && RecordsIn(d, b)
    ensures RecordsIn(d, a) && Subsequence(Slices(d, a), Slices(d, b))
    decreases |b|
  {
    if a != [] {
      RecordsRest(d, a);
      RecordsRest(d, b);
      hide RecordsIn, Slices;
      if a[0] == b[0] && Subsequence(a[1..], b[1..]) {
        assert a[..1] == b[..1];
        KeptSlices(d, a[1..], b[1..]);
      } else {
        KeptSlices(d, a, b[1..]);
      }
    }
  }

  // ---- the new entries ---------------------------------------------------------------------------------

  /** The new entries, each at the place its local header was written to. */
  function AddedEntries(names: Names, added: seq<Measured>, at: seq<nat>): seq<ZipEntry>
    requires |at| == |added| && forall i :: 0 <= i < |added| ==> Accepted(names, added[i])
  {
    seq(|added|, i requires 0 <= i < |added| => AddedEntry(names, added[i], at[i]))
  }

  ghost predicate AllValid(names: Names, added: seq<Measured>) {
    forall i :: 0 <= i < |added| ==> ValidMeasured(added[i]) && Accepted(names, added[i])
  }

  /** No size is exactly at the limit beside an offset above it. */
  ghost predicate NoneMisread(added: seq<Measured>, at: seq<nat>, delta: int) {
    |at| == |added| && forall i :: 0 <= i < |added| ==> at[i] >= delta && !Misread(added[i], at[i] - delta)
  }

  /** Every new record parses, to the entry it was written for unless that is misread. */
  lemma {:induction false} AddedEntriesParse(names: Names, file: seq<byte>, delta: int, at: seq<nat>, added: seq<Measured>, records: seq<seq<byte>>)
    requires AllPlaced(file, delta, at, added, records) && |records| == |added| && AllValid(names, added) && |file| - delta < TWO_63
    ensures AllWhole(records)
    ensures var es := EntriesIn(names, records, delta);
      es.Some? && |es.value| == |records| && (es.value == AddedEntries(names, added, at) <==> NoneMisread(added, at, delta))
    decreases |at|
  {
    hide WholeRecord, IsCentralRecord, Accepted, Misread, AddedEntry, ValidMeasured, EntryAt, EntryIn;
    if records != [] {
      assert Placed(file, delta, at[0], added[0], records[0]);
      OneAdded(names, file, delta, at[0], added[0], records[0]);
      RestPlaced(names, file, delta, at, added, records);
      AddedEntriesParse(names, file, delta, at[1..], added[1..], records[1..]);
      RestMisread(added, at, delta);
      var e, rest := EntryIn(names, records[0], delta).value.value, EntriesIn(names, records[1..], delta).value;
      var first, others := AddedEntry(names, added[0], at[0]), AddedEntries(names, added[1..], at[1..]);
      assert AddedEntries(names, added, at) == [first] + others;
      ConsEqual(e, rest, first, others);
    }
  }

  lemma ConsEqual(a: ZipEntry, s: seq<ZipEntry>, b: ZipEntry, t: seq<ZipEntry>)
    ensures [a] + s == [b] + t <==> a == b && s == t
  {
    assert ([a] + s)[0] == a && ([b] + t)[0] == b && ([a] + s)[1..] == s && ([b] + t)[1..] == t;
  }

  lemma RestMisread(added: seq<Measured>, at: seq<nat>, delta: int)
    requires |at| == |added| > 0
    ensures NoneMisread(added, at, delta) <==>
      at[0] >= delta && !Misread(added[0], at[0] - delta) && NoneMisread(added[1..], at[1..], delta)
  {
    hide Misread;
    var m, a := added[1..], at[1..];
    if at[0] >= delta && !Misread(added[0], at[0] - delta) && NoneMisread(m, a, delta) {
      forall i | 0 <= i < |added| ensures at[i] >= delta && !Misread(added[i], at[i] - delta) {
        if i > 0 { assert at[i] == a[i - 1] && added[i] == m[i - 1]; }
      }
    }
    if NoneMisread(added, at, delta) {
      forall i | 0 <= i < |m| ensures a[i] >= delta && !Misread(m[i], a[i] - delta) {
        assert a[i] == at[i + 1] && m[i] == added[i + 1];
      }
    }
  }

  lemma OneAdded(names: Names, file: seq<byte>, delta: int, at: nat, m: Measured, record: seq<byte>)
    requires Placed(file, delta, at, m, record) && ValidMeasured(m) && Accepted(names, m) && |file| - delta < TWO_63
    ensures WholeRecord(record) && EntryIn(names, record, delta).Ok? && EntryIn(names, record, delta).value.Some?
    ensures EntryIn(names, record, delta).value.value == AddedEntry(names, m, at) <==> !Misread(m, at - delta)
  {
    hide IsCentralRecord, Accepted, Misread, AddedEntry, ValidMeasured, ParseEntry, RecordLength, RecordAt, IsLocalHeader, Payload;
    AddedParses(names, record, m, at - delta, delta);
  }

  lemma RestPlaced(names: Names, file: seq<byte>, delta: int, at: seq<nat>, added: seq<Measured>, records: seq<seq<byte>>)
    requires AllPlaced(file, delta, at, added, records) && AllValid(names, added) && records != []
    ensures AllPlaced(file, delta, at[1..], added[1..], records[1..]) && AllValid(names, added[1..])
  {
    hide WholeRecord, Placed, Accepted, ValidMeasured;
    var a, m, r := at[1..], added[1..], records[1..];
    forall i | 0 <= i < |a| ensures Placed(file, delta, a[i], m[i], r[i]) && WholeRecord(r[i]) {
      assert a[i] == at[i + 1] && m[i] == added[i + 1] && r[i] == records[i + 1];
    }
  }

  // ---- the rewritten archive -----------------------------------------------------------------------------

  /** The end of the rewritten archive can be told for what it is. */
  predicate Findable(file: seq<byte>, entries: nat, size: nat, offset: nat) {
    NeedsZip64(entries, size, offset) || (!ChanceLocator(file) && size != U32_MAX && offset != U32_MAX)
  }

  /** The directory just written is found where it is, with the shift unchanged, if and
      only if its end can be told for what it is. */
  lemma Relocated(file: seq<byte>, base: seq<byte>, delta: int, kept: seq<seq<byte>>, added: seq<Measured>,
                  body: seq<byte>, at: seq<nat>, records: seq<seq<byte>>, end: seq<byte>)
    requires Rewritten(file, base, delta, kept, added, body, at, records, end)
    requires |file| < TWO_63 && |body| - delta < TWO_63 && |kept| + |records| < TWO_63
    ensures var dir, n := Concat(kept + records), |kept| + |records|;
      Locate(file) == Ok(Directory(|body|, |dir|, n, delta)) <==> Findable(file, n, |dir|, |body| - delta)
  {
    hide AllPlaced, Locate, EocdFields, Concat, IsEnd, ChanceLocator;
    var dir := Concat(kept + records);
    var n, offset := |kept| + |records|, |body| - delta;
    assert file[|body| + |dir|..] == end;
    if NeedsZip64(n, |dir|, offset) {
      Zip64Found(file, end, |body|, |dir|, n, delta, |body| + |dir|);
    } else {
      PlainIs(end, n, |dir|, offset, |body| + |dir|);
      assert file[|file| - EOCD_SIZE..] == end;
      PlainFound(file, |body|, |dir|, n, delta);
    }
  }

  lemma PlainIs(e: seq<byte>, entries: nat, size: nat, offset: nat, position: nat)
    requires !NeedsZip64(entries, size, offset) && IsEnd(e, entries, size, offset, position)
    ensures EocdFields(e, entries, size, offset) && |e| == EOCD_SIZE
  {}

  // ---- open, rewrite, open ---------------------------------------------------------------------------------

  /** An opened archive can be rewritten: its directory lies in the file, and no recorded
      offset is negative. */
  lemma OpenedFits(names: Names, file: seq<byte>)
    requires Open(names, file).Ok?
    ensures var cd := Open(names, file).value.cd; cd.start + cd.size <= |file| && cd.delta <= cd.start
  {
    hide FindEocd, U16At, U32At, U64At, ParseAll, RecordsFrom;
  }

  /** The bytes of an opened archive's directory. */
  function OldDirectory(names: Names, file: seq<byte>): seq<byte>
    requires Open(names, file).Ok?
  {
    OpenedFits(names, file);
    var cd := Open(names, file).value.cd;
    file[cd.start..cd.start + cd.size]
  }

  lemma AreRecords(d: seq<byte>)
    ensures RecordsIn(d, RecordsFrom(d, 0))
  {
    hide U16At, U32At;
  }

  /** An archive that opens lists the entries of its records, every one of which parses. */
  lemma OpenedEntries(names: Names, file: seq<byte>)
    requires Open(names, file).Ok?
    ensures var d, z := OldDirectory(names, file), Open(names, file).value;
      && RecordsIn(d, RecordsFrom(d, 0)) && AllWhole(Slices(d, RecordsFrom(d, 0)))
      && EntriesIn(names, Slices(d, RecordsFrom(d, 0)), z.cd.delta) == Some(z.entries)
  {
    hide Locate, ParseAll, RecordsFrom, RecordsIn, EntriesIn, AllWhole, Slices;
    var d, z := OldDirectory(names, file), Open(names, file).value;
    AreRecords(d);
    SlicesWhole(d, RecordsFrom(d, 0));
    ParsesRecords(names, d, RecordsFrom(d, 0), Slices(d, RecordsFrom(d, 0)), z.cd.delta, []);
    assert [] + z.entries == z.entries;
    NoneFirst(EntriesIn(names, Slices(d, RecordsFrom(d, 0)), z.cd.delta));
  }

  lemma NoneFirst(es: Option<seq<ZipEntry>>)
    ensures es.Some? ==> [] + es.value == es.value
  {}

  /** What a file opens to once its directory is found and made of these records. */
  lemma OpensTo(names: Names, file: seq<byte>, cd: Directory, recs: seq<seq<byte>>)
    requires Locate(file) == Ok(cd) && cd.start + cd.size <= |file| && file[cd.start..cd.start + cd.size] == Concat(recs)
    requires AllWhole(recs) && EntriesIn(names, recs, cd.delta).Some? && |recs| == cd.entries
    ensures Open(names, file) == if cd.entries > MAX_ENTRIES || cd.size > MAX_CENTRAL_DIRECTORY then Err(TooBig)
                                 else Ok(Opened(cd, EntriesIn(names, recs, cd.delta).value))
  {
    hide Locate, ParseAll, RecordsFrom, RecordsIn, EntriesIn, Concat, WholeRecord, Slices;
    var d := Concat(recs);
    assert d[0..] == d;
    RecordsOfConcat(d, 0, recs);
    AreRecords(d);
    if cd.entries <= MAX_ENTRIES {
      ParsesRecords(names, d, RecordsFrom(d, 0), recs, cd.delta, []);
      NoneFirst(EntriesIn(names, recs, cd.delta));
    }
  }

  /** The conditions on which a rewritten archive opens to what it should: its end can be
      told for what it is, no new record is misread, and it is within the limits of the
      reader, which the writer does not look at. */
  ghost predicate Reopens(file: seq<byte>, delta: int, kept: seq<seq<byte>>, added: seq<Measured>, body: seq<byte>, at: seq<nat>, records: seq<seq<byte>>)
    requires |body| >= delta
  {
    var dir, n := Concat(kept + records), |kept| + |records|;
    && Findable(file, n, |dir|, |body| - delta) && NoneMisread(added, at, delta)
    && |dir| <= 67_108_864 && n <= 500_000
  }

  lemma RewrittenOpens(names: Names, file: seq<byte>, base: seq<byte>, delta: int, kept: seq<seq<byte>>, added: seq<Measured>,
                       body: seq<byte>, at: seq<nat>, records: seq<seq<byte>>, end: seq<byte>)
    requires Rewritten(file, base, delta, kept, added, body, at, records, end)
    requires |file| < TWO_63 && |body| - delta < TWO_63
    requires AllWhole(kept) && EntriesIn(names, kept, delta).Some? && AllValid(names, added)
    ensures |at| == |added|
    ensures var dir, n := Concat(kept + records), |kept| + |records|;
      && (Open(names, file) == Ok(Opened(Directory(|body|, |dir|, n, delta), EntriesIn(names, kept, delta).value + AddedEntries(names, added, at)))
          <==> Reopens(file, delta, kept, added, body, at, records))
      && (Findable(file, n, |dir|, |body| - delta) && (n > 500_000 || |dir| > 67_108_864) ==> Open(names, file) == Err(TooBig))
  {
    hide Locate, IsEnd, Concat, Findable, WholeRecord, EntriesIn, AddedEntries, Placed, NoneMisread, ParseAll, RecordsFrom;
    var dir, n := Concat(kept + records), |kept| + |records|;
    var cd := Directory(|body|, |dir|, n, delta);
    AddedWhole(body, delta, at, added, records);
    CountFits(kept + records);
    Relocated(file, base, delta, kept, added, body, at, records, end);
    AddedEntriesParse(names, body, delta, at, added, records);
    EntriesAppend(names, kept, records, delta);
    if Locate(file) == Ok(cd) {
      assert file[|body|..|body| + |dir|] == dir;
      OpensTo(names, file, cd, kept + records);
      SameTail(EntriesIn(names, kept, delta).value, EntriesIn(names, records, delta).value, AddedEntries(names, added, at));
    } else {
      OpenLocates(names, file);
    }
  }

  lemma AddedWhole(file: seq<byte>, delta: int, at: seq<nat>, added: seq<Measured>, records: seq<seq<byte>>)
    requires AllPlaced(file, delta, at, added, records)
    ensures AllWhole(records)
  {}

  lemma {:induction false} CountFits(recs: seq<seq<byte>>)
    requires AllWhole(recs)
    ensures |recs| <= |Concat(recs)|
  {
    hide RecordAt;
    if recs != [] {
      WholeIsLong(recs[0]);
      CountFits(recs[1..]);
    }
  }

  lemma WholeIsLong(r: seq<byte>)
    requires WholeRecord(r)
    ensures |r| > 0
  {}

  lemma SameTail(a: seq<ZipEntry>, b: seq<ZipEntry>, c: seq<ZipEntry>)
    ensures a + b == a + c <==> b == c
  {
    assert (a + b)[|a|..] == b && (a + c)[|a|..] == c;
  }

  lemma OpenLocates(names: Names, file: seq<byte>)
    ensures Open(names, file).Ok? ==> Locate(file) == Ok(Open(names, file).value.cd)
  {
    hide Locate, ParseAll, RecordsFrom;
  }

  /** Open an archive, rewrite it keeping some of its records, and open it again: the bytes
      before the old directory are as they were, the kept entries are entries of the first
      opening, in its order, and the second opening lists just them and then the new ones,
      each at its own local header, if and only if `Reopens`. */
  lemma Reopened(names: Names, prior: seq<byte>, kept: seq<(nat, nat)>, file: seq<byte>, added: seq<Measured>,
                 body: seq<byte>, at: seq<nat>, records: seq<seq<byte>>, end: seq<byte>)
    requires Open(names, prior).Ok? && RecordsIn(OldDirectory(names, prior), kept)
    requires Subsequence(kept, RecordsFrom(OldDirectory(names, prior), 0))
    requires var cd := Open(names, prior).value.cd;
      && cd.start <= |prior| && Rewritten(file, prior[..cd.start], cd.delta, Slices(OldDirectory(names, prior), kept), added, body, at, records, end)
      && |file| < TWO_63 && |body| - cd.delta < TWO_63
    requires AllValid(names, added)
    ensures var z, recs := Open(names, prior).value, Slices(OldDirectory(names, prior), kept);
      && AllWhole(recs) && |at| == |added| && prior[..z.cd.start] <= file
      && var es := EntriesIn(names, recs, z.cd.delta);
      && es.Some? && Subsequence(es.value, z.entries)
      && var dir, n := Concat(recs + records), |kept| + |records|;
      && (Open(names, file) == Ok(Opened(Directory(|body|, |dir|, n, z.cd.delta), es.value + AddedEntries(names, added, at)))
          <==> Reopens(file, z.cd.delta, recs, added, body, at, records))
      && (Findable(file, n, |dir|, |body| - z.cd.delta) && (n > 500_000 || |dir| > 67_108_864) ==> Open(names, file) == Err(TooBig))
  {
    hide Open, OldDirectory, RecordsFrom, Slices, AllWhole, EntriesIn, AddedEntries, Subsequence, Reopens, Findable, AllValid, Concat, AllPlaced, IsEnd;
    var d, z := OldDirectory(names, prior), Open(names, prior).value;
    OpenedEntries(names, prior);
    KeptSlices(d, kept, RecordsFrom(d, 0));
    var recs := Slices(d, kept);
    KeptEntries(names, recs, Slices(d, RecordsFrom(d, 0)), z.cd.delta);
    RewrittenOpens(names, file, prior[..z.cd.start], z.cd.delta, recs, added, body, at, records, end);
  }

  // ---- an archive that is not found again ---------------------------------------------------------------------

  /** A directory of one record, whose comment happens to start as a zip64 locator does. */
  function ChanceExample(): seq<byte> {
    [0x50, 0x4b, 0x01, 0x02] + Zeros(28) + [20, 0] + Zeros(12)
    + [0x50, 0x4b, 0x06, 0x07] + Zeros(16)
    + [0x50, 0x4b, 0x05, 0x06] + Zeros(4) + [1, 0, 1, 0] + [66, 0, 0, 0] + Zeros(6)
  }

  lemma ExampleDirectory()
    ensures var file := ChanceExample();
      |file| == 88 && U32At(file, 0) == CENTRAL_HEADER_SIG && U16At(file, 28) == 0 && U16At(file, 30) == 0 && U16At(file, 32) == 20
  {
    var file := ChanceExample();
    assert |file| == 88;
    assert file[0] == 0x50 && file[1] == 0x4b && file[2] == 1 && file[3] == 2 && file[28] == 0 && file[29] == 0 && file[30] == 0 && file[31] == 0;
    assert file[32] == 20 && file[33] == 0;
  }

  lemma ExampleLocator()
    ensures var file := ChanceExample(); |file| == 88 && U32At(file, 46) == ZIP64_LOCATOR_SIG && U64At(file, 54) == 0
  {
    var file := ChanceExample();
    assert |file| == 88;
    assert file[46] == 0x50 && file[47] == 0x4b && file[48] == 6 && file[49] == 7;
    assert forall i :: 54 <= i < 62 ==> file[i] == 0;
  }

  lemma ExampleEnd()
    ensures var file := ChanceExample(); |file| == 88 && EocdFields(file[66..], 1, 66, 0)
  {
    var file := ChanceExample();
    assert |file| == 88;
    var e: seq<byte> := [0x50, 0x4b, 0x05, 0x06, 0, 0, 0, 0, 1, 0, 1, 0, 66, 0, 0, 0, 0, 0, 0, 0, 0, 0];
    assert file[66..] == e;
    hide ChanceExample;
  }

  /** It is what a rewrite leaves that kept that one record, and it is refused. */
  lemma ChanceLocatorRefused()
    ensures var file := ChanceExample();
      && |file| == 88 && WholeRecord(file[..66]) && Rewritten(file, [], 0, [file[..66]], [], [], [], [], file[66..])
      && ChanceLocator(file) && Locate(file) == Err(Corrupt)
  {
    hide FindEocd, U16At, U32At, U64At, EocdFields, Zeros, ChanceExample;
    var file := ChanceExample();
    ExampleDirectory();
    ExampleLocator();
    ExampleEnd();
    FindsLast(file, 1, 66, 0);
    assert file[0..] == file;
    ExampleRewritten(file);
  }

  lemma ExampleRewritten(file: seq<byte>)
    requires |file| == 88 && EocdFields(file[66..], 1, 66, 0) && RecordAt(file, 0) && RecordLength(file, 0) == 66
    ensures WholeRecord(file[..66]) && Rewritten(file, [], 0, [file[..66]], [], [], [], [], file[66..])
  {
    hide U16At, U32At, EocdFields;
    SliceWhole(file, 0);
    assert file[0..66] == file[..66];
    var kept := [file[..66]];
    assert kept + [] == kept && kept[1..] == [] && Concat([]) == [];
    assert Concat(kept) == kept[0] + Concat(kept[1..]);
    assert [] + file[..66] + file[66..] == file;
  }
}
