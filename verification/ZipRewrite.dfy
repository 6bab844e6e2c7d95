/** `write_tail`: new entries, the directory with the kept and the new records, and the
    end records, from the old directory's start on. */
module ZipRewrite {
  import opened Bytes
  import opened ZipBytes
  import opened ZipRecords
  import opened ZipParse
  import opened ZipTail

  const TAIL_BUFFER := 32 * 1024 * 1024

  // ---- the file and its writer --------------------------------------------------------------------

  /** The file an archive is in. A write may fail, with part of it done. */
  class Archive {
    var content: seq<byte>
    /** Some write has failed. */
    ghost var failed: bool

    constructor (bytes: seq<byte>)
      ensures content == bytes && !failed
    {
      content, failed := bytes, false;
    }

    /** `write_section` */
    method WriteSection(pos: nat, bytes: seq<byte>) returns (ok: bool)
      requires pos <= |content|
      modifies this
      ensures pos <= |content| && content[..pos] == old(content)[..pos] && failed == (old(failed) || !ok)
      ensures ok ==> |content| >= pos + |bytes| && content[..pos + |bytes|] == old(content)[..pos] + bytes
    {
      ok := *;
      var done: nat := |bytes|;
      if !ok {
        done := *;
        done := if done > |bytes| then 0 else done;
        failed := true;
      }
      var rest := if pos + done < |content| then content[pos + done..] else [];
      content := content[..pos] + bytes[..done] + rest;
    }

    method Truncate(n: nat) returns (ok: bool)
      requires n <= |content|
      modifies this
      ensures content == (if ok then old(content)[..n] else old(content)) && failed == (old(failed) || !ok)
    {
      ok := *;
      if ok {
        content := content[..n];
      } else {
        failed := true;
      }
    }
  }

  /** A step of the writer leaves alone what lies before where it stood. */
  ghost predicate Keeps(before: seq<byte>, pos: nat, after: seq<byte>, pos': nat) {
    pos <= pos' <= |after| && pos <= |before| && after[..pos] == before[..pos]
  }

  lemma KeepsOn(a: seq<byte>, p: nat, b: seq<byte>, q: nat, c: seq<byte>, r: nat)
    requires Keeps(a, p, b, q) && Keeps(b, q, c, r)
    ensures Keeps(a, p, c, r)
  {
    assert c[..p] == c[..q][..p] && b[..p] == b[..q][..p];
  }

  class TailWriter {
    const file: Archive
    var pos: nat
    var buf: seq<byte>

    ghost predicate Valid()
      reads this, file
    {
      pos <= |file.content|
    }

    /** The file as it will be up to where the writer stands. */
    ghost function Written(): seq<byte>
      requires Valid()
      reads this, file
    {
      file.content[..pos] + buf
    }

    constructor (file: Archive, pos: nat)
      requires pos <= |file.content|
      ensures Valid() && this.file == file && Written() == file.content[..pos] && this.pos == pos && buf == []
    {
      this.file, this.pos, this.buf := file, pos, [];
      new;
      assert Written() == file.content[..pos];
    }

    method Push(bytes: seq<byte>)
      requires Valid()
      modifies this`buf
      ensures Valid() && Written() == old(Written()) + bytes
    {
      buf := buf + bytes;
      assert Written() == old(Written()) + bytes;
    }

    method Flush() returns (ok: bool)
      requires Valid()
      modifies this, file
      ensures Valid() && Keeps(old(file.content), old(pos), file.content, pos) && file.failed == (old(file.failed) || !ok)
      ensures ok ==> Written() == old(Written()) && buf == [] && pos == |Written()|
    {
      ok := true;
      if buf != [] {
        ok := file.WriteSection(pos, buf);
        if !ok {
          return;
        }
        assert file.content[..pos] == file.content[..pos + |buf|][..pos];
        pos := pos + |buf|;
        buf := [];
      }
      assert Written() == old(Written());
    }

    /** As a sink, flushing whenever the buffer is full. */
    method Accept(bytes: seq<byte>) returns (ok: bool)
      requires Valid()
      modifies this, file
      ensures Valid() && Keeps(old(file.content), old(pos), file.content, pos) && file.failed == (old(file.failed) || !ok)
      ensures ok ==> Written() == old(Written()) + bytes
    {
      Push(bytes);
      ok := true;
      if |buf| >= TAIL_BUFFER {
        ok := Flush();
      }
    }

    method Position() returns (n: nat)
      requires Valid()
      ensures n == |Written()|
    {
      n := pos + |buf|;
    }
  }

  // ---- concatenated records -------------------------------------------------------------------------

  function Concat(parts: seq<seq<byte>>): seq<byte> {
    if parts == [] then [] else parts[0] + Concat(parts[1..])
  }

  lemma {:induction false} ConcatAppend(parts: seq<seq<byte>>, last: seq<byte>)
    ensures Concat(parts + [last]) == Concat(parts) + last
  {
    if parts == [] {
      assert (parts + [last])[1..] == [];
    } else {
      assert (parts + [last])[1..] == parts[1..] + [last];
      ConcatAppend(parts[1..], last);
    }
  }

  predicate WholeRecord(r: seq<byte>) { RecordAt(r, 0) && RecordLength(r, 0) == |r| }

  function Slices(d: seq<byte>, rs: seq<(nat, nat)>): (s: seq<seq<byte>>)
    requires forall i :: 0 <= i < |rs| ==> rs[i].0 + rs[i].1 <= |d|
    ensures |s| == |rs|
  {
    seq(|rs|, i requires 0 <= i < |rs| => d[rs[i].0..rs[i].0 + rs[i].1])
  }

  /** A record at the front of what is left of the directory is the next one found. */
  lemma NextRecord(d: seq<byte>, pos: nat, r: seq<byte>)
    requires WholeRecord(r) && pos + |r| <= |d| && d[pos..pos + |r|] == r
    ensures RecordsFrom(d, pos) == [(pos, |r|)] + RecordsFrom(d, pos + |r|)
  {
    hide U16At, U32At;
    RecordLocal(d, pos, |r|);
  }

  lemma SlicesStep(d: seq<byte>, o: nat, n: nat, rs: seq<(nat, nat)>)
    requires o + n <= |d| && forall i :: 0 <= i < |rs| ==> rs[i].0 + rs[i].1 <= |d|
    ensures Slices(d, [(o, n)] + rs) == [d[o..o + n]] + Slices(d, rs)
    ensures Slices(d, []) == []
  {}

  lemma NoRecord(d: seq<byte>)
    ensures RecordsFrom(d, |d|) == []
  {}

  /** The records of a directory made of whole records are those records. */
  lemma {:induction false} RecordsOfConcat(d: seq<byte>, pos: nat, recs: seq<seq<byte>>)
    requires pos <= |d| && d[pos..] == Concat(recs) && forall i :: 0 <= i < |recs| ==> WholeRecord(recs[i])
    ensures var rs := RecordsFrom(d, pos);
      (forall i :: 0 <= i < |rs| ==> rs[i].0 + rs[i].1 <= |d|) && Slices(d, rs) == recs
    decreases |recs|
  {
    hide WholeRecord, RecordsFrom, RecordAt, RecordLength, Slices;
    if recs == [] {
      NoRecord(d);
      SlicesStep(d, 0, 0, []);
    } else {
      var r, rest := recs[0], recs[1..];
      assert d[pos..pos + |r|] == d[pos..][..|r|] == r;
      NextRecord(d, pos, r);
      assert d[pos + |r|..] == d[pos..][|r|..] == Concat(rest);
      RecordsOfConcat(d, pos + |r|, rest);
      SlicesStep(d, pos, |r|, RecordsFrom(d, pos + |r|));
      assert recs == [r] + rest;
    }
  }

  // ---- write_tail ---------------------------------------------------------------------------------------

  /** What follows an entry's local header. */
  function Payload(m: Measured): seq<byte> { if m.isDirectory then [] else Concat(m.data) }

  /** The entry's local header stands at `at`, its data of the recorded size behind it. */
  ghost predicate EntryAt(file: seq<byte>, at: nat, h: seq<byte>, m: Measured) {
    && IsLocalHeader(h, m) && |Payload(m)| == m.compressedSize
    && at + |h| + |Payload(m)| <= |file| && file[at..at + |h|] == h && file[at + |h|..at + |h| + |Payload(m)|] == Payload(m)
  }

  /** A new entry in its place, and a record that points there. */
  ghost predicate Placed(file: seq<byte>, delta: int, at: nat, m: Measured, record: seq<byte>) {
    at >= delta && (exists h :: EntryAt(file, at, h, m)) && IsCentralRecord(record, m, at - delta)
  }

  lemma EntryAtGrows(file: seq<byte>, more: seq<byte>, at: nat, h: seq<byte>, m: Measured)
    requires EntryAt(file, at, h, m) && file <= more
    ensures EntryAt(more, at, h, m)
  {
    hide IsLocalHeader, Payload;
    assert more[..|file|] == file;
    assert more[at..at + |h|] == file[at..at + |h|];
    assert more[at + |h|..at + |h| + |Payload(m)|] == file[at + |h|..at + |h| + |Payload(m)|];
  }

  lemma PlacedGrows(file: seq<byte>, more: seq<byte>, delta: int, at: nat, m: Measured, record: seq<byte>)
    requires Placed(file, delta, at, m, record) && file <= more
    ensures Placed(more, delta, at, m, record)
  {
    hide IsCentralRecord, EntryAt;
    var h :| EntryAt(file, at, h, m);
    EntryAtGrows(file, more, at, h, m);
  }

  lemma Place(base: seq<byte>, h: seq<byte>, delta: int, m: Measured, record: seq<byte>)
    requires IsLocalHeader(h, m) && |Payload(m)| == m.compressedSize && |base| >= delta && IsCentralRecord(record, m, |base| - delta)
    ensures Placed(base + h + Payload(m), delta, |base|, m, record)
  {
    hide IsLocalHeader, IsCentralRecord, Payload;
    assert EntryAt(base + h + Payload(m), |base|, h, m);
  }

  method StreamPieces(w: TailWriter, pieces: seq<seq<byte>>) returns (ok: bool)
    requires w.Valid()
    modifies w, w.file
    ensures w.Valid() && Keeps(old(w.file.content), old(w.pos), w.file.content, w.pos) && w.file.failed == (old(w.file.failed) || !ok)
    ensures ok ==> w.Written() == old(w.Written()) + Concat(pieces)
  {
    for i := 0 to |pieces|
      invariant w.Valid() && Keeps(old(w.file.content), old(w.pos), w.file.content, w.pos) && w.file.failed == old(w.file.failed)
      invariant w.Written() + Concat(pieces[i..]) == old(w.Written()) + Concat(pieces)
    {
      ghost var before, content, pos := w.Written(), w.file.content, w.pos;
      ok := w.Accept(pieces[i]);
      KeepsOn(old(w.file.content), old(w.pos), content, pos, w.file.content, w.pos);
      if !ok {
        return;
      }
      assert pieces[i..][1..] == pieces[i + 1..];
      assert before + Concat(pieces[i..]) == w.Written() + Concat(pieces[i + 1..]);
    }
    assert w.Written() + [] == w.Written();
    ok := true;
  }

  /** Streaming the entry now gives as many bytes as measuring it did. */
  predicate Streams(m: Measured) { m.isDirectory || (m.readable && |Concat(m.data)| == m.compressedSize) }

  /** The body of the loop over the new entries. It succeeds just when no write fails and
      the entry is still what was measured. */
  method AddEntry(w: TailWriter, m: Measured, delta: int) returns (r: Result<seq<byte>, ZipError>)
    requires w.Valid() && ValidMeasured(m) && |w.Written()| >= delta && !w.file.failed
    modifies w, w.file
    ensures w.Valid() && Keeps(old(w.file.content), old(w.pos), w.file.content, w.pos)
    ensures r.Ok? <==> Streams(m) && !w.file.failed
    ensures w.file.failed <==> r == Err(WriteFailed)
    ensures r.Ok? ==> old(w.Written()) <= w.Written() && WholeRecord(r.value) && Placed(w.Written(), delta, |old(w.Written())|, m, r.value)
  {
    hide IsLocalHeader, IsCentralRecord, Concat, WholeRecord, Placed, ValidMeasured;
    ghost var base := w.Written();
    var at := w.Position();
    var record := CentralRecord(m, at - delta);
    NewIsWhole(record, m, at - delta);
    var h := LocalHeader(m);
    w.Push(h);
    if m.isDirectory {
      DirectoryIsEmpty(m);
    } else {
      var dataStart := w.Position();
      var ok := StreamPieces(w, m.data);
      if !ok {
        return Err(WriteFailed);
      }
      if !m.readable {
        return Err(SourceFailed);
      }
      var now := w.Position();
      if now - dataStart != m.compressedSize {
        return Err(ChangedWhileAdded);
      }
    }
    assert w.Written() == base + h + Payload(m);
    Place(base, h, delta, m, record);
    r := Ok(record);
  }

  lemma DirectoryIsEmpty(m: Measured)
    requires ValidMeasured(m) && m.isDirectory
    ensures m.compressedSize == 0
  {}

  lemma NewIsWhole(r: seq<byte>, m: Measured, offset: nat)
    requires IsCentralRecord(r, m, offset)
    ensures WholeRecord(r)
  {
    hide U16At, U32At, ExtraFields;
  }

  ghost predicate AllPlaced(file: seq<byte>, delta: int, at: seq<nat>, added: seq<Measured>, records: seq<seq<byte>>) {
    |at| == |records| <= |added| && forall i :: 0 <= i < |at| ==> Placed(file, delta, at[i], added[i], records[i]) && WholeRecord(records[i])
  }

  lemma AllPlacedGrows(file: seq<byte>, more: seq<byte>, delta: int, at: seq<nat>, added: seq<Measured>, records: seq<seq<byte>>)
    requires AllPlaced(file, delta, at, added, records) && file <= more
    ensures AllPlaced(more, delta, at, added, records)
  {
    hide Placed, WholeRecord;
    forall i | 0 <= i < |at| ensures Placed(more, delta, at[i], added[i], records[i]) {
      PlacedGrows(file, more, delta, at[i], added[i], records[i]);
    }
  }

  /** The archive after a rewrite: everything before the old directory as it was, each new
      entry in its place, then the directory of the kept and the new records, then its end. */
  ghost predicate Rewritten(file: seq<byte>, base: seq<byte>, delta: int, kept: seq<seq<byte>>, added: seq<Measured>,
                            body: seq<byte>, at: seq<nat>, records: seq<seq<byte>>, end: seq<byte>) {
    var dir := Concat(kept + records);
    && base <= body && |body| >= delta && |records| == |added| && AllPlaced(body, delta, at, added, records)
    && file == body + dir + end
    && IsEnd(end, |kept| + |records|, |dir|, |body| - delta, |body| + |dir|)
  }

  /** The loop of `write_tail` over the new entries. */
  method AddEntries(w: TailWriter, added: seq<Measured>, delta: int) returns (r: Result<seq<seq<byte>>, ZipError>, ghost at: seq<nat>)
    requires w.Valid() && |w.Written()| >= delta && !w.file.failed
    requires forall i :: 0 <= i < |added| ==> ValidMeasured(added[i])
    modifies w, w.file
    ensures w.Valid() && Keeps(old(w.file.content), old(w.pos), w.file.content, w.pos)
    ensures r.Ok? <==> (forall i :: 0 <= i < |added| ==> Streams(added[i])) && !w.file.failed
    ensures w.file.failed <==> r == Err(WriteFailed)
    ensures r.Ok? ==> old(w.Written()) <= w.Written() && |r.value| == |added| && AllPlaced(w.Written(), delta, at, added, r.value)
  {
    hide ValidMeasured, AllPlaced, Placed, WholeRecord, Streams;
    var records := [];
    at := [];
    NonePlaced(w.Written(), delta, added);
    for i := 0 to |added|
      invariant w.Valid() && old(w.Written()) <= w.Written() && !w.file.failed
      invariant Keeps(old(w.file.content), old(w.pos), w.file.content, w.pos)
      invariant |records| == |at| == i && AllPlaced(w.Written(), delta, at, added, records)
      invariant forall k :: 0 <= k < i ==> Streams(added[k])
    {
      ghost var before, content, pos := w.Written(), w.file.content, w.pos;
      var record := AddEntry(w, added[i], delta);
      KeepsOn(old(w.file.content), old(w.pos), content, pos, w.file.content, w.pos);
      if record.Err? {
        return Err(record.error), at;
      }
      AllPlacedGrows(before, w.Written(), delta, at, added, records);
      MorePlaced(w.Written(), delta, at, added, records, |before|, record.value);
      records, at := records + [record.value], at + [|before|];
    }
    r := Ok(records);
  }

  /** `write_tail` on an archive it may write. Whatever fails, nothing before the old
      directory changes; and it succeeds just when no write fails and every new entry is
      still what was measured. */
  method WriteTail(archive: Archive, cd: Directory, dirBytes: seq<byte>, kept: seq<(nat, nat)>, added: seq<Measured>)
    returns (r: Result<(), ZipError>, ghost body: seq<byte>, ghost at: seq<nat>, ghost records: seq<seq<byte>>, ghost end: seq<byte>)
    requires cd.start <= |archive.content| && cd.start >= cd.delta && !archive.failed
    requires forall i :: 0 <= i < |kept| ==> kept[i].0 + kept[i].1 <= |dirBytes|
    requires forall i :: 0 <= i < |added| ==> ValidMeasured(added[i])
    modifies archive
    ensures |archive.content| >= cd.start && archive.content[..cd.start] == old(archive.content)[..cd.start]
    ensures r.Ok? <==> (forall i :: 0 <= i < |added| ==> Streams(added[i])) && !archive.failed
    ensures archive.failed <==> r == Err(WriteFailed)
    ensures r.Ok? ==>
      Rewritten(archive.content, old(archive.content)[..cd.start], cd.delta, Slices(dirBytes, kept), added, body, at, records, end)
  {
    hide ValidMeasured, AllPlaced, IsEnd, Concat, Streams;
    ghost var base := archive.content[..cd.start];
    body, end, records := [], [], [];
    var w := new TailWriter(archive, cd.start);
    var newRecords;
    newRecords, at := AddEntries(w, added, cd.delta);
    if newRecords.Err? {
      r := Err(newRecords.error);
      return;
    }
    records := newRecords.value;
    body := w.Written();
    var dirStart := w.Position();
    var newDir := JoinRecords(Slices(dirBytes, kept) + newRecords.value);
    w.Push(newDir);
    var eocd := EndRecords(|kept| + |newRecords.value|, |newDir|, dirStart - cd.delta, dirStart + |newDir|);
    end := eocd;
    w.Push(eocd);
    var length := w.Position();
    ghost var content, pos := archive.content, w.pos;
    var ok := w.Flush();
    KeepsOn(old(archive.content), cd.start, content, pos, archive.content, w.pos);
    if ok {
      assert w.Written() == archive.content[..length];
      ok := archive.Truncate(length);
    }
    if !ok {
      r := Err(WriteFailed);
      return;
    }
    assert archive.content == body + newDir + end;
    assert archive.content[..cd.start] == body[..cd.start] == base;
    r := Ok(());
  }

  lemma NonePlaced(file: seq<byte>, delta: int, added: seq<Measured>)
    ensures AllPlaced(file, delta, [], added, [])
  {}

  lemma MorePlaced(file: seq<byte>, delta: int, at: seq<nat>, added: seq<Measured>, records: seq<seq<byte>>, p: nat, record: seq<byte>)
    requires AllPlaced(file, delta, at, added, records) && |at| < |added|
    requires Placed(file, delta, p, added[|at|], record) && WholeRecord(record)
    ensures AllPlaced(file, delta, at + [p], added, records + [record])
  {
    hide Placed, WholeRecord;
  }

  /** The new directory: each record appended in turn. */
  method JoinRecords(parts: seq<seq<byte>>) returns (d: seq<byte>)
    ensures d == Concat(parts)
  {
    hide Concat;
    d := [];
    NoParts();
    for i := 0 to |parts|
      invariant d == Concat(parts[..i])
    {
      assert parts[..i + 1] == parts[..i] + [parts[i]];
      ConcatAppend(parts[..i], parts[i]);
      d := d + parts[i];
    }
    assert parts[..|parts|] == parts;
  }

  lemma NoParts()
    ensures Concat([]) == []
  {}
}
