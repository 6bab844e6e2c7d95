/** `append`: adding files to an archive, or replacing ones already in it. */
module ZipAppend {
  import opened Bytes
  import opened ZipBytes
  import opened ZipRecords
  import opened ZipParse
  import opened ZipTail
  import opened ZipRewrite
  import opened ZipReopen

  /** The path `read_directory` gives a record. */
  function RecordPath(names: Names, d: seq<byte>, o: nat): Result<seq<byte>, ZipError>
    requires RecordAt(d, o)
  {
    var raw := d[o + CENTRAL_HEADER_SIZE..o + CENTRAL_HEADER_SIZE + U16At(d, o + 28)];
    match DecodeName(names, raw, U16At(d, o + 8) / FLAG_UTF8_NAMES % 2 == 1)
    case Err(e) => Err(e)
    case Ok(name) => Ok(if names.normalise(name).Some? then names.normalise(name).value else [])
  }

  /** Every record has a readable path, and those with none of these paths are kept. */
  ghost predicate KeptBut(names: Names, d: seq<byte>, rs: seq<(nat, nat)>, gone: set<seq<byte>>, kept: seq<(nat, nat)>) {
    && RecordsIn(d, rs) && Subsequence(kept, rs)
    && forall i :: 0 <= i < |rs| ==> RecordPath(names, d, rs[i].0).Ok? && (rs[i] in kept <==> RecordPath(names, d, rs[i].0).value !in gone)
  }

  lemma {:induction false} SubsequenceGrows<T(!new)>(a: seq<T>, b: seq<T>, x: T)
    requires Subsequence(a, b)
    ensures Subsequence(a, b + [x]) && Subsequence(a + [x], b + [x])
    decreases |b|
  {
    if b == [] {
      assert a == [] && [x][1..] == [];
    } else {
      assert (b + [x])[1..] == b[1..] + [x];
      if a == [] {
        SubsequenceGrows(a, b[1..], x);
      } else {
        assert (a + [x])[1..] == a[1..] + [x];
        if a[0] == b[0] && Subsequence(a[1..], b[1..]) {
          SubsequenceGrows(a[1..], b[1..], x);
        } else {
          SubsequenceGrows(a, b[1..], x);
        }
      }
    }
  }

  /** The records of a directory come one after another. */
  ghost predicate Ascending(rs: seq<(nat, nat)>) { forall i, j :: 0 <= i < j < |rs| ==> rs[i].0 < rs[j].0 }

  lemma {:induction false} RecordsAscend(d: seq<byte>, pos: nat)
    ensures Ascending(RecordsFrom(d, pos)) && forall i :: 0 <= i < |RecordsFrom(d, pos)| ==> RecordsFrom(d, pos)[i].0 >= pos
    decreases |d| - pos
  {
    hide U16At, U32At;
    if RecordAt(d, pos) {
      RecordsAscend(d, pos + RecordLength(d, pos));
    }
  }

  lemma KeepNext(names: Names, d: seq<byte>, rs: seq<(nat, nat)>, n: nat, gone: set<seq<byte>>, kept: seq<(nat, nat)>)
    requires n < |rs| && RecordsIn(d, rs) && Ascending(rs) && KeptBut(names, d, rs[..n], gone, kept) && RecordPath(names, d, rs[n].0).Ok?
    ensures KeptBut(names, d, rs[..n + 1], gone, if RecordPath(names, d, rs[n].0).value in gone then kept else kept + [rs[n]])
  {
    hide RecordPath, RecordAt, RecordLength, Subsequence;
    var p := rs[..n];
    assert rs[..n + 1] == p + [rs[n]];
    SubsequenceGrows(kept, p, rs[n]);
    SubsequenceIn(kept, p);
    forall i | 0 <= i < n ensures rs[i] != rs[n] {}
  }

  lemma {:induction false} SubsequenceIn<T(!new)>(a: seq<T>, b: seq<T>)
    requires Subsequence(a, b)
    ensures forall x :: x in a ==> x in b
    decreases |b|
  {
    if a != [] {
      assert a == [a[0]] + a[1..] && b == [b[0]] + b[1..];
      if a[0] == b[0] && Subsequence(a[1..], b[1..]) {
        SubsequenceIn(a[1..], b[1..]);
      } else {
        SubsequenceIn(a, b[1..]);
      }
    }
  }

  ghost predicate PathsReadable(names: Names, d: seq<byte>) {
    forall i :: 0 <= i < |RecordsFrom(d, 0)| ==> RecordPath(names, d, RecordsFrom(d, 0)[i].0).Ok?
  }

  lemma KeptReadable(names: Names, d: seq<byte>, gone: set<seq<byte>>, kept: seq<(nat, nat)>)
    requires KeptBut(names, d, RecordsFrom(d, 0), gone, kept)
    ensures PathsReadable(names, d)
  {
    hide RecordPath;
  }

  /** The records to keep. */
  method KeepRecords(names: Names, d: seq<byte>, gone: set<seq<byte>>) returns (r: Result<seq<(nat, nat)>, ZipError>)
    ensures r.Ok? ==> KeptBut(names, d, RecordsFrom(d, 0), gone, r.value)
    ensures r.Ok? <==> PathsReadable(names, d)
  {
    hide RecordPath, KeptBut, Ascending, RecordAt, RecordLength;
    var rs := Records(d);
    AreRecords(d);
    RecordsAscend(d, 0);
    var kept: seq<(nat, nat)> := [];
    NoneKept(names, d, rs, gone);
    for i := 0 to |rs|
      invariant KeptBut(names, d, rs[..i], gone, kept)
    {
      var path := RecordPath(names, d, rs[i].0);
      if path.Err? {
        return Err(path.error);
      }
      KeepNext(names, d, rs, i, gone, kept);
      if path.value !in gone {
        kept := kept + [rs[i]];
      }
    }
    assert rs[..|rs|] == rs;
    KeptReadable(names, d, gone, kept);
    r := Ok(kept);
  }

  lemma NoneKept(names: Names, d: seq<byte>, rs: seq<(nat, nat)>, gone: set<seq<byte>>)
    ensures KeptBut(names, d, rs[..0], gone, [])
  {}

  function Paths(added: seq<Measured>): set<seq<byte>> { set m | m in added :: m.path }

  /** `append`, of entries already measured. It writes nothing unless the archive opens,
      and succeeds just when every recorded name is readable, no write fails, and every
      new entry is still what was measured. When it succeeds, the records of other paths are kept, and opening the archive again
      lists their entries as the first opening had them, then the new ones, each at its own
      local header, if and only if `Reopens`. */
  method Append(archive: Archive, names: Names, added: seq<Measured>)
    returns (r: Result<(), ZipError>, kept: seq<(nat, nat)>, ghost body: seq<byte>, ghost at: seq<nat>, ghost records: seq<seq<byte>>, ghost end: seq<byte>)
    requires AllValid(names, added) && !archive.failed
    modifies archive
    ensures Open(names, old(archive.content)).Err? ==> r.Err? && archive.content == old(archive.content)
    ensures Open(names, old(archive.content)).Ok? ==> Base(names, old(archive.content)) <= archive.content
    ensures r.Ok? <==> Open(names, old(archive.content)).Ok? && PathsReadable(names, OldDirectory(names, old(archive.content)))
                       && (forall i :: 0 <= i < |added| ==> Streams(added[i])) && !archive.failed
    ensures r.Ok? ==> Appended(names, old(archive.content), kept, archive.content, added, body, at, records, end)
    ensures r.Ok? && |archive.content| < TWO_63 && |body| - Open(names, old(archive.content)).value.cd.delta < TWO_63 ==>
      OpensAgain(names, old(archive.content), kept, archive.content, added, body, at, records)
  {
    hide Open, AllValid, ValidMeasured, KeptBut, PathsReadable, Rewritten, RecordsFrom, Streams, Slices;
    body, at, records, end, kept := [], [], [], [], [];
    ghost var prior := archive.content;
    var zip := Open(names, archive.content);
    if zip.Err? {
      return Err(zip.error), kept, body, at, records, end;
    }
    OpenedFits(names, prior);
    var cd := zip.value.cd;
    var d := archive.content[cd.start..cd.start + cd.size];
    assert d == OldDirectory(names, prior);
    var keep := KeepRecords(names, d, Paths(added));
    if keep.Err? {
      return Err(keep.error), kept, body, at, records, end;
    }
    kept := keep.value;
    KeptAreRecords(names, d, RecordsFrom(d, 0), Paths(added), kept);
    EachValid(names, added);
    r, body, at, records, end := WriteTail(archive, cd, d, kept, added);
    assert Base(names, prior) == prior[..cd.start];
    if r.Ok? && |archive.content| < TWO_63 && |body| - cd.delta < TWO_63 {
      SumsUp(names, prior, kept, archive.content, added, body, at, records, end);
    }
  }

  /** What lies before an opened archive's directory. */
  function Base(names: Names, file: seq<byte>): seq<byte>
    requires Open(names, file).Ok?
  {
    OpenedFits(names, file);
    file[..Open(names, file).value.cd.start]
  }

  lemma KeptAreRecords(names: Names, d: seq<byte>, rs: seq<(nat, nat)>, gone: set<seq<byte>>, kept: seq<(nat, nat)>)
    requires KeptBut(names, d, rs, gone, kept)
    ensures RecordsIn(d, rs) && RecordsIn(d, kept) && Subsequence(kept, rs)
  {
    hide RecordPath;
    KeptSlices(d, kept, rs);
  }

  lemma EachValid(names: Names, added: seq<Measured>)
    requires AllValid(names, added)
    ensures forall i :: 0 <= i < |added| ==> ValidMeasured(added[i]) && Accepted(names, added[i])
  {}

  /** The archive was rewritten with the records of no replaced path. */
  ghost predicate Appended(names: Names, prior: seq<byte>, kept: seq<(nat, nat)>, file: seq<byte>, added: seq<Measured>,
                           body: seq<byte>, at: seq<nat>, records: seq<seq<byte>>, end: seq<byte>)
    requires Open(names, prior).Ok?
  {
    var d := OldDirectory(names, prior);
    && KeptBut(names, d, RecordsFrom(d, 0), Paths(added), kept) && RecordsIn(d, kept)
    && Rewritten(file, Base(names, prior), Open(names, prior).value.cd.delta, Slices(d, kept), added, body, at, records, end)
  }

  /** The second opening against the first. */
  ghost predicate OpensAgain(names: Names, prior: seq<byte>, kept: seq<(nat, nat)>, file: seq<byte>, added: seq<Measured>,
                             body: seq<byte>, at: seq<nat>, records: seq<seq<byte>>)
    requires Open(names, prior).Ok?
  {
    var z, d := Open(names, prior).value, OldDirectory(names, prior);
    && RecordsIn(d, kept) && AllWhole(Slices(d, kept)) && |at| == |added| && |body| >= z.cd.delta
    && (forall i :: 0 <= i < |added| ==> Accepted(names, added[i]))
    && var es, dir, n := EntriesIn(names, Slices(d, kept), z.cd.delta), Concat(Slices(d, kept) + records), |kept| + |records|;
    && es.Some? && Subsequence(es.value, z.entries)
    && (Open(names, file) == Ok(Opened(Directory(|body|, |dir|, n, z.cd.delta), es.value + AddedEntries(names, added, at)))
        <==> Reopens(file, z.cd.delta, Slices(d, kept), added, body, at, records))
  }

  lemma SumsUp(names: Names, prior: seq<byte>, kept: seq<(nat, nat)>, file: seq<byte>, added: seq<Measured>,
               body: seq<byte>, at: seq<nat>, records: seq<seq<byte>>, end: seq<byte>)
    requires Open(names, prior).Ok? && AllValid(names, added)
    requires Appended(names, prior, kept, file, added, body, at, records, end)
    requires |file| < TWO_63 && |body| - Open(names, prior).value.cd.delta < TWO_63
    ensures OpensAgain(names, prior, kept, file, added, body, at, records)
  {
    hide Open, ValidMeasured, RecordsFrom, Slices, Reopens, Findable, AddedEntries, EntriesIn, Concat, AllPlaced, IsEnd, RecordPath, OldDirectory, Subsequence;
    OpenedFits(names, prior);
    EachValid(names, added);
    Reopened(names, prior, kept, file, added, body, at, records, end);
  }
}
