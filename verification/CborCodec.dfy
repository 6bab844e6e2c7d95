/** Encoding and decoding are inverse: any trailing bytes, streams, and what an accepted
    input says about its canonical form. */
module CborCodec {
  import opened Bytes
  import opened Text
  import opened CborValue
  import opened CborParse

  /** `s` stands in the buffer at this position. */
  ghost predicate Stands(buf: seq<byte>, pos: nat, s: seq<byte>) {
    pos + |s| <= |buf| && buf[pos..pos + |s|] == s
  }

  lemma StandsSplit(buf: seq<byte>, pos: nat, s: seq<byte>, t: seq<byte>)
    requires Stands(buf, pos, s + t)
    ensures Stands(buf, pos, s) && Stands(buf, pos + |s|, t)
  {
    var all := buf[pos..pos + |s + t|];
    assert buf[pos..pos + |s|] == all[..|s|] == s;
    assert buf[pos + |s|..pos + |s| + |t|] == all[|s|..] == t;
  }

  // ---- heads -------------------------------------------------------------------------

  function P256(k: nat): nat { if k == 0 then 1 else 256 * P256(k - 1) }

  lemma {:induction false} BigEndianValue(n: nat, k: nat)
    requires n < P256(k)
    ensures BeValue(BigEndian(n, k)) == n
  {
    if k > 0 {
      BigEndianValue(n / 256, k - 1);
      var s := BigEndian(n, k);
      assert s[..|s| - 1] == BigEndian(n / 256, k - 1);
    }
  }

  lemma P256Is()
    ensures P256(1) == 0x100 && P256(2) == 0x10000 && P256(4) == TWO_32 && P256(8) == TWO_64
  {
    assert P256(3) == 0x100_0000;
    assert P256(5) == 0x100_0000_0000;
    assert P256(6) == 0x1_0000_0000_0000;
    assert P256(7) == 0x100_0000_0000_0000;
  }

  lemma Values(n: nat)
    ensures n < 0x100 ==> BeValue(BigEndian(n, 1)) == n
    ensures n < 0x10000 ==> BeValue(BigEndian(n, 2)) == n
    ensures n < TWO_32 ==> BeValue(BigEndian(n, 4)) == n
    ensures n < TWO_64 ==> BeValue(BigEndian(n, 8)) == n
  {
    hide BigEndian, BeValue;
    P256Is();
    hide P256;
    if n < 0x100 { BigEndianValue(n, 1); }
    if n < 0x10000 { BigEndianValue(n, 2); }
    if n < TWO_32 { BigEndianValue(n, 4); }
    if n < TWO_64 { BigEndianValue(n, 8); }
  }

  /** A head in the buffer is read back. */
  lemma HeadReads(buf: seq<byte>, pos: nat, major: nat, n: nat)
    requires major < 8 && n < TWO_64 && Stands(buf, pos, Head(major, n))
    ensures pos < |buf| && buf[pos] / 32 == major
    ensures ReadArgument(buf, pos + 1, buf[pos] % 32) == Ok((n, pos + |Head(major, n)|))
  {
    var h := Head(major, n);
    assert buf[pos] == buf[pos..pos + |h|][0] == h[0];
    Values(n);
    hide BigEndian, BeValue;
    assert buf[pos + 1..pos + |h|] == buf[pos..pos + |h|][1..];
  }

  // ---- the round trip -----------------------------------------------------------------------

  lemma StringReads(buf: seq<byte>, pos: nat, major: nat, s: seq<byte>)
    requires major < 8 && |s| < TWO_64 && Stands(buf, pos, EncodeString(major, s))
    ensures pos < |buf| && buf[pos] / 32 == major
    ensures var p := pos + |Head(major, |s|)|;
      ReadArgument(buf, pos + 1, buf[pos] % 32) == Ok((|s|, p)) && Take(buf, p, |s|) == Ok((s, p + |s|))
  {
    hide Head, ReadArgument, HeadLength;
    StandsSplit(buf, pos, Head(major, |s|), s);
    HeadReads(buf, pos, major, |s|);
  }

  /** Decoding a canonical encoding, wherever it stands in the buffer and whatever comes
      after it, gives the value back and ends exactly where the encoding ends. */
  lemma {:induction false} RoundTrip(o: Cbor, buf: seq<byte>, pos: nat, max: nat)
    requires WellFormed(o) && Stands(buf, pos, Encode(o)) && |Encode(o)| <= max
    ensures Parse(buf, pos, max) == Ok((o, pos + |Encode(o)|))
    decreases o
  {
    hide ReadArgument, Head, HeadLength, ParseItems, ParseEntries, Stands, SortedKeys, EncodeItems, EncodeEntries, ValidUtf8;
    match o
    case Long(v) => IntReads(v, buf, pos, max);
    case Boolean(b) => SimpleReads(buf, pos, if b then TRUE else FALSE);
    case Null => SimpleReads(buf, pos, NULL);
    case ByteString(b) => StringReads(buf, pos, TYPE_BYTE_STRING, b);
    case Str(s) => StringReads(buf, pos, TYPE_TEXT_STRING, s);
    case MerkleLink(cid) => LinkReads(cid, buf, pos, max);
    case List(items) => ListReads(items, buf, pos, max);
    case Map(m) => MapReads(m, buf, pos, max);
  }

  lemma {:induction false} ListReads(items: seq<Cbor>, buf: seq<byte>, pos: nat, max: nat)
    requires (forall i :: 0 <= i < |items| ==> WellFormed(items[i])) && |items| < TWO_64
    requires var s := Head(TYPE_ARRAY, |items|) + EncodeItems(items); Stands(buf, pos, s) && |s| <= max
    ensures Parse(buf, pos, max) == Ok((List(items), pos + |Head(TYPE_ARRAY, |items|) + EncodeItems(items)|))
    decreases items, 1
  {
    hide ReadArgument, Head, HeadLength, ParseItems, Stands, EncodeItems, WellFormed;
    var h := Head(TYPE_ARRAY, |items|);
    StandsSplit(buf, pos, h, EncodeItems(items));
    HeadReads(buf, pos, TYPE_ARRAY, |items|);
    assert [] + items == items;
    ItemsRoundTrip(items, buf, pos + |h|, max, []);
  }

  lemma {:induction false} MapReads(m: seq<Entry>, buf: seq<byte>, pos: nat, max: nat)
    requires (forall i :: 0 <= i < |m| ==> Text64(m[i].key) && WellFormed(m[i].value)) && SortedKeys(m) && |m| < TWO_64
    requires var s := Head(TYPE_MAP, |m|) + EncodeEntries(m); Stands(buf, pos, s) && |s| <= max
    ensures Parse(buf, pos, max) == Ok((Map(m), pos + |Head(TYPE_MAP, |m|) + EncodeEntries(m)|))
    decreases m, 1
  {
    hide ReadArgument, Head, HeadLength, ParseEntries, Stands, EncodeEntries, WellFormed, SortedKeys;
    var h := Head(TYPE_MAP, |m|);
    StandsSplit(buf, pos, h, EncodeEntries(m));
    HeadReads(buf, pos, TYPE_MAP, |m|);
    assert [] + m == m;
    EntriesRoundTrip(m, buf, pos + |h|, max, []);
  }

  lemma SimpleReads(buf: seq<byte>, pos: nat, v: nat)
    requires v < 24 && Stands(buf, pos, Head(TYPE_FLOAT_SIMPLE, v))
    ensures pos < |buf| && buf[pos] / 32 == TYPE_FLOAT_SIMPLE && buf[pos] % 32 == v && |Head(TYPE_FLOAT_SIMPLE, v)| == 1
  {
    assert buf[pos] == buf[pos..pos + 1][0];
  }

  lemma IntReads(v: int, buf: seq<byte>, pos: nat, max: nat)
    requires -TWO_63 <= v < TWO_63 && Stands(buf, pos, Encode(Long(v)))
    ensures Parse(buf, pos, max) == Ok((Long(v), pos + |Encode(Long(v))|))
  {
    hide Head, ReadArgument, Stands;
    var major, n := if v < 0 then TYPE_NEGATIVE_INTEGER else TYPE_UNSIGNED_INTEGER, if v < 0 then -1 - v else v;
    HeadReads(buf, pos, major, n);
    assert Signed(major, n) == v;
  }

  lemma LinkReads(cid: seq<byte>, buf: seq<byte>, pos: nat, max: nat)
    requires |cid| + 1 < TWO_64 && Stands(buf, pos, Encode(MerkleLink(cid))) && |Encode(MerkleLink(cid))| <= max
    ensures Parse(buf, pos, max) == Ok((MerkleLink(cid), pos + |Encode(MerkleLink(cid))|))
  {
    hide Head, ReadArgument, Stands, HeadLength;
    var h, b := Head(TYPE_TAG, LINK_TAG), [0] + cid;
    StandsSplit(buf, pos, h, EncodeString(TYPE_BYTE_STRING, b));
    HeadReads(buf, pos, TYPE_TAG, LINK_TAG);
    StringReads(buf, pos + |h|, TYPE_BYTE_STRING, b);
    assert Parse(buf, pos + |h|, max) == Ok((ByteString(b), pos + |h| + |EncodeString(TYPE_BYTE_STRING, b)|));
    assert b[1..] == cid;
  }

  lemma {:induction false} ItemsRoundTrip(items: seq<Cbor>, buf: seq<byte>, pos: nat, max: nat, acc: seq<Cbor>)
    requires (forall i :: 0 <= i < |items| ==> WellFormed(items[i])) && Stands(buf, pos, EncodeItems(items)) && |EncodeItems(items)| <= max
    ensures ParseItems(buf, pos, |items|, max, acc) == Ok((acc + items, pos + |EncodeItems(items)|))
    decreases items, 0
  {
    hide Parse, Encode, WellFormed;
    if items == [] {
      assert acc + items == acc;
    } else {
      var e := Encode(items[0]);
      StandsSplit(buf, pos, e, EncodeItems(items[1..]));
      RoundTrip(items[0], buf, pos, max);
      ItemsRoundTrip(items[1..], buf, pos + |e|, max, acc + [items[0]]);
      assert acc + [items[0]] + items[1..] == acc + items;
    }
  }

  /** A key above all the others goes in last. */
  lemma {:induction false} InsertLast(m: seq<Entry>, e: Entry)
    requires forall i :: 0 <= i < |m| ==> KeyLess(m[i].key, e.key)
    ensures Insert(m, e) == Some(m + [e])
  {
    if m == [] {
      assert [e] + m == m + [e];
    } else {
      LessTotal(Units(m[0].key), Units(e.key));
      InsertLast(m[1..], e);
      assert [m[0]] + (m[1..] + [e]) == m + [e];
    }
  }

  lemma NextKey(acc: seq<Entry>, m: seq<Entry>)
    requires m != [] && SortedKeys(acc + m)
    ensures Insert(acc, m[0]) == Some(acc + [m[0]])
  {
    hide KeyLess, Insert;
    forall i | 0 <= i < |acc| ensures KeyLess(acc[i].key, m[0].key) {
      assert (acc + m)[i] == acc[i] && (acc + m)[|acc|] == m[0];
    }
    InsertLast(acc, m[0]);
  }

  lemma {:induction false} EntriesRoundTrip(m: seq<Entry>, buf: seq<byte>, pos: nat, max: nat, acc: seq<Entry>)
    requires (forall i :: 0 <= i < |m| ==> Text64(m[i].key) && WellFormed(m[i].value)) && SortedKeys(acc + m)
    requires Stands(buf, pos, EncodeEntries(m)) && |EncodeEntries(m)| <= max
    ensures ParseEntries(buf, pos, |m|, max, acc) == Ok((acc + m, pos + |EncodeEntries(m)|))
    decreases m, 0
  {
    hide Encode, EncodeString, WellFormed, Parse, Insert, SortedKeys, ValidUtf8, Stands;
    if m == [] {
      assert acc + m == acc;
    } else {
      var k, v, rest := EncodeString(TYPE_TEXT_STRING, m[0].key), Encode(m[0].value), EncodeEntries(m[1..]);
      EntryReads(m[0], rest, buf, pos, max);
      NextKey(acc, m);
      RoundTrip(m[0].value, buf, pos + |k|, max);
      assert acc + [m[0]] + m[1..] == acc + m;
      EntriesRoundTrip(m[1..], buf, pos + |k| + |v|, max, acc + [m[0]]);
    }
  }

  lemma EntryReads(e: Entry, rest: seq<byte>, buf: seq<byte>, pos: nat, max: nat)
    requires Text64(e.key) && Stands(buf, pos, EncodeString(TYPE_TEXT_STRING, e.key) + Encode(e.value) + rest)
    requires |EncodeString(TYPE_TEXT_STRING, e.key)| <= max
    ensures var p := pos + |EncodeString(TYPE_TEXT_STRING, e.key)|;
      && p <= |buf| && Parse(buf, pos, max) == Ok((Str(e.key), p))
      && Stands(buf, p, Encode(e.value)) && Stands(buf, p + |Encode(e.value)|, rest)
  {
    hide Encode, ReadArgument, Head, Stands, ValidUtf8, HeadLength;
    var k, v := EncodeString(TYPE_TEXT_STRING, e.key), Encode(e.value);
    StandsSplit(buf, pos, k + v, rest);
    StandsSplit(buf, pos, k, v);
    StringReads(buf, pos, TYPE_TEXT_STRING, e.key);
  }

  // ---- whole inputs and streams -------------------------------------------------------------

  lemma DecodesFirst(o: Cbor, rest: seq<byte>)
    requires WellFormed(o)
    ensures Decode(Encode(o) + rest) == Ok((o, |Encode(o)|))
  {
    var s := Encode(o) + rest;
    assert s[0..|Encode(o)|] == Encode(o);
    hide Encode, Parse, WellFormed;
    RoundTrip(o, s, 0, |s|);
  }

  /** `from_bytes(to_bytes(o)) == o` */
  lemma DecodesWhole(o: Cbor)
    requires WellFormed(o)
    ensures DecodeAll(Encode(o)) == Ok(o)
  {
    hide Encode, WellFormed;
    DecodesFirst(o, []);
    assert Encode(o) + [] == Encode(o);
  }

  /** No encoding is a proper prefix of another; in particular the encoding is injective. */
  lemma PrefixFree(a: Cbor, b: Cbor)
    requires WellFormed(a) && WellFormed(b) && Encode(a) <= Encode(b)
    ensures a == b
  {
    hide Encode, WellFormed;
    var rest := Encode(b)[|Encode(a)|..];
    assert Encode(b) == Encode(a) + rest;
    assert Encode(b) + [] == Encode(b);
    DecodesFirst(a, rest);
    DecodesFirst(b, []);
  }

  /** A run of concatenated values, read one after another with `from_bytes_consumed`. */
  function DecodeStream(bytes: seq<byte>): Result<seq<Cbor>, CborError>
    decreases |bytes|
  {
    if bytes == [] then Ok([])
    else
      match Decode(bytes)
      case Err(e) => Err(e)
      case Ok((o, n)) =>
        match DecodeStream(bytes[n..])
        case Err(e) => Err(e)
        case Ok(os) => Ok([o] + os)
  }

  /** Concatenated values decode back in order. */
  lemma {:induction false} StreamRoundTrip(os: seq<Cbor>)
    requires forall i :: 0 <= i < |os| ==> WellFormed(os[i])
    ensures DecodeStream(EncodeItems(os)) == Ok(os)
  {
    hide Encode, WellFormed, Decode;
    if os != [] {
      var e, rest := Encode(os[0]), EncodeItems(os[1..]);
      DecodesFirst(os[0], rest);
      StreamRoundTrip(os[1..]);
      assert (e + rest)[|e|..] == rest;
      assert [os[0]] + os[1..] == os;
    }
  }

  /** The loop over such a run. */
  method ReadStream(bytes: seq<byte>) returns (r: Result<seq<Cbor>, CborError>)
    ensures r == DecodeStream(bytes)
  {
    hide Decode;
    var out: seq<Cbor>, offset := [], 0;
    assert bytes[0..] == bytes;
    FollowingNothing(DecodeStream(bytes));
    while offset < |bytes|
      invariant 0 <= offset <= |bytes|
      invariant DecodeStream(bytes) == Following(out, DecodeStream(bytes[offset..]))
    {
      assert bytes[offset..] != [];
      var next := FromBytesConsumed(bytes[offset..]);
      if next.Err? {
        return Err(next.error);
      }
      var (o, consumed) := next.value;
      assert bytes[offset..][consumed..] == bytes[offset + consumed..];
      FollowingMore(out, o, DecodeStream(bytes[offset + consumed..]));
      out, offset := out + [o], offset + consumed;
    }
    assert out + [] == out;
    r := Ok(out);
  }

  ghost function Following(out: seq<Cbor>, rest: Result<seq<Cbor>, CborError>): Result<seq<Cbor>, CborError> {
    match rest case Ok(os) => Ok(out + os) case Err(e) => Err(e)
  }

  lemma FollowingNothing(rest: Result<seq<Cbor>, CborError>)
    ensures Following([], rest) == rest
  {
    if rest.Ok? { assert [] + rest.value == rest.value; }
  }

  lemma FollowingMore(out: seq<Cbor>, o: Cbor, rest: Result<seq<Cbor>, CborError>)
    ensures Following(out, Following([o], rest)) == Following(out + [o], rest)
  {
    if rest.Ok? { assert out + ([o] + rest.value) == out + [o] + rest.value; }
  }

  // ---- what is accepted ---------------------------------------------------------------------

  lemma {:induction false} BeBound(s: seq<byte>)
    ensures BeValue(s) < P256(|s|)
  {
    if s != [] { BeBound(s[..|s| - 1]); }
  }

  /** No head is shorter than the one the encoder writes for the same argument. */
  lemma ShortestHead(buf: seq<byte>, pos: nat, info: nat)
    requires pos <= |buf| && info < 32 && ReadArgument(buf, pos, info).Ok?
    ensures var (n, p) := ReadArgument(buf, pos, info).value;
      n < TWO_64 && HeadLength(n) <= 1 + p - pos && (n >= TWO_63 ==> p == pos + 8)
  {
    P256Is();
    var k := ArgumentBytes(info).value;
    if k > 0 { BeBound(buf[pos..pos + k]); }
    hide P256, BeValue;
  }

  lemma {:induction false} ItemsLength(acc: seq<Cbor>, o: Cbor)
    ensures |EncodeItems(acc + [o])| == |EncodeItems(acc)| + |Encode(o)|
  {
    hide Encode;
    if acc == [] {
      assert acc + [o] == [o] && [o][1..] == [];
    } else {
      assert (acc + [o])[1..] == acc[1..] + [o];
      ItemsLength(acc[1..], o);
    }
  }

  function EntryLength(e: Entry): nat { |EncodeString(TYPE_TEXT_STRING, e.key)| + |Encode(e.value)| }

  lemma {:induction false} InsertSorted(m: seq<Entry>, e: Entry)
    requires SortedKeys(m) && Insert(m, e).Some?
    ensures SortedKeys(Insert(m, e).value) && multiset(Insert(m, e).value) == multiset(m) + multiset{e}
  {
    hide KeyLess;
    if m == [] || KeyLess(e.key, m[0].key) {
      assert multiset([e] + m) == multiset([e]) + multiset(m);
      forall j | 0 <= j < |m| ensures KeyLess(e.key, m[j].key) {
        if j > 0 { KeyLessTransitive(e.key, m[0].key, m[j].key); }
      }
      hide Insert;
      ConsSorted(e, m);
    } else {
      InsertSorted(m[1..], e);
      var t := Insert(m[1..], e).value;
      assert Insert(m, e).value == [m[0]] + t && m == [m[0]] + m[1..];
      hide Insert;
      forall j | 0 <= j < |t| ensures KeyLess(m[0].key, t[j].key) {
        assert t[j] in multiset(t);
        assert t[j] in m[1..] || t[j] == e;
      }
      ConsSorted(m[0], t);
    }
  }

  lemma {:induction false} InsertLength(m: seq<Entry>, e: Entry)
    requires Insert(m, e).Some?
    ensures |EncodeEntries(Insert(m, e).value)| == |EncodeEntries(m)| + EntryLength(e)
  {
    hide KeyLess, Encode, EncodeString;
    var r := Insert(m, e).value;
    if m == [] || KeyLess(e.key, m[0].key) {
      assert r[1..] == m;
    } else {
      InsertLength(m[1..], e);
      assert r[1..] == Insert(m[1..], e).value;
    }
  }

  lemma ConsSorted(e: Entry, t: seq<Entry>)
    requires SortedKeys(t) && forall j :: 0 <= j < |t| ==> KeyLess(e.key, t[j].key)
    ensures SortedKeys([e] + t)
  {
    hide KeyLess;
  }

  lemma KeyLessTransitive(a: seq<byte>, b: seq<byte>, c: seq<byte>)
    requires KeyLess(a, b) && KeyLess(b, c)
    ensures KeyLess(a, c)
  {
    LessTransitive(Units(a), Units(b), Units(c));
  }

  /** A duplicate is refused just when the very same text is a key already. */
  lemma {:induction false} InsertRefuses(m: seq<Entry>, e: Entry)
    requires SortedKeys(m) && ValidUtf8(e.key) && forall i :: 0 <= i < |m| ==> ValidUtf8(m[i].key)
    ensures Insert(m, e).None? <==> exists i :: 0 <= i < |m| && m[i].key == e.key
  {
    hide ValidUtf8, Units, Less;
    if m != [] {
      LessTotal(Units(e.key), Units(m[0].key));
      if KeyLess(e.key, m[0].key) {
        forall i | 0 <= i < |m| ensures m[i].key != e.key {
          if i > 0 { KeyLessTransitive(e.key, m[0].key, m[i].key); }
          LessTotal(Units(e.key), Units(e.key));
        }
      } else if KeyLess(m[0].key, e.key) {
        InsertRefuses(m[1..], e);
        LessTotal(Units(e.key), Units(e.key));
        assert (exists i :: 0 <= i < |m| && m[i].key == e.key) ==> exists i :: 0 <= i < |m[1..]| && m[1..][i].key == e.key by {
          if i :| 0 <= i < |m| && m[i].key == e.key { assert m[1..][i - 1].key == e.key; }
        }
      } else {
        UnitsInjective(e.key, m[0].key);
      }
    }
  }

  ghost predicate AllItems(items: seq<Cbor>) { forall i :: 0 <= i < |items| ==> WellFormed(items[i]) }

  ghost predicate AllEntries(m: seq<Entry>) { SortedKeys(m) && forall e :: e in m ==> Text64(e.key) && WellFormed(e.value) }

  /** Whatever the decoder accepts is a value the encoder can write, and its canonical
      encoding is no longer than what was read. */
  lemma {:induction false} Accepted(buf: seq<byte>, pos: nat, max: nat)
    requires pos <= |buf| < TWO_64 && Parse(buf, pos, max).Ok?
    ensures var (o, p) := Parse(buf, pos, max).value; WellFormed(o) && |Encode(o)| <= p - pos
    decreases |buf| - pos, 0, 0
  {
    hide ReadArgument, ParseBody, Head;
    var major, info := buf[pos] / 32, buf[pos] % 32;
    if major != TYPE_FLOAT_SIMPLE {
      ShortestHead(buf, pos + 1, info);
      var (n, p) := ReadArgument(buf, pos + 1, info).value;
      BodyAccepted(buf, pos, p, major, n, max);
    }
  }

  lemma {:induction false} BodyAccepted(buf: seq<byte>, pos: nat, p: nat, major: nat, n: nat, max: nat)
    requires pos < p <= |buf| < TWO_64 && major < 7 && n < TWO_64 && HeadLength(n) <= p - pos && (n >= TWO_63 ==> p == pos + 9)
    requires ParseBody(buf, pos, p, major, n, max).Ok?
    ensures var (o, q) := ParseBody(buf, pos, p, major, n, max).value; WellFormed(o) && |Encode(o)| <= q - pos
    decreases |buf| - p, 2, 0
  {
    hide Parse, ParseItems, ParseEntries, Head, SortedKeys, ValidUtf8;
    if major == TYPE_TAG {
      Accepted(buf, p, max);
      var (o, q) := Parse(buf, p, max).value;
      assert [0] + o.bytes[1..] == o.bytes;
    } else if major == TYPE_UNSIGNED_INTEGER || major == TYPE_NEGATIVE_INTEGER {
      assert n < TWO_63 ==> |Encode(Long(Signed(major, n)))| == HeadLength(n);
    } else if major == TYPE_ARRAY {
      ItemsAccepted(buf, p, n, max, []);
    } else if major == TYPE_MAP {
      NoEntries();
      EntriesAccepted(buf, p, n, max, []);
    }
  }

  lemma NoEntries()
    ensures AllEntries([])
  {}

  lemma {:induction false} ItemsAccepted(buf: seq<byte>, pos: nat, n: nat, max: nat, acc: seq<Cbor>)
    requires pos <= |buf| < TWO_64 && ParseItems(buf, pos, n, max, acc).Ok? && AllItems(acc)
    ensures var (items, q) := ParseItems(buf, pos, n, max, acc).value;
      AllItems(items) && |EncodeItems(items)| <= |EncodeItems(acc)| + q - pos
    decreases |buf| - pos, 1, n
  {
    hide Parse, Encode, EncodeItems, WellFormed;
    if n > 0 {
      Accepted(buf, pos, max);
      var (o, p) := Parse(buf, pos, max).value;
      ItemsLength(acc, o);
      ItemsAccepted(buf, p, n - 1, max, acc + [o]);
    }
  }

  lemma {:induction false} EntriesAccepted(buf: seq<byte>, pos: nat, n: nat, max: nat, acc: seq<Entry>)
    requires pos <= |buf| < TWO_64 && ParseEntries(buf, pos, n, max, acc).Ok? && AllEntries(acc)
    ensures var (m, q) := ParseEntries(buf, pos, n, max, acc).value;
      AllEntries(m) && |m| == |acc| + n && |EncodeEntries(m)| <= |EncodeEntries(acc)| + q - pos
    decreases |buf| - pos, 1, n
  {
    hide Parse, EncodeEntries, Insert, AllEntries;
    if n > 0 {
      Accepted(buf, pos, max);
      var (k, p) := Parse(buf, pos, max).value;
      Accepted(buf, p, max);
      var (v, q) := Parse(buf, p, max).value;
      var e := Entry(k.text, v);
      EntryAccepted(acc, e);
      EntriesAccepted(buf, q, n - 1, max, Insert(acc, e).value);
    }
  }

  lemma EntryAccepted(acc: seq<Entry>, e: Entry)
    requires AllEntries(acc) && WellFormed(Str(e.key)) && WellFormed(e.value) && Insert(acc, e).Some?
    ensures var r := Insert(acc, e).value;
      AllEntries(r) && |r| == |acc| + 1 && |EncodeEntries(r)| == |EncodeEntries(acc)| + |Encode(Str(e.key))| + |Encode(e.value)|
  {
    InsertSorted(acc, e);
    InsertLength(acc, e);
    var r := Insert(acc, e).value;
    assert Text64(e.key);
    hide Insert, EncodeEntries, SortedKeys, Text64, WellFormed;
    forall x | x in r ensures Text64(x.key) && WellFormed(x.value) {
      assert x in multiset(r);
      assert x in acc || x == e;
    }
    assert |multiset(r)| == |acc| + 1;
  }

  /** A decoded value written again is canonical: it decodes to itself, in no more bytes. */
  lemma Canonical(bytes: seq<byte>)
    requires |bytes| < TWO_64 && DecodeAll(bytes).Ok?
    ensures var o := DecodeAll(bytes).value; |Encode(o)| <= |bytes| && DecodeAll(Encode(o)) == Ok(o)
  {
    hide Encode, Parse, WellFormed;
    Accepted(bytes, 0, |bytes|);
    DecodesWhole(DecodeAll(bytes).value);
  }
}
