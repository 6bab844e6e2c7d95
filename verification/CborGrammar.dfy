/** CBOR on the wire, in literal bytes: section 3 of RFC 8949 as far as the client takes it.
    The encoder writes the shortest form of this, and the decoder accepts exactly this. */
module CborGrammar {
  import opened Bytes
  import opened Text
  import opened CborValue
  import opened CborParse
  import opened CborCodec

  // ---- what is written ------------------------------------------------------------------

  /** A head of this major type and argument, of any width. */
  ghost predicate SpellsHead(h: seq<byte>, major: nat, n: nat) {
    && h != [] && h[0] / 32 == major
    && ((|h| == 1 && h[0] % 32 < 24 && n == h[0] % 32)
        || (|h| == 2 && h[0] % 32 == 24 && n == BeValue(h[1..]))
        || (|h| == 3 && h[0] % 32 == 25 && n == BeValue(h[1..]))
        || (|h| == 5 && h[0] % 32 == 26 && n == BeValue(h[1..]))
        || (|h| == 9 && h[0] % 32 == 27 && n == BeValue(h[1..])))
  }

  /** The encoder's head is one of these. */
  lemma HeadSpelled(major: nat, n: nat)
    requires major < 8 && n < TWO_64
    ensures SpellsHead(Head(major, n), major, n)
  {
    Values(n);
    hide BigEndian, BeValue;
    var h := Head(major, n);
    assert |h| > 1 ==> h[1..] == BigEndian(n, |h| - 1);
  }

  /** And no other is shorter. */
  lemma HeadShortest(h: seq<byte>, major: nat, n: nat)
    requires SpellsHead(h, major, n) && major < 8
    ensures n < TWO_64 && |Head(major, n)| <= |h|
  {
    hide BeValue, BigEndian;
    BeBound(h[1..]);
    P256Is();
    hide P256, Head;
  }

  /** The first byte tells the kind of value, and the simple values and links are these
      very bytes. */
  lemma WireForm(o: Cbor)
    ensures var major := Encode(o)[0] / 32;
      match o
      case Long(v) => major == if v < 0 then 1 else 0
      case ByteString(b) => major == 2 && Encode(o)[|Encode(o)| - |b|..] == b
      case Str(t) => major == 3 && Encode(o)[|Encode(o)| - |t|..] == t
      case List(items) => major == 4
      case Map(m) => major == 5
      case MerkleLink(cid) => Encode(o) == [0xd8, 0x2a] + Encode(ByteString([0] + cid))
      case Boolean(b) => Encode(o) == if b then [0xf5] else [0xf4]
      case Null => Encode(o) == [0xf6]
  {
    BigEndian1(42);
    hide BigEndian, EncodeItems, EncodeEntries;
  }

  /** A small value is its own head: sixteen on the wire is 0x10, minus one is 0x20. */
  lemma SmallOnTheWire(v: int)
    requires -24 <= v < 24
    ensures Encode(Long(v)) == [if v >= 0 then v else 0x20 - 1 - v]
  {}

  // ---- what is accepted ------------------------------------------------------------------

  /** These bytes are a definite-length byte string. */
  ghost predicate SpellsString(s: seq<byte>, major: nat, b: seq<byte>, max: nat) {
    |b| <= max && |b| < |s| && SpellsHead(s[..|s| - |b|], major, |b|) && s[|s| - |b|..] == b
  }

  /** The signed 64-bit value of an integer: unsigned, or one's complement, wrapping. */
  ghost predicate IntegerIs(v: int, major: nat, n: nat) {
    var w := if major == 0 then n else -1 - n;
    -TWO_63 <= v < TWO_63 && (v == w || v == w - TWO_64 || v == w + TWO_64)
  }

  /** These bytes are a value, with heads of any width, map entries in any order, and no
      length above `max`. */
  ghost predicate Spells(s: seq<byte>, o: Cbor, max: nat)
    decreases |s|, 0
  {
    match o
    case Long(v) => exists major, n: nat :: major < 2 && SpellsHead(s, major, n) && IntegerIs(v, major, n)
    case Boolean(b) => s == [if b then 0xf5 else 0xf4]
    case Null => s == [0xf6]
    case ByteString(b) => SpellsString(s, 2, b, max)
    case Str(t) => SpellsString(s, 3, t, max) && ValidUtf8(t)
    case List(items) =>
      |items| <= max && exists i :: 0 < i <= |s| && SpellsHead(s[..i], 4, |items|) && SpellsItems(s[i..], items, max)
    case Map(m) =>
      && |m| <= max && SortedKeys(m)
      && exists i, es :: 0 < i <= |s| && multiset(es) == multiset(m) && SpellsHead(s[..i], 5, |m|) && SpellsEntries(s[i..], es, max)
    case MerkleLink(cid) =>
      exists i :: 0 < i <= |s| && SpellsHead(s[..i], 6, 42) && SpellsString(s[i..], 2, [0] + cid, max)
  }

  ghost predicate SpellsItems(s: seq<byte>, items: seq<Cbor>, max: nat)
    decreases |s|, 1
  {
    if items == [] then s == []
    else exists i :: 0 < i <= |s| && Spells(s[..i], items[0], max) && SpellsItems(s[i..], items[1..], max)
  }

  /** Entries in the order they are written. */
  ghost predicate SpellsEntries(s: seq<byte>, es: seq<Entry>, max: nat)
    decreases |s|, 1
  {
    if es == [] then s == []
    else exists i, j :: 0 < i < j <= |s| && SpellsString(s[..i], 3, es[0].key, max) && ValidUtf8(es[0].key)
                        && Spells(s[i..j], es[0].value, max) && SpellsEntries(s[j..], es[1..], max)
  }

  // ---- heads, read ------------------------------------------------------------------------

  lemma ArgumentSpells(buf: seq<byte>, pos: nat)
    requires pos < |buf| && ReadArgument(buf, pos + 1, buf[pos] % 32).Ok?
    ensures var (n, p) := ReadArgument(buf, pos + 1, buf[pos] % 32).value;
      pos < p <= |buf| && n < TWO_64 && SpellsHead(buf[pos..p], buf[pos] / 32, n)
  {
    hide BeValue;
    var (n, p) := ReadArgument(buf, pos + 1, buf[pos] % 32).value;
    ShortestHead(buf, pos + 1, buf[pos] % 32);
    var h := buf[pos..p];
    assert h[0] == buf[pos] && h[1..] == buf[pos + 1..p];
  }

  lemma SpelledReads(buf: seq<byte>, pos: nat, h: seq<byte>, major: nat, n: nat)
    requires Stands(buf, pos, h) && SpellsHead(h, major, n)
    ensures pos < |buf| && buf[pos] / 32 == major && ReadArgument(buf, pos + 1, buf[pos] % 32) == Ok((n, pos + |h|))
  {
    hide BeValue;
    assert buf[pos] == buf[pos..pos + |h|][0] == h[0];
    assert buf[pos + 1..pos + |h|] == buf[pos..pos + |h|][1..];
  }

  lemma SignedIs(v: int, major: nat, n: nat)
    requires major < 2 && n < TWO_64
    ensures IntegerIs(v, major, n) <==> v == Signed(major, n)
  {}

  // ---- whatever is read is spelled ------------------------------------------------------------

  lemma StringSpelled(buf: seq<byte>, pos: nat, p: nat, n: nat, major: nat, max: nat)
    requires pos < p && p + n <= |buf| && n <= max && SpellsHead(buf[pos..p], major, n)
    ensures SpellsString(buf[pos..p + n], major, buf[p..p + n], max)
  {
    hide SpellsHead;
    var s := buf[pos..p + n];
    assert s[..|s| - n] == buf[pos..p] && s[|s| - n..] == buf[p..p + n];
  }

  lemma Rejoin(buf: seq<byte>, pos: nat, p: nat, q: nat)
    requires pos <= p <= q <= |buf|
    ensures buf[pos..q][..p - pos] == buf[pos..p] && buf[pos..q][p - pos..] == buf[p..q]
  {}

  lemma {:induction false} ParseSound(buf: seq<byte>, pos: nat, max: nat)
    requires pos <= |buf| && Parse(buf, pos, max).Ok?
    ensures var (o, q) := Parse(buf, pos, max).value; Spells(buf[pos..q], o, max)
    decreases |buf| - pos, 0, 0
  {
    hide ReadArgument, ParseBody, Spells, SpellsHead;
    var (o, q) := Parse(buf, pos, max).value;
    var major, info := buf[pos] / 32, buf[pos] % 32;
    if major == TYPE_FLOAT_SIMPLE {
      SimpleSpelled(buf, pos, max, o);
    } else {
      ArgumentSpells(buf, pos);
      var (n, p) := ReadArgument(buf, pos + 1, info).value;
      BodySound(buf, pos, p, major, n, max);
    }
  }

  lemma SimpleSpelled(buf: seq<byte>, pos: nat, max: nat, o: Cbor)
    requires pos < |buf| && buf[pos] / 32 == 7
    requires (o == Null && buf[pos] % 32 == 0x16) || (o == Boolean(true) && buf[pos] % 32 == 0x15) || (o == Boolean(false) && buf[pos] % 32 == 0x14)
    ensures Spells(buf[pos..pos + 1], o, max)
  {
    assert buf[pos..pos + 1] == [buf[pos]];
  }

  lemma {:induction false} BodySound(buf: seq<byte>, pos: nat, p: nat, major: nat, n: nat, max: nat)
    requires pos < p <= |buf| && major < 7 && n < TWO_64 && SpellsHead(buf[pos..p], major, n)
    requires ParseBody(buf, pos, p, major, n, max).Ok?
    ensures var (o, q) := ParseBody(buf, pos, p, major, n, max).value; Spells(buf[pos..q], o, max)
    decreases |buf| - p, 2, 0
  {
    hide Parse, ParseItems, ParseEntries, SpellsHead, SpellsItems, SpellsEntries, SortedKeys, ValidUtf8, SpellsString;
    var (o, q) := ParseBody(buf, pos, p, major, n, max).value;
    Rejoin(buf, pos, p, q);
    if major == TYPE_TAG {
      LinkSound(buf, pos, p, max);
    } else if major == TYPE_UNSIGNED_INTEGER || major == TYPE_NEGATIVE_INTEGER {
      SignedIs(Signed(major, n), major, n);
      hide IntegerIs;
    } else if major == TYPE_ARRAY {
      ItemsSound(buf, p, n, max, []);
      assert [] <= o.items && o.items[0..] == o.items;
    } else if major == TYPE_MAP {
      NoEntriesSorted();
      var es := EntriesSound(buf, p, n, max, []);
      assert multiset([]) + multiset(es) == multiset(es);
    } else {
      StringSpelled(buf, pos, p, n, major, max);
    }
  }

  lemma NoEntriesSorted()
    ensures SortedKeys([])
  {}

  lemma {:induction false} LinkSound(buf: seq<byte>, pos: nat, p: nat, max: nat)
    requires pos < p <= |buf| && SpellsHead(buf[pos..p], 6, 42) && ParseBody(buf, pos, p, 6, 42, max).Ok?
    ensures var (o, q) := ParseBody(buf, pos, p, 6, 42, max).value; Spells(buf[pos..q], o, max)
    decreases |buf| - p, 1, 0
  {
    hide Parse, SpellsHead, SpellsString;
    ParseSound(buf, p, max);
    var (v, q) := Parse(buf, p, max).value;
    Rejoin(buf, pos, p, q);
    assert [0] + v.bytes[1..] == v.bytes;
  }

  lemma {:induction false} ItemsSound(buf: seq<byte>, pos: nat, n: nat, max: nat, acc: seq<Cbor>)
    requires pos <= |buf| && ParseItems(buf, pos, n, max, acc).Ok?
    ensures var (items, q) := ParseItems(buf, pos, n, max, acc).value;
      acc <= items && |items| == |acc| + n && SpellsItems(buf[pos..q], items[|acc|..], max)
    decreases |buf| - pos, 1, n
  {
    hide Parse, Spells;
    var (items, q) := ParseItems(buf, pos, n, max, acc).value;
    if n == 0 {
      assert buf[pos..q] == [] && items[|acc|..] == [];
    } else {
      ParseSound(buf, pos, max);
      var (o, p) := Parse(buf, pos, max).value;
      ItemsSound(buf, p, n - 1, max, acc + [o]);
      Rejoin(buf, pos, p, q);
      assert items[|acc|..][0] == items[|acc|] == (acc + [o])[|acc|] && items[|acc|..][1..] == items[|acc| + 1..];
    }
  }

  lemma {:induction false} EntriesSound(buf: seq<byte>, pos: nat, n: nat, max: nat, acc: seq<Entry>) returns (es: seq<Entry>)
    requires pos <= |buf| && ParseEntries(buf, pos, n, max, acc).Ok? && SortedKeys(acc)
    ensures var (m, q) := ParseEntries(buf, pos, n, max, acc).value;
      |es| == n && |m| == |acc| + n && SortedKeys(m) && multiset(m) == multiset(acc) + multiset(es) && SpellsEntries(buf[pos..q], es, max)
    decreases |buf| - pos, 1, n
  {
    hide Parse, Spells, Insert, SortedKeys, ValidUtf8, SpellsString;
    var (m, q) := ParseEntries(buf, pos, n, max, acc).value;
    if n == 0 {
      es := [];
      assert buf[pos..q] == [];
    } else {
      ParseSound(buf, pos, max);
      var (k, p) := Parse(buf, pos, max).value;
      ParseSound(buf, p, max);
      var (v, p') := Parse(buf, p, max).value;
      var e := Entry(k.text, v);
      InsertSorted(acc, e);
      SameMembers(Insert(acc, e).value, acc, e);
      var rest := EntriesSound(buf, p', n - 1, max, Insert(acc, e).value);
      es := [e] + rest;
      TextSpelled(buf[pos..p], k.text, max);
      EntryJoins(buf, pos, p, p', q, e, rest, max);
      assert multiset(es) == multiset{e} + multiset(rest);
    }
  }

  lemma SameMembers(r: seq<Entry>, acc: seq<Entry>, e: Entry)
    requires multiset(r) == multiset(acc) + multiset{e}
    ensures |r| == |acc| + 1
  {
    assert |multiset(r)| == |multiset(acc)| + 1;
  }

  lemma TextSpelled(s: seq<byte>, t: seq<byte>, max: nat)
    requires Spells(s, Str(t), max)
    ensures SpellsString(s, 3, t, max) && ValidUtf8(t)
  {}

  lemma EntryJoins(buf: seq<byte>, pos: nat, p: nat, p': nat, q: nat, e: Entry, rest: seq<Entry>, max: nat)
    requires pos < p < p' <= q <= |buf| && SpellsString(buf[pos..p], 3, e.key, max) && ValidUtf8(e.key)
    requires Spells(buf[p..p'], e.value, max) && SpellsEntries(buf[p'..q], rest, max)
    ensures SpellsEntries(buf[pos..q], [e] + rest, max)
  {
    hide Spells, SpellsString, ValidUtf8;
    var s, es, i, j := buf[pos..q], [e] + rest, p - pos, p' - pos;
    SliceOf(buf, pos, q, 0, i);
    SliceOf(buf, pos, q, i, j);
    SliceOf(buf, pos, q, j, |s|);
    assert s[0..i] == s[..i] && s[j..|s|] == s[j..] && es[1..] == rest;
    assert 0 < i < j <= |s| && SpellsString(s[..i], 3, es[0].key, max) && Spells(s[i..j], es[0].value, max) && SpellsEntries(s[j..], es[1..], max);
  }

  lemma SliceOf(buf: seq<byte>, pos: nat, q: nat, i: nat, j: nat)
    requires i <= j && pos + j <= q <= |buf|
    ensures buf[pos..q][i..j] == buf[pos + i..pos + j]
  {
    var a, b := buf[pos..q][i..j], buf[pos + i..pos + j];
    forall k | 0 <= k < j - i ensures a[k] == b[k] {
      assert a[k] == buf[pos..q][i + k];
    }
    assert a == b;
  }

  // ---- whatever is spelled is read --------------------------------------------------------------

  lemma StandsParts(buf: seq<byte>, pos: nat, s: seq<byte>, i: nat)
    requires Stands(buf, pos, s) && i <= |s|
    ensures Stands(buf, pos, s[..i]) && Stands(buf, pos + i, s[i..])
  {
    assert s == s[..i] + s[i..];
    StandsSplit(buf, pos, s[..i], s[i..]);
  }

  lemma StringRead(buf: seq<byte>, pos: nat, s: seq<byte>, major: nat, b: seq<byte>, max: nat)
    requires Stands(buf, pos, s) && SpellsString(s, major, b, max)
    ensures pos < |buf| && buf[pos] / 32 == major
    ensures var r := ReadArgument(buf, pos + 1, buf[pos] % 32);
      r == Ok((|b|, pos + |s| - |b|)) && Take(buf, pos + |s| - |b|, |b|) == Ok((b, pos + |s|))
  {
    hide SpellsHead, ReadArgument;
    StandsParts(buf, pos, s, |s| - |b|);
    SpelledReads(buf, pos, s[..|s| - |b|], major, |b|);
  }

  lemma {:induction false} SpelledParses(buf: seq<byte>, pos: nat, s: seq<byte>, o: Cbor, max: nat)
    requires Stands(buf, pos, s) && Spells(s, o, max)
    ensures s != [] && Parse(buf, pos, max) == Ok((o, pos + |s|))
    decreases |s|, 0
  {
    hide SpellsHead, SpellsString, SpellsItems, SpellsEntries, ReadArgument, ParseItems, ParseEntries, SortedKeys, ValidUtf8, Stands, Take;
    match o
    case Long(v) => LongRead(buf, pos, s, v, max);
    case Boolean(b) => SimpleRead(buf, pos, s);
    case Null => SimpleRead(buf, pos, s);
    case ByteString(b) => StringIsLong(s, 2, b, max); StringRead(buf, pos, s, 2, b, max);
    case Str(t) => StringIsLong(s, 3, t, max); StringRead(buf, pos, s, 3, t, max);
    case MerkleLink(cid) => LinkRead(buf, pos, s, cid, max);
    case List(items) =>
      var i :| 0 < i <= |s| && SpellsHead(s[..i], 4, |items|) && SpellsItems(s[i..], items, max);
      ListRead(buf, pos, s, i, items, max);
    case Map(m) =>
      var i, es :| 0 < i <= |s| && multiset(es) == multiset(m) && SpellsHead(s[..i], 5, |m|) && SpellsEntries(s[i..], es, max);
      MapRead(buf, pos, s, i, es, m, max);
  }

  lemma StringIsLong(s: seq<byte>, major: nat, b: seq<byte>, max: nat)
    requires SpellsString(s, major, b, max)
    ensures |b| < |s| && |b| <= max
  {}

  lemma SimpleRead(buf: seq<byte>, pos: nat, s: seq<byte>)
    requires Stands(buf, pos, s) && |s| == 1
    ensures pos < |buf| && buf[pos] == s[0]
  {
    assert buf[pos] == buf[pos..pos + 1][0];
  }

  lemma LongRead(buf: seq<byte>, pos: nat, s: seq<byte>, v: int, max: nat)
    requires Stands(buf, pos, s) && Spells(s, Long(v), max)
    ensures s != [] && Parse(buf, pos, max) == Ok((Long(v), pos + |s|))
  {
    hide SpellsHead, ReadArgument, Stands;
    var major, n: nat :| major < 2 && SpellsHead(s, major, n) && IntegerIs(v, major, n);
    SpelledReads(buf, pos, s, major, n);
    HeadShortest(s, major, n);
    SignedIs(v, major, n);
    HeadIsLong(s, major, n);
  }

  lemma HeadIsLong(h: seq<byte>, major: nat, n: nat)
    requires SpellsHead(h, major, n)
    ensures h != []
  {}

  lemma LinkRead(buf: seq<byte>, pos: nat, s: seq<byte>, cid: seq<byte>, max: nat)
    requires Stands(buf, pos, s) && Spells(s, MerkleLink(cid), max)
    ensures s != [] && Parse(buf, pos, max) == Ok((MerkleLink(cid), pos + |s|))
  {
    hide SpellsHead, ReadArgument, Stands, SpellsString, Take;
    var i :| 0 < i <= |s| && SpellsHead(s[..i], 6, 42) && SpellsString(s[i..], 2, [0] + cid, max);
    StandsParts(buf, pos, s, i);
    SpelledReads(buf, pos, s[..i], 6, 42);
    StringRead(buf, pos + i, s[i..], 2, [0] + cid, max);
    StringIsLong(s[i..], 2, [0] + cid, max);
    assert Parse(buf, pos + i, max) == Ok((ByteString([0] + cid), pos + |s|));
    assert ([0] + cid)[1..] == cid;
  }

  lemma {:induction false} ListRead(buf: seq<byte>, pos: nat, s: seq<byte>, i: nat, items: seq<Cbor>, max: nat)
    requires Stands(buf, pos, s) && 0 < i <= |s| && |items| <= max && SpellsHead(s[..i], 4, |items|) && SpellsItems(s[i..], items, max)
    ensures Parse(buf, pos, max) == Ok((List(items), pos + |s|))
    decreases |s| - i, 2
  {
    hide SpellsHead, ReadArgument, Stands, ParseItems, SpellsItems;
    StandsParts(buf, pos, s, i);
    SpelledReads(buf, pos, s[..i], 4, |items|);
    ItemsRead(buf, pos + i, s[i..], items, max, []);
    assert [] + items == items;
  }

  lemma {:induction false} ItemsRead(buf: seq<byte>, pos: nat, s: seq<byte>, items: seq<Cbor>, max: nat, acc: seq<Cbor>)
    requires Stands(buf, pos, s) && SpellsItems(s, items, max)
    ensures ParseItems(buf, pos, |items|, max, acc) == Ok((acc + items, pos + |s|))
    decreases |s|, 1
  {
    hide Parse, Spells, Stands;
    if items == [] {
      StandsIn(buf, pos, s);
      assert acc + items == acc;
    } else {
      var i :| 0 < i <= |s| && Spells(s[..i], items[0], max) && SpellsItems(s[i..], items[1..], max);
      StandsParts(buf, pos, s, i);
      StandsIn(buf, pos, s);
      SpelledParses(buf, pos, s[..i], items[0], max);
      ItemsRead(buf, pos + i, s[i..], items[1..], max, acc + [items[0]]);
      assert acc + [items[0]] + items[1..] == acc + items;
    }
  }

  lemma StandsIn(buf: seq<byte>, pos: nat, s: seq<byte>)
    requires Stands(buf, pos, s)
    ensures pos + |s| <= |buf|
  {}

  // entries, in whatever order they come

  ghost predicate Texts(m: seq<Entry>) { forall e :: e in m ==> ValidUtf8(e.key) }

  ghost predicate NoRepeats(es: seq<Entry>) { forall i, j :: 0 <= i < j < |es| ==> es[i].key != es[j].key }

  /** The sorted form of a set of entries is unique. */
  lemma {:induction false} SortedUnique(a: seq<Entry>, b: seq<Entry>)
    requires SortedKeys(a) && SortedKeys(b) && multiset(a) == multiset(b)
    ensures a == b
  {
    hide SortedKeys;
    assert |multiset(a)| == |a| && |multiset(b)| == |b|;
    if a != [] {
      SameFirstEntry(a, b);
      SortedRest(a);
      SortedRest(b);
      SortedUnique(a[1..], b[1..]);
      assert a == [a[0]] + a[1..] && b == [b[0]] + b[1..];
    }
  }

  lemma SortedRest(a: seq<Entry>)
    requires SortedKeys(a) && a != []
    ensures SortedKeys(a[1..]) && multiset(a[1..]) == multiset(a) - multiset{a[0]}
  {
    hide KeyLess;
    assert a == [a[0]] + a[1..];
  }

  lemma SameFirstEntry(a: seq<Entry>, b: seq<Entry>)
    requires SortedKeys(a) && SortedKeys(b) && multiset(a) == multiset(b) && a != [] && b != []
    ensures a[0] == b[0]
  {
    hide SortedKeys;
    assert a[0] in multiset(b) && b[0] in multiset(a);
    FirstLeast(a, b[0]);
    FirstLeast(b, a[0]);
    hide Less, Units;
    LessTotal(Units(a[0].key), Units(b[0].key));
  }

  lemma FirstLeast(a: seq<Entry>, e: Entry)
    requires SortedKeys(a) && e in a
    ensures e == a[0] || KeyLess(a[0].key, e.key)
  {
    hide KeyLess;
    var i :| 0 <= i < |a| && a[i] == e;
  }

  lemma SortedNoRepeats(m: seq<Entry>)
    requires SortedKeys(m)
    ensures NoRepeats(m)
  {
    forall i, j | 0 <= i < j < |m| ensures m[i].key != m[j].key {
      assert KeyLess(m[i].key, m[j].key);
      LessTotal(Units(m[i].key), Units(m[i].key));
    }
  }

  lemma {:induction false} SpelledTexts(s: seq<byte>, es: seq<Entry>, max: nat)
    requires SpellsEntries(s, es, max)
    ensures Texts(es)
    decreases |es|
  {
    hide ValidUtf8, Spells, SpellsString;
    if es != [] {
      var i, j := FirstSpelled(s, es, max);
      SpelledTexts(s[j..], es[1..], max);
      assert es == [es[0]] + es[1..];
    }
  }

  /** No key of `es` repeats, in itself or in `acc`. */
  ghost predicate Fresh(acc: seq<Entry>, es: seq<Entry>) {
    NoRepeats(es) && forall a, e :: a in acc && e in es ==> a.key != e.key
  }

  lemma FreshStep(acc: seq<Entry>, es: seq<Entry>, r: seq<Entry>)
    requires Fresh(acc, es) && es != [] && multiset(r) == multiset(acc) + multiset{es[0]}
    ensures Fresh(r, es[1..])
  {
    forall a, e | a in r && e in es[1..] ensures a.key != e.key {
      assert a in multiset(r);
      assert a in acc || a == es[0];
      var j :| 0 <= j < |es[1..]| && es[1..][j] == e;
      assert es[j + 1] == e;
    }
  }

  lemma InsertsFresh(acc: seq<Entry>, es: seq<Entry>)
    requires SortedKeys(acc) && Texts(acc) && Texts(es) && es != [] && Fresh(acc, es)
    ensures Insert(acc, es[0]).Some?
    ensures var r := Insert(acc, es[0]).value; SortedKeys(r) && Texts(r) && Texts(es[1..]) && Fresh(r, es[1..]) && multiset(r) == multiset(acc) + multiset{es[0]}
  {
    hide ValidUtf8, Insert, SortedKeys;
    assert es[0] in es;
    InsertRefuses(acc, es[0]);
    InsertSorted(acc, es[0]);
    var r := Insert(acc, es[0]).value;
    FreshStep(acc, es, r);
    forall e | e in r ensures ValidUtf8(e.key) {
      assert e in multiset(r);
      assert e in acc || e == es[0];
    }
  }

  lemma FirstSpelled(s: seq<byte>, es: seq<Entry>, max: nat) returns (i: nat, j: nat)
    requires SpellsEntries(s, es, max) && es != []
    ensures 0 < i < j <= |s| && SpellsString(s[..i], 3, es[0].key, max) && ValidUtf8(es[0].key)
    ensures Spells(s[i..j], es[0].value, max) && SpellsEntries(s[j..], es[1..], max)
  {
    hide SpellsString, ValidUtf8, Spells;
    i, j :| 0 < i < j <= |s| && SpellsString(s[..i], 3, es[0].key, max) && ValidUtf8(es[0].key)
            && Spells(s[i..j], es[0].value, max) && SpellsEntries(s[j..], es[1..], max);
  }

  /** The first entry is read and inserted. */
  lemma {:induction false} FirstEntryRead(buf: seq<byte>, pos: nat, s: seq<byte>, i: nat, j: nat, es: seq<Entry>, max: nat, acc: seq<Entry>)
    requires Stands(buf, pos, s) && 0 < i < j <= |s| && es != [] && Insert(acc, es[0]).Some?
    requires SpellsString(s[..i], 3, es[0].key, max) && ValidUtf8(es[0].key) && Spells(s[i..j], es[0].value, max)
    ensures pos + |s| <= |buf|
    ensures ParseEntries(buf, pos, |es|, max, acc) == ParseEntries(buf, pos + j, |es| - 1, max, Insert(acc, es[0]).value)
    decreases |s|, 1
  {
    hide Parse, Spells, Stands, SpellsString, Insert, ValidUtf8;
    StandsIn(buf, pos, s);
    EntryStands(buf, pos, s, i, j);
    TextSpells(s[..i], es[0].key, max);
    SpelledParses(buf, pos, s[..i], Str(es[0].key), max);
    SpelledParses(buf, pos + i, s[i..j], es[0].value, max);
    assert Entry(es[0].key, es[0].value) == es[0];
  }

  lemma {:induction false} EntriesRead(buf: seq<byte>, pos: nat, s: seq<byte>, es: seq<Entry>, max: nat, acc: seq<Entry>) returns (m: seq<Entry>)
    requires Stands(buf, pos, s) && SpellsEntries(s, es, max)
    requires SortedKeys(acc) && Texts(acc) && Texts(es) && Fresh(acc, es)
    ensures pos + |s| <= |buf| && ParseEntries(buf, pos, |es|, max, acc) == Ok((m, pos + |s|))
    ensures SortedKeys(m) && multiset(m) == multiset(acc) + multiset(es)
    decreases |s|, 2
  {
    hide Parse, Spells, Stands, SpellsString, Insert, SortedKeys, Texts, Fresh, ValidUtf8;
    StandsIn(buf, pos, s);
    if es == [] {
      m := acc;
      assert multiset(acc) + multiset(es) == multiset(acc);
    } else {
      hide ParseEntries;
      var i, j := FirstSpelled(s, es, max);
      hide SpellsEntries;
      EntryStands(buf, pos, s, i, j);
      InsertsFresh(acc, es);
      FirstEntryRead(buf, pos, s, i, j, es, max, acc);
      m := EntriesRead(buf, pos + j, s[j..], es[1..], max, Insert(acc, es[0]).value);
      assert es == [es[0]] + es[1..];
      assert multiset(es) == multiset{es[0]} + multiset(es[1..]);
    }
  }

  lemma EntryStands(buf: seq<byte>, pos: nat, s: seq<byte>, i: nat, j: nat)
    requires Stands(buf, pos, s) && i <= j <= |s|
    ensures Stands(buf, pos, s[..i]) && Stands(buf, pos + i, s[i..j]) && Stands(buf, pos + j, s[j..])
  {
    hide Stands;
    StandsParts(buf, pos, s, j);
    StandsParts(buf, pos, s[..j], i);
    assert s[..j][..i] == s[..i] && s[..j][i..] == s[i..j];
  }

  lemma TextSpells(s: seq<byte>, t: seq<byte>, max: nat)
    requires SpellsString(s, 3, t, max) && ValidUtf8(t)
    ensures Spells(s, Str(t), max)
  {}

  lemma {:induction false} MapRead(buf: seq<byte>, pos: nat, s: seq<byte>, i: nat, es: seq<Entry>, m: seq<Entry>, max: nat)
    requires Stands(buf, pos, s) && 0 < i <= |s| && |m| <= max && SortedKeys(m) && multiset(es) == multiset(m)
    requires SpellsHead(s[..i], 5, |m|) && SpellsEntries(s[i..], es, max)
    ensures Parse(buf, pos, max) == Ok((Map(m), pos + |s|))
    decreases |s| - i, 3
  {
    hide SpellsHead, ReadArgument, Stands, ParseEntries, SpellsEntries, SortedKeys, ValidUtf8, Texts, Fresh;
    StandsParts(buf, pos, s, i);
    SpelledReads(buf, pos, s[..i], 5, |m|);
    SpelledTexts(s[i..], es, max);
    EntriesFresh(es, m);
    var r := EntriesRead(buf, pos + i, s[i..], es, max, []);
    assert multiset([]) + multiset(es) == multiset(m);
    SortedUnique(r, m);
    assert |multiset(es)| == |es| && |multiset(m)| == |m|;
  }

  lemma EntriesFresh(es: seq<Entry>, m: seq<Entry>)
    requires SortedKeys(m) && multiset(es) == multiset(m)
    ensures SortedKeys([]) && Texts([]) && Fresh([], es)
  {
    SortedNoRepeats(m);
    hide SortedKeys;
    forall i, j | 0 <= i < j < |es| ensures es[i].key != es[j].key {
      DistinctIn(es, m, i, j);
    }
  }

  lemma TwiceIn(es: seq<Entry>, i: nat, j: nat)
    requires i < j < |es| && es[i] == es[j]
    ensures multiset(es)[es[i]] >= 2
  {
    assert es == es[..j] + [es[j]] + es[j + 1..];
    assert es[..j][i] == es[i];
    assert es[i] in multiset(es[..j]);
  }

  lemma OnceIn(m: seq<Entry>, k: nat)
    requires NoRepeats(m) && k < |m|
    ensures multiset(m)[m[k]] == 1
  {
    var before, after := m[..k], m[k + 1..];
    assert m == before + [m[k]] + after;
    assert forall i :: 0 <= i < |before| ==> before[i] == m[i] && before[i] != m[k];
    assert forall i :: 0 <= i < |after| ==> after[i] == m[k + 1 + i] && after[i] != m[k];
    assert m[k] !in before && m[k] !in after;
  }

  /** A rearrangement of entries without repeated keys has none. */
  lemma DistinctIn(es: seq<Entry>, m: seq<Entry>, i: nat, j: nat)
    requires NoRepeats(m) && multiset(es) == multiset(m) && i < j < |es|
    ensures es[i].key != es[j].key
  {
    assert es[i] in multiset(m) && es[j] in multiset(m);
    var a :| 0 <= a < |m| && m[a] == es[i];
    var b :| 0 <= b < |m| && m[b] == es[j];
    OnceIn(m, a);
    if es[i] == es[j] { TwiceIn(es, i, j); }
  }

  // ---- the two together -------------------------------------------------------------------------

  /** The decoder accepts exactly what spells a value, and takes it for that value. */
  lemma ParsesExactly(buf: seq<byte>, pos: nat, max: nat, o: Cbor, q: nat)
    requires pos <= |buf|
    ensures Parse(buf, pos, max) == Ok((o, q)) <==> pos < q <= |buf| && Spells(buf[pos..q], o, max)
  {
    hide Parse, Spells;
    if Parse(buf, pos, max) == Ok((o, q)) { ParseSound(buf, pos, max); }
    if pos < q <= |buf| && Spells(buf[pos..q], o, max) { SpelledParses(buf, pos, buf[pos..q], o, max); }
  }

  /** `from_bytes` accepts exactly the inputs that spell one value. */
  lemma DecodesExactly(bytes: seq<byte>, o: Cbor)
    ensures DecodeAll(bytes) == Ok(o) <==> bytes != [] && Spells(bytes, o, |bytes|)
  {
    hide Parse, Spells;
    if bytes != [] {
      assert bytes[0..|bytes|] == bytes;
      ParsesExactly(bytes, 0, |bytes|, o, |bytes|);
    }
  }

  /** The encoder's form is one of the spellings, and no spelling is shorter. */
  lemma EncodeIsShortest(o: Cbor, s: seq<byte>)
    requires WellFormed(o)
    ensures Spells(Encode(o), o, |Encode(o)|)
    ensures Spells(s, o, |s|) && |s| < TWO_64 ==> |Encode(o)| <= |s|
  {
    hide Spells, Encode, WellFormed, DecodeAll;
    DecodesWhole(o);
    DecodesExactly(Encode(o), o);
    if Spells(s, o, |s|) && |s| < TWO_64 {
      SpelledParses(s, 0, s, o, |s|);
      DecodesExactly(s, o);
      Canonical(s);
    }
  }
}
