/** CBOR values and their canonical encoding (`peergos-cbor`). */
module CborValue {
  import opened Bytes
  import opened Text

  const TYPE_UNSIGNED_INTEGER := 0
  const TYPE_NEGATIVE_INTEGER := 1
  const TYPE_BYTE_STRING := 2
  const TYPE_TEXT_STRING := 3
  const TYPE_ARRAY := 4
  const TYPE_MAP := 5
  const TYPE_TAG := 6
  const TYPE_FLOAT_SIMPLE := 7

  const ONE_BYTE := 0x18
  const TWO_BYTES := 0x19
  const FOUR_BYTES := 0x1a
  const EIGHT_BYTES := 0x1b

  const FALSE := 0x14
  const TRUE := 0x15
  const NULL := 0x16

  const LINK_TAG := 42

  const TWO_32 := 0x1_0000_0000
  const TWO_63 := 0x8000_0000_0000_0000
  const TWO_64 := 0x1_0000_0000_0000_0000

  datatype Cbor =
    | Long(v: int)
    | Boolean(b: bool)
    | ByteString(bytes: seq<byte>)
    | Str(text: seq<byte>)
    | List(items: seq<Cbor>)
    | Map(entries: seq<Entry>)
    | MerkleLink(cid: seq<byte>)
    | Null

  datatype Entry = Entry(key: seq<byte>, value: Cbor)

  /** `CborString::cmp`: UTF-16 length first, then UTF-16 units. */
  predicate KeyLess(a: seq<byte>, b: seq<byte>) { Less(Units(a), Units(b)) }

  predicate SortedKeys(m: seq<Entry>) {
    forall i, j :: 0 <= i < j < |m| ==> KeyLess(m[i].key, m[j].key)
  }

  predicate Text64(s: seq<byte>) { ValidUtf8(s) && |s| < TWO_64 }

  /** The values the Rust type can hold: 64-bit integers and lengths, valid text, and
      maps in key order without duplicates. */
  predicate WellFormed(o: Cbor) {
    match o
    case Long(v) => -TWO_63 <= v < TWO_63
    case ByteString(b) => |b| < TWO_64
    case Str(s) => Text64(s)
    case List(items) => |items| < TWO_64 && forall i :: 0 <= i < |items| ==> WellFormed(items[i])
    case Map(m) =>
      && |m| < TWO_64 && SortedKeys(m)
      && forall i :: 0 <= i < |m| ==> Text64(m[i].key) && WellFormed(m[i].value)
    case MerkleLink(cid) => |cid| + 1 < TWO_64
    case _ => true
  }

  // ---- the encoding -------------------------------------------------------------------

  /** The low `k` bytes of `n`, most significant first. */
  function BigEndian(n: nat, k: nat): (s: seq<byte>)
    ensures |s| == k
  {
    if k == 0 then [] else BigEndian(n / 256, k - 1) + [n % 256]
  }

  /** The initial byte and the shortest form of its argument. */
  function Head(major: nat, n: nat): (s: seq<byte>)
    requires major < 8
    ensures |s| == HeadLength(n)
  {
    if n < 24 then [32 * major + n]
    else if n < 0x100 then [32 * major + ONE_BYTE] + BigEndian(n, 1)
    else if n < 0x10000 then [32 * major + TWO_BYTES] + BigEndian(n, 2)
    else if n < TWO_32 then [32 * major + FOUR_BYTES] + BigEndian(n, 4)
    else [32 * major + EIGHT_BYTES] + BigEndian(n, 8)
  }

  function HeadLength(n: nat): nat {
    if n < 24 then 1 else if n < 0x100 then 2 else if n < 0x10000 then 3 else if n < TWO_32 then 5 else 9
  }

  function EncodeString(major: nat, s: seq<byte>): seq<byte>
    requires major < 8
  {
    Head(major, |s|) + s
  }

  function Encode(o: Cbor): (s: seq<byte>)
    ensures |s| > 0
    decreases o
  {
    match o
    case Long(v) => if v < 0 then Head(TYPE_NEGATIVE_INTEGER, -1 - v) else Head(TYPE_UNSIGNED_INTEGER, v)
    case Boolean(b) => Head(TYPE_FLOAT_SIMPLE, if b then TRUE else FALSE)
    case ByteString(b) => EncodeString(TYPE_BYTE_STRING, b)
    case Str(s) => EncodeString(TYPE_TEXT_STRING, s)
    case List(items) => Head(TYPE_ARRAY, |items|) + EncodeItems(items)
    case Map(m) => Head(TYPE_MAP, |m|) + EncodeEntries(m)
    case MerkleLink(cid) => Head(TYPE_TAG, LINK_TAG) + EncodeString(TYPE_BYTE_STRING, [0] + cid)
    case Null => Head(TYPE_FLOAT_SIMPLE, NULL)
  }

  function EncodeItems(items: seq<Cbor>): (s: seq<byte>)
    ensures |s| >= |items|
    decreases items
  {
    if items == [] then [] else Encode(items[0]) + EncodeItems(items[1..])
  }

  function EncodeEntries(m: seq<Entry>): (s: seq<byte>)
    ensures |s| >= |m|
    decreases m
  {
    if m == [] then [] else EncodeString(TYPE_TEXT_STRING, m[0].key) + Encode(m[0].value) + EncodeEntries(m[1..])
  }

  // ---- the writer ------------------------------------------------------------------------

  /** The byte vector `out` that the encoder appends to. */
  class Output {
    var bytes: seq<byte>

    constructor ()
      ensures bytes == []
    {
      bytes := [];
    }

    /** `write_uint`, the shifts as divisions. */
    method WriteUint(major: nat, value: nat)
      requires major < 8 && value < TWO_64
      modifies this
      ensures bytes == old(bytes) + Head(major, value)
    {
      var mt := 32 * major;
      if value < 0x18 {
        bytes := bytes + [mt + value];
      } else if value < 0x100 {
        BigEndian1(value);
        bytes := bytes + [mt + ONE_BYTE, value];
      } else if value < 0x10000 {
        BigEndian2(value);
        bytes := bytes + [mt + TWO_BYTES, value / 0x100, value % 0x100];
      } else if value < TWO_32 {
        BigEndian4(value);
        bytes := bytes + [mt + FOUR_BYTES, value / 0x100_0000, value / 0x1_0000 % 0x100, value / 0x100 % 0x100, value % 0x100];
      } else {
        BigEndian8(value);
        bytes := bytes + [mt + EIGHT_BYTES,
                          value / 0x100_0000_0000_0000, value / 0x1_0000_0000_0000 % 0x100,
                          value / 0x100_0000_0000 % 0x100, value / 0x1_0000_0000 % 0x100,
                          value / 0x100_0000 % 0x100, value / 0x1_0000 % 0x100, value / 0x100 % 0x100, value % 0x100];
      }
    }

    method WriteSimpleType(value: nat)
      requires value < 24
      modifies this
      ensures bytes == old(bytes) + Head(TYPE_FLOAT_SIMPLE, value)
    {
      bytes := bytes + [32 * TYPE_FLOAT_SIMPLE + value];
    }

    method WriteString(major: nat, s: seq<byte>)
      requires major < 8 && |s| < TWO_64
      modifies this
      ensures bytes == old(bytes) + EncodeString(major, s)
    {
      WriteUint(major, |s|);
      bytes := bytes + s;
    }

    /** `write_int`: a negative value by its ones' complement. */
    method WriteInt(v: int)
      requires -TWO_63 <= v < TWO_63
      modifies this
      ensures bytes == old(bytes) + Encode(Long(v))
    {
      if v < 0 {
        WriteUint(TYPE_NEGATIVE_INTEGER, -1 - v);
      } else {
        WriteUint(TYPE_UNSIGNED_INTEGER, v);
      }
    }

    /** `write_object` */
    method WriteObject(o: Cbor)
      requires WellFormed(o)
      modifies this
      ensures bytes == old(bytes) + Encode(o)
      decreases o
    {
      hide Head, EncodeString, EncodeItems, EncodeEntries, SortedKeys, ValidUtf8;
      match o
      case Long(v) => WriteInt(v);
      case Boolean(b) => WriteSimpleType(if b then TRUE else FALSE);
      case ByteString(b) => WriteString(TYPE_BYTE_STRING, b);
      case Str(s) => WriteString(TYPE_TEXT_STRING, s);
      case List(items) =>
        WriteUint(TYPE_ARRAY, |items|);
        WriteItems(items);
      case Map(m) =>
        WriteUint(TYPE_MAP, |m|);
        WriteEntries(m);
      case MerkleLink(cid) =>
        WriteUint(TYPE_TAG, LINK_TAG);
        WriteString(TYPE_BYTE_STRING, [0] + cid);
      case Null => WriteSimpleType(NULL);
    }

    method WriteItems(items: seq<Cbor>)
      requires forall i :: 0 <= i < |items| ==> WellFormed(items[i])
      modifies this
      ensures bytes == old(bytes) + EncodeItems(items)
      decreases items
    {
      hide Encode, WellFormed;
      for i := 0 to |items|
        invariant bytes + EncodeItems(items[i..]) == old(bytes) + EncodeItems(items)
      {
        WriteObject(items[i]);
        assert items[i..][1..] == items[i + 1..];
      }
    }

    method WriteEntries(m: seq<Entry>)
      requires forall i :: 0 <= i < |m| ==> Text64(m[i].key) && WellFormed(m[i].value)
      modifies this
      ensures bytes == old(bytes) + EncodeEntries(m)
      decreases m
    {
      hide Encode, WellFormed, EncodeString;
      for i := 0 to |m|
        invariant bytes + EncodeEntries(m[i..]) == old(bytes) + EncodeEntries(m)
      {
        WriteString(TYPE_TEXT_STRING, m[i].key);
        WriteObject(m[i].value);
        assert m[i..][1..] == m[i + 1..];
      }
    }
  }

  /** `to_bytes` */
  method ToBytes(o: Cbor) returns (bytes: seq<byte>)
    requires WellFormed(o)
    ensures bytes == Encode(o)
  {
    var out := new Output();
    out.WriteObject(o);
    bytes := out.bytes;
  }

  lemma BigEndian1(n: nat)
    requires n < 0x100
    ensures BigEndian(n, 1) == [n]
  {
    assert BigEndian(n / 256, 0) == [];
  }

  lemma BigEndian2(n: nat)
    requires n < 0x10000
    ensures BigEndian(n, 2) == [n / 0x100, n % 0x100]
  {
    BigEndian1(n / 256);
  }

  lemma BigEndian4(n: nat)
    requires n < TWO_32
    ensures BigEndian(n, 4) == [n / 0x100_0000, n / 0x1_0000 % 0x100, n / 0x100 % 0x100, n % 0x100]
  {
    assert n / 256 / 256 == n / 0x1_0000 && n / 0x1_0000 / 0x100 == n / 0x100_0000;
    BigEndian2(n / 0x1_0000);
    assert BigEndian(n, 4) == BigEndian(n / 256, 3) + [n % 256];
    assert BigEndian(n / 256, 3) == BigEndian(n / 256 / 256, 2) + [n / 256 % 256];
  }

  lemma BigEndianPair(n: nat, k: nat)
    ensures BigEndian(n, k + 2) == BigEndian(n / 0x10000, k) + [n / 0x100 % 0x100, n % 0x100]
  {
    assert n / 256 / 256 == n / 0x10000;
    assert BigEndian(n, k + 2) == BigEndian(n / 256, k + 1) + [n % 256];
    assert BigEndian(n / 256, k + 1) == BigEndian(n / 256 / 256, k) + [n / 256 % 256];
  }

  lemma BigEndian8(n: nat)
    requires n < TWO_64
    ensures BigEndian(n, 8) ==
      [n / 0x100_0000_0000_0000, n / 0x1_0000_0000_0000 % 0x100, n / 0x100_0000_0000 % 0x100, n / 0x1_0000_0000 % 0x100,
       n / 0x100_0000 % 0x100, n / 0x1_0000 % 0x100, n / 0x100 % 0x100, n % 0x100]
  {
    hide BigEndian;
    var h := n / TWO_32;
    assert n / 0x10000 / 0x10000 == h && n / 0x10000 / 0x100 == n / 0x100_0000;
    assert h / 0x100 == n / 0x100_0000_0000 && h / 0x1_0000 == n / 0x1_0000_0000_0000 && h / 0x100_0000 == n / 0x100_0000_0000_0000;
    BigEndianPair(n, 6);
    BigEndianPair(n / 0x10000, 4);
    BigEndian4(h);
  }
}
