/** Little-endian fields in a byte buffer (`archive.rs`). */
module ZipBytes {
  import opened Bytes

  const U16_MAX := 0xFFFF
  const U32_MAX := 0xFFFF_FFFF
  const TWO_63 := 0x8000_0000_0000_0000

  function U16At(d: seq<byte>, i: nat): (v: nat)
    requires i + 2 <= |d|
    ensures v <= U16_MAX
  {
    d[i] as int + 0x100 * d[i + 1] as int
  }

  function U32At(d: seq<byte>, i: nat): (v: nat)
    requires i + 4 <= |d|
    ensures v <= U32_MAX
  {
    U16At(d, i) + 0x10000 * U16At(d, i + 2)
  }

  /** All 64 bits; the reader refuses a value that does not fit a signed integer. */
  function U64At(d: seq<byte>, i: nat): nat
    requires i + 8 <= |d|
  {
    U32At(d, i) + 0x1_0000_0000 * U32At(d, i + 4)
  }

  lemma TwoBytes(v: nat)
    ensures v % 0x10000 == v % 0x100 + 0x100 * (v / 0x100 % 0x100)
  {}

  lemma TwoHalves(v: nat)
    ensures v % 0x1_0000_0000 == v % 0x10000 + 0x10000 * (v / 0x10000 % 0x10000)
  {}

  // ---- writing fields ------------------------------------------------------------------

  /** `put_u16`: the low 16 bits. */
  function PutU16(d: seq<byte>, i: nat, v: nat): (r: seq<byte>)
    requires i + 2 <= |d|
    ensures |r| == |d| && U16At(r, i) == v % 0x10000
    ensures forall j :: 0 <= j < |d| && !(i <= j < i + 2) ==> r[j] == d[j]
    ensures forall j: nat :: j + 2 <= |d| && (j + 2 <= i || i + 2 <= j) ==> U16At(r, j) == U16At(d, j)
    ensures forall j: nat :: j + 4 <= |d| && (j + 4 <= i || i + 2 <= j) ==> U32At(r, j) == U32At(d, j)
    ensures forall j: nat :: j + 8 <= |d| && (j + 8 <= i || i + 2 <= j) ==> U64At(r, j) == U64At(d, j)
  {
    TwoBytes(v);
    d[i := v % 0x100][i + 1 := v / 0x100 % 0x100]
  }

  /** `put_u32` */
  function PutU32(d: seq<byte>, i: nat, v: nat): (r: seq<byte>)
    requires i + 4 <= |d|
    ensures |r| == |d| && U32At(r, i) == v % 0x1_0000_0000
    ensures forall j :: 0 <= j < |d| && !(i <= j < i + 4) ==> r[j] == d[j]
    ensures forall j: nat :: j + 2 <= |d| && (j + 2 <= i || i + 4 <= j) ==> U16At(r, j) == U16At(d, j)
    ensures forall j: nat :: j + 4 <= |d| && (j + 4 <= i || i + 4 <= j) ==> U32At(r, j) == U32At(d, j)
    ensures forall j: nat :: j + 8 <= |d| && (j + 8 <= i || i + 4 <= j) ==> U64At(r, j) == U64At(d, j)
  {
    TwoHalves(v);
    PutU16(PutU16(d, i, v), i + 2, v / 0x10000)
  }

  lemma PutBoth(d: seq<byte>, i: nat, v: nat)
    requires i + 8 <= |d|
    ensures var r := PutU32(PutU32(d, i, v), i + 4, v / 0x1_0000_0000);
      && |r| == |d| && (v < TWO_63 ==> U64At(r, i) == v)
      && (forall j :: 0 <= j < |d| && !(i <= j < i + 8) ==> r[j] == d[j])
      && (forall j: nat :: j + 2 <= |d| && (j + 2 <= i || i + 8 <= j) ==> U16At(r, j) == U16At(d, j))
      && (forall j: nat :: j + 4 <= |d| && (j + 4 <= i || i + 8 <= j) ==> U32At(r, j) == U32At(d, j))
      && (forall j: nat :: j + 8 <= |d| && (j + 8 <= i || i + 8 <= j) ==> U64At(r, j) == U64At(d, j))
  {
    hide PutU32, U16At, U32At;
  }

  /** `put_u64` */
  function PutU64(d: seq<byte>, i: nat, v: nat): (r: seq<byte>)
    requires i + 8 <= |d|
    ensures |r| == |d| && (v < TWO_63 ==> U64At(r, i) == v)
    ensures forall j :: 0 <= j < |d| && !(i <= j < i + 8) ==> r[j] == d[j]
    ensures forall j: nat :: j + 2 <= |d| && (j + 2 <= i || i + 8 <= j) ==> U16At(r, j) == U16At(d, j)
    ensures forall j: nat :: j + 4 <= |d| && (j + 4 <= i || i + 8 <= j) ==> U32At(r, j) == U32At(d, j)
    ensures forall j: nat :: j + 8 <= |d| && (j + 8 <= i || i + 8 <= j) ==> U64At(r, j) == U64At(d, j)
  {
    PutBoth(d, i, v);
    PutU32(PutU32(d, i, v), i + 4, v / 0x1_0000_0000)
  }

  function Zeros(n: nat): (r: seq<byte>)
    ensures |r| == n && forall i :: 0 <= i < n ==> r[i] == 0
  {
    seq(n, _ => 0)
  }

  lemma TwoBytesAt(d: seq<byte>, i: nat, a: byte, b: byte)
    requires i + 2 <= |d|
    ensures U16At(d, i) == a as int + 0x100 * b as int <==> d[i] == a && d[i + 1] == b
  {}

  lemma TwoHalvesAt(d: seq<byte>, i: nat, lo: nat, hi: nat)
    requires i + 4 <= |d| && lo <= U16_MAX && hi <= U16_MAX
    ensures U32At(d, i) == lo + 0x10000 * hi <==> U16At(d, i) == lo && U16At(d, i + 2) == hi
  {
    hide U16At;
  }

  /** A signature is these four bytes, low byte first. */
  lemma FourBytes(d: seq<byte>, i: nat, a: byte, b: byte, c: byte, e: byte)
    requires i + 4 <= |d|
    ensures U32At(d, i) == a as int + 0x100 * b as int + 0x1_0000 * c as int + 0x100_0000 * e as int <==> d[i..i + 4] == [a, b, c, e]
  {
    hide U16At, U32At;
    TwoBytesAt(d, i, a, b);
    TwoBytesAt(d, i + 2, c, e);
    TwoHalvesAt(d, i, a as int + 0x100 * b as int, c as int + 0x100 * e as int);
    var s := d[i..i + 4];
    assert s[0] == d[i] && s[1] == d[i + 1] && s[2] == d[i + 2] && s[3] == d[i + 3];
  }
}
