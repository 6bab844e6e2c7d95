/** The champ bitmaps: byte vectors with bit `p` in byte `p / 8`, never ending in
    a zero byte. Operations on one byte shift a bit at a time. */
module Bitmap {
  import opened Bytes

  function Pow2(k: nat): (r: nat)
    ensures r > 0
  {
    if k == 0 then 1 else 2 * Pow2(k - 1)
  }

  /** `(b >> i) & 1 == 1` */
  predicate HasBit(b: nat, i: nat) {
    if i == 0 then b % 2 == 1 else HasBit(b / 2, i - 1)
  }

  /** `b | (1 << i)` if `v`, else `b & !(1 << i)`, on `width` bits. */
  function PutBit(b: nat, i: nat, v: bool, width: nat): (r: nat)
    requires i < width && b < Pow2(width)
    ensures r < Pow2(width)
  {
    if i == 0 then b / 2 * 2 + (if v then 1 else 0)
    else b % 2 + 2 * PutBit(b / 2, i - 1, v, width - 1)
  }

  predicate BitGet(bitmap: seq<byte>, pos: nat) {
    pos / 8 < |bitmap| && HasBit(bitmap[pos / 8], pos % 8)
  }

  /** The number of set bits below `bitpos`. */
  function GetIndex(bitmap: seq<byte>, bitpos: nat): nat {
    if bitpos == 0 then 0
    else GetIndex(bitmap, bitpos - 1) + if BitGet(bitmap, bitpos - 1) then 1 else 0
  }

  function PutByteBit(b: byte, i: nat, v: bool): byte
    requires i < 8
  {
    ByteWidth();
    PutBit(b, i, v, 8)
  }

  lemma ByteWidth()
    ensures Pow2(8) == 256
  {
    assert Pow2(4) == 16;
  }

  function BitSet(bitmap: seq<byte>, pos: nat): seq<byte> {
    var at := pos / 8;
    var grown: seq<byte> := if at >= |bitmap| then bitmap + seq(at + 1 - |bitmap|, _ => 0) else bitmap;
    grown[at := PutByteBit(grown[at], pos % 8, true)]
  }

  function DropTrailingZeros(bitmap: seq<byte>): seq<byte> {
    if bitmap != [] && bitmap[|bitmap| - 1] == 0 then DropTrailingZeros(bitmap[..|bitmap| - 1]) else bitmap
  }

  function BitClear(bitmap: seq<byte>, pos: nat): seq<byte> {
    var at := pos / 8;
    DropTrailingZeros(if at < |bitmap| then bitmap[at := PutByteBit(bitmap[at], pos % 8, false)] else bitmap)
  }

  // ---- the bitmap of a set of slots ----------------------------------------

  function Packed(bs: seq<bool>): (r: nat)
    ensures r < Pow2(|bs|)
  {
    if bs == [] then 0 else (if bs[0] then 1 else 0) + 2 * Packed(bs[1..])
  }

  /** The canonical bitmap of eight slot flags. */
  function Pack(bs: seq<bool>): seq<byte>
    requires |bs| == 8
  {
    ByteWidth();
    if Packed(bs) == 0 then [] else [Packed(bs)]
  }

  lemma {:induction false} PackedBits(bs: seq<bool>, i: nat, v: bool)
    requires i < |bs|
    ensures HasBit(Packed(bs), i) == bs[i]
    ensures PutBit(Packed(bs), i, v, |bs|) == Packed(bs[i := v])
  {
    var cs := bs[i := v];
    if i == 0 {
      assert cs[1..] == bs[1..];
    } else {
      PackedBits(bs[1..], i - 1, v);
      assert cs[1..] == bs[1..][i - 1 := v];
    }
  }

  lemma PackGet(bs: seq<bool>, i: nat)
    requires |bs| == 8 && i < 8
    ensures BitGet(Pack(bs), i) == bs[i]
  {
    PackedBits(bs, i, true);
    if Packed(bs) == 0 {
      ZeroHasNoBits(i);
    }
  }

  lemma ZeroHasNoBits(i: nat)
    ensures !HasBit(0, i)
  {}

  /** Setting or clearing a slot's bit gives the bitmap of the changed slots. */
  lemma PackEdit(bs: seq<bool>, i: nat)
    requires |bs| == 8 && i < 8
    ensures BitSet(Pack(bs), i) == Pack(bs[i := true])
    ensures BitClear(Pack(bs), i) == Pack(bs[i := false])
  {
    PackedBits(bs, i, true);
    PackedBits(bs, i, false);
    PackedBits(bs[i := true], i, true);
    ZeroHasNoBits(i);
    ByteWidth();
    var b := Packed(bs);
    if b == 0 {
      assert BitSet([], i) == [PutByteBit(0, i, true)];
      forall j: nat | j < 8 ensures !bs[j] {
        PackedBits(bs, j, true);
        ZeroHasNoBits(j);
      }
      assert bs[i := false] == bs;
    } else {
      assert BitSet([b], i) == [PutByteBit(b, i, true)];
      var c := [PutByteBit(b, i, false)];
      assert [b][0 := PutByteBit(b, i, false)] == c;
      assert BitClear([b], i) == DropTrailingZeros(c);
      assert c[..|c| - 1] == [] && DropTrailingZeros([]) == [];
    }
  }

  /** A bitmap determines its slots. */
  lemma PackInjective(a: seq<bool>, b: seq<bool>)
    requires |a| == |b| == 8 && Pack(a) == Pack(b)
    ensures a == b
  {
    forall i | 0 <= i < 8 ensures a[i] == b[i] {
      PackGet(a, i);
      PackGet(b, i);
    }
  }

  // ---- the bits, arithmetically ------------------------------------------------

  lemma {:induction false} HasBitIs(b: nat, i: nat)
    ensures HasBit(b, i) <==> b / Pow2(i) % 2 == 1
  {
    if i > 0 {
      HasBitIs(b / 2, i - 1);
      DivTwice(b, Pow2(i - 1));
    }
  }

  lemma DivTwice(b: nat, p: nat)
    requires p > 0
    ensures b / 2 / p == b / (2 * p)
  {
    var q, r := b / 2 / p, b / 2 % p;
    assert b / 2 == p * q + r;
    var low := 2 * r + b % 2;
    assert b == 2 * p * q + low && 0 <= low < 2 * p;
    Quotient(b, 2 * p, q, low);
  }

  lemma Quotient(n: nat, m: nat, q: nat, low: nat)
    requires m > 0 && n == m * q + low && low < m
    ensures n / m == q
  {
    var k: int, rest: int := n / m, n % m;
    assert n == m * k + rest;
    assert m * (k - q) == low - rest;
    SmallMultiple(m, k - q);
  }

  lemma SmallMultiple(m: int, k: int)
    requires m > 0
    ensures -m < m * k < m ==> k == 0
  {
    if k >= 1 { assert m * k >= m; } else if k <= -1 { assert m * k <= -m; }
  }

  /** Bit `pos` of a bitmap is bit `pos % 8`, counted from the lowest, of byte `pos / 8`. */
  lemma BitGetIs(bitmap: seq<byte>, pos: nat)
    ensures BitGet(bitmap, pos) <==> pos / 8 < |bitmap| && bitmap[pos / 8] / Pow2(pos % 8) % 2 == 1
  {
    if pos / 8 < |bitmap| { HasBitIs(bitmap[pos / 8], pos % 8); }
  }

  /** The index of a slot is the number of set slots below it. */
  lemma {:induction false} GetIndexCounts(bitmap: seq<byte>, bitpos: nat)
    ensures GetIndex(bitmap, bitpos) == |set i | 0 <= i < bitpos && BitGet(bitmap, i)|
  {
    hide BitGet;
    if bitpos > 0 {
      GetIndexCounts(bitmap, bitpos - 1);
      var below := set i | 0 <= i < bitpos - 1 && BitGet(bitmap, i);
      var all := set i | 0 <= i < bitpos && BitGet(bitmap, i);
      assert all == below + if BitGet(bitmap, bitpos - 1) then {bitpos - 1} else {};
    }
  }
}
