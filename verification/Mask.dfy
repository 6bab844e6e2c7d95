/** The champ slot of a key at a depth: three bits of the key, read little-endian. */
module Mask {
  import opened Bytes
  import opened Bitmap

  type Key = seq<byte>

  const BIT_WIDTH := 3

  /** A byte as the signed `i8` that is sign-extended before it is shifted. */
  function Signed(b: byte): int { if b < 128 then b else b - 256 }

  function SignedAt(hash: Key, index: nat): int { if index < |hash| then Signed(hash[index]) else 0 }

  /** `Champ::mask` at width 3. On two's complement integers `x >> s` is floor
      division by `2^s`, `x & (2^n - 1)` the remainder modulo `2^n`, and `|` of
      disjoint bit fields their sum. */
  function Slot(hash: Key, depth: nat): (r: nat)
    ensures r < 8
  {
    var index := depth * BIT_WIDTH / 8;
    var shift := depth * BIT_WIDTH % 8;
    var lowBits := if BIT_WIDTH <= 8 - shift then BIT_WIDTH else 8 - shift;
    var hiBits := BIT_WIDTH - lowBits;
    var val1, val2 := SignedAt(hash, index), SignedAt(hash, index + 1);
    assert Pow2(1) == 2 && Pow2(2) == 4 && Pow2(3) == 8;
    var low := val1 / Pow2(shift) % Pow2(lowBits);
    var high := val2 % Pow2(hiBits);
    assert lowBits == 3 || lowBits == 2 || lowBits == 1;
    low + high * Pow2(lowBits)
  }

  // ---- the slot is a base-8 digit ------------------------------------------------

  /** A key read as a little-endian integer. */
  ghost function LeValue(key: Key): nat {
    if key == [] then 0 else key[0] + 256 * LeValue(key[1..])
  }

  /** The digit of weight `8^d`: the last one left after dividing by 8 `d` times. */
  ghost function Digit(v: nat, d: nat): nat {
    if d == 0 then v % 8 else Digit(v / 8, d - 1)
  }

  ghost function ByteAt(key: Key, i: nat): byte { if i < |key| then key[i] else 0 }

  ghost function Drop(key: Key, n: nat): Key { if n <= |key| then key[n..] else [] }

  lemma ThreeBytes(key: Key)
    ensures LeValue(key) == ByteAt(key, 0) + 256 * ByteAt(key, 1) + 65536 * ByteAt(key, 2) + 16777216 * LeValue(Drop(key, 3))
  {
    if |key| >= 1 {
      assert LeValue(key) == key[0] + 256 * LeValue(key[1..]);
      if |key| >= 2 {
        assert key[1..][1..] == key[2..];
        if |key| >= 3 { assert key[2..][1..] == key[3..]; } else { assert key[2..] == []; }
      } else {
        assert key[1..] == [];
      }
    }
  }

  lemma SignedByte(key: Key, i: nat)
    ensures SignedAt(key, i) == ByteAt(key, i) || SignedAt(key, i) == ByteAt(key, i) - 256
  {}

  /** The eight ways three bits lie in three bytes. */
  lemma DigitOfThree(v1: int, v2: int, b1: byte, b2: byte, shift: nat)
    requires shift < 8 && (v1 == b1 || v1 == b1 - 256) && (v2 == b2 || v2 == b2 - 256)
    ensures var low := if shift <= 5 then 3 else 8 - shift;
      v1 / Pow2(shift) % Pow2(low) + v2 % Pow2(3 - low) * Pow2(low) == (b1 + 256 * b2) / Pow2(shift) % 8
  {
    assert Pow2(1) == 2 && Pow2(2) == 4 && Pow2(3) == 8;
    assert Pow2(4) == 16 && Pow2(5) == 32 && Pow2(6) == 64 && Pow2(7) == 128;
    assert Pow2(0) == 1 && v2 % 1 == 0;
    hide Pow2;
    match shift {
      case 0 => Digit0(v1, b1, b2);
      case 1 => Digit1(v1, b1, b2);
      case 2 => Digit2(v1, b1, b2);
      case 3 => Digit3(v1, b1, b2);
      case 4 => Digit4(v1, b1, b2);
      case 5 => Digit5(v1, b1, b2);
      case 6 => Digit6(v1, v2, b1, b2);
      case _ => Digit7(v1, v2, b1, b2);
    }
  }

  lemma SameDigit(y: int, t: int)
    ensures (y + 8 * t) % 8 == y % 8
  {}

  lemma Digit0(v: int, b: byte, c: nat)
    requires v == b || v == b - 256
    ensures v % 8 == (b + 256 * c) % 8
  {
    SameDigit(b, 32 * c);
    SameDigit(b, -32);
    assert (b + 256 * c) == b + 8 * (32 * c) && (b - 256) == b + 8 * -32;
  }

  lemma Digit1(v: int, b: byte, c: nat)
    requires v == b || v == b - 256
    ensures v / 2 % 8 == (b + 256 * c) / 2 % 8
  {
    SameDigit(b / 2, 16 * c);
    SameDigit(b / 2, -16);
    assert (b + 256 * c) / 2 == b / 2 + 8 * (16 * c) && (b - 256) / 2 == b / 2 + 8 * -16;
  }

  lemma Digit2(v: int, b: byte, c: nat)
    requires v == b || v == b - 256
    ensures v / 4 % 8 == (b + 256 * c) / 4 % 8
  {
    SameDigit(b / 4, 8 * c);
    SameDigit(b / 4, -8);
    assert (b + 256 * c) / 4 == b / 4 + 8 * (8 * c) && (b - 256) / 4 == b / 4 + 8 * -8;
  }

  lemma Digit3(v: int, b: byte, c: nat)
    requires v == b || v == b - 256
    ensures v / 8 % 8 == (b + 256 * c) / 8 % 8
  {
    SameDigit(b / 8, 4 * c);
    SameDigit(b / 8, -4);
    assert (b + 256 * c) / 8 == b / 8 + 8 * (4 * c) && (b - 256) / 8 == b / 8 + 8 * -4;
  }

  lemma Digit4(v: int, b: byte, c: nat)
    requires v == b || v == b - 256
    ensures v / 16 % 8 == (b + 256 * c) / 16 % 8
  {
    SameDigit(b / 16, 2 * c);
    SameDigit(b / 16, -2);
    assert (b + 256 * c) / 16 == b / 16 + 8 * (2 * c) && (b - 256) / 16 == b / 16 + 8 * -2;
  }

  lemma Digit5(v: int, b: byte, c: nat)
    requires v == b || v == b - 256
    ensures v / 32 % 8 == (b + 256 * c) / 32 % 8
  {
    SameDigit(b / 32, 1 * c);
    SameDigit(b / 32, -1);
    assert (b + 256 * c) / 32 == b / 32 + 8 * (1 * c) && (b - 256) / 32 == b / 32 + 8 * -1;
  }


  lemma Digit6(v: int, w: int, b: byte, c: byte)
    requires (v == b || v == b - 256) && (w == c || w == c - 256)
    ensures v / 64 % 4 + w % 2 * 4 == (b + 256 * c) / 64 % 8
  {
    assert (b + 256 * c) / 64 == b / 64 + 4 * c && (b - 256) / 64 == b / 64 - 4;
    assert 0 <= b / 64 < 4 && (c - 256) % 2 == c % 2;
    var h := c / 2;
    assert c == 2 * h + c % 2;
    SameDigit(b / 64 + 4 * (c % 2), h);
  }

  lemma Digit7(v: int, w: int, b: byte, c: byte)
    requires (v == b || v == b - 256) && (w == c || w == c - 256)
    ensures v / 128 % 2 + w % 4 * 2 == (b + 256 * c) / 128 % 8
  {
    assert (b + 256 * c) / 128 == b / 128 + 2 * c && (b - 256) / 128 == b / 128 - 2;
    assert 0 <= b / 128 < 2 && (c - 256) % 4 == c % 4;
    var h := c / 4;
    assert c == 4 * h + c % 4;
    SameDigit(b / 128 + 2 * (c % 4), h);
  }

  lemma SlotUsesTwoBytes(key: Key, d: nat, q: nat, shift: nat)
    requires 3 * d == 8 * q + shift && shift < 8
    ensures Slot(key, d) == (ByteAt(key, q) + 256 * ByteAt(key, q + 1)) / Pow2(shift) % 8
  {
    assert d * BIT_WIDTH / 8 == q && d * BIT_WIDTH % 8 == shift;
    DigitOfThree(SignedAt(key, q), SignedAt(key, q + 1), ByteAt(key, q), ByteAt(key, q + 1), shift);
  }

  /** `mask` reads the base-8 digits of the key as a little-endian integer, with zeros
      past its end. */
  lemma {:induction false} SlotIsDigit(key: Key, d: nat)
    ensures Slot(key, d) == Digit(LeValue(key), d)
    decreases d
  {
    hide Slot, LeValue;
    var rest := Drop(key, 3);
    if d >= 8 {
      SlotIsDigit(rest, d - 8);
      DropSlot(key, d);
      ThreeBytes(key);
      EightDigits(LeValue(key), d);
      hide Digit;
      assert LeValue(key) / 16777216 == LeValue(rest);
    } else {
      LowSlotIsDigit(key, d);
    }
  }

  /** The eight digits that start in the first three bytes. */
  lemma LowSlotIsDigit(key: Key, d: nat)
    requires d < 8
    ensures Slot(key, d) == Digit(LeValue(key), d)
  {
    hide Slot, LeValue, Digit, Pow2, Drop;
    var q, shift, v := 3 * d / 8, 3 * d % 8, LeValue(key);
    SlotUsesTwoBytes(key, d, q, shift);
    ThreeBytes(key);
    LowDigit(v, d);
    LowSlots(ByteAt(key, 0), ByteAt(key, 1), ByteAt(key, 2), ByteAt(key, 3), LeValue(Drop(key, 3)), d);
    hide ByteAt;
    assert q == 0 || q == 1 || q == 2;
  }

  /** The number without its first `q` bytes. */
  ghost function SkipBytes(v: nat, q: nat): nat { if q == 0 then v else if q == 1 then v / 256 else v / 65536 }

  /** The last octal digit left after dividing by `p`. */
  ghost function Octal(v: nat, p: nat): nat
    requires p > 0
  {
    v / p % 8
  }

  lemma LowDigit(v: nat, d: nat)
    requires d < 8
    ensures Digit(v, d) == Octal(SkipBytes(v, 3 * d / 8), Pow2(3 * d % 8))
  {
    assert Pow2(0) == 1 && Pow2(1) == 2 && Pow2(2) == 4 && Pow2(3) == 8 && Pow2(4) == 16 && Pow2(5) == 32 && Pow2(6) == 64 && Pow2(7) == 128;
    hide Digit, Pow2, Octal, SkipBytes;
    LowDigits(v);
    match d {
      case 0 => assert 3 * d / 8 == 0 && 3 * d % 8 == 0;
      case 1 => assert 3 * d / 8 == 0 && 3 * d % 8 == 3;
      case 2 => assert 3 * d / 8 == 0 && 3 * d % 8 == 6;
      case 3 => assert 3 * d / 8 == 1 && 3 * d % 8 == 1;
      case 4 => assert 3 * d / 8 == 1 && 3 * d % 8 == 4;
      case 5 => assert 3 * d / 8 == 1 && 3 * d % 8 == 7;
      case 6 => assert 3 * d / 8 == 2 && 3 * d % 8 == 2;
      case _ => assert 3 * d / 8 == 2 && 3 * d % 8 == 5;
    }
  }

  /** The two bytes a low digit starts in say the same of it as the whole number. */
  lemma LowSlots(b0: byte, b1: byte, b2: byte, b3: byte, rest: nat, d: nat)
    requires d < 8
    ensures var v, q, p := b0 + 256 * b1 + 65536 * b2 + 16777216 * rest, 3 * d / 8, Pow2(3 * d % 8);
      && (q == 0 ==> (b0 + 256 * b1) / p % 8 == SkipBytes(v, q) / p % 8)
      && (q == 1 ==> (b1 + 256 * b2) / p % 8 == SkipBytes(v, q) / p % 8)
      && (q == 2 ==> (b2 + 256 * b3) / p % 8 == SkipBytes(v, q) / p % 8)
  {
    assert Pow2(1) == 2 && Pow2(2) == 4 && Pow2(3) == 8 && Pow2(4) == 16 && Pow2(5) == 32 && Pow2(6) == 64 && Pow2(7) == 128;
    var v, q, shift := b0 + 256 * b1 + 65536 * b2 + 16777216 * rest, 3 * d / 8, 3 * d % 8;
    hide Pow2;
    if q == 0 {
      HighBytesDrop(b0 + 256 * b1, b2 + 256 * rest, shift);
    } else if q == 1 {
      assert v / 256 == b1 + 256 * b2 + 65536 * rest;
      HighBytesDrop(b1 + 256 * b2, rest, shift);
    } else {
      assert v / 65536 == b2 + 256 * rest;
      if shift == 2 {
        Digit2(b2, b2, b3);
        Digit2(b2, b2, rest);
      } else {
        Digit5(b2, b2, b3);
        Digit5(b2, b2, rest);
      }
    }
  }

  lemma DropSlot(key: Key, d: nat)
    requires d >= 8
    ensures Slot(key, d) == Slot(Drop(key, 3), d - 8)
  {
    var q, shift := 3 * d / 8, 3 * d % 8;
    SlotUsesTwoBytes(key, d, q, shift);
    SlotUsesTwoBytes(Drop(key, 3), d - 8, q - 3, shift);
  }

  lemma EightDigits(v: nat, d: nat)
    requires d >= 8
    ensures Digit(v, d) == Digit(v / 16777216, d - 8)
  {
    FourDigits(v, d);
    FourDigits(v / 4096, d - 4);
    hide Digit;
    assert v / 4096 / 4096 == v / 16777216;
  }

  lemma FourDigits(v: nat, d: nat)
    requires d >= 4
    ensures Digit(v, d) == Digit(v / 4096, d - 4)
  {
    assert Digit(v, d) == Digit(v / 8, d - 1);
    assert Digit(v / 8, d - 1) == Digit(v / 8 / 8, d - 2);
    assert Digit(v / 8 / 8, d - 2) == Digit(v / 8 / 8 / 8, d - 3);
    assert Digit(v / 8 / 8 / 8, d - 3) == Digit(v / 8 / 8 / 8 / 8, d - 4);
    hide Digit;
    assert v / 8 / 8 / 8 / 8 == v / 4096;
  }

  lemma LowDigits(v: nat)
    ensures Digit(v, 0) == Octal(SkipBytes(v, 0), 1) && Digit(v, 1) == Octal(SkipBytes(v, 0), 8) && Digit(v, 2) == Octal(SkipBytes(v, 0), 64)
    ensures Digit(v, 3) == Octal(SkipBytes(v, 1), 2) && Digit(v, 4) == Octal(SkipBytes(v, 1), 16) && Digit(v, 5) == Octal(SkipBytes(v, 1), 128)
    ensures Digit(v, 6) == Octal(SkipBytes(v, 2), 4) && Digit(v, 7) == Octal(SkipBytes(v, 2), 32)
  {
    hide Digit, Octal, SkipBytes;
    FirstDigits(v);
    FirstDigits(v / 4096);
    FourDigits(v, 4);
    FourDigits(v, 5);
    FourDigits(v, 6);
    FourDigits(v, 7);
    DivSteps(v);
  }

  lemma FirstDigits(v: nat)
    ensures Digit(v, 0) == Octal(v, 1) && Digit(v, 1) == Octal(v, 8) && Digit(v, 2) == Octal(v, 64) && Digit(v, 3) == Octal(v, 512)
  {
    assert Digit(v, 1) == Digit(v / 8, 0) && Digit(v, 2) == Digit(v / 8, 1) && Digit(v / 8, 1) == Digit(v / 8 / 8, 0);
    assert Digit(v, 3) == Digit(v / 8, 2) && Digit(v / 8, 2) == Digit(v / 8 / 8, 1) && Digit(v / 8 / 8, 1) == Digit(v / 8 / 8 / 8, 0);
    assert v / 8 / 8 == v / 64 && v / 8 / 8 / 8 == v / 512;
  }

  lemma DivSteps(v: nat)
    ensures SkipBytes(v, 0) == v
    ensures Octal(v, 512) == Octal(SkipBytes(v, 1), 2)
    ensures Octal(v / 4096, 1) == Octal(SkipBytes(v, 1), 16) && Octal(v / 4096, 8) == Octal(SkipBytes(v, 1), 128)
    ensures Octal(v / 4096, 64) == Octal(SkipBytes(v, 2), 4) && Octal(v / 4096, 512) == Octal(SkipBytes(v, 2), 32)
  {
    assert v / 512 == v / 256 / 2 && v / 4096 == v / 256 / 16;
    assert v / 4096 / 8 == v / 256 / 128;
    assert v / 4096 / 64 == v / 65536 / 4 && v / 4096 / 512 == v / 65536 / 32;
  }

  lemma HighBytesDrop(low: nat, rest: nat, shift: nat)
    requires shift < 8
    ensures (low + 65536 * rest) / Pow2(shift) % 8 == low / Pow2(shift) % 8
  {
    assert Pow2(1) == 2 && Pow2(2) == 4 && Pow2(3) == 8 && Pow2(4) == 16 && Pow2(5) == 32 && Pow2(6) == 64 && Pow2(7) == 128;
    hide Pow2;
    match shift {
      case 0 => SameDigit(low, 8192 * rest);
      case 1 => assert (low + 65536 * rest) / 2 == low / 2 + 32768 * rest; SameDigit(low / 2, 4096 * rest);
      case 2 => assert (low + 65536 * rest) / 4 == low / 4 + 16384 * rest; SameDigit(low / 4, 2048 * rest);
      case 3 => assert (low + 65536 * rest) / 8 == low / 8 + 8192 * rest; SameDigit(low / 8, 1024 * rest);
      case 4 => assert (low + 65536 * rest) / 16 == low / 16 + 4096 * rest; SameDigit(low / 16, 512 * rest);
      case 5 => assert (low + 65536 * rest) / 32 == low / 32 + 2048 * rest; SameDigit(low / 32, 256 * rest);
      case 6 => assert (low + 65536 * rest) / 64 == low / 64 + 1024 * rest; SameDigit(low / 64, 128 * rest);
      case _ => assert (low + 65536 * rest) / 128 == low / 128 + 512 * rest; SameDigit(low / 128, 64 * rest);
    }
  }
}
