/** Text as Rust holds it, a vector of valid UTF-8, and the UTF-16 units map keys are
    ordered by. */
module Text {
  import opened Bytes

  predicate Continues(b: byte) { 0x80 <= b < 0xC0 }

  /** The number of bytes of the first scalar value, 0 if they are not its one and only
      encoding: no overlong form, no surrogate, nothing above U+10FFFF. */
  function FirstLength(s: seq<byte>): (n: nat)
    ensures n <= |s| && n <= 4
  {
    if s == [] then 0
    else if s[0] < 0x80 then 1
    else if 0xC2 <= s[0] < 0xE0 && |s| >= 2 && Continues(s[1]) then 2
    else if && 0xE0 <= s[0] < 0xF0 && |s| >= 3 && Continues(s[1]) && Continues(s[2])
            && (s[0] == 0xE0 ==> s[1] >= 0xA0) && (s[0] == 0xED ==> s[1] < 0xA0) then 3
    else if && 0xF0 <= s[0] < 0xF5 && |s| >= 4 && Continues(s[1]) && Continues(s[2]) && Continues(s[3])
            && (s[0] == 0xF0 ==> s[1] >= 0x90) && (s[0] == 0xF4 ==> s[1] < 0x90) then 4
    else 0
  }

  predicate ValidUtf8(s: seq<byte>) {
    s == [] || (FirstLength(s) > 0 && ValidUtf8(s[FirstLength(s)..]))
  }

  /** The first scalar value. */
  function Scalar(s: seq<byte>): (c: int)
    requires FirstLength(s) > 0
    ensures FirstLength(s) == 1 <==> c < 0x80
    ensures FirstLength(s) == 2 <==> 0x80 <= c < 0x800
    ensures FirstLength(s) == 3 <==> 0x800 <= c < 0x10000
    ensures FirstLength(s) == 4 <==> 0x10000 <= c
    ensures 0 <= c < 0x110000 && !(0xD800 <= c < 0xE000)
  {
    match FirstLength(s)
    case 1 => s[0]
    case 2 => 0x40 * (s[0] as int - 0xC0) + (s[1] as int - 0x80)
    case 3 => 0x1000 * (s[0] as int - 0xE0) + 0x40 * (s[1] as int - 0x80) + (s[2] as int - 0x80)
    case _ => 0x40000 * (s[0] as int - 0xF0) + 0x1000 * (s[1] as int - 0x80) + 0x40 * (s[2] as int - 0x80) + (s[3] as int - 0x80)
  }

  /** A scalar value in UTF-16: itself, or a surrogate pair. */
  function UnitsOf(c: int): (u: seq<int>)
    ensures |u| > 0
  {
    if c < 0x10000 then [c] else [0xD800 + (c - 0x10000) / 0x400, 0xDC00 + (c - 0x10000) % 0x400]
  }

  /** `encode_utf16` */
  function Units(s: seq<byte>): seq<int> {
    if FirstLength(s) == 0 then [] else UnitsOf(Scalar(s)) + Units(s[FirstLength(s)..])
  }

  /** A scalar value has one UTF-8 encoding. */
  lemma ScalarInjective(a: seq<byte>, b: seq<byte>)
    requires FirstLength(a) > 0 && FirstLength(b) > 0 && Scalar(a) == Scalar(b)
    ensures FirstLength(a) == FirstLength(b) && a[..FirstLength(a)] == b[..FirstLength(b)]
  {
    var n := FirstLength(a);
    assert FirstLength(b) == n;
    assert n == 4 ==> a[0] == b[0] && a[1] == b[1] && a[2] == b[2] && a[3] == b[3];
    assert n == 3 ==> a[0] == b[0] && a[1] == b[1] && a[2] == b[2];
    assert n == 2 ==> a[0] == b[0] && a[1] == b[1];
  }

  lemma UnitsOfPrefix(c: int, d: int, s: seq<int>, t: seq<int>)
    requires 0 <= c < 0x110000 && !(0xD800 <= c < 0xE000) && 0 <= d < 0x110000 && !(0xD800 <= d < 0xE000)
    requires UnitsOf(c) + s == UnitsOf(d) + t
    ensures c == d && s == t
  {
    var u, v := UnitsOf(c), UnitsOf(d);
    assert u[0] == (u + s)[0] && v[0] == (v + t)[0];
    assert |u| == |v|;
    assert |u| == 2 ==> u[1] == (u + s)[1] && v[1] == (v + t)[1];
    assert s == (u + s)[|u|..] && t == (v + t)[|v|..];
  }

  /** Texts with the same UTF-16 units are the same, so two map keys compare equal just
      when they are equal. */
  lemma {:induction false} UnitsInjective(a: seq<byte>, b: seq<byte>)
    requires ValidUtf8(a) && ValidUtf8(b) && Units(a) == Units(b)
    ensures a == b
    decreases |a|
  {
    hide FirstLength, Scalar, UnitsOf;
    if a != [] && b != [] {
      var n, m := FirstLength(a), FirstLength(b);
      UnitsOfPrefix(Scalar(a), Scalar(b), Units(a[n..]), Units(b[m..]));
      ScalarInjective(a, b);
      UnitsInjective(a[n..], b[m..]);
      assert a == a[..n] + a[n..] && b == b[..m] + b[m..];
    }
  }

  // ---- the encodings of a scalar value --------------------------------------------------

  ghost predicate IsScalar(c: int) { 0 <= c < 0x110000 && !(0xD800 <= c < 0xE000) }

  /** Section 3 of RFC 3629: seven bits, or five, four or three bits and then six in each
      byte that follows. */
  function Utf8(c: int): (s: seq<byte>)
    requires 0 <= c < 0x110000
  {
    if c < 0x80 then [c]
    else if c < 0x800 then [0xC0 + c / 0x40, 0x80 + c % 0x40]
    else if c < 0x10000 then [0xE0 + c / 0x1000, 0x80 + c / 0x40 % 0x40, 0x80 + c % 0x40]
    else [0xF0 + c / 0x40000, 0x80 + c / 0x1000 % 0x40, 0x80 + c / 0x40 % 0x40, 0x80 + c % 0x40]
  }

  ghost predicate AllScalars(cs: seq<int>) { forall i :: 0 <= i < |cs| ==> IsScalar(cs[i]) }

  function Utf8All(cs: seq<int>): seq<byte>
    requires AllScalars(cs)
  {
    if cs == [] then [] else Utf8(cs[0]) + Utf8All(cs[1..])
  }

  /** Section 2 of RFC 2781: a unit, or the two halves of what exceeds 0xFFFF. */
  ghost predicate IsUtf16(u: seq<int>, c: int) {
    if c < 0x10000 then u == [c]
    else |u| == 2 && 0xD800 <= u[0] < 0xDC00 && 0xDC00 <= u[1] < 0xE000 && c == 0x10000 + 0x400 * (u[0] - 0xD800) + (u[1] - 0xDC00)
  }

  lemma UnitsOfIs(c: int)
    requires IsScalar(c)
    ensures IsUtf16(UnitsOf(c), c)
  {}

  /** Numbers by their digits to base 64. */
  lemma Digits64(a: int, b: int, d: int, e: int)
    requires 0 <= a && 0 <= b < 0x40 && 0 <= d < 0x40 && 0 <= e < 0x40
    ensures var c := 0x40000 * a + 0x1000 * b + 0x40 * d + e;
      c % 0x40 == e && c / 0x40 % 0x40 == d && c / 0x1000 % 0x40 == b && c / 0x40000 == a
  {
    var c := 0x40000 * a + 0x1000 * b + 0x40 * d + e;
    assert c / 0x40 == 0x1000 * a + 0x40 * b + d;
    assert c / 0x1000 == 0x40 * a + b;
  }

  lemma Split64(c: int) returns (a: int, b: int, d: int, e: int)
    requires 0 <= c < 0x110000
    ensures 0 <= a < 5 && 0 <= b < 0x40 && 0 <= d < 0x40 && 0 <= e < 0x40 && c == 0x40000 * a + 0x1000 * b + 0x40 * d + e
  {
    var h := c / 0x40;
    var g := h / 0x40;
    a, b, d, e := g / 0x40, g % 0x40, h % 0x40, c % 0x40;
  }

  lemma Utf8Is(c: int, a: int, b: int, d: int, e: int)
    requires 0 <= a < 5 && 0 <= b < 0x40 && 0 <= d < 0x40 && 0 <= e < 0x40 && c == 0x40000 * a + 0x1000 * b + 0x40 * d + e
    requires 0 <= c < 0x110000
    ensures c < 0x80 ==> Utf8(c) == [c]
    ensures 0x80 <= c < 0x800 ==> a == b == 0 && Utf8(c) == [0xC0 + d, 0x80 + e]
    ensures 0x800 <= c < 0x10000 ==> a == 0 && Utf8(c) == [0xE0 + b, 0x80 + d, 0x80 + e]
    ensures 0x10000 <= c ==> Utf8(c) == [0xF0 + a, 0x80 + b, 0x80 + d, 0x80 + e]
  {
    Digits64(a, b, d, e);
  }

  lemma Utf8Reads(c: int, rest: seq<byte>)
    requires IsScalar(c)
    ensures var s := Utf8(c) + rest; FirstLength(s) == |Utf8(c)| > 0 && Scalar(s) == c && s[FirstLength(s)..] == rest
  {
    var s := Utf8(c) + rest;
    assert s[|Utf8(c)|..] == rest;
    var a, b, d, e := Split64(c);
    Utf8Is(c, a, b, d, e);
    hide Utf8;
    if c < 0x80 {
      assert s[0] == c;
    } else if c < 0x800 {
      assert s[0] == 0xC0 + d && s[1] == 0x80 + e;
    } else if c < 0x10000 {
      assert s[0] == 0xE0 + b && s[1] == 0x80 + d && s[2] == 0x80 + e;
    } else {
      assert s[0] == 0xF0 + a && s[1] == 0x80 + b && s[2] == 0x80 + d && s[3] == 0x80 + e;
    }
  }

  lemma ScalarSpelled(s: seq<byte>)
    requires FirstLength(s) > 0
    ensures Utf8(Scalar(s)) == s[..FirstLength(s)]
  {
    var n, c := FirstLength(s), Scalar(s);
    hide Utf8;
    if n == 1 {
      var a, b, d, e := Split64(c);
      Utf8Is(c, a, b, d, e);
      assert s[..1] == [s[0]];
    } else if n == 2 {
      Utf8Is(c, 0, 0, s[0] as int - 0xC0, s[1] as int - 0x80);
      assert s[..2] == [s[0], s[1]];
    } else if n == 3 {
      Utf8Is(c, 0, s[0] as int - 0xE0, s[1] as int - 0x80, s[2] as int - 0x80);
      assert s[..3] == [s[0], s[1], s[2]];
    } else {
      Utf8Is(c, s[0] as int - 0xF0, s[1] as int - 0x80, s[2] as int - 0x80, s[3] as int - 0x80);
      assert s[..4] == [s[0], s[1], s[2], s[3]];
    }
  }

  /** The UTF-16 units of these scalar values. */
  function Utf16All(cs: seq<int>): seq<int> {
    if cs == [] then [] else UnitsOf(cs[0]) + Utf16All(cs[1..])
  }

  /** The UTF-8 of any scalar values is valid, and `encode_utf16` gives their units. */
  lemma {:induction false} EncodedIsValid(cs: seq<int>)
    requires AllScalars(cs)
    ensures ValidUtf8(Utf8All(cs)) && Units(Utf8All(cs)) == Utf16All(cs)
  {
    hide UnitsOf, Utf8, FirstLength, Scalar;
    if cs == [] {
      NothingFirst();
    } else {
      Utf8Reads(cs[0], Utf8All(cs[1..]));
      EncodedIsValid(cs[1..]);
    }
  }

  lemma NothingFirst()
    ensures FirstLength([]) == 0
  {}

  /** Valid text is the UTF-8 of some scalar values. */
  lemma {:induction false} ValidIsEncoded(s: seq<byte>) returns (cs: seq<int>)
    requires ValidUtf8(s)
    ensures AllScalars(cs) && Utf8All(cs) == s
    decreases |s|
  {
    hide Utf8, FirstLength, Scalar;
    if s == [] {
      cs := [];
    } else {
      var n := FirstLength(s);
      var rest := ValidIsEncoded(s[n..]);
      ScalarSpelled(s);
      cs := [Scalar(s)] + rest;
      assert cs[1..] == rest && s == s[..n] + s[n..];
    }
  }
}
