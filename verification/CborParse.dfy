/** What the decoder accepts, as a function of the buffer and the position. */
module CborParse {
  import opened Bytes
  import opened Text
  import opened CborValue

  datatype CborError =
    | EmptyInput | Eof | BadLength | TooLong | BadUtf8 | BadSimpleType | BadKey | DuplicateKey | BadTag | BadLink | TrailingBytes

  type Parsed<T> = Result<(T, nat), CborError>

  function BeValue(s: seq<byte>): nat {
    if s == [] then 0 else 256 * BeValue(s[..|s| - 1]) + s[|s| - 1]
  }

  /** `read_n`: the bytes, and the position after them. */
  function Take(buf: seq<byte>, pos: nat, n: nat): (r: Parsed<seq<byte>>)
    requires pos <= |buf|
    ensures r.Ok? ==> r.value.1 == pos + n <= |buf| && r.value.0 == buf[pos..pos + n]
  {
    if pos + n <= |buf| then Ok((buf[pos..pos + n], pos + n)) else Err(Eof)
  }

  function ArgumentBytes(info: nat): Option<nat> {
    if info < ONE_BYTE then Some(0) else if info == ONE_BYTE then Some(1) else if info == TWO_BYTES then Some(2)
    else if info == FOUR_BYTES then Some(4) else if info == EIGHT_BYTES then Some(8) else None
  }

  /** The argument after an initial byte with this additional information. */
  function ReadArgument(buf: seq<byte>, pos: nat, info: nat): (r: Parsed<nat>)
    requires pos <= |buf|
    ensures r.Ok? ==> pos <= r.value.1 <= |buf|
  {
    match ArgumentBytes(info)
    case None => Err(BadLength)
    case Some(0) => Ok((info, pos))
    case Some(k) =>
      match Take(buf, pos, k)
      case Err(e) => Err(e)
      case Ok((s, p)) => Ok((BeValue(s), p))
  }

  /** The value of an integer: the 64-bit argument taken as signed, complemented for the
      negative major type. */
  function Signed(major: nat, n: nat): int {
    var m := if n < TWO_63 then n else n - TWO_64;
    if major == TYPE_NEGATIVE_INTEGER then -1 - m else m
  }

  /** `BTreeMap::insert`, `None` when the key was there. */
  function Insert(m: seq<Entry>, e: Entry): Option<seq<Entry>> {
    if m == [] || KeyLess(e.key, m[0].key) then Some([e] + m)
    else if KeyLess(m[0].key, e.key) then
      match Insert(m[1..], e)
      case None => None
      case Some(t) => Some([m[0]] + t)
    else None
  }

  /** `deserialize` at a position, with the position after the value. */
  function Parse(buf: seq<byte>, pos: nat, max: nat): (r: Parsed<Cbor>)
    requires pos <= |buf|
    ensures r.Ok? ==> pos < r.value.1 <= |buf|
    decreases |buf| - pos, 0, 0
  {
    if pos == |buf| then Err(Eof)
    else
      var major, info := buf[pos] / 32, buf[pos] % 32;
      if major == TYPE_FLOAT_SIMPLE then
        if info == NULL then Ok((Null, pos + 1))
        else if info == TRUE then Ok((Boolean(true), pos + 1))
        else if info == FALSE then Ok((Boolean(false), pos + 1))
        else Err(BadSimpleType)
      else
        match ReadArgument(buf, pos + 1, info)
        case Err(e) => Err(e)
        case Ok((n, p)) => ParseBody(buf, pos, p, major, n, max)
  }

  /** The value whose head, with argument `n`, ends at `p`. */
  function ParseBody(buf: seq<byte>, ghost pos: nat, p: nat, major: nat, n: nat, max: nat): (r: Parsed<Cbor>)
    requires pos < p <= |buf| && major < 7
    ensures r.Ok? ==> p <= r.value.1 <= |buf|
    decreases |buf| - p, 2, 0
  {
    if major == TYPE_TAG then
      if n != LINK_TAG then Err(BadTag) else
        match Parse(buf, p, max)
        case Err(e) => Err(e)
        case Ok((ByteString(b), q)) => if b == [] || b[0] != 0 then Err(BadLink) else Ok((MerkleLink(b[1..]), q))
        case Ok(_) => Err(BadLink)
    else if major == TYPE_UNSIGNED_INTEGER || major == TYPE_NEGATIVE_INTEGER then Ok((Long(Signed(major, n)), p))
    else if n > max then Err(TooLong)
    else if major == TYPE_ARRAY then
      match ParseItems(buf, p, n, max, [])
      case Err(e) => Err(e)
      case Ok((items, q)) => Ok((List(items), q))
    else if major == TYPE_MAP then
      match ParseEntries(buf, p, n, max, [])
      case Err(e) => Err(e)
      case Ok((m, q)) => Ok((Map(m), q))
    else
      match Take(buf, p, n)
      case Err(e) => Err(e)
      case Ok((s, q)) =>
        if major == TYPE_BYTE_STRING then Ok((ByteString(s), q))
        else if ValidUtf8(s) then Ok((Str(s), q)) else Err(BadUtf8)
  }

  /** `n` more items after `acc`. */
  function ParseItems(buf: seq<byte>, pos: nat, n: nat, max: nat, acc: seq<Cbor>): (r: Parsed<seq<Cbor>>)
    requires pos <= |buf|
    ensures r.Ok? ==> pos <= r.value.1 <= |buf| && |r.value.0| == |acc| + n
    decreases |buf| - pos, 1, n
  {
    if n == 0 then Ok((acc, pos))
    else
      match Parse(buf, pos, max)
      case Err(e) => Err(e)
      case Ok((item, p)) => ParseItems(buf, p, n - 1, max, acc + [item])
  }

  function ParseEntries(buf: seq<byte>, pos: nat, n: nat, max: nat, acc: seq<Entry>): (r: Parsed<seq<Entry>>)
    requires pos <= |buf|
    ensures r.Ok? ==> pos <= r.value.1 <= |buf|
    decreases |buf| - pos, 1, n
  {
    if n == 0 then Ok((acc, pos))
    else
      match Parse(buf, pos, max)
      case Err(e) => Err(e)
      case Ok((Str(key), p)) => (
        match Parse(buf, p, max)
        case Err(e) => Err(e)
        case Ok((value, q)) =>
          match Insert(acc, Entry(key, value))
          case None => Err(DuplicateKey)
          case Some(m) => ParseEntries(buf, q, n - 1, max, m)
      )
      case Ok(_) => Err(BadKey)
  }

  /** `from_bytes_consumed` */
  function Decode(bytes: seq<byte>): (r: Parsed<Cbor>)
    ensures r.Ok? ==> 0 < r.value.1 <= |bytes|
  {
    if bytes == [] then Err(EmptyInput) else Parse(bytes, 0, |bytes|)
  }

  /** `from_bytes` */
  function DecodeAll(bytes: seq<byte>): Result<Cbor, CborError> {
    match Decode(bytes)
    case Err(e) => Err(e)
    case Ok((o, n)) => if n != |bytes| then Err(TrailingBytes) else Ok(o)
  }

  // ---- the reader ---------------------------------------------------------------------------

  /** `r` is what a reader made of `p`: the same answer, and on success the reader
      stands where `p` ends. */
  ghost predicate Reads<T>(r: Result<T, CborError>, pos: nat, p: Parsed<T>) {
    match p
    case Ok((v, q)) => r == Ok(v) && pos == q
    case Err(e) => r == Err(e)
  }

  class Reader {
    const buf: seq<byte>
    var pos: nat

    constructor (bytes: seq<byte>)
      ensures buf == bytes && pos == 0
    {
      buf, pos := bytes, 0;
    }

    method ReadU8() returns (r: Result<byte, CborError>)
      requires pos <= |buf|
      modifies this
      ensures if old(pos) < |buf| then r == Ok(buf[old(pos)]) && pos == old(pos) + 1 else r == Err(Eof) && pos == old(pos)
    {
      if pos == |buf| {
        return Err(Eof);
      }
      r := Ok(buf[pos]);
      pos := pos + 1;
    }

    method ReadN(n: nat) returns (r: Result<seq<byte>, CborError>)
      requires pos <= |buf|
      modifies this
      ensures pos <= |buf| && Reads(r, pos, Take(buf, old(pos), n))
    {
      if pos + n > |buf| {
        return Err(Eof);
      }
      r := Ok(buf[pos..pos + n]);
      pos := pos + n;
    }

    /** `read_uint`, the shifts as multiplications. */
    method ReadUint(info: nat) returns (r: Result<nat, CborError>)
      requires pos <= |buf|
      modifies this
      ensures pos <= |buf| && Reads(r, pos, ReadArgument(buf, old(pos), info))
    {
      if info < ONE_BYTE {
        return Ok(info);
      } else if info == ONE_BYTE {
        var b := ReadU8();
        if b.Err? {
          return Err(b.error);
        }
        BeValue1([b.value]);
        return Ok(b.value);
      } else if info == TWO_BYTES {
        var s := ReadN(2);
        if s.Err? {
          return Err(s.error);
        }
        var b := s.value;
        BeValue2(b);
        return Ok(0x100 * b[0] as int + b[1] as int);
      } else if info == FOUR_BYTES {
        var s := ReadN(4);
        if s.Err? {
          return Err(s.error);
        }
        var b := s.value;
        BeValue4(b);
        return Ok(0x100_0000 * b[0] as int + 0x1_0000 * b[1] as int + 0x100 * b[2] as int + b[3] as int);
      } else if info == EIGHT_BYTES {
        var s := ReadN(8);
        if s.Err? {
          return Err(s.error);
        }
        var b := s.value;
        BeValue8(b);
        return Ok(0x100_0000_0000_0000 * b[0] as int + 0x1_0000_0000_0000 * b[1] as int + 0x100_0000_0000 * b[2] as int
                  + 0x1_0000_0000 * b[3] as int + 0x100_0000 * b[4] as int + 0x1_0000 * b[5] as int + 0x100 * b[6] as int + b[7] as int);
      } else {
        return Err(BadLength);
      }
    }

    /** `read_major_type_with_size`, of a major type already peeked. */
    method ReadMajorTypeWithSize() returns (r: Result<nat, CborError>)
      requires pos < |buf|
      modifies this
      ensures pos <= |buf| && Reads(r, pos, ReadArgument(buf, old(pos) + 1, buf[old(pos)] % 32))
    {
      var ib := ReadU8();
      r := ReadUint(ib.value % 32);
    }

    /** `deserialize`. Each call reads at least one byte, so it ends. */
    method Deserialize(max: nat) returns (r: Result<Cbor, CborError>)
      requires pos <= |buf|
      modifies this
      ensures pos <= |buf| && Reads(r, pos, Parse(buf, old(pos), max))
      decreases |buf| - pos, 0
    {
      hide ReadArgument, ParseItems, ParseEntries;
      if pos == |buf| {
        return Err(Eof);
      }
      var major, info := buf[pos] / 32, buf[pos] % 32;
      if major == TYPE_FLOAT_SIMPLE {
        if info == NULL {
          pos := pos + 1;
          return Ok(Null);
        } else if info == TRUE {
          pos := pos + 1;
          return Ok(Boolean(true));
        } else if info == FALSE {
          pos := pos + 1;
          return Ok(Boolean(false));
        }
        return Err(BadSimpleType);
      }
      var n := ReadMajorTypeWithSize();
      if n.Err? {
        return Err(n.error);
      }
      r := DeserializeBody(major, n.value, max, old(pos));
    }

    /** The branches of `deserialize` after the head. */
    method DeserializeBody(major: nat, n: nat, max: nat, ghost start: nat) returns (r: Result<Cbor, CborError>)
      requires start < pos <= |buf| && major < 7
      modifies this
      ensures pos <= |buf| && Reads(r, pos, ParseBody(buf, start, old(pos), major, n, max))
      decreases |buf| - pos, 2
    {
      hide Parse, ParseItems, ParseEntries;
      if major == TYPE_UNSIGNED_INTEGER || major == TYPE_NEGATIVE_INTEGER {
        return Ok(Long(Signed(major, n)));
      } else if major == TYPE_TAG {
        if n != LINK_TAG {
          return Err(BadTag);
        }
        var v := Deserialize(max);
        if v.Err? {
          return v;
        }
        match v.value
        case ByteString(b) => return if b == [] || b[0] != 0 then Err(BadLink) else Ok(MerkleLink(b[1..]));
        case _ => return Err(BadLink);
      }
      if n > max {
        return Err(TooLong);
      }
      if major == TYPE_ARRAY {
        r := DeserializeList(n, max);
      } else if major == TYPE_MAP {
        r := DeserializeMap(n, max);
      } else {
        var s := ReadN(n);
        if s.Err? {
          return Err(s.error);
        }
        if major == TYPE_BYTE_STRING {
          return Ok(ByteString(s.value));
        }
        return if ValidUtf8(s.value) then Ok(Str(s.value)) else Err(BadUtf8);
      }
    }

    method DeserializeList(n: nat, max: nat) returns (r: Result<Cbor, CborError>)
      requires pos <= |buf|
      modifies this
      ensures pos <= |buf|
      ensures match ParseItems(buf, old(pos), n, max, []) case Ok((items, q)) => r == Ok(List(items)) && pos == q case Err(e) => r == Err(e)
      decreases |buf| - pos, 1
    {
      hide Parse;
      var items: seq<Cbor> := [];
      for i := 0 to n
        invariant old(pos) <= pos <= |buf|
        invariant ParseItems(buf, old(pos), n, max, []) == ParseItems(buf, pos, n - i, max, items)
      {
        var item := Deserialize(max);
        if item.Err? {
          return item;
        }
        items := items + [item.value];
      }
      r := Ok(List(items));
    }

    method DeserializeMap(n: nat, max: nat) returns (r: Result<Cbor, CborError>)
      requires pos <= |buf|
      modifies this
      ensures pos <= |buf|
      ensures match ParseEntries(buf, old(pos), n, max, []) case Ok((m, q)) => r == Ok(Map(m)) && pos == q case Err(e) => r == Err(e)
      decreases |buf| - pos, 1
    {
      hide Parse, Insert;
      var m: seq<Entry> := [];
      for i := 0 to n
        invariant old(pos) <= pos <= |buf|
        invariant ParseEntries(buf, old(pos), n, max, []) == ParseEntries(buf, pos, n - i, max, m)
      {
        var key := Deserialize(max);
        if key.Err? {
          return key;
        }
        if !key.value.Str? {
          return Err(BadKey);
        }
        var value := Deserialize(max);
        if value.Err? {
          return value;
        }
        var inserted := Insert(m, Entry(key.value.text, value.value));
        if inserted.None? {
          return Err(DuplicateKey);
        }
        m := inserted.value;
      }
      r := Ok(Map(m));
    }
  }

  /** `from_bytes` */
  method FromBytes(bytes: seq<byte>) returns (r: Result<Cbor, CborError>)
    ensures r == DecodeAll(bytes)
  {
    if bytes == [] {
      return Err(EmptyInput);
    }
    var reader := new Reader(bytes);
    r := reader.Deserialize(|bytes|);
    if r.Ok? && reader.pos != |bytes| {
      return Err(TrailingBytes);
    }
  }

  /** `from_bytes_consumed` */
  method FromBytesConsumed(bytes: seq<byte>) returns (r: Result<(Cbor, nat), CborError>)
    ensures r == Decode(bytes)
  {
    if bytes == [] {
      return Err(EmptyInput);
    }
    var reader := new Reader(bytes);
    var o := reader.Deserialize(|bytes|);
    r := if o.Ok? then Ok((o.value, reader.pos)) else Err(o.error);
  }

  /** `from_bytes_prefix` */
  method FromBytesPrefix(bytes: seq<byte>) returns (r: Result<Cbor, CborError>)
    ensures match Decode(bytes) case Ok((o, _)) => r == Ok(o) case Err(e) => r == Err(e)
  {
    if bytes == [] {
      return Err(EmptyInput);
    }
    var reader := new Reader(bytes);
    r := reader.Deserialize(|bytes|);
  }

  lemma BeValue1(b: seq<byte>)
    requires |b| == 1
    ensures BeValue(b) == b[0]
  {
    assert BeValue(b[..0]) == 0;
  }

  lemma BeValue2(b: seq<byte>)
    requires |b| == 2
    ensures BeValue(b) == 0x100 * b[0] as int + b[1] as int
  {
    BeValue1(b[..1]);
  }

  lemma BeValue4(b: seq<byte>)
    requires |b| == 4
    ensures BeValue(b) == 0x100_0000 * b[0] as int + 0x1_0000 * b[1] as int + 0x100 * b[2] as int + b[3] as int
  {
    BeValue2(b[..2]);
    assert b[..3][..2] == b[..2];
    assert BeValue(b[..3]) == 256 * BeValue(b[..2]) + b[2];
  }

  lemma BeValue8(b: seq<byte>)
    requires |b| == 8
    ensures BeValue(b) == 0x100_0000_0000_0000 * b[0] as int + 0x1_0000_0000_0000 * b[1] as int + 0x100_0000_0000 * b[2] as int
      + 0x1_0000_0000 * b[3] as int + 0x100_0000 * b[4] as int + 0x1_0000 * b[5] as int + 0x100 * b[6] as int + b[7] as int
  {
    BeValue4(b[..4]);
    BeStep(b, 4);
    BeStep(b, 5);
    BeStep(b, 6);
    BeStep(b, 7);
    assert b[..8] == b;
  }

  lemma BeStep(b: seq<byte>, i: nat)
    requires i < |b|
    ensures BeValue(b[..i + 1]) == 256 * BeValue(b[..i]) + b[i]
  {
    assert b[..i + 1][..i] == b[..i];
  }
}
