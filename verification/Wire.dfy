/** Counted fields in either byte order, shared by credential caches and keytabs
    (src/ccache.rs, src/keytab.rs). */
module Wire {
  import opened Bytes

  datatype Error =
    | TooShort(actual: nat)
    | InvalidFirstByte(first: byte)
    | InvalidVersion(version: byte)
    | Truncated
    | NegativeLength(value: int)
    | LengthOverflow
    | InvalidString
    | InvalidHeaderField(tag: nat, fieldLength: nat)
    | InvalidHeaderLength

  /** A parse: the value and the bytes after it. */
  type Read<T> = Result<(T, seq<byte>), Error>

  const I16 := 0x8000
  const I32 := 0x8000_0000
  const U16 := 0x1_0000

  /** Everything a format's readers and writers share: version, byte order, and which byte strings
      are valid UTF-8. */
  datatype Format = Format(version: byte, endian: Endian, utf8: seq<byte> -> bool)

  /** The machine: its byte order, and which strings are UTF-8. */
  datatype Host = Host(order: Endian, utf8: seq<byte> -> bool)

  /** Version 1 of both formats counts the realm among the components. */
  function Extra(f: Format): nat
  {
    if f.version == 1 then 1 else 0
  }

  // ------------------------------------------------------------------
  // Integers

  function ReadUnsigned(s: seq<byte>, k: nat, e: Endian): Read<nat>
  {
    if |s| < k then Err(Truncated) else Ok((GetInt(s[..k], e), s[k..]))
  }

  function ReadSigned(s: seq<byte>, k: nat, half: int, e: Endian): Read<int>
  {
    match ReadUnsigned(s, k, e)
    case Err(x) => Err(x)
    case Ok((n, rest)) => Ok((Signed(n, half), rest))
  }

  function ReadI16(s: seq<byte>, f: Format): Read<int> { ReadSigned(s, 2, I16, f.endian) }
  function ReadI32(s: seq<byte>, f: Format): Read<int> { ReadSigned(s, 4, I32, f.endian) }
  function ReadU16(s: seq<byte>, f: Format): Read<nat> { ReadUnsigned(s, 2, f.endian) }
  function ReadU32(s: seq<byte>, f: Format): Read<nat> { ReadUnsigned(s, 4, f.endian) }

  function PutI16(i: int, f: Format): (r: seq<byte>) ensures |r| == 2 { PutInt(Pattern(i, I16), 2, f.endian) }
  function PutI32(i: int, f: Format): (r: seq<byte>) ensures |r| == 4 { PutInt(Pattern(i, I32), 4, f.endian) }
  function PutU16(n: nat, f: Format): (r: seq<byte>) ensures |r| == 2 { PutInt(n, 2, f.endian) }
  function PutU32(n: nat, f: Format): (r: seq<byte>) ensures |r| == 4 { PutInt(n, 4, f.endian) }

  lemma CutConcat(a: seq<byte>, b: seq<byte>)
    ensures (a + b)[..|a|] == a && (a + b)[|a|..] == b
  {
  }

  lemma Assoc(a: seq<byte>, b: seq<byte>, c: seq<byte>)
    ensures (a + b) + c == a + (b + c)
  {
  }

  lemma PutReadUnsigned(n: nat, k: nat, e: Endian, rest: seq<byte>)
    requires n < Pow(256, k)
    ensures ReadUnsigned(PutInt(n, k, e) + rest, k, e) == Ok((n, rest))
  {
    CutConcat(PutInt(n, k, e), rest);
    GetPutInt(n, k, e);
  }

  lemma ReadPutUnsigned(s: seq<byte>, k: nat, e: Endian, n: nat, rest: seq<byte>)
    requires ReadUnsigned(s, k, e) == Ok((n, rest))
    ensures s == PutInt(n, k, e) + rest && n < Pow(256, k)
  {
    PutGetInt(s[..k], e);
    assert s == s[..k] + rest;
  }

  lemma PutReadU16(n: nat, f: Format, rest: seq<byte>)
    requires n < U16
    ensures ReadU16(PutU16(n, f) + rest, f) == Ok((n, rest))
  {
    PowTable();
    PutReadUnsigned(n, 2, f.endian, rest);
  }

  lemma ReadPutU16(s: seq<byte>, f: Format, n: nat, rest: seq<byte>)
    requires ReadU16(s, f) == Ok((n, rest))
    ensures s == PutU16(n, f) + rest && n < U16
  {
    PowTable();
    ReadPutUnsigned(s, 2, f.endian, n, rest);
  }

  lemma PutReadU32(n: nat, f: Format, rest: seq<byte>)
    requires n < U32
    ensures ReadU32(PutU32(n, f) + rest, f) == Ok((n, rest))
  {
    PowTable();
    PutReadUnsigned(n, 4, f.endian, rest);
  }

  lemma ReadPutU32(s: seq<byte>, f: Format, n: nat, rest: seq<byte>)
    requires ReadU32(s, f) == Ok((n, rest))
    ensures s == PutU32(n, f) + rest && n < U32
  {
    PowTable();
    ReadPutUnsigned(s, 4, f.endian, n, rest);
  }

  lemma PutReadI16(i: int, f: Format, rest: seq<byte>)
    ensures ReadI16(PutI16(i, f) + rest, f) == Ok((Signed(Pattern(i, I16), I16), rest))
    ensures -I16 <= i < I16 <==> Signed(Pattern(i, I16), I16) == i
  {
    PowTable();
    SignedPattern(i, I16);
    PutReadUnsigned(Pattern(i, I16), 2, f.endian, rest);
  }

  lemma ReadPutI16(s: seq<byte>, f: Format, i: int, rest: seq<byte>)
    requires ReadI16(s, f) == Ok((i, rest))
    ensures s == PutI16(i, f) + rest && -I16 <= i < I16
  {
    PowTable();
    var n := ReadUnsigned(s, 2, f.endian).value.0;
    ReadPutUnsigned(s, 2, f.endian, n, rest);
    PatternSigned(n, I16);
  }

  lemma PutReadI32(i: int, f: Format, rest: seq<byte>)
    ensures ReadI32(PutI32(i, f) + rest, f) == Ok((Signed(Pattern(i, I32), I32), rest))
    ensures -I32 <= i < I32 <==> Signed(Pattern(i, I32), I32) == i
  {
    PowTable();
    SignedPattern(i, I32);
    PutReadUnsigned(Pattern(i, I32), 4, f.endian, rest);
  }

  lemma ReadPutI32(s: seq<byte>, f: Format, i: int, rest: seq<byte>)
    requires ReadI32(s, f) == Ok((i, rest))
    ensures s == PutI32(i, f) + rest && -I32 <= i < I32
  {
    PowTable();
    var n := ReadUnsigned(s, 4, f.endian).value.0;
    ReadPutUnsigned(s, 4, f.endian, n, rest);
    PatternSigned(n, I32);
  }

  // ------------------------------------------------------------------
  // Byte strings

  function ReadBytes(s: seq<byte>, n: nat): Read<seq<byte>>
  {
    if |s| < n then Err(Truncated) else Ok((s[..n], s[n..]))
  }

  lemma PutReadBytes(v: seq<byte>, rest: seq<byte>)
    ensures ReadBytes(v + rest, |v|) == Ok((v, rest))
  {
    CutConcat(v, rest);
  }

  // ------------------------------------------------------------------
  // Lists

  /** Items already read in front of the rest of a reading. */
  function Prepend<T>(items: seq<T>, r: Read<seq<T>>): Read<seq<T>>
  {
    match r
    case Err(e) => Err(e)
    case Ok((more, rest)) => Ok((items + more, rest))
  }

  lemma PrependNone<T>(r: Read<seq<T>>)
    ensures Prepend([], r) == r
  {
    if r.Ok? { assert [] + r.value.0 == r.value.0; }
  }

  lemma PrependEnd<T>(items: seq<T>, rest: seq<byte>)
    ensures Prepend(items, Ok(([], rest))) == Ok((items, rest))
  {
    assert items + [] == items;
  }

  lemma PrependOne<T>(items: seq<T>, x: T, r: Read<seq<T>>)
    ensures Prepend(items, Prepend([x], r)) == Prepend(items + [x], r)
  {
    if r.Ok? { assert items + ([x] + r.value.0) == (items + [x]) + r.value.0; }
  }

  lemma Assoc4(a: seq<byte>, b: seq<byte>, c: seq<byte>, d: seq<byte>, rest: seq<byte>)
    ensures (a + (b + (c + d))) + rest == a + (b + (c + (d + rest)))
  {
    Assoc(a, b + (c + d), rest);
    Assoc(b, c + d, rest);
    Assoc(c, d, rest);
  }

  // ------------------------------------------------------------------
  // The cursor

  /** The pair of a byte string and an offset that every parser advances. */
  class Cursor {
    const bytes: seq<byte>
    var offset: nat

    ghost predicate Valid()
      reads this
    {
      offset <= |bytes|
    }

    function Rest(): seq<byte>
      requires Valid()
      reads this
    {
      bytes[offset..]
    }

    constructor (bytes: seq<byte>)
      ensures Valid() && Rest() == bytes && this.bytes == bytes && offset == 0
    {
      this.bytes := bytes;
      this.offset := 0;
    }

    /** `read_bytes`. */
    method Take(n: nat) returns (r: Result<seq<byte>, Error>)
      requires Valid()
      modifies this`offset
      ensures Valid()
      ensures match ReadBytes(old(Rest()), n)
              case Ok((v, rest)) => r == Ok(v) && Rest() == rest && offset == old(offset) + n
              case Err(e) => r == Err(e)
    {
      var end := offset + n;
      if end > |bytes| { return Err(Truncated); }
      var out := bytes[offset..end];
      assert out == Rest()[..n] && bytes[end..] == Rest()[n..];
      offset := end;
      return Ok(out);
    }

    method TakeUnsigned(k: nat, e: Endian) returns (r: Result<nat, Error>)
      requires Valid()
      modifies this`offset
      ensures Valid()
      ensures match ReadUnsigned(old(Rest()), k, e)
              case Ok((v, rest)) => r == Ok(v) && Rest() == rest && offset == old(offset) + k
              case Err(x) => r == Err(x)
    {
      var raw :- Take(k);
      return Ok(GetInt(raw, e));
    }

    /** `read_u16`. */
    method TakeU16(f: Format) returns (r: Result<nat, Error>)
      requires Valid()
      modifies this`offset
      ensures Valid()
      ensures match ReadU16(old(Rest()), f)
              case Ok((v, rest)) => r == Ok(v) && Rest() == rest && offset == old(offset) + 2
              case Err(e) => r == Err(e)
    {
      r := TakeUnsigned(2, f.endian);
    }

    /** `read_u32`. */
    method TakeU32(f: Format) returns (r: Result<nat, Error>)
      requires Valid()
      modifies this`offset
      ensures Valid()
      ensures match ReadU32(old(Rest()), f)
              case Ok((v, rest)) => r == Ok(v) && Rest() == rest && offset == old(offset) + 4
              case Err(e) => r == Err(e)
    {
      r := TakeUnsigned(4, f.endian);
    }

    /** `read_i16`. */
    method TakeI16(f: Format) returns (r: Result<int, Error>)
      requires Valid()
      modifies this`offset
      ensures Valid()
      ensures match ReadI16(old(Rest()), f)
              case Ok((v, rest)) => r == Ok(v) && Rest() == rest && offset == old(offset) + 2
              case Err(e) => r == Err(e)
    {
      var n :- TakeUnsigned(2, f.endian);
      return Ok(Signed(n, I16));
    }

    /** `read_i32`. */
    method TakeI32(f: Format) returns (r: Result<int, Error>)
      requires Valid()
      modifies this`offset
      ensures Valid()
      ensures match ReadI32(old(Rest()), f)
              case Ok((v, rest)) => r == Ok(v) && Rest() == rest && offset == old(offset) + 4
              case Err(e) => r == Err(e)
    {
      var n :- TakeUnsigned(4, f.endian);
      return Ok(Signed(n, I32));
    }
  }

  /** A parsing step did what its specification says: same value and same bytes left, or same error. */
  ghost predicate Agrees<T>(r: Result<T, Error>, cursor: Cursor, spec: Read<T>)
    reads cursor
  {
    && cursor.Valid()
    && match spec
       case Ok((v, rest)) => r == Ok(v) && cursor.Rest() == rest
       case Err(e) => r == Err(e)
  }
}
