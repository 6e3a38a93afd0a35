/** Hand-written DER: tag-length-value triples, integers, object identifiers (src/spnego/der.rs). */
module Der {
  import opened Bytes

  type u32 = x: int | 0 <= x < 0x1_0000_0000

  /** The arcs of an object identifier (src/spnego/oid.rs). */
  type Oid = seq<u32>

  datatype Error =
    | TruncatedDer
    | HighTagNumber
    | LengthExceedsInput
    | IndefiniteLength
    | TrailingData
    | UnexpectedTag(expected: byte, actual: byte)
    | InvalidOid
    | InvalidOidEncoding
    | InvalidInteger
    | EmptyInput
    | MissingMechTypes
    | InvalidNegState(state: nat)
    | UnexpectedSpnegoOid(oid: Oid)
    | UnexpectedInitOrResp
    | UnsupportedMechanism(oid: Oid)
    | UnknownKrb5TokenId(id: seq<byte>)
    | MissingKerberosMessage

  const USIZE := 0x1_0000_0000_0000_0000

  datatype Tlv = Tlv(tag: byte, value: seq<byte>)

  // ------------------------------------------------------------------
  // Shortest big-endian numbers

  /** The big-endian bytes of `n` without leading zeros. */
  function BeMin(n: nat): seq<byte>
  {
    if n == 0 then [] else BeMin(n / 256) + [n % 256]
  }

  lemma {:induction false} BeMinVal(n: nat)
    ensures BeVal(BeMin(n)) == n
    ensures n > 0 ==> BeMin(n) != [] && BeMin(n)[0] != 0
  {
    if n > 0 {
      BeMinVal(n / 256);
      assert BeMin(n)[..|BeMin(n)| - 1] == BeMin(n / 256);
    }
  }

  lemma {:induction false} BeMinLength(n: nat, k: nat)
    requires n < Pow(256, k)
    ensures |BeMin(n)| <= k
  {
    if n > 0 { BeMinLength(n / 256, k - 1); }
  }

  /** A string without a leading zero is the shortest spelling of its value. */
  lemma {:induction false} BeMinUnique(s: seq<byte>)
    requires s != [] ==> s[0] != 0
    ensures BeMin(BeVal(s)) == s
    ensures s != [] ==> BeVal(s) > 0
  {
    if s != [] { BeMinUnique(s[..|s| - 1]); }
  }

  lemma {:induction false} SkipZeros(s: seq<byte>, k: nat)
    requires k <= |s| && forall i :: 0 <= i < k ==> s[i] == 0
    ensures BeVal(s[k..]) == BeVal(s)
  {
    BeValConcat(s[..k], s[k..]);
    assert s == s[..k] + s[k..];
    ZerosVal(s[..k]);
  }

  lemma {:induction false} ZerosVal(s: seq<byte>)
    requires forall i :: 0 <= i < |s| ==> s[i] == 0
    ensures BeVal(s) == 0
  {
    if s != [] { ZerosVal(s[..|s| - 1]); }
  }

  /** `iter().position(|byte| *byte != 0)`. */
  method FirstNonzero(s: seq<byte>) returns (k: nat)
    ensures k <= |s| && forall i :: 0 <= i < k ==> s[i] == 0
    ensures k < |s| ==> s[k] != 0
  {
    k := 0;
    while k < |s| && s[k] == 0
      invariant k <= |s| && forall i :: 0 <= i < k ==> s[i] == 0
    {
      k := k + 1;
    }
  }

  /** Cutting the leading zeros off a fixed-width number leaves its shortest spelling. */
  method Shortest(n: nat, width: nat) returns (s: seq<byte>)
    requires n < Pow(256, width)
    ensures s == BeMin(n)
  {
    var bytes := BePut(n, width);
    BePutVal(n, width);
    var first := FirstNonzero(bytes);
    s := bytes[first..];
    SkipZeros(bytes, first);
    BeMinUnique(s);
  }

  // ------------------------------------------------------------------
  // Lengths

  function EncodeLen(len: nat): (r: seq<byte>)
    ensures r != []
  {
    if len < 128 then [len] else [(0x80 + |BeMin(len)|) % 256] + BeMin(len)
  }

  function ReadLen(s: seq<byte>): Result<(nat, seq<byte>), Error>
  {
    if s == [] then Err(TruncatedDer)
    else if s[0] < 0x80 then Ok((s[0], s[1..]))
    else
      var count := s[0] - 0x80;
      if count == 0 then Err(IndefiniteLength)
      else if count > 8 || 1 + count > |s| then Err(LengthExceedsInput)
      else Ok((BeVal(s[1..1 + count]), s[1 + count..]))
  }

  lemma ReadLenEncoded(len: nat, rest: seq<byte>)
    requires len < USIZE
    ensures ReadLen(EncodeLen(len) + rest) == Ok((len, rest))
  {
    var s := EncodeLen(len) + rest;
    if len >= 128 {
      PowTable();
      BeMinLength(len, 8);
      BeMinVal(len);
      var n := |BeMin(len)|;
      assert s[0] == 0x80 + n;
      assert s[1..1 + n] == BeMin(len) && s[1 + n..] == rest;
    }
  }

  lemma ReadLenSuffix(s: seq<byte>)
    requires ReadLen(s).Ok?
    ensures var rest := ReadLen(s).value.1; |rest| < |s| && s[|s| - |rest|..] == rest
  {
  }

  /** No accepted length is shorter than the one written. */
  lemma EncodeLenShortest(s: seq<byte>, len: nat, rest: seq<byte>)
    requires ReadLen(s) == Ok((len, rest))
    ensures |EncodeLen(len)| + |rest| <= |s|
  {
    if s[0] >= 0x80 {
      var count := s[0] - 0x80;
      BeValBound(s[1..1 + count]);
      BeMinLength(len, count);
    }
  }

  /** The octets of a length: below 128 the number itself, else a count and the number without a leading zero. */
  lemma EncodeLenIs(len: nat)
    requires len < USIZE
    ensures var r := EncodeLen(len);
            if len < 128 then r == [len]
            else 1 <= |r| - 1 <= 8 && r[0] == 0x80 + (|r| - 1) && BeVal(r[1..]) == len && r[1] != 0
  {
    PowTable();
    BeMinVal(len);
    BeMinLength(len, 8);
    if len >= 128 { assert EncodeLen(len)[1..] == BeMin(len); }
  }

  /** `encode_len`. */
  method WriteLen(len: nat, out: seq<byte>) returns (out': seq<byte>)
    requires len < USIZE
    ensures out' == out + EncodeLen(len)
  {
    if len < 128 { return out + [len]; }
    PowTable();
    var lengthBytes := Shortest(len, 8);
    BeMinLength(len, 8);
    out' := out + [0x80 + |lengthBytes|];
    out' := out' + lengthBytes;
    assert out' == out + ([0x80 + |lengthBytes|] + lengthBytes);
  }

  // ------------------------------------------------------------------
  // Tag-length-value

  function EncodeTlv(tag: byte, value: seq<byte>): (r: seq<byte>)
    ensures |value| + 2 <= |r|
  {
    [tag] + EncodeLen(|value|) + value
  }

  /** Short values have a one-octet length. */
  lemma ShortTlv(tag: byte, value: seq<byte>)
    requires |value| < 128
    ensures EncodeTlv(tag, value) == [tag, |value|] + value
  {
  }

  function ReadTlv(s: seq<byte>): (r: Result<(Tlv, seq<byte>), Error>)
    ensures r.Ok? ==> |r.value.1| < |s|
  {
    if s == [] then Err(TruncatedDer)
    else if s[0] % 32 == 31 then Err(HighTagNumber)
    else match ReadLen(s[1..])
      case Err(e) => Err(e)
      case Ok((length, body)) =>
        if length > |body| then Err(LengthExceedsInput)
        else Ok((Tlv(s[0], body[..length]), body[length..]))
  }

  lemma Regroup(a: seq<byte>, b: seq<byte>, c: seq<byte>, d: seq<byte>)
    ensures ((a + b) + c) + d == a + (b + (c + d))
  {
  }

  lemma CutConcat(a: seq<byte>, b: seq<byte>)
    ensures (a + b)[..|a|] == a && (a + b)[|a|..] == b
  {
  }

  /** Reading what was written gives the triple and leaves the rest. */
  lemma ReadTlvEncoded(tag: byte, value: seq<byte>, rest: seq<byte>)
    requires tag % 32 != 31 && |value| < USIZE
    ensures ReadTlv(EncodeTlv(tag, value) + rest) == Ok((Tlv(tag, value), rest))
  {
    Regroup([tag], EncodeLen(|value|), value, rest);
    ReadLenEncoded(|value|, value + rest);
    CutConcat([tag], EncodeLen(|value|) + (value + rest));
    CutConcat(value, rest);
  }

  /** Whatever is read as a triple ends in its value and the rest, and is no shorter than written. */
  lemma ReadTlvSound(s: seq<byte>, tlv: Tlv, rest: seq<byte>)
    requires ReadTlv(s) == Ok((tlv, rest))
    ensures tlv.tag % 32 != 31 && |EncodeTlv(tlv.tag, tlv.value)| + |rest| <= |s|
    ensures s[|s| - |tlv.value| - |rest|..] == tlv.value + rest && s[0] == tlv.tag
  {
    var (length, body) := ReadLen(s[1..]).value;
    EncodeLenShortest(s[1..], length, body);
    assert body == tlv.value + rest;
    ReadLenSuffix(s[1..]);
    assert s[|s| - |body|..] == s[1..][|s| - 1 - |body|..];
  }

  /** `encode_tlv`. */
  method WriteTlv(tag: byte, value: seq<byte>) returns (out: seq<byte>)
    requires |value| < USIZE
    ensures out == EncodeTlv(tag, value)
  {
    out := [tag];
    out := WriteLen(|value|, out);
    out := out + value;
  }

  /** `DerReader`: a byte string and a position in it. */
  class DerReader {
    const bytes: seq<byte>
    var offset: nat

    ghost predicate Valid()
      reads this
    {
      offset <= |bytes|
    }

    /** The bytes not yet read. */
    function Remaining(): seq<byte>
      requires Valid()
      reads this
    {
      bytes[offset..]
    }

    constructor (bytes: seq<byte>)
      ensures Valid() && Remaining() == bytes
    {
      this.bytes := bytes;
      this.offset := 0;
    }

    method ReadLength() returns (r: Result<nat, Error>)
      requires Valid()
      modifies this`offset
      ensures Valid()
      ensures match ReadLen(old(Remaining()))
              case Ok((len, rest)) => r == Ok(len) && Remaining() == rest
              case Err(e) => r == Err(e)
    {
      ghost var s := Remaining();
      if offset >= |bytes| { return Err(TruncatedDer); }
      var first := bytes[offset];
      offset := offset + 1;
      if first < 0x80 { return Ok(first); }
      var count := first - 0x80;
      if count == 0 { return Err(IndefiniteLength); }
      if count > 8 || offset + count > |bytes| { return Err(LengthExceedsInput); }
      var length: nat := 0;
      for i := 0 to count
        invariant length == BeVal(s[1..1 + i])
      {
        assert s[1..1 + (i + 1)][..i] == s[1..1 + i];
        length := length * 256 + bytes[offset + i];
      }
      offset := offset + count;
      return Ok(length);
    }

    method ReadTlvAt() returns (r: Result<Tlv, Error>)
      requires Valid()
      modifies this`offset
      ensures Valid()
      ensures match ReadTlv(old(Remaining()))
              case Ok((tlv, rest)) => r == Ok(tlv) && Remaining() == rest
              case Err(e) => r == Err(e)
    {
      ghost var s := Remaining();
      if offset >= |bytes| { return Err(TruncatedDer); }
      var tag := bytes[offset];
      assert tag == s[0];
      offset := offset + 1;
      if tag % 32 == 31 { return Err(HighTagNumber); }
      assert Remaining() == s[1..];
      var length :- ReadLength();
      ghost var body := Remaining();
      assert ReadLen(s[1..]) == Ok((length, body)) && |body| == |bytes| - offset;
      if offset + length > |bytes| { return Err(LengthExceedsInput); }
      var value := bytes[offset..offset + length];
      assert value == body[..length];
      offset := offset + length;
      assert Remaining() == body[length..];
      return Ok(Tlv(tag, value));
    }

    method ReadBytes(len: nat) returns (r: Result<seq<byte>, Error>)
      requires Valid()
      modifies this`offset
      ensures Valid()
      ensures len <= |old(Remaining())| ==>
        r == Ok(old(Remaining())[..len]) && Remaining() == old(Remaining())[len..]
      ensures len > |old(Remaining())| ==> r == Err(TruncatedDer)
    {
      if offset + len > |bytes| { return Err(TruncatedDer); }
      var taken := bytes[offset..offset + len];
      assert taken == Remaining()[..len];
      offset := offset + len;
      return Ok(taken);
    }

    method Finish() returns (r: Result<(), Error>)
      requires Valid()
      ensures r == if Remaining() == [] then Ok(()) else Err(TrailingData)
    {
      return if offset == |bytes| then Ok(()) else Err(TrailingData);
    }
  }

  function SingleTlv(s: seq<byte>, expected: byte): Result<seq<byte>, Error>
  {
    match ReadTlv(s)
    case Err(e) => Err(e)
    case Ok((tlv, rest)) =>
      if rest != [] then Err(TrailingData)
      else if tlv.tag != expected then Err(UnexpectedTag(expected, tlv.tag))
      else Ok(tlv.value)
  }

  lemma SingleTlvEncoded(tag: byte, value: seq<byte>)
    requires tag % 32 != 31 && |value| < USIZE
    ensures SingleTlv(EncodeTlv(tag, value), tag) == Ok(value)
  {
    ReadTlvEncoded(tag, value, []);
    assert EncodeTlv(tag, value) + [] == EncodeTlv(tag, value);
  }

  /** `read_single_tlv`. */
  method ReadSingleTlv(s: seq<byte>, expected: byte) returns (r: Result<seq<byte>, Error>)
    ensures r == SingleTlv(s, expected)
  {
    var reader := new DerReader(s);
    var tlv :- reader.ReadTlvAt();
    var _ :- reader.Finish();
    if tlv.tag != expected { return Err(UnexpectedTag(expected, tlv.tag)); }
    return Ok(tlv.value);
  }

  // ------------------------------------------------------------------
  // Unsigned integers

  function EncodeU32(value: u32): (r: seq<byte>)
    ensures r != []
  {
    var min := if value == 0 then [0] else BeMin(value);
    BeMinVal(value);
    if min[0] >= 0x80 then [0] + min else min
  }

  /** The content octets of an integer: its value, not negative, and no octet that could be left out. */
  lemma EncodeU32Is(value: u32)
    ensures var r := EncodeU32(value);
            BeVal(r) == value && r[0] < 0x80 && |r| <= 5 && (|r| > 1 ==> r[0] != 0 || r[1] >= 0x80)
  {
    BeMinVal(value);
    PowTable();
    BeMinLength(value, 4);
    var min := if value == 0 then [0] else BeMin(value);
    assert value == 0 ==> BeVal([0]) == 0;
    if min[0] >= 0x80 {
      SkipZeros([0] + min, 1);
      assert ([0] + min)[1..] == min;
    }
  }

  /** The shifts drop what leaves 32 bits. */
  function DecodeU32(s: seq<byte>): Result<u32, Error>
  {
    if s == [] || |s| > 5 || s[0] >= 0x80 then Err(InvalidInteger)
    else Ok(BeVal(s) % 0x1_0000_0000)
  }

  lemma DecodeEncodedU32(value: u32)
    ensures DecodeU32(EncodeU32(value)) == Ok(value)
  {
    hide EncodeU32, BeVal;
    EncodeU32Is(value);
    DivUnique(value, 0x1_0000_0000, 0, value);
  }

  /** The decoder keeps the value exactly when it does not start a fifth byte with a nonzero one. */
  lemma DecodeU32Exact(s: seq<byte>)
    requires DecodeU32(s).Ok?
    ensures DecodeU32(s).value == BeVal(s) <==> |s| < 5 || s[0] == 0
  {
    hide BeVal, Pow;
    if |s| < 5 {
      BeValBound(s);
      PowBelow(|s|);
      DivUnique(BeVal(s), 0x1_0000_0000, 0, BeVal(s));
    } else {
      PowTable();
      FirstByte(s);
      BeValBound(s[1..]);
      DivUnique(BeVal(s), 0x1_0000_0000, s[0], BeVal(s[1..]));
    }
  }

  lemma FirstByte(s: seq<byte>)
    requires s != []
    ensures BeVal(s) == s[0] as int * Pow(256, |s| - 1) + BeVal(s[1..])
  {
    BeValConcat([s[0]], s[1..]);
    assert s == [s[0]] + s[1..] && BeVal([s[0]]) == s[0];
  }

  lemma PowBelow(k: nat)
    requires k <= 4
    ensures Pow(256, k) <= 0x1_0000_0000
  {
    PowTable();
    if k == 3 { assert Pow(256, 3) == 256 * Pow(256, 2); }
    if k == 1 || k == 0 { assert Pow(256, 0) == 1; }
  }

  /** `encode_u32`. */
  method WriteU32(value: u32) returns (encoded: seq<byte>)
    ensures encoded == EncodeU32(value)
  {
    PowTable();
    BeMinVal(value);
    var bytes := BePut(value, 4);
    BePutVal(value, 4);
    var firstNonzero := FirstNonzero(bytes);
    if firstNonzero == |bytes| { firstNonzero := |bytes| - 1; }
    encoded := bytes[firstNonzero..];
    SkipZeros(bytes, firstNonzero);
    if encoded[0] != 0 {
      BeMinUnique(encoded);
    } else {
      assert encoded == [0];
      assert BeVal([0]) == 0;
    }
    if encoded[0] >= 0x80 { encoded := [0] + encoded; }
  }

  /** `decode_u32`. */
  method ReadU32(bytes: seq<byte>) returns (r: Result<u32, Error>)
    ensures r == DecodeU32(bytes)
  {
    if bytes == [] || |bytes| > 5 { return Err(InvalidInteger); }
    if bytes[0] >= 0x80 { return Err(InvalidInteger); }
    var value: u32 := 0;
    for i := 0 to |bytes|
      invariant value == BeVal(bytes[..i]) % 0x1_0000_0000
    {
      assert bytes[..i + 1][..i] == bytes[..i];
      ShiftIn(BeVal(bytes[..i]), bytes[i], 0x1_0000_0000, 0x100_0000);
      value := value * 256 % 0x1_0000_0000 + bytes[i];
    }
    assert bytes[..|bytes|] == bytes;
    return Ok(value);
  }

  lemma ShiftIn(v: nat, d: byte, m: nat, k: nat)
    requires k > 0 && m == 256 * k
    ensures v % m * 256 % m + d == (v * 256 + d) % m
  {
    var q, r := v / m, v % m;
    var q', r' := r / k, r % k;
    assert v == m * q + r && r == k * q' + r';
    assert r * 256 == m * q' + r' * 256 by {
      assert (k * q') * 256 == (256 * k) * q';
    }
    DivUnique(r * 256, m, q', r' * 256);
    assert v * 256 + d == m * (256 * q + q') + (r' * 256 + d) by {
      assert (m * q) * 256 + m * q' == m * (256 * q + q');
    }
    DivUnique(v * 256 + d, m, 256 * q + q', r' * 256 + d);
  }
}
