/** Object identifiers in DER (src/spnego/oid.rs, src/spnego/der.rs). */
module OidCodec {
  import opened Bytes
  import opened Der

  const KRB5: Oid := [1, 2, 840, 113554, 1, 2, 2]
  const SPNEGO: Oid := [1, 3, 6, 1, 5, 5, 2]
  const TAG_OID: byte := 0x06

  /** `validate_arcs`. */
  predicate ValidArcs(arcs: Oid)
  {
    |arcs| >= 2 && arcs[0] <= 2 && (arcs[0] < 2 ==> arcs[1] < 40)
  }

  // ------------------------------------------------------------------
  // Base 128

  /** The leading digits, each with the continuation bit. */
  function HighDigits(v: nat): (r: seq<byte>)
    ensures forall i :: 0 <= i < |r| ==> r[i] >= 0x80
  {
    if v == 0 then [] else HighDigits(v / 0x80) + [v % 0x80 + 0x80]
  }

  function Base128(v: nat): (r: seq<byte>)
    ensures r != []
  {
    HighDigits(v / 0x80) + [v % 0x80]
  }

  lemma {:induction false} HighDigitsLength(v: nat, k: nat)
    requires v < Pow(0x80, k)
    ensures |HighDigits(v)| <= k
  {
    if v > 0 { HighDigitsLength(v / 0x80, k - 1); }
  }

  /** One arc; the shifts drop what leaves 32 bits. */
  function DecodeArc(s: seq<byte>, acc: u32): (r: Result<(u32, seq<byte>), Error>)
    ensures r.Ok? ==> |r.value.1| < |s|
  {
    if s == [] then Err(InvalidOidEncoding)
    else if s[0] < 0x80 then Ok((ArcFits(acc, s[0]), s[1..]))
    else DecodeArc(s[1..], ArcFits(acc, s[0]))
  }

  /** The accumulator after one more digit. */
  function ArcFits(acc: u32, b: byte): (r: u32)
    ensures r == acc * 0x80 % 0x1_0000_0000 + b % 0x80
  {
    var k := acc % 0x200_0000;
    assert acc * 0x80 == 0x1_0000_0000 * (acc / 0x200_0000) + k * 0x80;
    DivUnique(acc * 0x80, 0x1_0000_0000, acc / 0x200_0000, k * 0x80);
    acc * 0x80 % 0x1_0000_0000 + b % 0x80
  }

  lemma ArcFitsSmall(v: nat, d: nat)
    requires v * 0x80 + d < 0x1_0000_0000 && d < 0x80
    ensures ArcFits(v, d) == v * 0x80 + d && ArcFits(v, d + 0x80) == v * 0x80 + d
  {
  }

  lemma {:induction false} DecodeHighDigits(v: u32, rest: seq<byte>)
    ensures DecodeArc(HighDigits(v) + rest, 0) == DecodeArc(rest, v)
    decreases v
  {
    if v == 0 {
      assert HighDigits(v) + rest == rest;
    } else {
      var d: byte := v % 0x80 + 0x80;
      assert HighDigits(v) + rest == HighDigits(v / 0x80) + ([d] + rest);
      DecodeHighDigits(v / 0x80, [d] + rest);
      ArcFitsSmall(v / 0x80, v % 0x80);
      assert ([d] + rest)[1..] == rest;
    }
  }

  /** Every 32-bit arc is read back, leaving what follows. */
  lemma DecodeArcEncoded(v: u32, rest: seq<byte>)
    ensures DecodeArc(Base128(v) + rest, 0) == Ok((v, rest))
  {
    var d: byte := v % 0x80;
    assert Base128(v) + rest == HighDigits(v / 0x80) + ([d] + rest);
    DecodeHighDigits(v / 0x80, [d] + rest);
    ArcFitsSmall(v / 0x80, d);
    assert ([d] + rest)[1..] == rest;
  }

  /** `encode_base128`: digits from the right into a five-byte stack buffer. */
  method WriteBase128(value: u32, out: seq<byte>) returns (out': seq<byte>)
    ensures out' == out + Base128(value)
  {
    var stack := new byte[5](_ => 0);
    var len: nat := 1;
    stack[4] := value % 0x80;
    var rest: nat := value / 0x80;
    AtMostFourHigh(rest);
    assert stack[4..] == [value % 0x80];
    while rest > 0
      invariant 1 <= len <= 5 && len + |HighDigits(rest)| <= 5
      invariant HighDigits(rest) + stack[5 - len..] == Base128(value)
      decreases rest
    {
      ghost var tail := stack[5 - len..];
      var digit: byte := rest % 0x80 + 0x80;
      HighDigitsStep(rest, tail);
      len := len + 1;
      stack[5 - len] := digit;
      assert stack[5 - len..] == [digit] + tail;
      rest := rest / 0x80;
    }
    assert stack[5 - len..] == [] + stack[5 - len..];
    out' := out + stack[5 - len..];
  }

  lemma AtMostFourHigh(v: nat)
    requires v < 0x200_0000
    ensures |HighDigits(v)| <= 4
  {
    assert Pow(0x80, 4) == 0x1000_0000 by {
      assert Pow(0x80, 2) == 0x4000;
      PowAdd(0x80, 2, 2);
    }
    HighDigitsLength(v, 4);
  }

  lemma HighDigitsStep(v: nat, tail: seq<byte>)
    requires v > 0
    ensures HighDigits(v) + tail == HighDigits(v / 0x80) + ([v % 0x80 + 0x80] + tail)
    ensures |HighDigits(v)| == |HighDigits(v / 0x80)| + 1
  {
  }

  // ------------------------------------------------------------------
  // Arc lists

  function EncodeArcs(arcs: seq<u32>): seq<byte>
  {
    if arcs == [] then [] else Base128(arcs[0]) + EncodeArcs(arcs[1..])
  }

  function DecodeArcs(s: seq<byte>): Result<seq<u32>, Error>
    decreases |s|
  {
    if s == [] then Ok([])
    else match DecodeArc(s, 0)
      case Err(e) => Err(e)
      case Ok((arc, rest)) =>
        Prepend([arc], DecodeArcs(rest))
  }

  lemma {:induction false} DecodeArcsEncoded(arcs: seq<u32>)
    ensures DecodeArcs(EncodeArcs(arcs)) == Ok(arcs)
  {
    if arcs != [] {
      DecodeArcEncoded(arcs[0], EncodeArcs(arcs[1..]));
      DecodeArcsEncoded(arcs[1..]);
      assert arcs == [arcs[0]] + arcs[1..];
    }
  }

  // ------------------------------------------------------------------
  // Object identifiers

  /** The two leading arcs in one number. */
  function Leading(arcs: Oid): (r: nat)
    requires ValidArcs(arcs)
  {
    arcs[0] as int * 40 + arcs[1] as int
  }

  function EncodeOidValue(arcs: Oid): Result<seq<byte>, Error>
  {
    if !ValidArcs(arcs) || Leading(arcs) >= 0x1_0000_0000 then Err(InvalidOid)
    else Ok(Base128(Leading(arcs)) + EncodeArcs(arcs[2..]))
  }

  function EncodeOid(arcs: Oid): Result<seq<byte>, Error>
  {
    match EncodeOidValue(arcs)
    case Err(e) => Err(e)
    case Ok(value) => Ok(EncodeTlv(TAG_OID, value))
  }

  function DecodeOidValue(s: seq<byte>): (r: Result<Oid, Error>)
    ensures r.Ok? ==> ValidArcs(r.value) && r.value[1] < 40
  {
    if s == [] then Err(InvalidOidEncoding)
    else match DecodeArcs(s[1..])
      case Err(e) => Err(e)
      case Ok(arcs) =>
        var oid := [s[0] / 40, s[0] % 40] + arcs;
        if ValidArcs(oid) then Ok(oid) else Err(InvalidOid)
  }

  function DecodeOid(tlv: Tlv): (r: Result<Oid, Error>)
    ensures r.Ok? ==> ValidArcs(r.value) && r.value[1] < 40
  {
    if tlv.tag != TAG_OID then Err(UnexpectedTag(TAG_OID, tlv.tag)) else DecodeOidValue(tlv.value)
  }

  /** Decoding undoes encoding exactly for the identifiers whose second arc is below 40: the decoder
      takes both leading arcs from one byte. */
  lemma DecodeEncodedOid(arcs: Oid)
    requires EncodeOidValue(arcs).Ok?
    ensures DecodeOidValue(EncodeOidValue(arcs).value) == Ok(arcs) <==> arcs[1] < 40
  {
    if arcs[1] < 40 {
      var first := Leading(arcs);
      assert Base128(first) == [first];
      DecodeArcsEncoded(arcs[2..]);
      var value := EncodeOidValue(arcs).value;
      assert value[1..] == EncodeArcs(arcs[2..]);
      assert arcs == [arcs[0], arcs[1]] + arcs[2..];
      DivUnique(first, 40, arcs[0], arcs[1]);
    }
  }

  /** The number the octets of an arc spell in base 128, however large. */
  function ArcNumber(s: seq<byte>, acc: nat): nat
  {
    if s == [] then acc
    else if s[0] < 0x80 then acc * 0x80 + s[0]
    else ArcNumber(s[1..], acc * 0x80 + s[0] % 0x80)
  }

  /** The octets of an arc spell it, each but the last marked, and the first not an empty digit. */
  lemma Base128Is(v: nat)
    ensures var r := Base128(v);
            && ArcNumber(r, 0) == v
            && r[|r| - 1] < 0x80 && (forall i :: 0 <= i < |r| - 1 ==> r[i] >= 0x80)
            && (|r| > 1 ==> r[0] > 0x80)
  {
    HighNumber(v / 0x80, [v % 0x80]);
    HighFirst(v / 0x80);
    LastArc(v % 0x80, 0, v / 0x80);
  }

  lemma {:induction false} HighNumber(v: nat, rest: seq<byte>)
    ensures ArcNumber(HighDigits(v) + rest, 0) == ArcNumber(rest, v)
    decreases v
  {
    hide ArcNumber, HighDigits;
    if v == 0 {
      NoHighDigits();
      assert [] + rest == rest;
    } else {
      var q, d := v / 0x80, Marked(v);
      HighDigitsStep(v, rest);
      HighNumber(q, [d] + rest);
      ArcContinues(d, rest, 0, q);
    }
  }

  function Marked(v: nat): (d: byte)
    ensures d >= 0x80 && d == v % 0x80 + 0x80 && v / 0x80 * 0x80 + d % 0x80 == v
  {
    v % 0x80 + 0x80
  }

  lemma NoHighDigits()
    ensures HighDigits(0) == []
  {
  }

  lemma {:induction false} HighFirst(v: nat)
    ensures v > 0 ==> HighDigits(v) != [] && HighDigits(v)[0] > 0x80
  {
    if v > 0 { HighFirst(v / 0x80); }
  }

  /** Which identifiers can be written: two arcs at least, the first up to 2, the second below 40 under 0 and 1, and the
      two together in 32 bits. They are written as one number, then arc by arc. */
  lemma EncodeOidIs(arcs: Oid)
    ensures EncodeOidValue(arcs).Ok? <==>
      && |arcs| >= 2 && arcs[0] <= 2 && (arcs[0] <= 1 ==> arcs[1] < 40)
      && arcs[0] as int * 40 + arcs[1] as int < 0x1_0000_0000
    ensures EncodeOidValue(arcs).Ok? ==>
      EncodeOidValue(arcs).value == Base128(arcs[0] as int * 40 + arcs[1] as int) + EncodeArcs(arcs[2..])
    ensures EncodeOidValue(arcs).Err? ==> EncodeOidValue(arcs) == Err(InvalidOid)
  {
    hide Base128, EncodeArcs;
  }

  /** What is read: the first octet is 40 times the first arc, up to 2, and the second; the rest are the other arcs. */
  lemma DecodeOidIs(s: seq<byte>)
    ensures DecodeOidValue(s).Ok? <==> s != [] && s[0] < 120 && DecodeArcs(s[1..]).Ok?
    ensures DecodeOidValue(s).Ok? ==>
      DecodeOidValue(s).value == [s[0] / 40, s[0] % 40] + DecodeArcs(s[1..]).value
  {
    hide DecodeArcs;
  }

  /** The identifier of SPNEGO in octets. */
  lemma SpnegoOctets()
    ensures EncodeOid(SPNEGO) == Ok([0x06, 0x06, 0x2b, 0x06, 0x01, 0x05, 0x05, 0x02])
  {
    hide EncodeArcs, EncodeTlv, Base128;
    SmallArcs(SPNEGO[2..]);
    OneDigit(43);
    var rest: seq<byte> := [6, 1, 5, 5, 2];
    assert SPNEGO[2..] == [6, 1, 5, 5, 2] && EncodeArcs(SPNEGO[2..]) == rest;
    assert EncodeOidValue(SPNEGO) == Ok([43] + rest);
    ShortTlv(TAG_OID, [43] + rest);
    assert [6, 6] + ([43] + rest) == [0x06, 0x06, 0x2b, 0x06, 0x01, 0x05, 0x05, 0x02];
  }

  /** The identifier of the Kerberos 5 mechanism in octets. */
  lemma Krb5Octets()
    ensures EncodeOid(KRB5) == Ok([0x06, 0x09, 0x2a, 0x86, 0x48, 0x86, 0xf7, 0x12, 0x01, 0x02, 0x02])
  {
    hide EncodeArcs, EncodeTlv, Base128;
    SmallArcs(KRB5[4..]);
    KnownDigits();
    OneDigit(42);
    EncodeArcsStep(KRB5[2..]);
    EncodeArcsStep(KRB5[3..]);
    var rest: seq<byte> := [1, 2, 2];
    assert KRB5[4..] == [1, 2, 2] && EncodeArcs(KRB5[4..]) == rest;
    assert KRB5[2..][1..] == KRB5[3..] && KRB5[3..][1..] == KRB5[4..];
    var value := [42] + ([0x86, 0x48] + ([0x86, 0xf7, 0x12] + rest));
    assert Leading(KRB5) == 42 && EncodeOidValue(KRB5) == Ok(value);
    assert value == [0x2a, 0x86, 0x48, 0x86, 0xf7, 0x12, 0x01, 0x02, 0x02];
    ShortTlv(TAG_OID, value);
    assert EncodeOid(KRB5) == Ok([TAG_OID, 9] + value);
    assert [TAG_OID, 9] + value == [0x06, 0x09, 0x2a, 0x86, 0x48, 0x86, 0xf7, 0x12, 0x01, 0x02, 0x02];
  }

  lemma OneDigit(v: byte)
    requires v < 0x80
    ensures Base128(v) == [v]
  {
  }

  lemma KnownDigits()
    ensures Base128(840) == [0x86, 0x48] && Base128(113554) == [0x86, 0xf7, 0x12]
  {
    assert HighDigits(6) == HighDigits(0) + [0x86];
    assert HighDigits(887) == HighDigits(6) + [0xf7];
  }

  lemma EncodeArcsStep(arcs: seq<u32>)
    requires arcs != []
    ensures EncodeArcs(arcs) == Base128(arcs[0]) + EncodeArcs(arcs[1..])
  {
  }

  lemma {:induction false} SmallArcs(arcs: seq<u32>)
    requires forall i :: 0 <= i < |arcs| ==> arcs[i] < 0x80
    ensures |EncodeArcs(arcs)| == |arcs| && forall i :: 0 <= i < |arcs| ==> EncodeArcs(arcs)[i] == arcs[i]
  {
    if arcs != [] {
      SmallArcs(arcs[1..]);
      OneDigit(arcs[0]);
    }
  }

  lemma ArcFitsMod(acc: u32, b: byte, q: nat)
    ensures (q * U32 + acc) * 0x80 + b % 0x80 == (q * 0x80 + acc / 0x200_0000) * U32 + ArcFits(acc, b)
  {
    assert acc * 0x80 == U32 * (acc / 0x200_0000) + acc % 0x200_0000 * 0x80;
    DivUnique(acc * 0x80, U32, acc / 0x200_0000, acc % 0x200_0000 * 0x80);
  }

  /** Each shift drops the bits that leave the word, so an arc is read modulo 2^32. */
  lemma {:induction false} DecodeArcWraps(s: seq<byte>, acc: u32, q: nat) returns (q': nat)
    requires DecodeArc(s, acc).Ok?
    ensures ArcNumber(s, q * U32 + acc) == q' * U32 + DecodeArc(s, acc).value.0
    decreases |s|
  {
    hide ArcFits;
    ArcFitsMod(acc, s[0], q);
    q' := q * 0x80 + acc / 0x200_0000;
    if s[0] >= 0x80 { q' := DecodeArcWraps(s[1..], ArcFits(acc, s[0]), q'); }
  }

  /** The twin of `DecodeU32Exact`: an accepted arc is its number modulo 2^32, so it keeps its number exactly
      when that is below 2^32; `checked_shl(7)` refuses nothing. */
  lemma DecodeArcExact(s: seq<byte>)
    requires DecodeArc(s, 0).Ok?
    ensures var arc := DecodeArc(s, 0).value.0;
            arc == ArcNumber(s, 0) % U32 && (arc == ArcNumber(s, 0) <==> ArcNumber(s, 0) < U32)
  {
    hide DecodeArc, ArcNumber;
    var q := DecodeArcWraps(s, 0, 0);
    DivUnique(ArcNumber(s, 0), U32, q, DecodeArc(s, 0).value.0);
  }

  lemma ArcContinues(b: byte, rest: seq<byte>, acc: u32, n: nat)
    requires b >= 0x80
    ensures DecodeArc([b] + rest, acc) == DecodeArc(rest, ArcFits(acc, b))
    ensures ArcNumber([b] + rest, n) == ArcNumber(rest, n * 0x80 + b % 0x80)
  {
    assert ([b] + rest)[1..] == rest;
  }

  lemma LastArc(b: byte, acc: u32, n: nat)
    requires b < 0x80
    ensures DecodeArc([b], acc) == Ok((ArcFits(acc, b), [])) && ArcNumber([b], n) == n * 0x80 + b
  {
  }

  /** Five octets for 2^32 + 5. */
  function AliasOfFive(): seq<byte>
  {
    [0x90] + ([0x80] + ([0x80] + ([0x80] + [0x05])))
  }

  lemma AliasRead()
    ensures DecodeArc(AliasOfFive(), 0) == Ok((5, [])) && ArcNumber(AliasOfFive(), 0) == U32 + 5
  {
    hide DecodeArc, ArcNumber;
    ArcContinues(0x90, [0x80] + ([0x80] + ([0x80] + [0x05])), 0, 0);
    ArcContinues(0x80, [0x80] + ([0x80] + [0x05]), 0x10, 0x10);
    ArcContinues(0x80, [0x80] + [0x05], 0x800, 0x800);
    ArcContinues(0x80, [0x05], 0x4_0000, 0x4_0000);
    LastArc(0x05, 0x200_0000, 0x200_0000);
  }

  lemma OneArc(first: byte, s: seq<byte>, arc: u32)
    requires DecodeArc(s, 0) == Ok((arc, [])) && ValidArcs([first / 40, first % 40, arc])
    ensures DecodeOidValue([first] + s) == Ok([first / 40, first % 40, arc])
  {
    hide DecodeArc, ValidArcs;
    assert ([first] + s)[1..] == s;
    var none: seq<u32> := [];
    assert DecodeArcs([]) == Ok(none) && [arc] + none == [arc];
    assert DecodeArcs(s) == Ok([arc]);
    assert [first / 40, first % 40] + [arc] == [first / 40, first % 40, arc];
  }

  /** So identifiers have other encodings: 1.2.5 is also read from an arc of 2^32 + 5. */
  lemma OidHasAlias()
    ensures DecodeOidValue([0x2a] + AliasOfFive()) == Ok([1, 2, 5]) && DecodeOidValue([0x2a] + [0x05]) == Ok([1, 2, 5])
    ensures ArcNumber(AliasOfFive(), 0) == U32 + 5 && ArcNumber([0x05], 0) == 5
  {
    hide DecodeArc, DecodeOidValue, ArcNumber;
    AliasRead();
    LastArc(0x05, 0, 0);
    OneArc(0x2a, AliasOfFive(), 5);
    OneArc(0x2a, [0x05], 5);
  }

  /** `encode_oid`. */
  method WriteOid(arcs: Oid) returns (r: Result<seq<byte>, Error>)
    requires EncodeOid(arcs).Ok? ==> |EncodeOid(arcs).value| < USIZE
    ensures r == EncodeOid(arcs)
  {
    if !ValidArcs(arcs) || Leading(arcs) >= 0x1_0000_0000 { return Err(InvalidOid); }
    var value := WriteBase128(Leading(arcs), []);
    assert value == Base128(Leading(arcs));
    value := WriteArcs(arcs[2..], value);
    var out := WriteTlv(TAG_OID, value);
    return Ok(out);
  }

  /** The loop over the arcs after the first two. */
  method WriteArcs(arcs: seq<u32>, out: seq<byte>) returns (value: seq<byte>)
    ensures value == out + EncodeArcs(arcs)
  {
    value := out;
    for i := 0 to |arcs|
      invariant value + EncodeArcs(arcs[i..]) == out + EncodeArcs(arcs)
    {
      ghost var before := value;
      value := WriteBase128(arcs[i], value);
      assert arcs[i..][1..] == arcs[i + 1..];
      assert before + (Base128(arcs[i]) + EncodeArcs(arcs[i + 1..])) == value + EncodeArcs(arcs[i + 1..]);
    }
    assert arcs[|arcs|..] == [];
  }

  /** `decode_oid_tlv`. */
  method ReadOid(tlv: Tlv) returns (r: Result<Oid, Error>)
    ensures r == DecodeOid(tlv)
  {
    if tlv.tag != TAG_OID { return Err(UnexpectedTag(TAG_OID, tlv.tag)); }
    var value := tlv.value;
    if value == [] { return Err(InvalidOidEncoding); }
    var arcs: seq<u32> := [value[0] / 40, value[0] % 40];
    var more :- ReadArcs(value);
    arcs := arcs + more;
    return if ValidArcs(arcs) then Ok(arcs) else Err(InvalidOid);
  }

  /** The outer loop of `decode_oid_value`. */
  method ReadArcs(value: seq<byte>) returns (r: Result<seq<u32>, Error>)
    requires value != []
    ensures r == DecodeArcs(value[1..])
  {
    var arcs: seq<u32> := [];
    var idx := 1;
    PrependNone(DecodeArcs(value[1..]));
    while idx < |value|
      invariant 1 <= idx <= |value|
      invariant DecodeArcs(value[1..]) == Prepend(arcs, DecodeArcs(value[idx..]))
    {
      var read := ReadArc(value, idx);
      if read.Err? { return Err(read.error); }
      PrependOne(arcs, read.value.0, DecodeArcs(value[read.value.1..]));
      arcs := arcs + [read.value.0];
      idx := read.value.1;
    }
    assert value[idx..] == [] && arcs + [] == arcs;
    return Ok(arcs);
  }

  /** Arcs already read in front of the rest of the reading. */
  function Prepend(arcs: seq<u32>, r: Result<seq<u32>, Error>): Result<seq<u32>, Error>
  {
    match r
    case Err(e) => Err(e)
    case Ok(more) => Ok(arcs + more)
  }

  lemma PrependNone(r: Result<seq<u32>, Error>)
    ensures Prepend([], r) == r
  {
    if r.Ok? { assert [] + r.value == r.value; }
  }

  lemma PrependOne(arcs: seq<u32>, arc: u32, r: Result<seq<u32>, Error>)
    ensures Prepend(arcs, Prepend([arc], r)) == Prepend(arcs + [arc], r)
  {
    if r.Ok? { assert arcs + ([arc] + r.value) == (arcs + [arc]) + r.value; }
  }

  /** The inner loop of `decode_oid_value`. */
  method ReadArc(value: seq<byte>, start: nat) returns (r: Result<(u32, nat), Error>)
    requires start < |value|
    ensures match DecodeArc(value[start..], 0)
            case Err(e) => r == Err(e)
            case Ok((arc, rest)) =>
              r.Ok? && r.value.0 == arc && start < r.value.1 <= |value| && value[r.value.1..] == rest
  {
    var arc: u32 := 0;
    var idx := start;
    while true
      invariant start <= idx <= |value|
      invariant DecodeArc(value[start..], 0) == DecodeArc(value[idx..], arc)
      decreases |value| - idx
    {
      if idx >= |value| { return Err(InvalidOidEncoding); }
      var b := value[idx];
      assert value[idx..][1..] == value[idx + 1..];
      idx := idx + 1;
      arc := ArcFits(arc, b);
      if b < 0x80 { break; }
    }
    return Ok((arc, idx));
  }
}
