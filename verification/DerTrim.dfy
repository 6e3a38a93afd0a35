/** Cutting DES3's zero padding off a decrypted DER message (src/der.rs). */
module DerTrim {
  import opened Bytes
  import opened CryptoError
  import opened Derive
  import opened Seal
  import Der

  // ------------------------------------------------------------------
  // One definite-length element (section 8.1 of X.690), lengths of up to eight octets

  /** Identifier octets: one, or a high-tag form whose last octet is the first below 0x80. */
  predicate IsTag(t: seq<byte>)
  {
    && t != []
    && if t[0] % 32 != 31 then |t| == 1
       else |t| >= 2 && t[|t| - 1] < 0x80 && forall i :: 1 <= i < |t| - 1 ==> t[i] >= 0x80
  }

  /** Length octets for `n`, not necessarily the shortest. */
  predicate IsLength(l: seq<byte>, n: nat)
  {
    && l != []
    && if l[0] < 0x80 then |l| == 1 && n == l[0]
       else 1 <= l[0] - 0x80 <= 8 && |l| == 1 + (l[0] - 0x80) && n == BeVal(l[1..])
  }

  predicate IsParts(t: seq<byte>, l: seq<byte>, content: seq<byte>, m: seq<byte>)
  {
    IsTag(t) && IsLength(l, |content|) && m == t + (l + content)
  }

  ghost predicate IsTlv(m: seq<byte>)
  {
    exists t, l, content :: IsParts(t, l, content, m)
  }

  /** The reader of tokens accepts exactly these lengths, in front of anything. */
  lemma ReadLenExact(s: seq<byte>, n: nat, rest: seq<byte>)
    ensures Der.ReadLen(s) == Ok((n, rest)) <==> exists l :: IsLength(l, n) && s == l + rest
  {
    if Der.ReadLen(s) == Ok((n, rest)) {
      var l := s[..|s| - |rest|];
      assert s == l + rest;
      if s[0] >= 0x80 { assert l[1..] == s[1..1 + (s[0] - 0x80)]; }
      assert IsLength(l, n);
    }
    forall l | IsLength(l, n) && s == l + rest ensures Der.ReadLen(s) == Ok((n, rest)) {
      assert s[0] == l[0] && s[1..|l|] == l[1..] && s[|l|..] == rest;
    }
  }

  /** And exactly these elements, with a one-octet tag. */
  lemma ReadTlvExact(s: seq<byte>, tag: byte, content: seq<byte>, rest: seq<byte>)
    ensures Der.ReadTlv(s) == Ok((Der.Tlv(tag, content), rest))
       <==> tag % 32 != 31 && exists l :: IsLength(l, |content|) && s == [tag] + (l + (content + rest))
  {
    hide IsLength, Der.ReadLen;
    if Der.ReadTlv(s) == Ok((Der.Tlv(tag, content), rest)) {
      var body := Der.ReadLen(s[1..]).value.1;
      assert body == content + rest;
      ReadLenExact(s[1..], |content|, body);
      var l :| IsLength(l, |content|) && s[1..] == l + body;
      assert s == [tag] + s[1..];
    }
    if tag % 32 != 31 {
      forall l | IsLength(l, |content|) && s == [tag] + (l + (content + rest))
        ensures Der.ReadTlv(s) == Ok((Der.Tlv(tag, content), rest))
      {
        assert s[1..] == l + (content + rest);
        ReadLenExact(s[1..], |content|, content + rest);
        assert (content + rest)[..|content|] == content && (content + rest)[|content|..] == rest;
      }
    }
  }

  /** What is written is such an element. */
  lemma WrittenIsTlv(tag: byte, content: seq<byte>)
    requires tag % 32 != 31 && |content| < Der.USIZE
    ensures exists l :: IsLength(l, |content|) && Der.EncodeTlv(tag, content) == [tag] + (l + content)
  {
    Der.EncodeLenIs(|content|);
    var l := Der.EncodeLen(|content|);
    assert IsLength(l, |content|) && Der.EncodeTlv(tag, content) == [tag] + (l + content);
  }

  // ------------------------------------------------------------------
  // Where the first element ends

  /** The end of the octets at or above 0x80 from `i`, and of the one after them. */
  function HighEnd(s: seq<byte>, i: nat): (k: Option<nat>)
    ensures k.Some? ==> i < k.value <= |s|
    ensures k.Some? ==> s[k.value - 1] < 0x80 && forall j :: i <= j < k.value - 1 ==> s[j] >= 0x80
    ensures k.None? ==> forall j :: i <= j < |s| ==> s[j] >= 0x80
    decreases |s| - i
  {
    if i >= |s| then None else if s[i] < 0x80 then Some(i + 1) else HighEnd(s, i + 1)
  }

  function TagEnd(s: seq<byte>): (k: Option<nat>)
    ensures k.Some? ==> 0 < k.value <= |s|
  {
    if s == [] then None else if s[0] % 32 != 31 then Some(1) else HighEnd(s, 1)
  }

  /** The length announced at `offset`, and where the content starts. */
  function LengthAt(s: seq<byte>, offset: nat): (r: Option<(nat, nat)>)
    ensures r.Some? ==> offset < r.value.1 <= |s|
  {
    if offset >= |s| then None
    else if s[offset] < 0x80 then Some((s[offset], offset + 1))
    else
      var count := s[offset] - 0x80;
      if count == 0 || count > 8 || offset + 1 + count > |s| then None
      else Some((BeVal(s[offset + 1..offset + 1 + count]), offset + 1 + count))
  }

  /** `top_level_der_end`. */
  function EndOf(s: seq<byte>): (k: Option<nat>)
    ensures k.Some? ==> 0 < k.value <= |s|
  {
    match TagEnd(s)
    case None => None
    case Some(t) =>
      match LengthAt(s, t)
      case None => None
      case Some((n, start)) => if start + n <= |s| then Some(start + n) else None
  }

  /** `trim_zero_padded_der`. */
  function Trim(s: seq<byte>): seq<byte>
  {
    match EndOf(s)
    case None => s
    case Some(end) => if AllZero(s[end..]) then s[..end] else s
  }

  predicate AllZero(s: seq<byte>)
  {
    forall i :: 0 <= i < |s| ==> s[i] == 0
  }

  lemma TagEndOfTag(t: seq<byte>, rest: seq<byte>)
    requires IsTag(t)
    ensures TagEnd(t + rest) == Some(|t|)
  {
    if t[0] % 32 == 31 {
      var s := t + rest;
      assert s[|t| - 1] < 0x80;
      assert forall i :: 1 <= i < |t| - 1 ==> s[i] == t[i];
    }
  }

  lemma LengthAtLength(t: seq<byte>, l: seq<byte>, n: nat, rest: seq<byte>)
    requires IsLength(l, n)
    ensures LengthAt(t + (l + rest), |t|) == Some((n, |t| + |l|))
  {
    var s := t + (l + rest);
    assert s[|t|] == l[0];
    if l[0] >= 0x80 { assert s[|t| + 1..|t| + |l|] == l[1..]; }
  }

  /** An element is found whatever follows it. */
  lemma EndOfTlv(m: seq<byte>, rest: seq<byte>)
    requires IsTlv(m)
    ensures EndOf(m + rest) == Some(|m|)
  {
    hide IsTag, IsLength, TagEnd, LengthAt;
    var t, l, content :| IsParts(t, l, content, m);
    assert m + rest == t + ((l + content) + rest) && (l + content) + rest == l + (content + rest);
    TagEndOfTag(t, l + (content + rest));
    LengthAtLength(t, l, |content|, content + rest);
  }

  lemma TagEndIsTag(s: seq<byte>)
    requires TagEnd(s).Some?
    ensures IsTag(s[..TagEnd(s).value])
  {
    var k := TagEnd(s).value;
    assert forall i :: 0 <= i < k ==> s[..k][i] == s[i];
  }

  lemma LengthAtIsLength(s: seq<byte>, offset: nat)
    requires LengthAt(s, offset).Some?
    ensures var (n, start) := LengthAt(s, offset).value; IsLength(s[offset..start], n)
  {
    var start := LengthAt(s, offset).value.1;
    assert s[offset..start][0] == s[offset] && s[offset..start][1..] == s[offset + 1..start];
  }

  /** What is found is an element. */
  lemma EndIsTlv(s: seq<byte>)
    requires EndOf(s).Some?
    ensures IsTlv(s[..EndOf(s).value])
  {
    hide TagEnd, LengthAt, IsTag, IsLength;
    var k := TagEnd(s).value;
    var (n, start) := LengthAt(s, k).value;
    var t, l, content := s[..k], s[k..start], s[start..start + n];
    TagEndIsTag(s);
    LengthAtIsLength(s, k);
    assert EndOf(s) == Some(start + n) && |content| == n;
    assert IsTag(t) && IsLength(l, |content|);
    assert s[..start + n] == t + (l + content);
    assert IsParts(t, l, content, s[..EndOf(s).value]);
  }

  /** The end is exactly where a whole element ends; there is at most one such place. */
  lemma EndOfIsExact(s: seq<byte>, k: nat)
    requires k <= |s|
    ensures EndOf(s) == Some(k) <==> IsTlv(s[..k])
  {
    if IsTlv(s[..k]) {
      EndOfTlv(s[..k], s[k..]);
      assert s[..k] + s[k..] == s;
    }
    if EndOf(s) == Some(k) { EndIsTlv(s); }
  }

  // ------------------------------------------------------------------
  // Trimming

  /** Zeros after one element are cut off, however many. */
  lemma TrimPadded(m: seq<byte>, n: nat)
    requires IsTlv(m)
    ensures Trim(m + Zeros(n)) == m
  {
    EndOfTlv(m, Zeros(n));
    assert (m + Zeros(n))[|m|..] == Zeros(n) && (m + Zeros(n))[..|m|] == m;
  }

  /** What trimming returns, for every input: the element in front of zeros, or the input itself. */
  lemma TrimIsExact(s: seq<byte>, m: seq<byte>)
    ensures Trim(s) == m <==>
      (if exists k: nat :: ElementThenZeros(s, k) then exists k: nat :: ElementThenZeros(s, k) && m == s[..k]
       else m == s)
  {
    if EndOf(s).Some? { EndOfIsExact(s, EndOf(s).value); }
    forall k: nat | ElementThenZeros(s, k) ensures EndOf(s) == Some(k) { EndOfIsExact(s, k); }
    if EndOf(s).Some? && AllZero(s[EndOf(s).value..]) { assert ElementThenZeros(s, EndOf(s).value); }
  }

  ghost predicate ElementThenZeros(s: seq<byte>, k: nat)
  {
    k <= |s| && IsTlv(s[..k]) && AllZero(s[k..])
  }

  /** Trimming twice is trimming once, for every input. */
  lemma TrimIdempotent(s: seq<byte>)
    ensures Trim(Trim(s)) == Trim(s)
  {
    if EndOf(s).Some? {
      var m := s[..EndOf(s).value];
      EndIsTlv(s);
      TrimPadded(m, 0);
      assert m + Zeros(0) == m;
    }
  }

  /** A DER message sealed under any etype, DES3 included, comes back byte for byte. */
  lemma SealedMessageRecovered(p: Primitives, e: Etype, key: seq<byte>, m: seq<byte>, usage: nat, conf: seq<byte>)
    requires Sound(p) && |key| == KeyLen(e) && |conf| == ConfounderLen(e) && IsTlv(m)
    ensures var plain := Opened(p, e, key, Sealed(p, e, key, m, usage, conf), usage);
            plain.Ok? && Trim(plain.value) == m
  {
    hide IsTlv, Trim, Opened, Sealed;
    OpenUndoesSeal(p, e, key, m, usage, conf);
    var r := Returned(e, m);
    assert r == m + Zeros(|r| - |m|);
    TrimPadded(m, |r| - |m|);
  }

  // ------------------------------------------------------------------
  // The loops

  /** The loop of `top_level_der_end` over the length octets. */
  method LengthOf(lengthBytes: seq<byte>) returns (length: nat)
    ensures length == BeVal(lengthBytes)
  {
    length := 0;
    for i := 0 to |lengthBytes|
      invariant length == BeVal(lengthBytes[..i])
    {
      assert lengthBytes[..i + 1][..i] == lengthBytes[..i];
      length := length * 256 + lengthBytes[i];
    }
    assert lengthBytes[..|lengthBytes|] == lengthBytes;
  }

  method TopLevelDerEnd(bytes: seq<byte>) returns (end: Option<nat>)
    ensures end == EndOf(bytes)
  {
    if bytes == [] { return None; }
    var offset := 1;
    if bytes[0] % 32 == 31 {
      while true
        invariant 1 <= offset <= |bytes|
        invariant HighEnd(bytes, offset) == HighEnd(bytes, 1)
        decreases |bytes| - offset
      {
        if offset >= |bytes| { return None; }
        var octet := bytes[offset];
        offset := offset + 1;
        if octet < 0x80 { break; }
      }
    }
    if offset >= |bytes| { return None; }
    var firstLength := bytes[offset];
    ghost var at := offset;
    offset := offset + 1;
    var length: nat := firstLength;
    if firstLength >= 0x80 {
      var count := firstLength - 0x80;
      if count == 0 || count > 8 { return None; }
      if offset + count > |bytes| { return None; }
      var lengthBytes := bytes[offset..offset + count];
      offset := offset + count;
      length := LengthOf(lengthBytes);
    }
    return if offset + length <= |bytes| then Some(offset + length) else None;
  }

  lemma ZeroFrom(s: seq<byte>, k: nat)
    requires k <= |s|
    ensures AllZero(s[k..]) <==> forall j :: k <= j < |s| ==> s[j] == 0
  {
    assert forall j :: k <= j < |s| ==> s[j] == s[k..][j - k];
  }

  method TrimZeroPaddedDer(bytes: seq<byte>) returns (r: seq<byte>)
    ensures r == Trim(bytes)
  {
    var end := TopLevelDerEnd(bytes);
    if end.None? { return bytes; }
    var zero := true;
    for i := end.value to |bytes|
      invariant zero <==> forall j :: end.value <= j < i ==> bytes[j] == 0
    {
      if bytes[i] != 0 { zero := false; }
    }
    ZeroFrom(bytes, end.value);
    return if zero then bytes[..end.value] else bytes;
  }
}
