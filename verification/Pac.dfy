/** The PAC buffer table and the zeroing of its signatures (src/pac.rs; section 2.8 of [MS-PAC]). */
module Pac {
  import opened Bytes

  datatype Error =
    | TooShort(minimum: nat, actual: nat)
    | Truncated
    | BufferOffsetNotAligned(kind: nat, offset: nat)
    | BufferOutOfBounds(kind: nat, offset: nat, len: nat, total: nat)
    | UnsupportedChecksumType(kind: nat)
    | InvalidInfo

  const SERVER := 6
  const KDC := 7

  datatype InfoBuffer = InfoBuffer(kind: nat, size: nat, offset: nat)

  datatype SignatureData = SignatureData(
    kind: nat,
    signature: seq<byte>,
    rodcIdentifier: Option<nat>,
    zeroedData: seq<byte>)

  /** `GetInt` of a little-endian field. */
  function Field(s: seq<byte>, at: nat, k: nat): nat
    requires at + k <= |s|
  {
    GetInt(s[at..at + k], Little)
  }

  // ------------------------------------------------------------------
  // The table

  function InfoBufferAt(s: seq<byte>, i: nat): InfoBuffer
    requires 8 + 16 * (i + 1) <= |s|
  {
    InfoBuffer(Field(s, 8 + 16 * i, 4), Field(s, 12 + 16 * i, 4), Field(s, 16 + 16 * i, 8))
  }

  /** `InfoBuffer::validate`. */
  function Validated(b: InfoBuffer, total: nat): Option<Error>
  {
    if b.offset % 8 != 0 then Some(BufferOffsetNotAligned(b.kind, b.offset))
    else if b.offset + b.size > total then Some(BufferOutOfBounds(b.kind, b.offset, b.size, total))
    else None
  }

  /** Four bytes, the lowest first. */
  function Le32(s: seq<byte>, at: nat): nat
    requires at + 4 <= |s|
  {
    s[at] as nat + 0x100 * s[at + 1] as nat + 0x1_0000 * s[at + 2] as nat + 0x100_0000 * s[at + 3] as nat
  }

  lemma FieldIs(s: seq<byte>, at: nat)
    requires at + 4 <= |s|
    ensures Field(s, at, 4) == Le32(s, at)
    ensures at + 8 <= |s| ==> Field(s, at, 8) == Le32(s, at) + U32 * Le32(s, at + 4)
  {
    GetFour(s[at..at + 4]);
    if at + 8 <= |s| {
      GetEight(s[at..at + 8]);
      GetFour(s[at + 4..at + 8]);
      assert s[at..at + 8][..4] == s[at..at + 4] && s[at..at + 8][4..] == s[at + 4..at + 8];
    }
  }

  /** A table entry byte by byte: type, size, and an offset of eight bytes. */
  lemma InfoBufferIs(s: seq<byte>, i: nat)
    requires 8 + 16 * (i + 1) <= |s|
    ensures var at := 8 + 16 * i;
            InfoBufferAt(s, i)
            == InfoBuffer(Le32(s, at), Le32(s, at + 4), Le32(s, at + 8) + U32 * Le32(s, at + 12))
  {
    hide Field, Le32;
    var at := 8 + 16 * i;
    FieldIs(s, at);
    FieldIs(s, at + 4);
    FieldIs(s, at + 8);
  }

  // ------------------------------------------------------------------
  // Signatures

  /** `checksum_signature_len`. */
  function SignatureLength(kind: nat): Option<nat>
  {
    if kind == 0xffff_ff76 then Some(16)
    else if kind == 15 || kind == 16 then Some(12)
    else if kind == 19 then Some(16)
    else if kind == 20 then Some(24)
    else None
  }

  /** The bytes with those from 4 up to 4 + n zero. */
  function WithZeros(s: seq<byte>, n: nat): (r: seq<byte>)
    requires 4 + n <= |s|
    ensures |r| == |s| && forall i :: 0 <= i < |s| ==> r[i] == if 4 <= i < 4 + n then 0 else s[i]
  {
    seq(|s|, i requires 0 <= i < |s| => if 4 <= i < 4 + n then 0 else s[i])
  }

  /** `SignatureData::parse`. */
  function ParseSignature(s: seq<byte>): (r: Result<SignatureData, Error>)
    ensures r.Ok? ==> |s| >= 4 && SignatureLength(Field(s, 0, 4)).Some?
    ensures r.Ok? ==> 4 + SignatureLength(Field(s, 0, 4)).value <= |s|
    ensures r.Ok? ==> r.value.zeroedData == WithZeros(s, SignatureLength(Field(s, 0, 4)).value)
  {
    if |s| < 4 then Err(Truncated)
    else
      var kind := Field(s, 0, 4);
      match SignatureLength(kind)
      case None => Err(UnsupportedChecksumType(kind))
      case Some(n) =>
        if |s| < 4 + n then Err(Truncated)
        else Ok(SignatureData(kind, s[4..4 + n],
                              if |s| >= 6 + n then Some(Field(s, 4 + n, 2)) else None, WithZeros(s, n)))
  }

  /** The five checksum types and the lengths of their signatures. */
  lemma SignatureTable(kind: nat, n: nat)
    ensures SignatureLength(kind) == Some(n) <==>
      || (n == 12 && kind in {15, 16})
      || (n == 16 && kind in {19, 0xffff_ff76})
      || (n == 24 && kind == 20)
  {
  }

  /** A signature buffer byte by byte: its type, the signature, and an identifier if two more bytes follow. */
  lemma SignatureIs(s: seq<byte>)
    ensures |s| < 4 ==> ParseSignature(s) == Err(Truncated)
    ensures |s| >= 4 ==>
      var kind := Le32(s, 0);
      match SignatureLength(kind)
      case None => ParseSignature(s) == Err(UnsupportedChecksumType(kind))
      case Some(n) =>
        if |s| < 4 + n then ParseSignature(s) == Err(Truncated)
        else
          && ParseSignature(s).Ok?
          && var d := ParseSignature(s).value;
             && d.kind == kind && d.signature == s[4..4 + n]
             && d.rodcIdentifier == (if |s| < 6 + n then None else Some(s[4 + n] as int + 256 * s[5 + n] as int))
             && d.zeroedData == s[..4] + Zeros(n) + s[4 + n..]
  {
    hide SignatureLength;
    if |s| >= 4 {
      FieldIs(s, 0);
      var length := SignatureLength(Le32(s, 0));
      if length.Some? && |s| >= 6 + length.value { GetTwo(s[4 + length.value..6 + length.value]); }
    }
  }

  // ------------------------------------------------------------------
  // Processing

  /** The parsed fields; those other than the two checksums are kept in one map by buffer type, each as
      the bytes it was parsed from. */
  datatype Progress = Progress(
    zero: seq<byte>,
    server: Option<SignatureData>,
    kdc: Option<SignatureData>,
    info: map<nat, seq<byte>>)

  /** The other buffer types that are parsed. */
  predicate IsInfo(kind: nat)
  {
    kind == 1 || kind == 2 || kind == 10 || kind == 11 || kind == 12 || kind == 13 || kind == 14 || kind == 15
  }

  /** Which contents the parsers of the other types accept. */
  type InfoParser = (nat, seq<byte>) -> bool

  predicate Fits(b: InfoBuffer, total: nat)
  {
    b.offset + b.size <= total
  }

  /** `copy_zeroed_signature`. */
  function Overwritten(zero: seq<byte>, b: InfoBuffer, bytes: seq<byte>): (r: seq<byte>)
    requires Fits(b, |zero|) && |bytes| == b.size
    ensures |r| == |zero|
    ensures forall i :: 0 <= i < |zero| ==> r[i] == if Inside(b, i) then bytes[i - b.offset] else zero[i]
  {
    zero[..b.offset] + bytes + zero[b.offset + b.size..]
  }

  predicate Inside(b: InfoBuffer, i: int)
  {
    b.offset <= i < b.offset + b.size
  }

  /** A signature buffer: its parse, and the zeroed copy it leaves. */
  function SignStep(data: seq<byte>, b: InfoBuffer, zero: seq<byte>): Result<(SignatureData, seq<byte>), Error>
    requires Fits(b, |data|)
  {
    match ParseSignature(data[b.offset..b.offset + b.size])
    case Err(e) => Err(e)
    case Ok(s) =>
      if !Fits(b, |zero|) then Err(BufferOutOfBounds(b.kind, b.offset, b.size, |zero|))
      else Ok((s, Overwritten(zero, b, s.zeroedData)))
  }

  /** One pass of the loop of `process_buffers`. */
  function Step(data: seq<byte>, info: InfoParser, b: InfoBuffer, p: Progress): Result<Progress, Error>
  {
    match Validated(b, |data|)
    case Some(e) => Err(e)
    case None =>
      var bytes := data[b.offset..b.offset + b.size];
      if b.kind == SERVER && p.server.None? then
        match SignStep(data, b, p.zero)
        case Err(e) => Err(e)
        case Ok((s, zero)) => Ok(p.(server := Some(s), zero := zero))
      else if b.kind == KDC && p.kdc.None? then
        match SignStep(data, b, p.zero)
        case Err(e) => Err(e)
        case Ok((s, zero)) => Ok(p.(kdc := Some(s), zero := zero))
      else if IsInfo(b.kind) && b.kind !in p.info then
        if info(b.kind, bytes) then Ok(p.(info := p.info[b.kind := bytes])) else Err(InvalidInfo)
      else Ok(p)
  }

  /** The whole loop: how far it got, and what stopped it. */
  function Steps(data: seq<byte>, info: InfoParser, bufs: seq<InfoBuffer>, p: Progress): (Progress, Option<Error>)
    decreases |bufs|
  {
    if bufs == [] then (p, None)
    else match Step(data, info, bufs[0], p)
      case Err(e) => (p, Some(e))
      case Ok(q) => Steps(data, info, bufs[1..], q)
  }

  // ------------------------------------------------------------------
  // The final bytes

  /** The position of the first buffer of a type, or the length. */
  function First(bufs: seq<InfoBuffer>, kind: nat): (i: nat)
    ensures i <= |bufs|
    ensures i < |bufs| ==> bufs[i].kind == kind
    ensures forall j :: 0 <= j < i ==> bufs[j].kind != kind
  {
    if bufs == [] || bufs[0].kind == kind then 0 else 1 + First(bufs[1..], kind)
  }

  /** A buffer that holds a signature in `data`. */
  predicate Signed(data: seq<byte>, b: InfoBuffer)
  {
    Fits(b, |data|) && ParseSignature(data[b.offset..b.offset + b.size]).Ok?
  }

  /** Position `i` is a signature byte of `b`: behind the four type bytes, before the RODC identifier. */
  predicate InSignature(data: seq<byte>, b: InfoBuffer, i: int)
    requires Signed(data, b)
  {
    b.offset + 4 <= i < b.offset + 4 + SignatureLength(Field(data[b.offset..b.offset + b.size], 0, 4)).value
  }

  /** What `b` leaves of `zero`: its own bytes of `data`, without the signature. */
  function Rewritten(data: seq<byte>, b: InfoBuffer, zero: seq<byte>): (r: seq<byte>)
    requires Signed(data, b) && |zero| == |data|
    ensures |r| == |data|
    ensures forall i :: 0 <= i < |data| ==>
              r[i] == if InSignature(data, b, i) then 0 else if Inside(b, i) then data[i] else zero[i]
  {
    Overwritten(zero, b, ParseSignature(data[b.offset..b.offset + b.size]).value.zeroedData)
  }

  predicate BothSigned(data: seq<byte>, bufs: seq<InfoBuffer>, s: nat, k: nat)
  {
    (s < |bufs| ==> Signed(data, bufs[s])) && (k < |bufs| ==> Signed(data, bufs[k]))
  }

  /** The pending signature buffers applied in table order. */
  function Applied(data: seq<byte>, bufs: seq<InfoBuffer>, s: nat, k: nat, zero: seq<byte>): seq<byte>
    requires |zero| == |data| && BothSigned(data, bufs, s, k)
  {
    var one := if s < |bufs| && s < k then Rewritten(data, bufs[s], zero) else zero;
    var two := if k < |bufs| then Rewritten(data, bufs[k], one) else one;
    if s < |bufs| && k <= s then Rewritten(data, bufs[s], two) else two
  }

  /** Where the first server (or KDC) buffer still to be processed is. */
  function Pending(bufs: seq<InfoBuffer>, kind: nat, done: bool): nat
  {
    if done then |bufs| else First(bufs, kind)
  }

  lemma StepZero(data: seq<byte>, info: InfoParser, b: InfoBuffer, p: Progress)
    requires Step(data, info, b, p).Ok? && |p.zero| == |data|
    ensures var q := Step(data, info, b, p).value;
            if b.kind == SERVER && p.server.None? then
              Signed(data, b) && q.zero == Rewritten(data, b, p.zero) && q.server.Some? && q.kdc == p.kdc
            else if b.kind == KDC && p.kdc.None? then
              Signed(data, b) && q.zero == Rewritten(data, b, p.zero) && q.kdc.Some? && q.server == p.server
            else q.zero == p.zero && q.server == p.server && q.kdc == p.kdc
  {
    hide ParseSignature, Overwritten;
  }

  lemma AppliedShift(data: seq<byte>, bufs: seq<InfoBuffer>, s: nat, k: nat, zero: seq<byte>)
    requires 0 < s <= |bufs| && 0 < k <= |bufs| && |zero| == |data| && BothSigned(data, bufs[1..], s - 1, k - 1)
    ensures BothSigned(data, bufs, s, k)
    ensures Applied(data, bufs, s, k, zero) == Applied(data, bufs[1..], s - 1, k - 1, zero)
  {
    hide Signed, Rewritten;
  }

  lemma AppliedHeadServer(data: seq<byte>, bufs: seq<InfoBuffer>, k: nat, zero: seq<byte>)
    requires bufs != [] && 0 < k <= |bufs| && |zero| == |data| && Signed(data, bufs[0])
    requires BothSigned(data, bufs[1..], |bufs| - 1, k - 1)
    ensures BothSigned(data, bufs, 0, k)
    ensures Applied(data, bufs, 0, k, zero)
         == Applied(data, bufs[1..], |bufs| - 1, k - 1, Rewritten(data, bufs[0], zero))
  {
    hide Signed, Rewritten;
  }

  lemma AppliedHeadKdc(data: seq<byte>, bufs: seq<InfoBuffer>, s: nat, zero: seq<byte>)
    requires bufs != [] && 0 < s <= |bufs| && |zero| == |data| && Signed(data, bufs[0])
    requires BothSigned(data, bufs[1..], s - 1, |bufs| - 1)
    ensures BothSigned(data, bufs, s, 0)
    ensures Applied(data, bufs, s, 0, zero)
         == Applied(data, bufs[1..], s - 1, |bufs| - 1, Rewritten(data, bufs[0], zero))
  {
    hide Signed, Rewritten;
  }

  lemma PendingRest(bufs: seq<InfoBuffer>, kind: nat, done: bool)
    requires bufs != []
    ensures !done && bufs[0].kind == kind ==> Pending(bufs, kind, done) == 0
    ensures done || bufs[0].kind != kind ==> Pending(bufs, kind, done) == 1 + Pending(bufs[1..], kind, done)
    ensures Pending(bufs[1..], kind, true) == |bufs| - 1
    ensures Pending(bufs[1..], kind, done) <= |bufs| - 1
  {
  }

  lemma {:induction false} StepsApply(data: seq<byte>, info: InfoParser, bufs: seq<InfoBuffer>, p: Progress)
    requires Steps(data, info, bufs, p).1.None? && |p.zero| == |data|
    ensures var s, k := Pending(bufs, SERVER, p.server.Some?), Pending(bufs, KDC, p.kdc.Some?);
            && BothSigned(data, bufs, s, k)
            && Steps(data, info, bufs, p).0.zero == Applied(data, bufs, s, k, p.zero)
    decreases |bufs|
  {
    hide Signed, Rewritten, Applied, BothSigned, Step, Pending;
    if bufs != [] {
      var s, k := Pending(bufs, SERVER, p.server.Some?), Pending(bufs, KDC, p.kdc.Some?);
      var q := Step(data, info, bufs[0], p).value;
      StepZero(data, info, bufs[0], p);
      StepsApply(data, info, bufs[1..], q);
      PendingRest(bufs, SERVER, p.server.Some?);
      PendingRest(bufs, KDC, p.kdc.Some?);
      if s == 0 {
        AppliedHeadServer(data, bufs, k, p.zero);
      } else if k == 0 {
        AppliedHeadKdc(data, bufs, s, p.zero);
      } else {
        AppliedShift(data, bufs, s, k, p.zero);
      }
    } else {
      NoneApplied(data, p.zero);
    }
  }

  lemma NoneApplied(data: seq<byte>, zero: seq<byte>)
    requires |zero| == |data|
    ensures forall kind, done :: Pending([], kind, done) == 0
    ensures BothSigned(data, [], 0, 0) && Applied(data, [], 0, 0, zero) == zero
  {
  }

  /** `i` loses its zero: a signature byte of the earlier buffer that the later one, not having it in its
      own signature, writes back. */
  predicate WrittenBack(data: seq<byte>, earlier: InfoBuffer, later: InfoBuffer, i: nat)
    requires Signed(data, earlier) && Signed(data, later)
  {
    InSignature(data, earlier, i) && Inside(later, i) && !InSignature(data, later, i)
  }

  /** Every byte that is written back was zero to begin with. */
  predicate NothingWrittenBack(data: seq<byte>, bufs: seq<InfoBuffer>, s: nat, k: nat)
    requires BothSigned(data, bufs, s, k)
  {
    s < |bufs| && k < |bufs| && s != k ==>
      var earlier, later := if s < k then bufs[s] else bufs[k], if s < k then bufs[k] else bufs[s];
      forall i :: 0 <= i < |data| && WrittenBack(data, earlier, later, i) ==> data[i] == 0
  }

  /** The bytes the server checksum covers: the original with both signatures zero. */
  predicate Covered(data: seq<byte>, bufs: seq<InfoBuffer>, s: nat, k: nat, zero: seq<byte>)
    requires BothSigned(data, bufs, s, k)
  {
    && |zero| == |data|
    && forall i :: 0 <= i < |data| ==>
         zero[i] == if (s < |bufs| && InSignature(data, bufs[s], i)) || (k < |bufs| && InSignature(data, bufs[k], i))
                    then 0 else data[i]
  }

  lemma AppliedCovers(data: seq<byte>, bufs: seq<InfoBuffer>, s: nat, k: nat)
    requires BothSigned(data, bufs, s, k)
    requires s < |bufs| && k < |bufs| ==> s != k
    ensures Covered(data, bufs, s, k, Applied(data, bufs, s, k, data)) <==> NothingWrittenBack(data, bufs, s, k)
  {
    hide Signed, InSignature, Inside;
    var zero := Applied(data, bufs, s, k, data);
    if s < |bufs| && k < |bufs| {
      var earlier, later := if s < k then bufs[s] else bufs[k], if s < k then bufs[k] else bufs[s];
      forall i | 0 <= i < |data|
        ensures zero[i] == if WrittenBack(data, earlier, later, i) then data[i]
                           else if InSignature(data, earlier, i) || InSignature(data, later, i) then 0 else data[i]
      {
        SignatureInside(data, earlier, i);
        SignatureInside(data, later, i);
        AppliedTwice(data, bufs, s, k, i);
      }
    }
  }

  lemma SignatureInside(data: seq<byte>, b: InfoBuffer, i: int)
    requires Signed(data, b)
    ensures InSignature(data, b, i) ==> Inside(b, i)
  {
  }

  lemma AppliedTwice(data: seq<byte>, bufs: seq<InfoBuffer>, s: nat, k: nat, i: nat)
    requires s < |bufs| && k < |bufs| && s != k && Signed(data, bufs[s]) && Signed(data, bufs[k]) && i < |data|
    ensures var earlier, later := if s < k then bufs[s] else bufs[k], if s < k then bufs[k] else bufs[s];
            Applied(data, bufs, s, k, data) == Rewritten(data, later, Rewritten(data, earlier, data))
  {
  }

  function Fresh(data: seq<byte>): Progress
  {
    Progress(data, None, None, map[])
  }

  /** After processing succeeds, the bytes are the original with exactly the signature bytes of the first
      server and the first KDC buffer zero (type and RODC bytes kept), whatever the order of the buffers,
      if and only if no nonzero byte is written back, which only overlapping buffers can do. */
  lemma ProcessedIsCovered(data: seq<byte>, info: InfoParser, bufs: seq<InfoBuffer>)
    requires Steps(data, info, bufs, Fresh(data)).1.None?
    ensures var s, k := First(bufs, SERVER), First(bufs, KDC);
            && BothSigned(data, bufs, s, k)
            && (Covered(data, bufs, s, k, Steps(data, info, bufs, Fresh(data)).0.zero)
                <==> NothingWrittenBack(data, bufs, s, k))
  {
    hide Steps, Signed, Covered, NothingWrittenBack, Applied;
    StepsApply(data, info, bufs, Fresh(data));
    AppliedCovers(data, bufs, First(bufs, SERVER), First(bufs, KDC));
  }

  predicate Disjoint(a: InfoBuffer, b: InfoBuffer)
  {
    a.offset + a.size <= b.offset || b.offset + b.size <= a.offset
  }

  /** Buffers that do not overlap write nothing back. */
  lemma DisjointIsCovered(data: seq<byte>, info: InfoParser, bufs: seq<InfoBuffer>)
    requires Steps(data, info, bufs, Fresh(data)).1.None?
    requires var s, k := First(bufs, SERVER), First(bufs, KDC); s < |bufs| && k < |bufs| ==> Disjoint(bufs[s], bufs[k])
    ensures var s, k := First(bufs, SERVER), First(bufs, KDC);
            && BothSigned(data, bufs, s, k)
            && Covered(data, bufs, s, k, Steps(data, info, bufs, Fresh(data)).0.zero)
  {
    hide Steps, Covered, Signed, InSignature;
    ProcessedIsCovered(data, info, bufs);
    var s, k := First(bufs, SERVER), First(bufs, KDC);
    if s < |bufs| && k < |bufs| {
      forall i | 0 <= i < |data| ensures !(InSignature(data, bufs[s], i) && Inside(bufs[k], i))
      {
        SignatureInside(data, bufs[s], i);
      }
      forall i | 0 <= i < |data| ensures !(InSignature(data, bufs[k], i) && Inside(bufs[s], i))
      {
        SignatureInside(data, bufs[k], i);
      }
    }
  }

  /** Overlap does break it: a KDC buffer eight bytes behind a server buffer, both with the AES-256
      checksum type, puts its own type byte back into the server's signature. */
  lemma OverlapNotCovered(data: seq<byte>, info: InfoParser, at: nat)
    requires var bufs := [InfoBuffer(SERVER, 16, at), InfoBuffer(KDC, 16, at + 8)];
             && Steps(data, info, bufs, Fresh(data)).1.None?
             && at + 24 <= |data| && Field(data, at, 4) == 16 && Field(data, at + 8, 4) == 16
    ensures var bufs := [InfoBuffer(SERVER, 16, at), InfoBuffer(KDC, 16, at + 8)];
            && BothSigned(data, bufs, 0, 1)
            && !Covered(data, bufs, 0, 1, Steps(data, info, bufs, Fresh(data)).0.zero)
  {
    hide Steps, Covered, ParseSignature, Signed, Field;
    var bufs := [InfoBuffer(SERVER, 16, at), InfoBuffer(KDC, 16, at + 8)];
    FirstTwo(bufs);
    ProcessedIsCovered(data, info, bufs);
    SignatureOf16(data, bufs[0]);
    SignatureOf16(data, bufs[1]);
    assert WrittenBack(data, bufs[0], bufs[1], at + 8);
  }

  lemma FirstTwo(bufs: seq<InfoBuffer>)
    requires |bufs| == 2 && bufs[0].kind == SERVER && bufs[1].kind == KDC
    ensures First(bufs, SERVER) == 0 && First(bufs, KDC) == 1
  {
  }

  lemma SignatureOf16(data: seq<byte>, b: InfoBuffer)
    requires Signed(data, b) && b.size == 16 && Field(data, b.offset, 4) == 16
    ensures data[b.offset] == 16
    ensures forall i :: InSignature(data, b, i) <==> b.offset + 4 <= i < b.offset + 16
  {
    assert data[b.offset..b.offset + 16][0..4] == data[b.offset..b.offset + 4];
    FieldOf16(data[b.offset..b.offset + 4]);
  }

  lemma FieldOf16(s: seq<byte>)
    requires |s| == 4 && GetInt(s, Little) == 16
    ensures s[0] == 16
  {
    var r := Reverse(s);
    assert BeVal(r) == BeVal(r[..3]) * 256 + r[3];
  }

  // ------------------------------------------------------------------
  // The parsed fields

  /** The bytes of the first buffer of a type. */
  function FirstBytes(data: seq<byte>, bufs: seq<InfoBuffer>, kind: nat): Option<seq<byte>>
  {
    var i := First(bufs, kind);
    if i < |bufs| && Fits(bufs[i], |data|) then Some(data[bufs[i].offset..bufs[i].offset + bufs[i].size]) else None
  }

  /** The checksum a field ends up with: what it held, else what the first buffer of its type parses to. */
  predicate Filled(data: seq<byte>, bufs: seq<InfoBuffer>, kind: nat, before: Option<SignatureData>,
                   after: Option<SignatureData>)
  {
    if before.Some? then after == before
    else match FirstBytes(data, bufs, kind)
      case None => after == None
      case Some(bytes) => ParseSignature(bytes).Ok? && after == Some(ParseSignature(bytes).value)
  }

  /** What a buffer type that is kept as bytes ends up with. */
  predicate Kept(data: seq<byte>, info: InfoParser, bufs: seq<InfoBuffer>, kind: nat, before: map<nat, seq<byte>>,
                 after: map<nat, seq<byte>>)
  {
    if kind in before then kind in after && after[kind] == before[kind]
    else if kind !in {1, 2, 10, 11, 12, 13, 14, 15} then kind !in after
    else match FirstBytes(data, bufs, kind)
      case None => kind !in after
      case Some(bytes) => kind in after && after[kind] == bytes && info(kind, bytes)
  }

  lemma FirstOfOne(data: seq<byte>, b: InfoBuffer, kind: nat)
    ensures FirstBytes(data, [b], kind)
         == if b.kind == kind && Fits(b, |data|) then Some(data[b.offset..b.offset + b.size]) else None
  {
    assert First([b][1..], kind) == 0;
  }

  lemma StepFills(data: seq<byte>, info: InfoParser, b: InfoBuffer, p: Progress, kind: nat)
    requires Step(data, info, b, p).Ok?
    ensures var q := Step(data, info, b, p).value;
            && Filled(data, [b], 6, p.server, q.server) && Filled(data, [b], 7, p.kdc, q.kdc)
            && Kept(data, info, [b], kind, p.info, q.info)
            && Fits(b, |data|)
  {
    hide ParseSignature, Overwritten, FirstBytes;
    FirstOfOne(data, b, 6);
    FirstOfOne(data, b, 7);
    FirstOfOne(data, b, kind);
  }

  lemma FirstOfRest(data: seq<byte>, bufs: seq<InfoBuffer>, kind: nat)
    requires bufs != [] && Fits(bufs[0], |data|)
    ensures FirstBytes(data, bufs, kind)
         == if bufs[0].kind == kind then FirstBytes(data, [bufs[0]], kind) else FirstBytes(data, bufs[1..], kind)
    ensures bufs[0].kind != kind ==> FirstBytes(data, [bufs[0]], kind) == None
    ensures bufs[0].kind == kind ==> FirstBytes(data, [bufs[0]], kind).Some?
  {
    assert [bufs[0]][1..] == [];
  }

  /** After processing succeeds each field holds what the first buffer of its type holds: 6 the server checksum, 7 the
      KDC checksum, and the eight other types their bytes, which their parser accepts. */
  lemma {:induction false} StepsFill(data: seq<byte>, info: InfoParser, bufs: seq<InfoBuffer>, p: Progress, kind: nat)
    requires Steps(data, info, bufs, p).1.None?
    ensures var q := Steps(data, info, bufs, p).0;
            && Filled(data, bufs, 6, p.server, q.server) && Filled(data, bufs, 7, p.kdc, q.kdc)
            && Kept(data, info, bufs, kind, p.info, q.info)
    decreases |bufs|
  {
    hide Step, FirstBytes;
    if bufs == [] {
      assert FirstBytes(data, [], 6) == None && FirstBytes(data, [], 7) == None
        && FirstBytes(data, [], kind) == None by { FirstOfNone(data, kind); }
    } else {
      var q := Step(data, info, bufs[0], p).value;
      StepFills(data, info, bufs[0], p, kind);
      StepsFill(data, info, bufs[1..], q, kind);
      FirstOfRest(data, bufs, 6);
      FirstOfRest(data, bufs, 7);
      FirstOfRest(data, bufs, kind);
    }
  }

  lemma FirstOfNone(data: seq<byte>, kind: nat)
    ensures FirstBytes(data, [], kind) == None && FirstBytes(data, [], 6) == None && FirstBytes(data, [], 7) == None
  {
  }

  lemma AllFilled(data: seq<byte>, info: InfoParser, bufs: seq<InfoBuffer>, p: Progress)
    requires Steps(data, info, bufs, p).1.None?
    ensures var q := Steps(data, info, bufs, p).0;
            && Filled(data, bufs, 6, p.server, q.server) && Filled(data, bufs, 7, p.kdc, q.kdc)
            && forall kind: nat :: Kept(data, info, bufs, kind, p.info, q.info)
  {
    hide Steps, Filled, Kept;
    StepsFill(data, info, bufs, p, 0);
    forall kind: nat ensures Kept(data, info, bufs, kind, p.info, Steps(data, info, bufs, p).0.info) {
      StepsFill(data, info, bufs, p, kind);
    }
  }

  // ------------------------------------------------------------------
  // Processing twice

  /** Nothing is left to do for `b`. */
  predicate Settled(data: seq<byte>, b: InfoBuffer, p: Progress)
  {
    && Validated(b, |data|).None?
    && (b.kind == SERVER ==> p.server.Some?) && (b.kind == KDC ==> p.kdc.Some?)
    && (IsInfo(b.kind) ==> b.kind in p.info)
  }

  lemma SettledStays(data: seq<byte>, info: InfoParser, b: InfoBuffer, c: InfoBuffer, p: Progress)
    requires Step(data, info, b, p).Ok?
    ensures Settled(data, b, Step(data, info, b, p).value)
    ensures Settled(data, c, p) ==> Settled(data, c, Step(data, info, b, p).value)
  {
    hide SignStep;
  }

  lemma {:induction false} StepsSettle(data: seq<byte>, info: InfoParser, bufs: seq<InfoBuffer>, c: InfoBuffer,
                                       p: Progress)
    requires Steps(data, info, bufs, p).1.None?
    ensures c in bufs || Settled(data, c, p) ==> Settled(data, c, Steps(data, info, bufs, p).0)
    decreases |bufs|
  {
    hide Settled, Step;
    if bufs != [] {
      SettledStays(data, info, bufs[0], c, p);
      StepsSettle(data, info, bufs[1..], c, Step(data, info, bufs[0], p).value);
      assert c in bufs ==> c == bufs[0] || c in bufs[1..];
    }
  }

  lemma {:induction false} SettledIdle(data: seq<byte>, info: InfoParser, bufs: seq<InfoBuffer>, p: Progress)
    requires forall b :: b in bufs ==> Settled(data, b, p)
    ensures Steps(data, info, bufs, p) == (p, None)
    decreases |bufs|
  {
    hide SignStep;
    if bufs != [] {
      assert Settled(data, bufs[0], p);
      SettledIdle(data, info, bufs[1..], p);
    }
  }

  /** Processing again changes nothing, from any state in which processing succeeds. */
  lemma ProcessTwice(data: seq<byte>, info: InfoParser, bufs: seq<InfoBuffer>, p: Progress)
    requires Steps(data, info, bufs, p).1.None?
    ensures Steps(data, info, bufs, Steps(data, info, bufs, p).0) == (Steps(data, info, bufs, p).0, None)
  {
    hide Steps, Settled;
    var q := Steps(data, info, bufs, p).0;
    forall b | b in bufs ensures Settled(data, b, q) { StepsSettle(data, info, bufs, b, p); }
    SettledIdle(data, info, bufs, q);
  }

  // ------------------------------------------------------------------
  // The object

  class PacContainer {
    const version: nat
    const buffers: seq<InfoBuffer>
    const data: seq<byte>
    const zeroSignatureData: array<byte>
    var serverChecksum: Option<SignatureData>
    var kdcChecksum: Option<SignatureData>
    var info: map<nat, seq<byte>>

    function State(): Progress
      reads this, zeroSignatureData
    {
      Progress(zeroSignatureData[..], serverChecksum, kdcChecksum, info)
    }

    constructor (version: nat, buffers: seq<InfoBuffer>, bytes: seq<byte>)
      ensures this.version == version && this.buffers == buffers && data == bytes && State() == Fresh(bytes)
      ensures fresh(zeroSignatureData)
    {
      this.version, this.buffers, this.data := version, buffers, bytes;
      var copy := new byte[|bytes|](i requires 0 <= i < |bytes| => bytes[i]);
      this.zeroSignatureData := copy;
      this.serverChecksum, this.kdcChecksum, this.info := None, None, map[];
      new;
      assert zeroSignatureData[..] == bytes;
    }

    /** `copy_zeroed_signature`. */
    method CopyZeroedSignature(b: InfoBuffer, s: SignatureData) returns (e: Option<Error>)
      requires |s.zeroedData| == b.size
      modifies zeroSignatureData
      ensures var zero := old(zeroSignatureData[..]);
              if !Fits(b, |zero|) then
                e == Some(BufferOutOfBounds(b.kind, b.offset, b.size, |zero|)) && zeroSignatureData[..] == zero
              else e == None && zeroSignatureData[..] == Overwritten(zero, b, s.zeroedData)
    {
      var end := b.offset + b.size;
      if end > zeroSignatureData.Length {
        return Some(BufferOutOfBounds(b.kind, b.offset, b.size, zeroSignatureData.Length));
      }
      for i := 0 to b.size
        invariant forall j :: 0 <= j < zeroSignatureData.Length ==>
          zeroSignatureData[j] == if b.offset <= j < b.offset + i then s.zeroedData[j - b.offset]
                                  else old(zeroSignatureData[j])
      {
        zeroSignatureData[b.offset + i] := s.zeroedData[i];
      }
      return None;
    }

    /** `process_buffers`. A failure leaves what was processed before it. */
    method ProcessBuffers(parse: InfoParser) returns (e: Option<Error>)
      modifies this, zeroSignatureData
      ensures (State(), e) == Steps(data, parse, buffers, old(State()))
      ensures e.None? ==> && Filled(data, buffers, 6, old(serverChecksum), serverChecksum)
                          && Filled(data, buffers, 7, old(kdcChecksum), kdcChecksum)
                          && forall kind: nat :: Kept(data, parse, buffers, kind, old(info), info)
    {
      hide ParseSignature, Overwritten, Filled, Kept;
      for n := 0 to |buffers|
        invariant Steps(data, parse, buffers[n..], State()) == Steps(data, parse, buffers, old(State()))
      {
        var b := buffers[n];
        assert buffers[n..][0] == b && buffers[n..][1..] == buffers[n + 1..];
        ghost var before := State();
        if Validated(b, |data|).Some? { return Validated(b, |data|); }
        var bytes := data[b.offset..b.offset + b.size];
        if b.kind == SERVER && serverChecksum.None? {
          var checksum := ParseSignature(bytes);
          if checksum.Err? { return Some(checksum.error); }
          ZeroedSize(bytes);
          var failed := CopyZeroedSignature(b, checksum.value);
          if failed.Some? {
            assert State() == before;
            return failed;
          }
          serverChecksum := Some(checksum.value);
        } else if b.kind == KDC && kdcChecksum.None? {
          var checksum := ParseSignature(bytes);
          if checksum.Err? { return Some(checksum.error); }
          ZeroedSize(bytes);
          var failed := CopyZeroedSignature(b, checksum.value);
          if failed.Some? {
            assert State() == before;
            return failed;
          }
          kdcChecksum := Some(checksum.value);
        } else if IsInfo(b.kind) && b.kind !in info {
          if !parse(b.kind, bytes) { return Some(InvalidInfo); }
          info := info[b.kind := bytes];
        }
        assert Step(data, parse, b, before) == Ok(State());
      }
      AllFilled(data, parse, buffers, old(State()));
      return None;
    }
  }

  lemma ZeroedSize(s: seq<byte>)
    requires ParseSignature(s).Ok?
    ensures |ParseSignature(s).value.zeroedData| == |s|
  {
  }

  /** The first buffer from `i` on that is misaligned or outside, as its error. */
  function BadBuffer(bytes: seq<byte>, i: nat): Option<Error>
    requires |bytes| >= 8 && |bytes| >= 8 + 16 * Field(bytes, 0, 4)
    decreases Field(bytes, 0, 4) - i
  {
    if i >= Field(bytes, 0, 4) then None
    else
      var e := Validated(InfoBufferAt(bytes, i), |bytes|);
      if e.Some? then e else BadBuffer(bytes, i + 1)
  }

  /** Why a PAC is refused: no header, no room for the table, then the first bad buffer. */
  function ParseError(bytes: seq<byte>): Option<Error>
  {
    if |bytes| < 8 then Some(Truncated)
    else if |bytes| < 8 + 16 * Field(bytes, 0, 4) then Some(TooShort(8 + 16 * Field(bytes, 0, 4), |bytes|))
    else BadBuffer(bytes, 0)
  }

  /** `Pac::parse`: the header, the table, and every buffer aligned and inside. */
  method Parse(bytes: seq<byte>) returns (r: Result<PacContainer, Error>)
    ensures r.Ok? <==> && |bytes| >= 8 && |bytes| >= 8 + 16 * Field(bytes, 0, 4)
                       && forall i :: 0 <= i < Field(bytes, 0, 4) ==> Validated(InfoBufferAt(bytes, i), |bytes|).None?
    ensures ParseError(bytes) == if r.Err? then Some(r.error) else None
    ensures r.Ok? ==> && fresh(r.value) && fresh(r.value.zeroSignatureData)
                      && r.value.version == Field(bytes, 4, 4) && r.value.data == bytes
                      && r.value.State() == Fresh(bytes)
                      && |r.value.buffers| == Field(bytes, 0, 4)
                      && forall i :: 0 <= i < |r.value.buffers| ==> r.value.buffers[i] == InfoBufferAt(bytes, i)
    ensures r.Ok? ==> forall b :: b in r.value.buffers ==> b.offset % 8 == 0 && b.offset + b.size <= |bytes|
  {
    hide Field;
    if |bytes| < 8 { return Err(Truncated); }
    var count, version := Field(bytes, 0, 4), Field(bytes, 4, 4);
    var minimum := 8 + 16 * count;
    if |bytes| < minimum { return Err(TooShort(minimum, |bytes|)); }
    var buffers := [];
    for i := 0 to count
      invariant |buffers| == i && forall j :: 0 <= j < i ==> buffers[j] == InfoBufferAt(bytes, j)
    {
      buffers := buffers + [InfoBufferAt(bytes, i)];
    }
    for i := 0 to count
      invariant forall j :: 0 <= j < i ==> Validated(buffers[j], |bytes|).None?
      invariant BadBuffer(bytes, i) == BadBuffer(bytes, 0)
    {
      if Validated(buffers[i], |bytes|).Some? { return Err(Validated(buffers[i], |bytes|).value); }
    }
    var pac := new PacContainer(version, buffers, bytes);
    return Ok(pac);
  }
}
