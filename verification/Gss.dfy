/** GSS-API Wrap and MIC tokens of RFC 4121 (src/spnego.rs). */
module Gss {
  import opened Bytes
  import opened Derive
  import Crypto = CryptoError
  import Seal

  datatype Error =
    | GssTokenTooShort(minimum: nat, actual: nat)
    | InvalidGssTokenId
    | UnexpectedGssTokenSender
    | InvalidGssFiller
    | MissingGssEncryptedBody
    | InconsistentWrapChecksumLength(tokenLen: nat, checksumLen: nat)
    | MissingGssPayload
    | MissingGssChecksum
    | InvalidGssChecksumLength(expected: nat, actual: nat)
    | GssChecksumAlreadySet
    | SealedGssTokenNeedsEncryption
    | GssChecksumMismatch
    | GssEncryptedBodyAlreadySet
    | GssTokenNotSealed
    | GssDecryptedTokenTooShort(minimum: nat, actual: nat)
    | InvalidGssEncryptedHeader
    | UnsupportedEtype(etype: int)
    | CryptoFailure(error: Crypto.Error)

  /** `EncryptionKey`. */
  datatype Key = Key(etype: int, value: seq<byte>)

  type u16 = x: int | 0 <= x < 0x1_0000
  type u64 = x: int | 0 <= x < 0x1_0000_0000_0000_0000

  // ------------------------------------------------------------------
  // Rotation

  function RotateRight(s: seq<byte>, count: nat): (r: seq<byte>)
    ensures |r| == |s|
  {
    if s == [] then []
    else
      var k := count % |s|;
      if k == 0 then s else s[|s| - k..] + s[..|s| - k]
  }

  function RotateLeft(s: seq<byte>, count: nat): (r: seq<byte>)
    ensures |r| == |s|
  {
    if s == [] then []
    else
      var k := count % |s|;
      if k == 0 then s else s[k..] + s[..k]
  }

  /** Rotating left undoes rotating right, for counts beyond the length too. */
  lemma RotateLeftUndoesRight(s: seq<byte>, count: nat)
    ensures RotateLeft(RotateRight(s, count), count) == s
  {
    if s != [] {
      var k := count % |s|;
      var r := RotateRight(s, count);
      assert |r| == |s|;
      if k != 0 { assert r[k..] == s[..|s| - k] && r[..k] == s[|s| - k..]; }
    }
  }

  lemma RotateRightUndoesLeft(s: seq<byte>, count: nat)
    ensures RotateRight(RotateLeft(s, count), count) == s
  {
    if s != [] {
      var n := count % |s|;
      var t := RotateLeft(s, count);
      assert t[|t| - n..] == s[..n] && t[..|t| - n] == s[n..];
    }
  }

  /** What the rotation does to each position. */
  lemma RotateRightAt(s: seq<byte>, count: nat, i: nat)
    requires i < |s|
    ensures RotateRight(s, count)[(i + count) % |s|] == s[i]
  {
    var n := |s|;
    var k, m := count % n, count / n;
    assert count == n * m + k;
    if i + k < n {
      DivUnique(i + count, n, m, i + k);
    } else {
      assert n * (m + 1) == n * m + n;
      DivUnique(i + count, n, m + 1, i + k - n);
    }
  }

  // ------------------------------------------------------------------
  // Wrap tokens as values

  datatype Wrap = Wrap(
    flags: byte,
    ec: u16,
    rrc: u16,
    sndSeqNum: u64,
    payload: Option<seq<byte>>,
    checksum: Option<seq<byte>>,
    encryptedBody: Option<seq<byte>>)

  predicate IsSealed(flags: byte)
  {
    flags / 2 % 2 == 1
  }

  function SetSealed(flags: byte): (r: byte)
    ensures IsSealed(r) && r % 2 == flags % 2 && r / 4 == flags / 4
  {
    if IsSealed(flags) then flags else flags + 2
  }

  function WrapHeader(flags: byte, ec: u16, rrc: u16, sndSeqNum: u64): (r: seq<byte>)
    ensures |r| == 16
  {
    [0x05, 0x04, flags, 0xff] + BePut(ec, 2) + BePut(rrc, 2) + BePut(sndSeqNum, 8)
  }

  function Header(w: Wrap, rrc: u16): (r: seq<byte>)
    ensures |r| == 16
  {
    WrapHeader(w.flags, w.ec, rrc, w.sndSeqNum)
  }

  lemma HeaderParts(flags: byte, ec: u16, rrc: u16, sndSeqNum: u64)
    ensures var h := WrapHeader(flags, ec, rrc, sndSeqNum);
      && h[0] == 0x05 && h[1] == 0x04 && h[2] == flags && h[3] == 0xff
      && h[4..6] == BePut(ec, 2) && h[6..8] == BePut(rrc, 2) && h[8..16] == BePut(sndSeqNum, 8)
    ensures BeVal(BePut(ec, 2)) == ec && BeVal(BePut(rrc, 2)) == rrc && BeVal(BePut(sndSeqNum, 8)) == sndSeqNum
  {
    PowTable();
    BePutVal(ec, 2);
    BePutVal(rrc, 2);
    BePutVal(sndSeqNum, 8);
  }

  function EncodeWrap(w: Wrap): Result<seq<byte>, Error>
  {
    if IsSealed(w.flags) then
      if w.encryptedBody.None? then Err(MissingGssEncryptedBody)
      else Ok(Header(w, w.rrc) + w.encryptedBody.value)
    else if w.payload.None? then Err(MissingGssPayload)
    else if w.checksum.None? then Err(MissingGssChecksum)
    else if |w.checksum.value| != w.ec then Err(InvalidGssChecksumLength(w.ec, |w.checksum.value|))
    else Ok(Header(w, w.rrc) + (w.payload.value + w.checksum.value))
  }

  /** A Wrap header octet by octet (section 4.2.6.2 of RFC 4121). */
  lemma WrapHeaderIs(flags: byte, ec: u16, rrc: u16, sndSeqNum: u64)
    ensures WrapHeader(flags, ec, rrc, sndSeqNum)
         == [0x05, 0x04, flags, 0xff, ec / 256, ec % 256, rrc / 256, rrc % 256] + BePut(sndSeqNum, 8)
    ensures BeVal(BePut(sndSeqNum, 8)) == sndSeqNum
  {
    PutTwo(ec);
    PutTwo(rrc);
    PowTable();
    BePutVal(sndSeqNum, 8);
  }

  lemma PutTwo(n: u16)
    ensures BePut(n, 2) == [n / 256, n % 256]
  {
    assert n / 256 % 256 == n / 256;
    assert BePut(n / 256, 1) == BePut(n / 256 / 256, 0) + [n / 256 % 256];
  }

  /** An encoded token: the header, then the sealed body, or payload and checksum where the extra count is the
      checksum's length. */
  lemma EncodeWrapIs(w: Wrap)
    ensures var header := WrapHeader(w.flags, w.ec, w.rrc, w.sndSeqNum);
            if BitOf(w.flags, 1) == 1 then
              EncodeWrap(w) == match w.encryptedBody
                case None => Err(MissingGssEncryptedBody)
                case Some(body) => Ok(header + body)
            else match w.payload
              case None => EncodeWrap(w) == Err(MissingGssPayload)
              case Some(payload) =>
                match w.checksum
                case None => EncodeWrap(w) == Err(MissingGssChecksum)
                case Some(checksum) =>
                  EncodeWrap(w) == if |checksum| == w.ec then Ok(header + (payload + checksum))
                                   else Err(InvalidGssChecksumLength(w.ec, |checksum|))
  {
    hide WrapHeader;
    assert BitOf(w.flags, 1) == BitOf(w.flags / 2, 0);
  }

  function U16At(s: seq<byte>): (r: u16)
    requires |s| == 2
    ensures r == BeVal(s)
  {
    BeValBound(s);
    PowTable();
    BeVal(s)
  }

  function U64At(s: seq<byte>): (r: u64)
    requires |s| == 8
    ensures r == BeVal(s)
  {
    BeValBound(s);
    PowTable();
    BeVal(s)
  }

  function DecodeWrap(s: seq<byte>, expectFromAcceptor: bool): Result<Wrap, Error>
  {
    if |s| < 16 then Err(GssTokenTooShort(16, |s|))
    else if s[0] != 0x05 || s[1] != 0x04 then Err(InvalidGssTokenId)
    else if (s[2] % 2 == 1) != expectFromAcceptor then Err(UnexpectedGssTokenSender)
    else if s[3] != 0xff then Err(InvalidGssFiller)
    else
      var ec, rrc, num := U16At(s[4..6]), U16At(s[6..8]), U64At(s[8..16]);
      if IsSealed(s[2]) then
        if |s| == 16 then Err(MissingGssEncryptedBody)
        else Ok(Wrap(s[2], ec, rrc, num, None, None, Some(s[16..])))
      else if ec > |s| - 16 then Err(InconsistentWrapChecksumLength(|s|, ec))
      else Ok(Wrap(s[2], ec, rrc, num, Some(s[16..|s| - ec]), Some(s[|s| - ec..]), None))
  }

  /** Exactly these byte strings are Wrap tokens from the expected side (bit 0 set by the acceptor): identifier, filler,
      and room for a body or for the checksum announced. */
  lemma DecodeWrapExact(s: seq<byte>, fromAcceptor: bool)
    ensures DecodeWrap(s, fromAcceptor).Ok? <==>
      && |s| >= 16 && s[0] == 0x05 && s[1] == 0x04 && s[3] == 0xff
      && (BitOf(s[2], 0) == 1 <==> fromAcceptor)
      && (if BitOf(s[2], 1) == 1 then |s| > 16 else 16 + s[4] as int * 256 + s[5] as int <= |s|)
  {
    if |s| >= 16 {
      BeValTwo(s[4..6]);
      assert BitOf(s[2], 1) == BitOf(s[2] / 2, 0);
    }
  }

  /** What a token looks like once it went over the wire. */
  function Transmitted(w: Wrap): Wrap
  {
    if IsSealed(w.flags) then w.(payload := None, checksum := None)
    else w.(encryptedBody := None)
  }

  lemma HeadOf(w: Wrap, body: seq<byte>)
    ensures var s := Header(w, w.rrc) + body;
      && s[0] == 0x05 && s[1] == 0x04 && s[2] == w.flags && s[3] == 0xff && s[16..] == body
      && U16At(s[4..6]) == w.ec && U16At(s[6..8]) == w.rrc && U64At(s[8..16]) == w.sndSeqNum
  {
    HeaderParts(w.flags, w.ec, w.rrc, w.sndSeqNum);
    var h := Header(w, w.rrc);
    var s := h + body;
    assert s[4..6] == h[4..6] && s[6..8] == h[6..8] && s[8..16] == h[8..16];
  }

  /** A token that encodes is decoded to itself, less what the wire does not carry. */
  lemma WrapRoundTrip(w: Wrap)
    requires EncodeWrap(w).Ok? && (IsSealed(w.flags) ==> w.encryptedBody.value != [])
    ensures DecodeWrap(EncodeWrap(w).value, w.flags % 2 == 1) == Ok(Transmitted(w))
  {
    if IsSealed(w.flags) {
      HeadOf(w, w.encryptedBody.value);
    } else {
      var body := w.payload.value + w.checksum.value;
      var s := Header(w, w.rrc) + body;
      HeadOf(w, body);
      assert s[16..|s| - w.ec] == body[..|body| - w.ec] == w.payload.value;
      assert s[|s| - w.ec..] == body[|body| - w.ec..] == w.checksum.value;
    }
  }

  // ------------------------------------------------------------------
  // Sealing

  function SealWrap(p: Primitives, w: Wrap, key: Key, usage: nat, conf: seq<byte>): Result<Wrap, Error>
    requires Sound(p)
  {
    if w.encryptedBody.Some? then Err(GssEncryptedBodyAlreadySet)
    else if w.payload.None? then Err(MissingGssPayload)
    else if FromEtypeId(key.etype).None? then Err(UnsupportedEtype(key.etype))
    else
      var w' := w.(flags := SetSealed(w.flags));
      match Seal.SealResult(p, FromEtypeId(key.etype).value, key.value, Trailed(w'), usage, conf)
      case Err(e) => Err(CryptoFailure(e))
      case Ok(x) => Ok(w'.(encryptedBody := Some(RotateRight(x, w.rrc)), checksum := None))
  }

  /** What is sealed: payload, zeros, and the header with the sealed flag (bit 1) and a zero rotation count. */
  ghost predicate SealedBody(p: Primitives, w: Wrap, e: Etype, key: seq<byte>, usage: nat, conf: seq<byte>,
                             flags: byte, body: seq<byte>)
    requires Sound(p) && |key| == KeyLen(e) && |conf| == ConfounderLen(e)
  {
    && w.payload.Some?
    && BitOf(flags, 1) == 1 && (flags == w.flags || flags == w.flags + 2)
    && exists x ::
         && Seal.SealedAs(p, e, key, w.payload.value + Zeros(w.ec)
              + [0x05, 0x04, flags, 0xff, w.ec / 256, w.ec % 256, 0, 0] + BePut(w.sndSeqNum, 8), usage, conf, x)
         && body == RotateRight(x, w.rrc)
  }

  lemma SealWrapIs(p: Primitives, w: Wrap, key: Key, usage: nat, conf: seq<byte>)
    requires Sound(p) && SealWrap(p, w, key, usage, conf).Ok?
    ensures var e := FromEtypeId(key.etype);
            && e.Some? && |key.value| == KeyLen(e.value) && |conf| == ConfounderLen(e.value)
            && var sealed := SealWrap(p, w, key, usage, conf).value;
               && sealed.encryptedBody.Some?
               && SealedBody(p, w, e.value, key.value, usage, conf, sealed.flags, sealed.encryptedBody.value)
               && sealed == w.(flags := sealed.flags, encryptedBody := sealed.encryptedBody, checksum := None)
  {
    hide WrapHeader, RotateRight, Seal.Sealed, Seal.SealedAs;
    var e := FromEtypeId(key.etype).value;
    var flags := SetSealed(w.flags);
    WrapHeaderIs(flags, w.ec, 0, w.sndSeqNum);
    var plain := w.payload.value + Zeros(w.ec)
               + [0x05, 0x04, flags, 0xff, w.ec / 256, w.ec % 256, 0, 0] + BePut(w.sndSeqNum, 8);
    assert Trailed(w.(flags := flags)) == plain;
    Seal.SealedIs(p, e, key.value, plain, usage, conf);
    assert BitOf(flags, 1) == BitOf(flags / 2, 0);
    assert SealedBody(p, w, e, key.value, usage, conf, flags,
                      RotateRight(Seal.Sealed(p, e, key.value, plain, usage, conf), w.rrc));
  }

  /** Payload, filler and the header with a zero rotation count. */
  function Trailed(w: Wrap): seq<byte>
    requires w.payload.Some?
  {
    w.payload.value + (Zeros(w.ec) + Header(w, 0))
  }

  function OpenWrap(p: Primitives, w: Wrap, key: Key, usage: nat): Result<seq<byte>, Error>
    requires Sound(p)
  {
    if !IsSealed(w.flags) then Err(GssTokenNotSealed)
    else if w.encryptedBody.None? then Err(MissingGssEncryptedBody)
    else if FromEtypeId(key.etype).None? then Err(UnsupportedEtype(key.etype))
    else
      var x := RotateLeft(w.encryptedBody.value, w.rrc);
      match Seal.Opened(p, FromEtypeId(key.etype).value, key.value, x, usage)
      case Err(e) => Err(CryptoFailure(e))
      case Ok(plain) => Untrail(w, plain)
  }

  /** Check the embedded header and cut header and filler off. */
  function Untrail(w: Wrap, plain: seq<byte>): Result<seq<byte>, Error>
  {
    if |plain| < 16 + w.ec then Err(GssDecryptedTokenTooShort(16 + w.ec, |plain|))
    else if plain[|plain| - 16..] != Header(w, 0) then Err(InvalidGssEncryptedHeader)
    else Ok(plain[..|plain| - 16 - w.ec])
  }

  lemma UntrailTrailed(w: Wrap, w': Wrap)
    requires w.payload.Some? && Header(w', 0) == Header(w, 0) && w'.ec == w.ec
    ensures Untrail(w', Trailed(w)) == Ok(w.payload.value)
  {
    var t := Trailed(w);
    assert t[|t| - 16..] == Header(w, 0);
    assert t[..|t| - 16 - w.ec] == w.payload.value;
  }

  /** A sealed header never equals itself shifted left with zeros coming in. */
  lemma ShiftedHeaderDiffers(w: Wrap, pad: nat)
    requires IsSealed(w.flags) && 0 < pad < 8
    ensures Header(w, 0)[pad..] + Zeros(pad) != Header(w, 0)
  {
    HeaderParts(w.flags, w.ec, 0, w.sndSeqNum);
    var h := Header(w, 0);
    assert BePut(0, 2) == [0, 0];
    assert h[6..8][0] == h[6] && h[6..8][1] == h[7];
    var shifted := h[pad..] + Zeros(pad);
    assert shifted[0] == h[pad] && shifted[1] == h[pad + 1] && shifted[2] == h[pad + 2];
  }

  lemma UntrailPadded(w: Wrap, w': Wrap, pad: nat)
    requires w.payload.Some? && Header(w', 0) == Header(w, 0) && w'.ec == w.ec
    requires IsSealed(w.flags) && 0 < pad < 8
    ensures Untrail(w', Trailed(w) + Zeros(pad)) == Err(InvalidGssEncryptedHeader)
  {
    ShiftedHeaderDiffers(w, pad);
    var t := Trailed(w) + Zeros(pad);
    assert t[|t| - 16..] == Header(w, 0)[pad..] + Zeros(pad);
  }

  /** The etype needs no padding behind payload, filler and header. */
  predicate FillsBlocks(e: Etype, w: Wrap)
    requires w.payload.Some?
  {
    e.Des3? ==> (|w.payload.value| + w.ec) % 8 == 0
  }

  /** Sealing succeeds exactly on an unsealed payload with a known etype and fitting key and confounder. */
  lemma SealSucceeds(p: Primitives, w: Wrap, key: Key, usage: nat, conf: seq<byte>)
    requires Sound(p)
    ensures SealWrap(p, w, key, usage, conf).Ok? <==>
      && w.encryptedBody.None? && w.payload.Some? && FromEtypeId(key.etype).Some?
      && |key.value| == KeyLen(FromEtypeId(key.etype).value)
      && |conf| == ConfounderLen(FromEtypeId(key.etype).value)
  {
  }

  lemma SealedShape(p: Primitives, w: Wrap, key: Key, usage: nat, conf: seq<byte>, sealed: Wrap)
    requires Sound(p) && SealWrap(p, w, key, usage, conf) == Ok(sealed)
    ensures IsSealed(sealed.flags) && sealed.flags % 2 == w.flags % 2 && sealed.ec == w.ec
    ensures sealed.encryptedBody.Some? && sealed.encryptedBody.value != []
    ensures w.payload.Some? && Header(Transmitted(sealed), 0) == Header(w.(flags := SetSealed(w.flags)), 0)
  {
    var e := FromEtypeId(key.etype).value;
    var x := Seal.Sealed(p, e, key.value, Trailed(w.(flags := SetSealed(w.flags))), usage, conf);
    assert |RotateRight(x, w.rrc)| == |x| > 0;
  }

  /** Opening a transmitted token gives the sealed plaintext, rotation undone. */
  lemma OpenTransmitted(p: Primitives, w: Wrap, key: Key, usage: nat, conf: seq<byte>, sealed: Wrap)
    requires Sound(p) && SealWrap(p, w, key, usage, conf) == Ok(sealed)
    ensures w.payload.Some? && FromEtypeId(key.etype).Some?
    ensures var w' := w.(flags := SetSealed(w.flags));
            OpenWrap(p, Transmitted(sealed), key, usage)
            == Untrail(Transmitted(sealed), Seal.Returned(FromEtypeId(key.etype).value, Trailed(w')))
  {
    var e := FromEtypeId(key.etype).value;
    var w' := w.(flags := SetSealed(w.flags));
    var x := Seal.Sealed(p, e, key.value, Trailed(w'), usage, conf);
    RotateLeftUndoesRight(x, w.rrc);
    Seal.OpenUndoesSeal(p, e, key.value, Trailed(w'), usage, conf);
  }

  /** A sealed token goes over the wire unchanged but for its payload, which stays behind. */
  lemma SealedWireRoundTrip(p: Primitives, w: Wrap, key: Key, usage: nat, conf: seq<byte>, sealed: Wrap)
    requires Sound(p) && SealWrap(p, w, key, usage, conf) == Ok(sealed)
    ensures EncodeWrap(sealed).Ok?
    ensures DecodeWrap(EncodeWrap(sealed).value, w.flags % 2 == 1) == Ok(Transmitted(sealed))
  {
    SealedShape(p, w, key, usage, conf, sealed);
    WrapRoundTrip(sealed);
  }

  /**
   * A payload survives sealing, encoding, decoding and opening for every extra count, rotation count
   * and sequence number - under DES3 exactly when payload and filler fill whole blocks. Otherwise
   * the zeros DES3 appends shift the embedded header and the token is refused.
   */
  lemma SealedWrapRoundTrip(p: Primitives, w: Wrap, key: Key, usage: nat, conf: seq<byte>, sealed: Wrap, received: Wrap)
    requires Sound(p) && SealWrap(p, w, key, usage, conf) == Ok(sealed)
    requires EncodeWrap(sealed).Ok?
    requires DecodeWrap(EncodeWrap(sealed).value, w.flags % 2 == 1) == Ok(received)
    ensures w.payload.Some? && FromEtypeId(key.etype).Some?
    ensures OpenWrap(p, received, key, usage)
         == if FillsBlocks(FromEtypeId(key.etype).value, w) then Ok(w.payload.value)
            else Err(InvalidGssEncryptedHeader)
  {
    SealedWireRoundTrip(p, w, key, usage, conf, sealed);
    SealedOpens(p, w, key, usage, conf, sealed, Transmitted(sealed));
  }

  lemma SealedOpens(p: Primitives, w: Wrap, key: Key, usage: nat, conf: seq<byte>, sealed: Wrap, received: Wrap)
    requires Sound(p) && SealWrap(p, w, key, usage, conf) == Ok(sealed) && received == Transmitted(sealed)
    ensures w.payload.Some? && FromEtypeId(key.etype).Some?
    ensures OpenWrap(p, received, key, usage)
         == if FillsBlocks(FromEtypeId(key.etype).value, w) then Ok(w.payload.value)
            else Err(InvalidGssEncryptedHeader)
  {
    SealedShape(p, w, key, usage, conf, sealed);
    OpenTransmitted(p, w, key, usage, conf, sealed);
    UntrailSealed(w, received, FromEtypeId(key.etype).value);
  }

  lemma UntrailSealed(w: Wrap, received: Wrap, e: Etype)
    requires w.payload.Some? && received.ec == w.ec
    requires Header(received, 0) == Header(w.(flags := SetSealed(w.flags)), 0)
    ensures Untrail(received, Seal.Returned(e, Trailed(w.(flags := SetSealed(w.flags)))))
         == if FillsBlocks(e, w) then Ok(w.payload.value) else Err(InvalidGssEncryptedHeader)
  {
    UntrailReturned(w.(flags := SetSealed(w.flags)), received, e);
  }

  lemma UntrailReturned(w: Wrap, w': Wrap, e: Etype)
    requires w.payload.Some? && Header(w', 0) == Header(w, 0) && w'.ec == w.ec && IsSealed(w.flags)
    ensures Untrail(w', Seal.Returned(e, Trailed(w)))
         == if FillsBlocks(e, w) then Ok(w.payload.value) else Err(InvalidGssEncryptedHeader)
  {
    var plain := Seal.Returned(e, Trailed(w));
    var pad := |plain| - |Trailed(w)|;
    assert plain == Trailed(w) + Zeros(pad);
    if e.Des3? { WholePadding(|w.payload.value| + w.ec, pad); }
    if pad == 0 {
      assert plain == Trailed(w);
      UntrailTrailed(w, w');
    } else {
      UntrailPadded(w, w', pad);
    }
  }

  lemma WholePadding(len: nat, pad: nat)
    requires Whole(len + 16 + pad, 8) && pad < 8
    ensures pad == 0 <==> len % 8 == 0
  {
    WholeMod(len + 16 + pad, 8);
  }

  // ------------------------------------------------------------------
  // Everything that opens

  /** The body is a payload, any filler of the announced length, and the header, sealed and rotated. */
  ghost predicate SealedWith(p: Primitives, w: Wrap, e: Etype, key: seq<byte>, usage: nat, m: seq<byte>,
                             filler: seq<byte>, conf: seq<byte>)
    requires Sound(p) && w.encryptedBody.Some? && |key| == KeyLen(e)
  {
    var plain := m + (filler + Header(w, 0));
    && |filler| == w.ec && |conf| == ConfounderLen(e) && Seal.Returned(e, plain) == plain
    && w.encryptedBody.value == RotateRight(Seal.Sealed(p, e, key, plain, usage, conf), w.rrc)
  }

  lemma UntrailExact(w: Wrap, plain: seq<byte>, m: seq<byte>)
    ensures Untrail(w, plain) == Ok(m) <==>
              && |plain| == |m| + w.ec + 16 && plain[..|m|] == m && plain[|m| + w.ec..] == Header(w, 0)
  {
  }

  lemma UntrailParts(w: Wrap, plain: seq<byte>, m: seq<byte>, filler: seq<byte>)
    requires plain == m + (filler + Header(w, 0)) && |filler| == w.ec
    ensures Untrail(w, plain) == Ok(m)
  {
    UntrailExact(w, plain, m);
  }

  lemma OpenedWasSealed(p: Primitives, w: Wrap, key: Key, usage: nat, m: seq<byte>)
    returns (filler: seq<byte>, conf: seq<byte>)
    requires Sound(p) && OpenWrap(p, w, key, usage) == Ok(m)
    ensures var e := FromEtypeId(key.etype).value;
            |key.value| == KeyLen(e) && SealedWith(p, w, e, key.value, usage, m, filler, conf)
  {
    hide Seal.Opened, Seal.Sealed, RotateLeft, RotateRight, Untrail, Header;
    var e := FromEtypeId(key.etype).value;
    var x := RotateLeft(w.encryptedBody.value, w.rrc);
    var plain := Seal.Opened(p, e, key.value, x, usage).value;
    conf := Seal.SealUndoesOpen(p, e, key.value, x, usage, plain);
    RotateRightUndoesLeft(w.encryptedBody.value, w.rrc);
    UntrailExact(w, plain, m);
    filler := plain[|m|..|m| + w.ec];
    assert plain == m + (filler + Header(w, 0));
  }

  lemma SealedIsOpened(p: Primitives, w: Wrap, key: Key, usage: nat, m: seq<byte>, filler: seq<byte>, conf: seq<byte>)
    requires Sound(p) && IsSealed(w.flags) && w.encryptedBody.Some? && FromEtypeId(key.etype).Some?
    requires var e := FromEtypeId(key.etype).value;
             |key.value| == KeyLen(e) && SealedWith(p, w, e, key.value, usage, m, filler, conf)
    ensures OpenWrap(p, w, key, usage) == Ok(m)
  {
    hide Seal.Opened, Seal.Sealed, RotateLeft, RotateRight, Untrail, Header;
    var e := FromEtypeId(key.etype).value;
    var plain := m + (filler + Header(w, 0));
    RotateLeftUndoesRight(Seal.Sealed(p, e, key.value, plain, usage, conf), w.rrc);
    Seal.OpenUndoesSeal(p, e, key.value, plain, usage, conf);
    UntrailParts(w, plain, m, filler);
  }

  /** A token opens to a payload if and only if it is marked sealed and its body is that payload, any filler
      of the announced length and the token's own header with a zero rotation count, sealed under some
      confounder and rotated. Sealing writes zeros as filler; opening does not look at it. */
  lemma OpensExactly(p: Primitives, w: Wrap, key: Key, usage: nat, m: seq<byte>)
    requires Sound(p)
    ensures OpenWrap(p, w, key, usage) == Ok(m) <==>
              && IsSealed(w.flags) && w.encryptedBody.Some? && FromEtypeId(key.etype).Some?
              && |key.value| == KeyLen(FromEtypeId(key.etype).value)
              && exists filler, conf ::
                   SealedWith(p, w, FromEtypeId(key.etype).value, key.value, usage, m, filler, conf)
  {
    hide SealedWith;
    if OpenWrap(p, w, key, usage) == Ok(m) {
      var filler, conf := OpenedWasSealed(p, w, key, usage, m);
    }
    hide OpenWrap;
    if IsSealed(w.flags) && w.encryptedBody.Some? && FromEtypeId(key.etype).Some?
       && |key.value| == KeyLen(FromEtypeId(key.etype).value) {
      forall filler, conf | SealedWith(p, w, FromEtypeId(key.etype).value, key.value, usage, m, filler, conf)
        ensures OpenWrap(p, w, key, usage) == Ok(m)
      {
        SealedIsOpened(p, w, key, usage, m, filler, conf);
      }
    }
  }

  // ------------------------------------------------------------------
  // Signing

  function ComputeWrapChecksum(p: Primitives, w: Wrap, key: Key, usage: nat): Result<seq<byte>, Error>
    requires Sound(p)
  {
    if w.payload.None? then Err(MissingGssPayload)
    else if FromEtypeId(key.etype).None? then Err(UnsupportedEtype(key.etype))
    else
      var e := FromEtypeId(key.etype).value;
      if |key.value| != KeyLen(e) then Err(CryptoFailure(Crypto.InvalidKeyLength(KeyLen(e), |key.value|)))
      else Ok(Seal.ChecksumOf(p, e, key.value, w.payload.value + WrapHeader(w.flags, 0, 0, w.sndSeqNum), usage))
  }

  /** The checksum covers the payload and the header, both counts zero. */
  lemma WrapChecksumIs(p: Primitives, w: Wrap, key: Key, usage: nat)
    requires Sound(p)
    ensures var r, e := ComputeWrapChecksum(p, w, key, usage), FromEtypeId(key.etype);
            && (r.Ok? <==> w.payload.Some? && e.Some? && |key.value| == KeyLen(e.value))
            && (r.Ok? ==> Seal.ChecksumAs(p, e.value, key.value,
                  w.payload.value + [0x05, 0x04, w.flags, 0xff, 0, 0, 0, 0] + BePut(w.sndSeqNum, 8), usage, r.value))
  {
    hide WrapHeader, Seal.ChecksumOf, Seal.ChecksumAs;
    var e := FromEtypeId(key.etype);
    WrapHeaderIs(w.flags, 0, 0, w.sndSeqNum);
    if w.payload.Some? && e.Some? && |key.value| == KeyLen(e.value) {
      var data := w.payload.value + [0x05, 0x04, w.flags, 0xff, 0, 0, 0, 0] + BePut(w.sndSeqNum, 8);
      assert data == w.payload.value + WrapHeader(w.flags, 0, 0, w.sndSeqNum);
      Seal.ChecksumIs(p, e.value, key.value, data, usage);
    }
  }

  function SignWrap(p: Primitives, w: Wrap, key: Key, usage: nat): Result<Wrap, Error>
    requires Sound(p)
  {
    if w.checksum.Some? then Err(GssChecksumAlreadySet)
    else if IsSealed(w.flags) then Err(SealedGssTokenNeedsEncryption)
    else match ComputeWrapChecksum(p, w, key, usage)
      case Err(e) => Err(e)
      case Ok(c) => Ok(w.(ec := if w.ec == 0 then ChecksumLength(c) else w.ec, checksum := Some(c)))
  }

  /** `u16::try_from(checksum.len())`; every checksum is shorter than 2^16. */
  function ChecksumLength(c: seq<byte>): u16
  {
    if |c| < 0x1_0000 then |c| else 0xffff
  }

  function VerifyWrap(p: Primitives, w: Wrap, key: Key, usage: nat): Result<bool, Error>
    requires Sound(p)
  {
    if IsSealed(w.flags) then
      match OpenWrap(p, w, key, usage)
      case Err(e) => Err(e)
      case Ok(_) => Ok(true)
    else match ComputeWrapChecksum(p, w, key, usage)
      case Err(e) => Err(e)
      case Ok(expected) =>
        if w.checksum.None? then Err(MissingGssChecksum)
        else if w.checksum.value != expected then Err(GssChecksumMismatch)
        else Ok(true)
  }

  /** A signed token survives the wire and verifies exactly when its extra count was zero or already
      the checksum's length; otherwise it cannot be encoded. */
  lemma SignedWrapRoundTrip(p: Primitives, w: Wrap, key: Key, usage: nat)
    requires Sound(p) && SignWrap(p, w, key, usage).Ok? && w.encryptedBody.None?
    ensures var signed := SignWrap(p, w, key, usage).value;
      && (EncodeWrap(signed).Ok? <==> w.ec == 0 || w.ec == |signed.checksum.value|)
      && (EncodeWrap(signed).Ok? ==>
          && DecodeWrap(EncodeWrap(signed).value, w.flags % 2 == 1) == Ok(signed)
          && VerifyWrap(p, signed, key, usage) == Ok(true))
  {
    var signed := SignWrap(p, w, key, usage).value;
    if EncodeWrap(signed).Ok? { WrapRoundTrip(signed); }
  }

  // ------------------------------------------------------------------
  // The token object

  class WrapToken {
    var flags: byte
    var ec: u16
    var rrc: u16
    var sndSeqNum: u64
    var payload: Option<seq<byte>>
    var checksum: Option<seq<byte>>
    var encryptedBody: Option<seq<byte>>

    /** The token as a value. */
    function State(): Wrap
      reads this
    {
      Wrap(flags, ec, rrc, sndSeqNum, payload, checksum, encryptedBody)
    }

    constructor Of(w: Wrap)
      ensures State() == w
    {
      flags, ec, rrc, sndSeqNum := w.flags, w.ec, w.rrc, w.sndSeqNum;
      payload, checksum, encryptedBody := w.payload, w.checksum, w.encryptedBody;
    }

    /** `set_checksum`. */
    method SetChecksum(p: Primitives, key: Key, usage: nat) returns (r: Result<(), Error>)
      requires Sound(p)
      modifies this
      ensures match SignWrap(p, old(State()), key, usage)
              case Ok(w) => r == Ok(()) && State() == w
              case Err(e) => r == Err(e) && State() == old(State())
    {
      if checksum.Some? { return Err(GssChecksumAlreadySet); }
      if IsSealed(flags) { return Err(SealedGssTokenNeedsEncryption); }
      var computed :- ComputeChecksum(p, key, usage);
      if ec == 0 { ec := ChecksumLength(computed); }
      checksum := Some(computed);
      return Ok(());
    }

    method ComputeChecksum(p: Primitives, key: Key, usage: nat) returns (r: Result<seq<byte>, Error>)
      requires Sound(p)
      ensures r == ComputeWrapChecksum(p, State(), key, usage)
      ensures r.Ok? ==>
        && payload.Some? && FromEtypeId(key.etype).Some? && |key.value| == KeyLen(FromEtypeId(key.etype).value)
        && Seal.ChecksumAs(p, FromEtypeId(key.etype).value, key.value,
             payload.value + [0x05, 0x04, flags, 0xff, 0, 0, 0, 0] + BePut(sndSeqNum, 8), usage, r.value)
    {
      hide Seal.ChecksumAs;
      WrapChecksumIs(p, State(), key, usage);
      if payload.None? { return Err(MissingGssPayload); }
      var data := payload.value + WrapHeader(flags, 0, 0, sndSeqNum);
      var e := FromEtypeId(key.etype);
      if e.None? { return Err(UnsupportedEtype(key.etype)); }
      var c := Seal.Checksum(p, e.value, key.value, data, usage);
      return if c.Err? then Err(CryptoFailure(c.error)) else Ok(c.value);
    }

    /** `encrypt_payload_with_confounder`; a failure leaves the sealed flag behind. */
    method EncryptPayload(p: Primitives, key: Key, usage: nat, conf: seq<byte>) returns (r: Result<(), Error>)
      requires Sound(p)
      modifies this
      ensures match SealWrap(p, old(State()), key, usage, conf)
              case Ok(w) => r == Ok(()) && State() == w
              case Err(e) =>
                && r == Err(e)
                && State() == old(State()).(flags := if e.GssEncryptedBodyAlreadySet? then old(flags)
                                                      else SetSealed(old(flags)))
      ensures r.Ok? ==>
        && FromEtypeId(key.etype).Some? && encryptedBody.Some?
        && |key.value| == KeyLen(FromEtypeId(key.etype).value) && |conf| == ConfounderLen(FromEtypeId(key.etype).value)
        && SealedBody(p, old(State()), FromEtypeId(key.etype).value, key.value, usage, conf, flags, encryptedBody.value)
    {
      hide SealedBody, Seal.SealedAs, Seal.Sealed, WrapHeader, RotateRight;
      if SealWrap(p, State(), key, usage, conf).Ok? { SealWrapIs(p, State(), key, usage, conf); }
      if encryptedBody.Some? { return Err(GssEncryptedBodyAlreadySet); }
      flags := SetSealed(flags);
      if payload.None? { return Err(MissingGssPayload); }
      var e := FromEtypeId(key.etype);
      if e.None? { return Err(UnsupportedEtype(key.etype)); }
      var plaintext := payload.value;
      plaintext := plaintext + Zeros(ec);
      plaintext := plaintext + WrapHeader(flags, ec, 0, sndSeqNum);
      assert plaintext == Trailed(State());
      var encrypted := Seal.EncryptMessage(p, e.value, key.value, plaintext, usage, conf);
      if encrypted.Err? { return Err(CryptoFailure(encrypted.error)); }
      encryptedBody := Some(RotateRight(encrypted.value, rrc));
      checksum := None;
      return Ok(());
    }

    /** `decrypt_payload`. */
    method DecryptPayload(p: Primitives, key: Key, usage: nat) returns (r: Result<seq<byte>, Error>)
      requires Sound(p)
      ensures r == OpenWrap(p, State(), key, usage)
    {
      if !IsSealed(flags) { return Err(GssTokenNotSealed); }
      if encryptedBody.None? { return Err(MissingGssEncryptedBody); }
      var encrypted := RotateLeft(encryptedBody.value, rrc);
      var e := FromEtypeId(key.etype);
      if e.None? { return Err(UnsupportedEtype(key.etype)); }
      var decrypted := Seal.DecryptMessage(p, e.value, key.value, encrypted, usage);
      if decrypted.Err? { return Err(CryptoFailure(decrypted.error)); }
      var plaintext := decrypted.value;
      var trailerLen := 16 + ec;
      if |plaintext| < trailerLen { return Err(GssDecryptedTokenTooShort(trailerLen, |plaintext|)); }
      var headerStart := |plaintext| - 16;
      if plaintext[headerStart..] != WrapHeader(flags, ec, 0, sndSeqNum) {
        return Err(InvalidGssEncryptedHeader);
      }
      return Ok(plaintext[..|plaintext| - trailerLen]);
    }

    /** `decrypt_and_set_payload`. */
    method DecryptAndSetPayload(p: Primitives, key: Key, usage: nat) returns (r: Result<seq<byte>, Error>)
      requires Sound(p)
      modifies this`payload
      ensures r == OpenWrap(p, old(State()), key, usage)
      ensures State() == if r.Ok? then old(State()).(payload := Some(r.value)) else old(State())
    {
      var plain :- DecryptPayload(p, key, usage);
      payload := Some(plain);
      return Ok(plain);
    }

    /** `verify`. */
    method Verify(p: Primitives, key: Key, usage: nat) returns (r: Result<bool, Error>)
      requires Sound(p)
      ensures r == VerifyWrap(p, State(), key, usage)
      ensures r.Ok? ==> r.value && FromEtypeId(key.etype).Some? && |key.value| == KeyLen(FromEtypeId(key.etype).value)
      ensures r.Ok? && BitOf(flags, 1) == 0 ==>
        && payload.Some? && checksum.Some?
        && Seal.ChecksumAs(p, FromEtypeId(key.etype).value, key.value,
             payload.value + [0x05, 0x04, flags, 0xff, 0, 0, 0, 0] + BePut(sndSeqNum, 8), usage, checksum.value)
    {
      hide Seal.ChecksumAs, Seal.Uncover, Seal.MacOf;
      assert BitOf(flags, 1) == BitOf(flags / 2, 0);
      if IsSealed(flags) {
        var _ :- DecryptPayload(p, key, usage);
        return Ok(true);
      }
      var expected :- ComputeChecksum(p, key, usage);
      if checksum.None? { return Err(MissingGssChecksum); }
      var equal := Seal.ConstantTimeEq(expected, checksum.value);
      return if equal then Ok(true) else Err(GssChecksumMismatch);
    }
  }

  // ------------------------------------------------------------------
  // MIC tokens

  datatype Mic = Mic(flags: byte, sndSeqNum: u64, payload: Option<seq<byte>>, checksum: Option<seq<byte>>)

  function MicHeader(flags: byte, sndSeqNum: u64): (r: seq<byte>)
    ensures |r| == 16
  {
    [0x04, 0x04, flags] + [0xff, 0xff, 0xff, 0xff, 0xff] + BePut(sndSeqNum, 8)
  }

  /** A MIC header octet by octet (section 4.2.6.1 of RFC 4121). */
  lemma MicHeaderIs(flags: byte, sndSeqNum: u64)
    ensures var h := MicHeader(flags, sndSeqNum);
            h[..8] == [0x04, 0x04, flags, 0xff, 0xff, 0xff, 0xff, 0xff] && BeVal(h[8..]) == sndSeqNum
  {
    PowTable();
    BePutVal(sndSeqNum, 8);
    assert MicHeader(flags, sndSeqNum)[8..] == BePut(sndSeqNum, 8);
  }

  function EncodeMic(m: Mic): Result<seq<byte>, Error>
  {
    if m.checksum.None? then Err(MissingGssChecksum)
    else Ok(MicHeader(m.flags, m.sndSeqNum) + m.checksum.value)
  }

  function DecodeMic(s: seq<byte>, expectFromAcceptor: bool): Result<Mic, Error>
  {
    if |s| < 16 then Err(GssTokenTooShort(16, |s|))
    else if s[0] != 0x04 || s[1] != 0x04 then Err(InvalidGssTokenId)
    else if (s[2] % 2 == 1) != expectFromAcceptor then Err(UnexpectedGssTokenSender)
    else if s[3..8] != [0xff, 0xff, 0xff, 0xff, 0xff] then Err(InvalidGssFiller)
    else Ok(Mic(s[2], U64At(s[8..16]), None, Some(s[16..])))
  }

  /** Exactly these byte strings are MIC tokens from the expected side. */
  lemma DecodeMicExact(s: seq<byte>, fromAcceptor: bool)
    ensures DecodeMic(s, fromAcceptor).Ok? <==>
      && |s| >= 16 && s[0] == 0x04 && s[1] == 0x04 && (BitOf(s[2], 0) == 1 <==> fromAcceptor)
      && forall i :: 3 <= i < 8 ==> s[i] == 0xff
  {
    if |s| >= 16 {
      assert forall i :: 3 <= i < 8 ==> s[i] == s[3..8][i - 3];
      assert forall i :: 0 <= i < 5 ==> s[3..8][i] == s[i + 3];
    }
  }

  /** The wire carries a MIC token without its payload, and nothing but MIC tokens decode. */
  lemma MicRoundTrip(m: Mic)
    requires m.checksum.Some?
    ensures DecodeMic(EncodeMic(m).value, m.flags % 2 == 1) == Ok(m.(payload := None))
  {
    PowTable();
    BePutVal(m.sndSeqNum, 8);
    var h := MicHeader(m.flags, m.sndSeqNum);
    var s := EncodeMic(m).value;
    assert s[8..16] == h[8..16] == BePut(m.sndSeqNum, 8) && s[16..] == m.checksum.value;
  }

  // ------------------------------------------------------------------
  // Signing a message beside its token

  /** The keyed checksum of the payload and the token's header. */
  function ComputeMicChecksum(p: Primitives, m: Mic, key: Key, usage: nat): Result<seq<byte>, Error>
    requires Sound(p)
  {
    if m.payload.None? then Err(MissingGssPayload)
    else if FromEtypeId(key.etype).None? then Err(UnsupportedEtype(key.etype))
    else
      var e := FromEtypeId(key.etype).value;
      if |key.value| != KeyLen(e) then Err(CryptoFailure(Crypto.InvalidKeyLength(KeyLen(e), |key.value|)))
      else Ok(Seal.ChecksumOf(p, e, key.value, m.payload.value + MicHeader(m.flags, m.sndSeqNum), usage))
  }

  /** Which bytes it covers. */
  lemma MicChecksumIs(p: Primitives, m: Mic, key: Key, usage: nat)
    requires Sound(p)
    ensures var r, e := ComputeMicChecksum(p, m, key, usage), FromEtypeId(key.etype);
            && (r.Ok? <==> m.payload.Some? && e.Some? && |key.value| == KeyLen(e.value))
            && (r.Ok? ==> Seal.ChecksumAs(p, e.value, key.value,
                  m.payload.value + [0x04, 0x04, m.flags, 0xff, 0xff, 0xff, 0xff, 0xff] + BePut(m.sndSeqNum, 8),
                  usage, r.value))
  {
    hide Seal.ChecksumOf, Seal.ChecksumAs;
    var e := FromEtypeId(key.etype);
    if m.payload.Some? && e.Some? && |key.value| == KeyLen(e.value) {
      var data := m.payload.value + [0x04, 0x04, m.flags, 0xff, 0xff, 0xff, 0xff, 0xff] + BePut(m.sndSeqNum, 8);
      assert data == m.payload.value + MicHeader(m.flags, m.sndSeqNum);
      Seal.ChecksumIs(p, e.value, key.value, data, usage);
    }
  }

  function VerifyMic(p: Primitives, m: Mic, key: Key, usage: nat): Result<bool, Error>
    requires Sound(p)
  {
    match ComputeMicChecksum(p, m, key, usage)
    case Err(e) => Err(e)
    case Ok(expected) =>
      if m.checksum.None? then Err(MissingGssChecksum)
      else if m.checksum.value != expected then Err(GssChecksumMismatch)
      else Ok(true)
  }

  /** A signed message is accepted with the token that came over the wire, and any other message put in its place is
      accepted exactly when it has the same checksum. */
  lemma SignedMicRoundTrip(p: Primitives, m: Mic, key: Key, usage: nat, message: seq<byte>)
    requires Sound(p) && m.payload.Some? && m.checksum.Some?
    requires ComputeMicChecksum(p, m, key, usage) == Ok(m.checksum.value)
    ensures EncodeMic(m).Ok? && DecodeMic(EncodeMic(m).value, m.flags % 2 == 1).Ok?
    ensures var received := DecodeMic(EncodeMic(m).value, m.flags % 2 == 1).value;
            && VerifyMic(p, received.(payload := m.payload), key, usage) == Ok(true)
            && (VerifyMic(p, received.(payload := Some(message)), key, usage) == Ok(true)
                <==> ComputeMicChecksum(p, m.(payload := Some(message)), key, usage) == Ok(m.checksum.value))
  {
    hide Seal.ChecksumOf, MicHeader, EncodeMic, DecodeMic;
    MicRoundTrip(m);
    assert EncodeMic(m).Ok? by { MicEncodes(m); }
  }

  lemma MicEncodes(m: Mic)
    ensures EncodeMic(m).Ok? <==> m.checksum.Some?
  {
  }

  class MicToken {
    var flags: byte
    var sndSeqNum: u64
    var payload: Option<seq<byte>>
    var checksum: Option<seq<byte>>

    /** The token as a value. */
    function State(): Mic
      reads this
    {
      Mic(flags, sndSeqNum, payload, checksum)
    }

    constructor Of(m: Mic)
      ensures State() == m
    {
      flags, sndSeqNum, payload, checksum := m.flags, m.sndSeqNum, m.payload, m.checksum;
    }

    method ComputeChecksum(p: Primitives, key: Key, usage: nat) returns (r: Result<seq<byte>, Error>)
      requires Sound(p)
      ensures r == ComputeMicChecksum(p, State(), key, usage)
    {
      if payload.None? { return Err(MissingGssPayload); }
      var data := payload.value + MicHeader(flags, sndSeqNum);
      var e := FromEtypeId(key.etype);
      if e.None? { return Err(UnsupportedEtype(key.etype)); }
      var c := Seal.Checksum(p, e.value, key.value, data, usage);
      return if c.Err? then Err(CryptoFailure(c.error)) else Ok(c.value);
    }

    /** `set_checksum`; nothing else changes, and on an error nothing at all. */
    method SetChecksum(p: Primitives, key: Key, usage: nat) returns (r: Result<(), Error>)
      requires Sound(p)
      modifies this`checksum
      ensures r.Ok? ==> old(checksum).None? && checksum.Some?
                        && ComputeMicChecksum(p, old(State()), key, usage) == Ok(checksum.value)
      ensures r.Err? ==> && checksum == old(checksum)
                         && (r.error == GssChecksumAlreadySet <==> checksum.Some?)
                         && (checksum.None? ==> ComputeMicChecksum(p, old(State()), key, usage) == Err(r.error))
    {
      if checksum.Some? { return Err(GssChecksumAlreadySet); }
      var computed :- ComputeChecksum(p, key, usage);
      checksum := Some(computed);
      return Ok(());
    }

    /** `verify`. */
    method Verify(p: Primitives, key: Key, usage: nat) returns (r: Result<bool, Error>)
      requires Sound(p)
      ensures r == VerifyMic(p, State(), key, usage)
      ensures r.Ok? ==>
        && r.value && payload.Some? && checksum.Some? && FromEtypeId(key.etype).Some?
        && |key.value| == KeyLen(FromEtypeId(key.etype).value)
        && Seal.ChecksumAs(p, FromEtypeId(key.etype).value, key.value,
             payload.value + [0x04, 0x04, flags, 0xff, 0xff, 0xff, 0xff, 0xff] + BePut(sndSeqNum, 8),
             usage, checksum.value)
    {
      hide Seal.ChecksumAs;
      MicChecksumIs(p, State(), key, usage);
      var expected :- ComputeChecksum(p, key, usage);
      if checksum.None? { return Err(MissingGssChecksum); }
      var equal := Seal.ConstantTimeEq(expected, checksum.value);
      return if equal then Ok(true) else Err(GssChecksumMismatch);
    }
  }

  /** Every accepted MIC token encodes back to the very bytes it came from. */
  lemma MicCanonical(s: seq<byte>, expectFromAcceptor: bool)
    requires DecodeMic(s, expectFromAcceptor).Ok?
    ensures EncodeMic(DecodeMic(s, expectFromAcceptor).value) == Ok(s)
  {
    BeValPut(s[8..16]);
    assert s == [s[0], s[1], s[2]] + s[3..8] + s[8..16] + s[16..];
  }

  /** Every accepted Wrap token encodes back to the very bytes it came from. */
  lemma WrapCanonical(s: seq<byte>, expectFromAcceptor: bool)
    requires DecodeWrap(s, expectFromAcceptor).Ok?
    ensures EncodeWrap(DecodeWrap(s, expectFromAcceptor).value) == Ok(s)
  {
    BeValPut(s[4..6]);
    BeValPut(s[6..8]);
    BeValPut(s[8..16]);
    var w := DecodeWrap(s, expectFromAcceptor).value;
    assert s[..16] == [s[0], s[1], s[2], s[3]] + s[4..6] + s[6..8] + s[8..16];
    assert w.flags == s[2] && s[0] == 0x05 && s[1] == 0x04 && s[3] == 0xff;
    assert BePut(w.ec, 2) == s[4..6] && BePut(w.rrc, 2) == s[6..8] && BePut(w.sndSeqNum, 8) == s[8..16];
    assert Header(w, w.rrc) == s[..16];
    assert s == s[..16] + s[16..];
    if !IsSealed(w.flags) { assert s[16..] == s[16..|s| - w.ec] + s[|s| - w.ec..]; }
  }
}
