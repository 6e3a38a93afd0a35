/** The four confounder-plus-MAC message formats (src/crypto.rs). */
module Seal {
  import opened Bytes
  import opened CryptoError
  import opened Cbc
  import opened Cts
  import opened Derive

  // ------------------------------------------------------------------
  // Constant-time comparison

  /** Bitwise or of two naturals. */
  function OrNat(a: nat, b: nat): nat
    decreases a + b
  {
    if a == 0 && b == 0 then 0
    else 2 * OrNat(a / 2, b / 2) + (if a % 2 == 1 || b % 2 == 1 then 1 else 0)
  }

  lemma {:induction false} OrNatZero(a: nat, b: nat)
    ensures OrNat(a, b) == 0 <==> a == 0 && b == 0
    decreases a + b
  {
    if a > 0 || b > 0 { OrNatZero(a / 2, b / 2); }
  }

  lemma {:induction false} XorNatZero(a: nat, b: nat)
    ensures XorNat(a, b) == 0 <==> a == b
  {
    XorNatUndone(a, b);
    XorZero(b);
    XorSelf(a);
  }

  /** `constant_time_eq`. */
  method ConstantTimeEq(a: seq<byte>, b: seq<byte>) returns (equal: bool)
    ensures equal <==> a == b
  {
    if |a| != |b| { return false; }
    var diff := 0;
    for i := 0 to |a|
      invariant diff == 0 <==> a[..i] == b[..i]
    {
      OrNatZero(diff, Xor(a[i], b[i]));
      XorNatZero(a[i], b[i]);
      assert a[..i + 1] == a[..i] + [a[i]] && b[..i + 1] == b[..i] + [b[i]];
      diff := OrNat(diff, Xor(a[i], b[i]));
    }
    assert a[..|a|] == a && b[..|b|] == b;
    equal := diff == 0;
  }

  // ------------------------------------------------------------------
  // RC4

  /** The usage number RC4-HMAC signs under. */
  function MsUsage(usage: nat): nat
  {
    if usage == 3 || usage == 9 then 8 else if usage == 23 then 13 else usage
  }

  /** Seven bits a byte, least significant first, in at most `k` bytes. */
  function Varint(usage: nat, k: nat): (r: seq<byte>)
    ensures |r| == k
  {
    if k == 0 then []
    else if usage < 0x80 then [usage] + Zeros(k - 1)
    else [usage % 0x80 + 0x80] + Varint(usage / 0x80, k - 1)
  }

  /** The usage number in a message type. */
  function VarintValue(s: seq<byte>): nat
  {
    if s == [] then 0
    else if s[0] < 0x80 then s[0]
    else s[0] - 0x80 + 0x80 * VarintValue(s[1..])
  }

  /** Usage numbers below 2^28 stay distinguishable. */
  lemma {:induction false} VarintInverse(usage: nat, k: nat)
    requires usage < Pow(0x80, k)
    ensures VarintValue(Varint(usage, k)) == usage
  {
    if k > 0 && usage >= 0x80 {
      VarintInverse(usage / 0x80, k - 1);
      assert Varint(usage, k)[1..] == Varint(usage / 0x80, k - 1);
    }
  }

  /** The four bytes written out: each but the last holds seven bits and the mark that more follow. */
  lemma VarintBytes(usage: nat)
    ensures var a := usage / 0x80;
            var b := a / 0x80;
            Varint(usage, 4) ==
              if usage < 0x80 then [usage, 0, 0, 0]
              else if a < 0x80 then [usage % 0x80 + 0x80, a, 0, 0]
              else if b < 0x80 then [usage % 0x80 + 0x80, a % 0x80 + 0x80, b, 0]
              else
                [usage % 0x80 + 0x80, a % 0x80 + 0x80, b % 0x80 + 0x80,
                 if b / 0x80 < 0x80 then b / 0x80 else b / 0x80 % 0x80 + 0x80]
  {
    var a := usage / 0x80;
    var b := a / 0x80;
    VarintStep(usage, 4);
    VarintStep(a, 3);
    VarintStep(b, 2);
    VarintStep(b / 0x80, 1);
    assert Varint(usage, 4) == [Varint(usage, 4)[0]] + Varint(usage, 4)[1..];
    assert Varint(a, 3) == [Varint(a, 3)[0]] + Varint(a, 3)[1..];
    assert Varint(b, 2) == [Varint(b, 2)[0]] + Varint(b, 2)[1..];
  }

  lemma VarintStep(rest: nat, k: nat)
    requires k > 0
    ensures rest < 0x80 ==> Varint(rest, k)[0] == rest && Varint(rest, k)[1..] == Zeros(k - 1)
    ensures rest >= 0x80 ==>
      && Varint(rest, k)[0] == rest % 0x80 + 0x80
      && Varint(rest, k)[1..] == Varint(rest / 0x80, k - 1)
  {
  }

  /** `rc4_hmac_usage_to_ms_msg_type`. */
  method MsMsgType(usage: nat) returns (out: seq<byte>)
    ensures out == Varint(MsUsage(usage), 4)
  {
    var rest := MsUsage(usage);
    out := Zeros(4);
    ghost var total := Varint(rest, 4);
    assert total[0..] == total;
    var i := 0;
    while i < |out|
      invariant 0 <= i <= 4 && |out| == 4
      invariant forall j :: 0 <= j < i ==> out[j] == total[j]
      invariant forall j :: i <= j < 4 ==> out[j] == 0
      invariant total[i..] == Varint(rest, 4 - i)
    {
      VarintStep(rest, 4 - i);
      assert total[i] == total[i..][0] && total[i + 1..] == total[i..][1..];
      if rest < 0x80 {
        out := out[i := rest];
        assert forall j :: i < j < 4 ==> total[j] == total[i + 1..][j - i - 1];
        break;
      }
      out := out[i := rest % 0x80 + 0x80];
      rest := rest / 0x80;
      i := i + 1;
    }
    assert out == total;
  }

  function Keystream(p: Primitives, key: seq<byte>, len: nat): (r: seq<byte>)
    ensures |r| == len
  {
    seq<byte>(len, i requires 0 <= i < len => p.rc4Stream(key, i))
  }

  /** `rc4_hmac_crypt`. */
  function Rc4Crypt(p: Primitives, key: seq<byte>, input: seq<byte>): (r: seq<byte>)
    ensures |r| == |input| && forall i :: 0 <= i < |r| ==> r[i] == Xor(input[i], p.rc4Stream(key, i))
  {
    XorSeq(input, Keystream(p, key, |input|))
  }

  lemma Rc4CryptTwice(p: Primitives, key: seq<byte>, input: seq<byte>)
    ensures Rc4Crypt(p, key, Rc4Crypt(p, key, input)) == input
  {
    XorSeqUndone(input, Keystream(p, key, |input|));
  }

  // ------------------------------------------------------------------
  // What a sealed message is

  function EncKey(p: Primitives, e: Etype, key: seq<byte>, usage: nat): (r: seq<byte>)
    requires Sound(p) && |key| == KeyLen(e)
    ensures |r| == KeyLen(e)
  {
    KeyFor(p, e, key, UsageConstant(usage, 0xaa))
  }

  function IntKey(p: Primitives, e: Etype, key: seq<byte>, usage: nat): seq<byte>
    requires Sound(p) && |key| == KeyLen(e)
  {
    KeyFor(p, e, key, UsageConstant(usage, 0x55))
  }

  /** The plaintext under the MAC: confounder and message, padded for DES3. */
  function Plain(e: Etype, conf: seq<byte>, message: seq<byte>): (r: seq<byte>)
    ensures |r| >= |conf| + |message|
  {
    if e.Des3? then PadTo(conf + message, 8) else conf + message
  }

  /** The block-cipher layer of the AES and DES3 formats. */
  function Cover(p: Primitives, e: Etype, key: seq<byte>, usage: nat, plain: seq<byte>): (r: seq<byte>)
    requires Sound(p) && |key| == KeyLen(e) && !e.Rc4? && |plain| >= ConfounderLen(e)
    requires e.Des3? ==> Whole(|plain|, 8)
    ensures |r| == |plain|
  {
    var c := CipherOf(p, e, EncKey(p, e, key, usage));
    if e.Des3? then CbcEnc(c, Iv(c), plain) else CtsEnc(c, plain)
  }

  function Uncover(p: Primitives, e: Etype, key: seq<byte>, usage: nat, x: seq<byte>): (r: seq<byte>)
    requires Sound(p) && |key| == KeyLen(e) && !e.Rc4? && |x| >= ConfounderLen(e)
    requires e.Des3? ==> Whole(|x|, 8)
    ensures |r| == |x|
  {
    var c := CipherOf(p, e, EncKey(p, e, key, usage));
    if e.Des3? then CbcDec(c, Iv(c), x) else CtsDec(c, x)
  }

  lemma CoverUncover(p: Primitives, e: Etype, key: seq<byte>, usage: nat, s: seq<byte>)
    requires Sound(p) && |key| == KeyLen(e) && !e.Rc4? && |s| >= ConfounderLen(e)
    requires e.Des3? ==> Whole(|s|, 8)
    ensures Uncover(p, e, key, usage, Cover(p, e, key, usage, s)) == s
    ensures Cover(p, e, key, usage, Uncover(p, e, key, usage, s)) == s
  {
    var c := CipherOf(p, e, EncKey(p, e, key, usage));
    if e.Des3? {
      CbcDecEnc(c, Iv(c), s);
      CbcEncDec(c, Iv(c), s);
    } else {
      CtsDecEnc(c, s);
      CtsEncDec(c, s);
    }
  }

  /** The MAC: over the plaintext, but for RFC 8009 over a zero vector and the ciphertext. */
  function MacOf(p: Primitives, e: Etype, key: seq<byte>, usage: nat, plain: seq<byte>, x: seq<byte>): (r: seq<byte>)
    requires Sound(p) && |key| == KeyLen(e)
    ensures |r| == HmacLen(e)
  {
    match e
    case Aes128Sha1 | Aes256Sha1 => p.hmacSha1(IntKey(p, e, key, usage), plain)[..12]
    case Aes128Sha2 => p.hmacSha256(IntKey(p, e, key, usage), Zeros(16) + x)[..16]
    case Aes256Sha2 => p.hmacSha384(IntKey(p, e, key, usage), Zeros(16) + x)[..24]
    case Des3 => p.hmacSha1(IntKey(p, e, key, usage), plain)
    case Rc4 => p.hmacMd5(Rc4UsageKey(p, key, usage), plain)
  }

  function Rc4UsageKey(p: Primitives, key: seq<byte>, usage: nat): seq<byte>
  {
    p.hmacMd5(key, Varint(MsUsage(usage), 4))
  }

  /** The sealed form of a message. */
  function Sealed(p: Primitives, e: Etype, key: seq<byte>, message: seq<byte>, usage: nat, conf: seq<byte>)
    : (r: seq<byte>)
    requires Sound(p) && |key| == KeyLen(e) && |conf| == ConfounderLen(e)
    ensures |r| >= HmacLen(e) + ConfounderLen(e) + |message|
  {
    var plain := Plain(e, conf, message);
    if e.Rc4? then
      var mac := MacOf(p, e, key, usage, plain, []);
      mac + Rc4Crypt(p, p.hmacMd5(Rc4UsageKey(p, key, usage), mac), plain)
    else
      var x := Cover(p, e, key, usage, plain);
      x + MacOf(p, e, key, usage, plain, x)
  }

  /** What opening a byte string gives. */
  function Opened(p: Primitives, e: Etype, key: seq<byte>, x: seq<byte>, usage: nat): (r: Result<seq<byte>, Error>)
    requires Sound(p)
  {
    if |key| != KeyLen(e) then Err(InvalidKeyLength(KeyLen(e), |key|))
    else if |x| < HmacLen(e) + ConfounderLen(e) then
      Err(CiphertextTooShort(HmacLen(e) + ConfounderLen(e), |x|))
    else if e.Rc4? then
      var mac := x[..16];
      var plain := Rc4Crypt(p, p.hmacMd5(Rc4UsageKey(p, key, usage), mac), x[16..]);
      if MacOf(p, e, key, usage, plain, []) == mac then Ok(plain[8..]) else Err(IntegrityCheckFailed)
    else
      var body, mac := x[..|x| - HmacLen(e)], x[|x| - HmacLen(e)..];
      if e.Des3? && !Whole(|body|, 8) then Err(InvalidCiphertextBlockSize(8, |body|)) else
      var plain := Uncover(p, e, key, usage, body);
      if MacOf(p, e, key, usage, plain, body) == mac then Ok(plain[ConfounderLen(e)..])
      else Err(IntegrityCheckFailed)
  }

  // ------------------------------------------------------------------
  // The four formats in terms of the primitives

  /** `x` is the sealed message of each etype: what is encrypted under the key for 0xaa, and what the MAC under
      the key for 0x55 covers. */
  ghost predicate SealedAs(p: Primitives, e: Etype, key: seq<byte>, message: seq<byte>, usage: nat, conf: seq<byte>,
                           x: seq<byte>)
    requires Sound(p) && |key| == KeyLen(e) && |conf| == ConfounderLen(e)
  {
    var ke := KeyFor(p, e, key, UsageConstant(usage, 0xaa));
    var ki := KeyFor(p, e, key, UsageConstant(usage, 0x55));
    var plain := conf + message;
    match e
    case Aes128Sha1 => x == CtsEnc(p.aes(ke), plain) + p.hmacSha1(ki, plain)[..12]
    case Aes256Sha1 => x == CtsEnc(p.aes(ke), plain) + p.hmacSha1(ki, plain)[..12]
    case Aes128Sha2 =>
      var body := CtsEnc(p.aes(ke), plain);
      x == body + p.hmacSha256(ki, Zeros(16) + body)[..16]
    case Aes256Sha2 =>
      var body := CtsEnc(p.aes(ke), plain);
      x == body + p.hmacSha384(ki, Zeros(16) + body)[..24]
    case Des3 =>
      var padded := PadTo(plain, 8);
      x == CbcEnc(p.tripleDes(ke), Zeros(8), padded) + p.hmacSha1(ki, padded)
    case Rc4 =>
      var usageKey := p.hmacMd5(key, Varint(if usage in {3, 9} then 8 else if usage == 23 then 13 else usage, 4));
      var mac := p.hmacMd5(usageKey, plain);
      x == mac + Rc4Crypt(p, p.hmacMd5(usageKey, mac), plain)
  }

  /** `r` is what opening `x` must give: the message behind the confounder, exactly when the last bytes (the first
      for RC4) are the MAC that sealing that plaintext makes. */
  ghost predicate OpenedAs(p: Primitives, e: Etype, key: seq<byte>, x: seq<byte>, usage: nat,
                           r: Result<seq<byte>, Error>)
    requires Sound(p) && |key| == KeyLen(e) && |x| >= HmacLen(e) + ConfounderLen(e)
  {
    var ke := KeyFor(p, e, key, UsageConstant(usage, 0xaa));
    var ki := KeyFor(p, e, key, UsageConstant(usage, 0x55));
    match e
    case Aes128Sha1 =>
      var plain := CtsDec(p.aes(ke), x[..|x| - 12]);
      r == if p.hmacSha1(ki, plain)[..12] == x[|x| - 12..] then Ok(plain[16..]) else Err(IntegrityCheckFailed)
    case Aes256Sha1 =>
      var plain := CtsDec(p.aes(ke), x[..|x| - 12]);
      r == if p.hmacSha1(ki, plain)[..12] == x[|x| - 12..] then Ok(plain[16..]) else Err(IntegrityCheckFailed)
    case Aes128Sha2 =>
      var body := x[..|x| - 16];
      r == if p.hmacSha256(ki, Zeros(16) + body)[..16] == x[|x| - 16..] then Ok(CtsDec(p.aes(ke), body)[16..])
           else Err(IntegrityCheckFailed)
    case Aes256Sha2 =>
      var body := x[..|x| - 24];
      r == if p.hmacSha384(ki, Zeros(16) + body)[..24] == x[|x| - 24..] then Ok(CtsDec(p.aes(ke), body)[16..])
           else Err(IntegrityCheckFailed)
    case Des3 =>
      var body := x[..|x| - 20];
      if !Whole(|body|, 8) then r == Err(InvalidCiphertextBlockSize(8, |body|)) else
      var plain := CbcDec(p.tripleDes(ke), Zeros(8), body);
      r == if p.hmacSha1(ki, plain) == x[|x| - 20..] then Ok(plain[8..]) else Err(IntegrityCheckFailed)
    case Rc4 =>
      var usageKey := p.hmacMd5(key, Varint(if usage in {3, 9} then 8 else if usage == 23 then 13 else usage, 4));
      var plain := Rc4Crypt(p, p.hmacMd5(usageKey, x[..16]), x[16..]);
      r == if p.hmacMd5(usageKey, plain) == x[..16] then Ok(plain[8..]) else Err(IntegrityCheckFailed)
  }

  lemma SealedIs(p: Primitives, e: Etype, key: seq<byte>, message: seq<byte>, usage: nat, conf: seq<byte>)
    requires Sound(p) && |key| == KeyLen(e) && |conf| == ConfounderLen(e)
    ensures SealedAs(p, e, key, message, usage, conf, Sealed(p, e, key, message, usage, conf))
  {
    hide CbcEnc, CtsEnc, KeyFor, Rc4Crypt, Varint, PadTo;
  }

  lemma OpenedIs(p: Primitives, e: Etype, key: seq<byte>, x: seq<byte>, usage: nat)
    requires Sound(p) && |key| == KeyLen(e) && |x| >= HmacLen(e) + ConfounderLen(e)
    ensures OpenedAs(p, e, key, x, usage, Opened(p, e, key, x, usage))
  {
    hide CbcDec, CtsDec, KeyFor, Rc4Crypt, Varint;
  }

  // ------------------------------------------------------------------
  // Opening undoes sealing, and accepts nothing else

  /** The message as it comes back: DES3 keeps the zeros that fill its last block. */
  function Returned(e: Etype, message: seq<byte>): (r: seq<byte>)
    ensures message <= r
    ensures !e.Des3? ==> r == message
    ensures e.Des3? ==> Whole(|r|, 8) && |r| < |message| + 8
    ensures forall i :: |message| <= i < |r| ==> r[i] == 0
  {
    if e.Des3? then PadTo(message, 8) else message
  }

  lemma PlainTail(e: Etype, conf: seq<byte>, message: seq<byte>)
    requires |conf| == ConfounderLen(e)
    ensures Plain(e, conf, message) == conf + Returned(e, message)
  {
    if e.Des3? {
      var n: nat := 8;
      if message == [] {
        assert ShortOf(8, n) == 8;
        assert conf + message == conf;
      } else {
        assert ShortOf(|conf + message|, n) == ShortOf(|message|, n);
        assert PadTo(conf + message, n) == conf + PadTo(message, n);
      }
    }
  }

  lemma OpenUndoesSealRc4(p: Primitives, key: seq<byte>, message: seq<byte>, usage: nat, conf: seq<byte>)
    requires Sound(p) && |key| == 16 && |conf| == 8
    ensures Opened(p, Rc4, key, Sealed(p, Rc4, key, message, usage, conf), usage) == Ok(message)
  {
    var plain := Plain(Rc4, conf, message);
    var x := Sealed(p, Rc4, key, message, usage, conf);
    var mac := MacOf(p, Rc4, key, usage, plain, []);
    var k := p.hmacMd5(Rc4UsageKey(p, key, usage), mac);
    assert x[..16] == mac && x[16..] == Rc4Crypt(p, k, plain);
    Rc4CryptTwice(p, k, plain);
    assert plain[8..] == message;
  }

  /** Opening the block-cipher formats, given the plaintext and the body. */
  lemma OpenBody(p: Primitives, e: Etype, key: seq<byte>, usage: nat, body: seq<byte>, mac: seq<byte>)
    requires Sound(p) && |key| == KeyLen(e) && !e.Rc4? && |body| >= ConfounderLen(e) && |mac| == HmacLen(e)
    requires e.Des3? ==> Whole(|body|, 8)
    ensures var plain := Uncover(p, e, key, usage, body);
            Opened(p, e, key, body + mac, usage)
            == if MacOf(p, e, key, usage, plain, body) == mac then Ok(plain[ConfounderLen(e)..])
               else Err(IntegrityCheckFailed)
  {
    var x := body + mac;
    assert x[..|x| - HmacLen(e)] == body && x[|x| - HmacLen(e)..] == mac;
  }

  lemma OpenUndoesSealBlock(p: Primitives, e: Etype, key: seq<byte>, message: seq<byte>, usage: nat, conf: seq<byte>)
    requires Sound(p) && |key| == KeyLen(e) && |conf| == ConfounderLen(e) && !e.Rc4?
    ensures Opened(p, e, key, Sealed(p, e, key, message, usage, conf), usage) == Ok(Returned(e, message))
  {
    var plain := Plain(e, conf, message);
    PlainTail(e, conf, message);
    var body := Cover(p, e, key, usage, plain);
    OpenBody(p, e, key, usage, body, MacOf(p, e, key, usage, plain, body));
    CoverUncover(p, e, key, usage, plain);
    assert plain[ConfounderLen(e)..] == Returned(e, message);
  }

  /** Every sealed message opens to exactly what was sealed. */
  lemma OpenUndoesSeal(p: Primitives, e: Etype, key: seq<byte>, message: seq<byte>, usage: nat, conf: seq<byte>)
    requires Sound(p) && |key| == KeyLen(e) && |conf| == ConfounderLen(e)
    ensures Opened(p, e, key, Sealed(p, e, key, message, usage, conf), usage) == Ok(Returned(e, message))
  {
    if e.Rc4? {
      OpenUndoesSealRc4(p, key, message, usage, conf);
    } else {
      OpenUndoesSealBlock(p, e, key, message, usage, conf);
    }
  }

  lemma SealUndoesOpenRc4(p: Primitives, key: seq<byte>, x: seq<byte>, usage: nat, message: seq<byte>)
    returns (conf: seq<byte>)
    requires Sound(p) && Opened(p, Rc4, key, x, usage) == Ok(message)
    ensures |key| == 16 && |conf| == 8 && Sealed(p, Rc4, key, message, usage, conf) == x
  {
    var k := p.hmacMd5(Rc4UsageKey(p, key, usage), x[..16]);
    var plain := Rc4Crypt(p, k, x[16..]);
    conf := plain[..8];
    assert conf + message == plain;
    Rc4CryptTwice(p, k, x[16..]);
    assert x == x[..16] + x[16..];
  }

  lemma SealUndoesOpenBlock(p: Primitives, e: Etype, key: seq<byte>, x: seq<byte>, usage: nat, message: seq<byte>)
    returns (conf: seq<byte>)
    requires Sound(p) && !e.Rc4? && Opened(p, e, key, x, usage) == Ok(message)
    ensures |key| == KeyLen(e) && |conf| == ConfounderLen(e)
    ensures Sealed(p, e, key, message, usage, conf) == x && Returned(e, message) == message
  {
    hide MacOf, Cover, Uncover, Plain, Sealed, Returned;
    var body, mac := x[..|x| - HmacLen(e)], x[|x| - HmacLen(e)..];
    assert x == body + mac;
    var plain := Uncover(p, e, key, usage, body);
    conf := plain[..ConfounderLen(e)];
    OpenBody(p, e, key, usage, body, mac);
    assert message == plain[ConfounderLen(e)..] && mac == MacOf(p, e, key, usage, plain, body);
    assert plain == conf + message;
    PlainWhole(e, conf, message);
    SealBody(p, e, key, usage, body, conf, message);
  }

  lemma PlainWhole(e: Etype, conf: seq<byte>, message: seq<byte>)
    requires |conf| == ConfounderLen(e) && (e.Des3? ==> Whole(|conf + message|, 8))
    ensures Plain(e, conf, message) == conf + message && Returned(e, message) == message
  {
    if e.Des3? { assert Whole(|message|, 8); }
  }

  lemma SealBody(p: Primitives, e: Etype, key: seq<byte>, usage: nat, body: seq<byte>, conf: seq<byte>,
                 message: seq<byte>)
    requires Sound(p) && |key| == KeyLen(e) && !e.Rc4? && |conf| == ConfounderLen(e)
    requires |body| >= |conf| && (e.Des3? ==> Whole(|body|, 8))
    requires Uncover(p, e, key, usage, body) == Plain(e, conf, message)
    ensures Sealed(p, e, key, message, usage, conf)
         == body + MacOf(p, e, key, usage, Plain(e, conf, message), body)
  {
    CoverUncover(p, e, key, usage, body);
  }

  /** Whatever opens was sealed: the confounder found inside rebuilds the very same bytes. */
  lemma SealUndoesOpen(p: Primitives, e: Etype, key: seq<byte>, x: seq<byte>, usage: nat, message: seq<byte>)
    returns (conf: seq<byte>)
    requires Sound(p) && Opened(p, e, key, x, usage) == Ok(message)
    ensures |key| == KeyLen(e) && |conf| == ConfounderLen(e)
    ensures Sealed(p, e, key, message, usage, conf) == x && Returned(e, message) == message
  {
    if e.Rc4? {
      conf := SealUndoesOpenRc4(p, key, x, usage, message);
    } else {
      conf := SealUndoesOpenBlock(p, e, key, x, usage, message);
    }
  }

  /** `decrypt_message` accepts exactly the byte strings `encrypt_message` can produce. */
  lemma OpensExactlySealed(p: Primitives, e: Etype, key: seq<byte>, x: seq<byte>, usage: nat, message: seq<byte>)
    requires Sound(p) && |key| == KeyLen(e) && Returned(e, message) == message
    ensures Opened(p, e, key, x, usage) == Ok(message)
       <==> exists conf :: |conf| == ConfounderLen(e) && x == Sealed(p, e, key, message, usage, conf)
  {
    if Opened(p, e, key, x, usage) == Ok(message) {
      var conf := SealUndoesOpen(p, e, key, x, usage, message);
    }
    forall conf | |conf| == ConfounderLen(e) && x == Sealed(p, e, key, message, usage, conf)
      ensures Opened(p, e, key, x, usage) == Ok(message)
    {
      OpenUndoesSeal(p, e, key, message, usage, conf);
    }
  }

  // ------------------------------------------------------------------
  // The code

  function SealResult(p: Primitives, e: Etype, key: seq<byte>, message: seq<byte>, usage: nat, conf: seq<byte>)
    : Result<seq<byte>, Error>
    requires Sound(p)
  {
    if |key| != KeyLen(e) then Err(InvalidKeyLength(KeyLen(e), |key|))
    else if |conf| != ConfounderLen(e) then Err(InvalidConfounderLength(ConfounderLen(e), |conf|))
    else Ok(Sealed(p, e, key, message, usage, conf))
  }

  /** The MAC under the derived integrity key. */
  method ComputeMac(p: Primitives, e: Etype, key: seq<byte>, usage: nat, plain: seq<byte>, x: seq<byte>)
    returns (mac: seq<byte>)
    requires Sound(p) && |key| == KeyLen(e) && !e.Rc4?
    ensures mac == MacOf(p, e, key, usage, plain, x)
  {
    var k := DeriveKey(p, e, key, UsageConstant(usage, 0x55));
    match e
    case Aes128Sha1 | Aes256Sha1 => mac := p.hmacSha1(k.value, plain)[..12];
    case Aes128Sha2 => mac := p.hmacSha256(k.value, Zeros(16) + x)[..16];
    case Aes256Sha2 => mac := p.hmacSha384(k.value, Zeros(16) + x)[..24];
    case Des3 => mac := p.hmacSha1(k.value, plain);
  }

  /** `encrypt_message_with_confounder`, for every etype. */
  method EncryptMessage(p: Primitives, e: Etype, key: seq<byte>, message: seq<byte>, usage: nat, conf: seq<byte>)
    returns (r: Result<seq<byte>, Error>)
    requires Sound(p)
    ensures r == SealResult(p, e, key, message, usage, conf)
    ensures r.Ok? <==> |key| == KeyLen(e) && |conf| == ConfounderLen(e)
    ensures r.Ok? ==> SealedAs(p, e, key, message, usage, conf, r.value)
  {
    hide SealedAs;
    if |key| != KeyLen(e) { return Err(InvalidKeyLength(KeyLen(e), |key|)); }
    if |conf| != ConfounderLen(e) { return Err(InvalidConfounderLength(ConfounderLen(e), |conf|)); }
    SealedIs(p, e, key, message, usage, conf);
    var plain := conf + message;
    if e.Rc4? {
      var msgType := MsMsgType(usage);
      var usageKey := p.hmacMd5(key, msgType);
      var checksum := p.hmacMd5(usageKey, plain);
      var encrypted := Rc4Crypt(p, p.hmacMd5(usageKey, checksum), plain);
      return Ok(checksum + encrypted);
    }
    if e.Des3? { plain := ZeroPad(plain, 8); }
    var k := DeriveKey(p, e, key, UsageConstant(usage, 0xaa));
    var c := CipherOf(p, e, k.value);
    var encrypted;
    if e.Des3? {
      encrypted := Des3CbcEncrypt(c, plain);
    } else {
      encrypted := AesCtsEncrypt(c, plain);
    }
    var mac := ComputeMac(p, e, key, usage, plain, encrypted.value.1);
    return Ok(encrypted.value.1 + mac);
  }

  /** `decrypt_message`, for every etype. The plaintext is never shorter than the confounder, so the
      source's check for that cannot fail and is not repeated. */
  method DecryptMessage(p: Primitives, e: Etype, key: seq<byte>, ciphertext: seq<byte>, usage: nat)
    returns (r: Result<seq<byte>, Error>)
    requires Sound(p)
    ensures r == Opened(p, e, key, ciphertext, usage)
    ensures |key| == KeyLen(e) && |ciphertext| >= HmacLen(e) + ConfounderLen(e) ==>
      OpenedAs(p, e, key, ciphertext, usage, r)
  {
    hide OpenedAs, CbcDec, CtsDec, KeyFor, Rc4Crypt, Varint;
    if |key| != KeyLen(e) { return Err(InvalidKeyLength(KeyLen(e), |key|)); }
    var minimum := HmacLen(e) + ConfounderLen(e);
    if |ciphertext| < minimum { return Err(CiphertextTooShort(minimum, |ciphertext|)); }
    OpenedIs(p, e, key, ciphertext, usage);
    var plain, mac, expected;
    if e.Rc4? {
      mac := ciphertext[..16];
      var msgType := MsMsgType(usage);
      var usageKey := p.hmacMd5(key, msgType);
      plain := Rc4Crypt(p, p.hmacMd5(usageKey, mac), ciphertext[16..]);
      expected := p.hmacMd5(usageKey, plain);
    } else {
      var encrypted := ciphertext[..|ciphertext| - HmacLen(e)];
      mac := ciphertext[|ciphertext| - HmacLen(e)..];
      var k := DeriveKey(p, e, key, UsageConstant(usage, 0xaa));
      var c := CipherOf(p, e, k.value);
      var decrypted;
      if e.Des3? {
        decrypted := Des3CbcDecrypt(c, encrypted);
        if decrypted.Err? { return decrypted; }
      } else {
        decrypted := AesCtsDecrypt(c, encrypted);
      }
      plain := decrypted.value;
      expected := ComputeMac(p, e, key, usage, plain, encrypted);
    }
    var intact := ConstantTimeEq(expected, mac);
    if !intact { return Err(IntegrityCheckFailed); }
    return Ok(plain[ConfounderLen(e)..]);
  }

  // ------------------------------------------------------------------
  // Checksums

  const SIGNATURE_KEY: seq<byte> :=
    [0x73, 0x69, 0x67, 0x6e, 0x61, 0x74, 0x75, 0x72, 0x65, 0x6b, 0x65, 0x79, 0x00]

  /** The keyed checksum of an etype. */
  function ChecksumOf(p: Primitives, e: Etype, key: seq<byte>, data: seq<byte>, usage: nat): (r: seq<byte>)
    requires Sound(p) && |key| == KeyLen(e)
    ensures |r| == HmacLen(e)
  {
    var k := KeyFor(p, e, key, UsageConstant(usage, 0x99));
    match e
    case Aes128Sha1 | Aes256Sha1 => p.hmacSha1(k, data)[..12]
    case Aes128Sha2 => p.hmacSha256(k, data)[..16]
    case Aes256Sha2 => p.hmacSha384(k, data)[..24]
    case Des3 => p.hmacSha1(k, data)
    case Rc4 => p.hmacMd5(p.hmacMd5(key, SIGNATURE_KEY), p.md5(Varint(MsUsage(usage), 4) + data))
  }

  /** The checksum of each etype in terms of the primitives: it covers all of `data`, under the key for 0x99. */
  ghost predicate ChecksumAs(p: Primitives, e: Etype, key: seq<byte>, data: seq<byte>, usage: nat, r: seq<byte>)
    requires Sound(p) && |key| == KeyLen(e)
  {
    var kc := KeyFor(p, e, key, UsageConstant(usage, 0x99));
    match e
    case Aes128Sha1 => r == p.hmacSha1(kc, data)[..12]
    case Aes256Sha1 => r == p.hmacSha1(kc, data)[..12]
    case Aes128Sha2 => r == p.hmacSha256(kc, data)[..16]
    case Aes256Sha2 => r == p.hmacSha384(kc, data)[..24]
    case Des3 => r == p.hmacSha1(kc, data)
    case Rc4 =>
      var msgType := Varint(if usage in {3, 9} then 8 else if usage == 23 then 13 else usage, 4);
      r == p.hmacMd5(p.hmacMd5(key, Ascii("signaturekey") + [0]), p.md5(msgType + data))
  }

  lemma ChecksumIs(p: Primitives, e: Etype, key: seq<byte>, data: seq<byte>, usage: nat)
    requires Sound(p) && |key| == KeyLen(e)
    ensures ChecksumAs(p, e, key, data, usage, ChecksumOf(p, e, key, data, usage))
  {
    hide KeyFor, Varint;
    assert SIGNATURE_KEY == Ascii("signaturekey") + [0];
  }

  /** `checksum`, for every etype. */
  method Checksum(p: Primitives, e: Etype, key: seq<byte>, data: seq<byte>, usage: nat)
    returns (r: Result<seq<byte>, Error>)
    requires Sound(p)
    ensures |key| != KeyLen(e) ==> r == Err(InvalidKeyLength(KeyLen(e), |key|))
    ensures |key| == KeyLen(e) ==>
      r == Ok(ChecksumOf(p, e, key, data, usage)) && ChecksumAs(p, e, key, data, usage, r.value)
  {
    hide ChecksumAs;
    if |key| == KeyLen(e) { ChecksumIs(p, e, key, data, usage); }
    var k :- DeriveKey(p, e, key, UsageConstant(usage, 0x99));
    match e
    case Aes128Sha1 | Aes256Sha1 => r := Ok(p.hmacSha1(k, data)[..12]);
    case Aes128Sha2 => r := Ok(p.hmacSha256(k, data)[..16]);
    case Aes256Sha2 => r := Ok(p.hmacSha384(k, data)[..24]);
    case Des3 => r := Ok(p.hmacSha1(k, data));
    case Rc4 =>
      var msgType := MsMsgType(usage);
      r := Ok(p.hmacMd5(p.hmacMd5(key, SIGNATURE_KEY), p.md5(msgType + data)));
  }
}
