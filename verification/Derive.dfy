/** Etypes, the assumed primitives, and usage-specific keys (src/crypto.rs). */
module Derive {
  import opened Bytes
  import opened CryptoError
  import opened Cbc
  import Cts
  import Nfold
  import Des3Key

  /** `KerberosEtype`. */
  datatype Etype = Aes128Sha1 | Aes256Sha1 | Aes128Sha2 | Aes256Sha2 | Des3 | Rc4

  function FromEtypeId(id: int): (r: Option<Etype>)
    ensures forall e: Etype :: r == Some(e) <==> EtypeId(e) == id
  {
    match id
    case 16 => Some(Des3)
    case 17 => Some(Aes128Sha1)
    case 18 => Some(Aes256Sha1)
    case 19 => Some(Aes128Sha2)
    case 20 => Some(Aes256Sha2)
    case 23 => Some(Rc4)
    case _ => None
  }

  function EtypeId(e: Etype): int
  {
    match e
    case Des3 => 16
    case Aes128Sha1 => 17
    case Aes256Sha1 => 18
    case Aes128Sha2 => 19
    case Aes256Sha2 => 20
    case Rc4 => 23
  }

  function KeyLen(e: Etype): nat
  {
    match e
    case Aes128Sha1 | Aes128Sha2 | Rc4 => 16
    case Aes256Sha1 | Aes256Sha2 => 32
    case Des3 => 24
  }

  function ConfounderLen(e: Etype): nat
  {
    match e
    case Aes128Sha1 | Aes256Sha1 | Aes128Sha2 | Aes256Sha2 => 16
    case Des3 | Rc4 => 8
  }

  function HmacLen(e: Etype): nat
  {
    match e
    case Aes128Sha1 | Aes256Sha1 => 12
    case Aes128Sha2 | Rc4 => 16
    case Aes256Sha2 => 24
    case Des3 => 20
  }

  /** The numbers of each etype: identifier, key, confounder and MAC length. */
  lemma EtypeTable(e: Etype)
    ensures (EtypeId(e), KeyLen(e), ConfounderLen(e), HmacLen(e)) ==
      match e
      case Des3 => (16, 24, 8, 20)
      case Aes128Sha1 => (17, 16, 16, 12)
      case Aes256Sha1 => (18, 32, 16, 12)
      case Aes128Sha2 => (19, 16, 16, 16)
      case Aes256Sha2 => (20, 32, 16, 24)
      case Rc4 => (23, 16, 8, 16)
  {
  }

  /** The primitives of the external crates, as parameters. */
  datatype Primitives = Primitives(
    aes: seq<byte> -> Cipher,
    tripleDes: seq<byte> -> Cipher,
    rc4Stream: (seq<byte>, nat) -> byte,
    md5: seq<byte> -> seq<byte>,
    hmacMd5: (seq<byte>, seq<byte>) -> seq<byte>,
    hmacSha1: (seq<byte>, seq<byte>) -> seq<byte>,
    hmacSha256: (seq<byte>, seq<byte>) -> seq<byte>,
    hmacSha384: (seq<byte>, seq<byte>) -> seq<byte>)

  /** All that is assumed of them: block ciphers undo themselves, digests have their sizes. */
  ghost predicate Sound(p: Primitives)
  {
    && (forall k {:trigger p.aes(k)} :: |k| == 16 || |k| == 32 ==> Lawful(p.aes(k)) && p.aes(k).size == 16)
    && (forall k {:trigger p.tripleDes(k)} :: |k| == 24 ==> Lawful(p.tripleDes(k)) && p.tripleDes(k).size == 8)
    && (forall k, d {:trigger p.hmacMd5(k, d)} :: |p.hmacMd5(k, d)| == 16)
    && (forall k, d {:trigger p.hmacSha1(k, d)} :: |p.hmacSha1(k, d)| == 20)
    && (forall k, d {:trigger p.hmacSha256(k, d)} :: |p.hmacSha256(k, d)| == 32)
    && (forall k, d {:trigger p.hmacSha384(k, d)} :: |p.hmacSha384(k, d)| == 48)
  }

  /** `usage_constant`. */
  function UsageConstant(usage: nat, suffix: byte): (r: seq<byte>)
    ensures |r| == 5 && r[4] == suffix
  {
    BePut(usage, 4) + [suffix]
  }

  /** A usage constant is the big-endian usage number and the suffix. */
  lemma UsageConstantIs(usage: nat, suffix: byte)
    requires usage < U32
    ensures var r := UsageConstant(usage, suffix);
            |r| == 5 && BeVal(r[..4]) == usage && r[4] == suffix
  {
    PowTable();
    BePutVal(usage, 4);
    assert UsageConstant(usage, suffix)[..4] == BePut(usage, 4);
  }

  // ------------------------------------------------------------------
  // Derivation by iterated encryption (RFC 3961)

  /** The first `len` bytes of block, E(block), E(E(block)), ... */
  function Stream(c: Cipher, block: seq<byte>, len: nat): (r: seq<byte>)
    requires Lawful(c) && |block| == c.size
    ensures |r| == len
    decreases len
  {
    if len <= c.size then block[..len] else block + Stream(c, c.enc(block), len - c.size)
  }

  function DeriveRandomOf(c: Cipher, usage: seq<byte>, len: nat): (r: seq<byte>)
    requires Lawful(c) && usage != []
    ensures |r| == len
  {
    Stream(c, c.enc(Nfold.NfoldOf(usage, c.size)), len)
  }

  /** Byte `i` of the derived stream lies in the `i / size`-th iterate. */
  function Iterate(c: Cipher, block: seq<byte>, k: nat): (r: seq<byte>)
    requires Lawful(c) && |block| == c.size
    ensures |r| == c.size
    decreases k
  {
    if k == 0 then block else Iterate(c, c.enc(block), k - 1)
  }

  lemma {:induction false} StreamIsIterates(c: Cipher, block: seq<byte>, len: nat, k: nat, j: nat)
    requires Lawful(c) && |block| == c.size && j < c.size && k * c.size + j < len
    ensures Stream(c, block, len)[k * c.size + j] == Iterate(c, block, k)[j]
    decreases k
  {
    hide Lawful;
    if k > 0 {
      assert (k - 1) * c.size + j == k * c.size + j - c.size;
      assert len > c.size by { MulAtLeast(c.size, k); }
      BlockSize(c, block);
      StreamIsIterates(c, c.enc(block), len - c.size, k - 1, j);
    }
  }

  /** One more iteration is one more encryption of what is there. */
  lemma {:induction false} IterateOut(c: Cipher, block: seq<byte>, k: nat)
    requires Lawful(c) && |block| == c.size
    ensures Iterate(c, block, 0) == block && Iterate(c, block, k + 1) == c.enc(Iterate(c, block, k))
    decreases k
  {
    if k > 0 { IterateOut(c, c.enc(block), k - 1); }
  }

  /** Block after block of `r` is E(folded), E(E(folded)), ..., the last one cut off where `r` ends. */
  ghost predicate IteratesOf(c: Cipher, folded: seq<byte>, r: seq<byte>)
  {
    && Lawful(c) && |folded| == c.size
    && forall i :: 0 <= i < |r| ==> r[i] == Iterate(c, folded, i / c.size + 1)[i % c.size]
  }

  /** `r` is derived from the n-fold of the usage. */
  ghost predicate DerivedFrom(c: Cipher, usage: seq<byte>, r: seq<byte>)
    requires usage != []
  {
    exists folded :: Nfold.IsNfold(usage, c.size, folded) && IteratesOf(c, folded, r)
  }

  lemma DeriveRandomDerived(c: Cipher, usage: seq<byte>, len: nat)
    requires Lawful(c) && usage != []
    ensures DerivedFrom(c, usage, DeriveRandomOf(c, usage, len))
  {
    hide Nfold.IsNfold;
    var folded := Nfold.NfoldOf(usage, c.size);
    var r := DeriveRandomOf(c, usage, len);
    Nfold.NfoldOfIsNfold(usage, c.size);
    forall i | 0 <= i < |r| ensures r[i] == Iterate(c, folded, i / c.size + 1)[i % c.size] {
      StreamByte(c, folded, len, i);
    }
    assert IteratesOf(c, folded, r);
  }

  lemma StreamByte(c: Cipher, folded: seq<byte>, len: nat, i: nat)
    requires Lawful(c) && |folded| == c.size && i < len
    ensures Stream(c, c.enc(folded), len)[i] == Iterate(c, folded, i / c.size + 1)[i % c.size]
  {
    var k, j := i / c.size, i % c.size;
    assert i == k * c.size + j;
    StreamIsIterates(c, c.enc(folded), len, k, j);
  }

  /** And only one byte string of each length is. */
  lemma DerivedUnique(c: Cipher, usage: seq<byte>, x: seq<byte>, y: seq<byte>)
    requires Lawful(c) && usage != [] && |x| == |y| && DerivedFrom(c, usage, x) && DerivedFrom(c, usage, y)
    ensures x == y
  {
    hide Nfold.IsNfold, Iterate;
    var f :| Nfold.IsNfold(usage, c.size, f) && IteratesOf(c, f, x);
    var g :| Nfold.IsNfold(usage, c.size, g) && IteratesOf(c, g, y);
    Nfold.NfoldUnique(usage, c.size, f, g);
  }

  lemma OneBlock(c: Cipher, b: seq<byte>)
    requires Lawful(c) && |b| == c.size
    ensures Cts.CtsEnc(c, b) == c.enc(b)
    ensures Whole(c.size, c.size) && CbcEnc(c, Cts.Iv(c), b) == c.enc(b)
  {
    Cts.WholeBlock(c.size);
    Cts.PaddedLength(c, b);
    CbcOneBlock(c, Cts.Iv(c), b);
    Cts.XorZeros(b);
  }

  /** One call of `encrypt_data` on exactly one block, for the etypes that derive keys with it. */
  method EncryptBlock(c: Cipher, stealing: bool, block: seq<byte>) returns (next: seq<byte>)
    requires Lawful(c) && |block| == c.size
    ensures next == c.enc(block)
  {
    OneBlock(c, block);
    if stealing {
      var r := Cts.AesCtsEncrypt(c, block);
      next := r.value.1;
    } else {
      var r := Des3CbcEncrypt(c, block);
      next := r.value.1;
    }
  }

  lemma StreamStep(c: Cipher, block: seq<byte>, len: nat)
    requires Lawful(c) && |block| == c.size
    ensures len <= c.size ==> Stream(c, block, len) == block[..len]
    ensures len > c.size ==> Stream(c, block, len) == block + Stream(c, c.enc(block), len - c.size)
  {
  }

  /** The loop of `derive_random` that extends the output block by block. */
  method ExtendStream(c: Cipher, stealing: bool, first: seq<byte>, len: nat) returns (out: seq<byte>)
    requires Lawful(c) && |first| == c.size
    ensures out == Stream(c, first, len)
  {
    hide Lawful, Stream;
    out := [];
    var block := first;
    BlockSize(c, first);
    while |out| < len
      invariant |out| <= len && |block| == c.size
      invariant |out| < len ==> Stream(c, first, len) == out + Stream(c, block, len - |out|)
      invariant |out| == len ==> Stream(c, first, len) == out
      decreases len - |out|
    {
      var remaining := len - |out|;
      var take := if remaining < |block| then remaining else |block|;
      BlockSize(c, block);
      StreamStep(c, block, remaining);
      if remaining > |block| { Assoc(out, block, Stream(c, c.enc(block), remaining - c.size)); }
      assert remaining > |block| ==> block[..take] == block;
      out := out + block[..take];
      if |out| < len {
        block := EncryptBlock(c, stealing, block);
      }
    }
  }

  /** `derive_random`. */
  method DeriveRandom(c: Cipher, stealing: bool, usage: seq<byte>, len: nat)
    returns (r: Result<seq<byte>, Error>)
    requires Lawful(c)
    ensures usage == [] ==> r == Err(EmptyUsage)
    ensures usage != [] ==> r == Ok(DeriveRandomOf(c, usage, len))
    ensures usage != [] ==> |r.value| == len && DerivedFrom(c, usage, r.value)
  {
    if usage == [] { return Err(EmptyUsage); }
    assert c.size * 8 / 8 == c.size && c.size * 8 % 8 == 0;
    var folded := Nfold.NfoldBytes(usage, c.size * 8);
    var block := EncryptBlock(c, stealing, folded.value);
    var out := ExtendStream(c, stealing, block, len);
    DeriveRandomDerived(c, usage, len);
    return Ok(out);
  }

  /** `des3_cbc_encrypt`: the next initial vector and the ciphertext of the padded plaintext. */
  method Des3CbcEncrypt(c: Cipher, plaintext: seq<byte>)
    returns (r: Result<(seq<byte>, seq<byte>), Error>)
    requires Lawful(c)
    ensures plaintext == [] ==> r == Err(EmptyPlaintext)
    ensures plaintext != [] ==>
      && r.Ok?
      && r.value.1 == CbcEnc(c, Cts.Iv(c), PadTo(plaintext, c.size))
      && r.value.0 == Last(c, Cts.Iv(c), r.value.1)
  {
    if plaintext == [] { return Err(EmptyPlaintext); }
    var padded := ZeroPad(plaintext, c.size);
    var out, previous := CbcEncrypt(c, Cts.Iv(c), padded);
    return Ok((previous, out));
  }

  /** `des3_cbc_decrypt`. */
  method Des3CbcDecrypt(c: Cipher, ciphertext: seq<byte>) returns (r: Result<seq<byte>, Error>)
    requires Lawful(c)
    ensures |ciphertext| < c.size ==> r == Err(CiphertextTooShort(c.size, |ciphertext|))
    ensures |ciphertext| >= c.size ==>
      if Whole(|ciphertext|, c.size) then r == Ok(CbcDec(c, Cts.Iv(c), ciphertext))
      else r == Err(InvalidCiphertextBlockSize(c.size, |ciphertext|))
  {
    if |ciphertext| < c.size { return Err(CiphertextTooShort(c.size, |ciphertext|)); }
    WholeMod(|ciphertext|, c.size);
    if |ciphertext| % c.size != 0 {
      return Err(InvalidCiphertextBlockSize(c.size, |ciphertext|));
    }
    var plain := CbcDecrypt(c, Cts.Iv(c), ciphertext);
    return Ok(plain);
  }

  // ------------------------------------------------------------------
  // Derivation by HMAC (RFC 8009)

  const KERBEROS_CONSTANT: seq<byte> := [0x6b, 0x65, 0x72, 0x62, 0x65, 0x72, 0x6f, 0x73]

  function DeriveKeyBits(e: Etype, usage: seq<byte>): nat
  {
    if e.Aes128Sha2? then 128
    else if usage == KERBEROS_CONSTANT then 256
    else if usage != [] && usage[|usage| - 1] == 0xaa then 256
    else 192
  }

  /** `kdf_hmac_sha2` with an empty context. */
  function Kdf(p: Primitives, e: Etype, key: seq<byte>, usage: seq<byte>, bits: nat): (r: seq<byte>)
    requires Sound(p) && bits <= 256
    ensures |r| == bits / 8
  {
    var input := BePut(1, 4) + usage + [0] + BePut(bits, 4);
    (if e.Aes128Sha2? then p.hmacSha256(key, input) else p.hmacSha384(key, input))[..bits / 8]
  }

  // ------------------------------------------------------------------
  // The usage-specific key

  function CipherOf(p: Primitives, e: Etype, key: seq<byte>): (c: Cipher)
    requires Sound(p) && !e.Rc4? && |key| == KeyLen(e)
    ensures Lawful(c) && c.size == ConfounderLen(e)
  {
    if e.Des3? then p.tripleDes(key) else p.aes(key)
  }

  /** The key `derive_key` makes from a protocol key of the right length and a nonempty usage. */
  function KeyFor(p: Primitives, e: Etype, key: seq<byte>, usage: seq<byte>): (r: seq<byte>)
    requires Sound(p) && |key| == KeyLen(e) && usage != []
    ensures usage[|usage| - 1] == 0xaa ==> |r| == KeyLen(e)
  {
    match e
    case Aes128Sha1 => DeriveRandomOf(p.aes(key), usage, 16)
    case Aes256Sha1 => DeriveRandomOf(p.aes(key), usage, 32)
    case Aes128Sha2 => Kdf(p, e, key, usage, DeriveKeyBits(e, usage))
    case Aes256Sha2 => Kdf(p, e, key, usage, DeriveKeyBits(e, usage))
    case Des3 => Des3Key.RandomToKey(DeriveRandomOf(p.tripleDes(key), usage, 21))
    case Rc4 => p.hmacMd5(key, usage)
  }

  /** The derived key of each etype, in terms of the primitives. */
  ghost predicate IsKeyFor(p: Primitives, e: Etype, key: seq<byte>, usage: seq<byte>, r: seq<byte>)
    requires Sound(p) && usage != []
  {
    match e
    case Aes128Sha1 => |r| == 16 && DerivedFrom(p.aes(key), usage, r)
    case Aes256Sha1 => |r| == 32 && DerivedFrom(p.aes(key), usage, r)
    case Aes128Sha2 => r == p.hmacSha256(key, [0, 0, 0, 1] + usage + [0] + [0, 0, 0, 128])[..16]
    case Aes256Sha2 =>
      if usage[|usage| - 1] == 0xaa || usage == Ascii("kerberos") then
        r == p.hmacSha384(key, [0, 0, 0, 1] + usage + [0] + [0, 0, 1, 0])[..32]
      else r == p.hmacSha384(key, [0, 0, 0, 1] + usage + [0] + [0, 0, 0, 192])[..24]
    case Des3 => exists seed :: DerivedFrom(p.tripleDes(key), usage, seed) && Des3Key.KeyBlocks(seed, r)
    case Rc4 => r == p.hmacMd5(key, usage)
  }

  lemma Big32()
    ensures BePut(1, 4) == [0, 0, 0, 1] && BePut(128, 4) == [0, 0, 0, 128]
    ensures BePut(192, 4) == [0, 0, 0, 192] && BePut(256, 4) == [0, 0, 1, 0]
  {
    Big32Of(0, 0, 0, 1);
    Big32Of(0, 0, 0, 128);
    Big32Of(0, 0, 0, 192);
    Big32Of(0, 0, 1, 0);
  }

  lemma Big32Of(a: byte, b: byte, c: byte, d: byte)
    ensures BePut(((a * 256 + b) * 256 + c) * 256 + d, 4) == [a, b, c, d]
  {
    BeValFour([a, b, c, d]);
    BeValPut([a, b, c, d]);
  }

  lemma KeyForIs(p: Primitives, e: Etype, key: seq<byte>, usage: seq<byte>)
    requires Sound(p) && |key| == KeyLen(e) && usage != []
    ensures IsKeyFor(p, e, key, usage, KeyFor(p, e, key, usage))
  {
    hide DerivedFrom, DeriveRandomOf, Des3Key.KeyBlocks, Des3Key.RandomToKey, BePut;
    Big32();
    match e
    case Aes128Sha1 => DeriveRandomDerived(p.aes(key), usage, 16);
    case Aes256Sha1 => DeriveRandomDerived(p.aes(key), usage, 32);
    case Des3 =>
      DeriveRandomDerived(p.tripleDes(key), usage, 21);
      Des3Key.RandomToKeyBlocks(DeriveRandomOf(p.tripleDes(key), usage, 21));
    case Aes128Sha2 =>
    case Aes256Sha2 =>
    case Rc4 =>
  }

  /** `derive_key`, for every etype. */
  method DeriveKey(p: Primitives, e: Etype, key: seq<byte>, usage: seq<byte>)
    returns (r: Result<seq<byte>, Error>)
    requires Sound(p)
    ensures |key| != KeyLen(e) ==> r == Err(InvalidKeyLength(KeyLen(e), |key|))
    ensures |key| == KeyLen(e) ==> r == if usage == [] then Err(EmptyUsage) else Ok(KeyFor(p, e, key, usage))
    ensures r.Ok? ==> usage != [] && IsKeyFor(p, e, key, usage, r.value)
  {
    if |key| != KeyLen(e) { return Err(InvalidKeyLength(KeyLen(e), |key|)); }
    if usage != [] { KeyForIs(p, e, key, usage); }
    match e
    case Aes128Sha1 => r := DeriveRandom(p.aes(key), true, usage, 16);
    case Aes256Sha1 => r := DeriveRandom(p.aes(key), true, usage, 32);
    case Des3 =>
      var seed :- DeriveRandom(p.tripleDes(key), false, usage, 21);
      r := Des3Key.Des3RandomToKey(seed);
    case Rc4 =>
      r := if usage == [] then Err(EmptyUsage) else Ok(p.hmacMd5(key, usage));
    case _ =>
      r := if usage == [] then Err(EmptyUsage) else Ok(Kdf(p, e, key, usage, DeriveKeyBits(e, usage)));
  }
}
