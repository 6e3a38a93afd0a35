/**
 * AES ciphertext stealing with a zero initial vector (src/crypto.rs).
 *
 * The reference is the uniform definition of section 5 of RFC 3962: pad with zeros, chain, exchange
 * the last two blocks, cut to the plaintext's length. The code treats three length regimes apart.
 */
module Cts {
  import opened Bytes
  import opened Cbc
  import opened CryptoError

  // ------------------------------------------------------------------
  // Reference definitions

  function SwapLastTwo(s: seq<byte>, n: nat): (r: seq<byte>)
    requires 2 * n <= |s|
    ensures |r| == |s|
  {
    s[..|s| - 2 * n] + (s[|s| - n..] + s[|s| - 2 * n..|s| - n])
  }

  function Iv(c: Cipher): (iv: seq<byte>)
    ensures |iv| == c.size
  {
    Zeros(c.size)
  }

  function CtsEnc(c: Cipher, p: seq<byte>): (x: seq<byte>)
    requires Lawful(c) && p != []
    ensures |p| >= c.size ==> |x| == |p|
    ensures |p| < c.size ==> |x| == c.size
  {
    var chained := CbcEnc(c, Iv(c), PadTo(p, c.size));
    PaddedLength(c, p);
    if |p| <= c.size then chained else SwapLastTwo(chained, c.size)[..|p|]
  }

  lemma PaddedLength(c: Cipher, p: seq<byte>)
    requires Lawful(c) && p != []
    ensures |p| <= c.size ==> |PadTo(p, c.size)| == c.size
    ensures |p| > c.size ==> |PadTo(p, c.size)| >= 2 * c.size
  {
    var len := |PadTo(p, c.size)|;
    assert Whole(len, c.size) && Whole(len - c.size, c.size);
  }

  /** Put back the ciphertext bytes that stealing cut off: the tail of the decrypted last block. */
  function Restore(c: Cipher, x: seq<byte>, short: nat): (r: seq<byte>)
    requires Lawful(c) && short <= c.size && c.size + short <= |x|
    ensures |r| == |x| + c.size - short
  {
    var cut := |x| - c.size - short;
    var penultimate := x[cut..cut + c.size];
    x[..cut] + ((x[cut + c.size..] + c.dec(penultimate)[short..]) + penultimate)
  }

  function CtsDec(c: Cipher, x: seq<byte>): (p: seq<byte>)
    requires Lawful(c) && |x| >= c.size
    ensures |p| == |x|
  {
    if |x| == c.size then CbcDec(c, Iv(c), x)
    else
      ShortLength(|x|, c.size);
      CbcDec(c, Iv(c), Restore(c, x, ShortOf(|x|, c.size)))[..|x|]
  }

  lemma ShortLength(len: nat, n: nat)
    requires n > 0 && len > n
    ensures n + ShortOf(len, n) <= len && 0 < ShortOf(len, n)
    ensures Whole(len + n - ShortOf(len, n), n) && Whole(len - n - ShortOf(len, n), n)
  {
    ShortOfWhole(len, n);
  }

  /** Two whole lengths less than a block apart are equal. */
  lemma {:induction false} WholeGap(a: nat, b: nat, n: nat)
    requires n > 0 && Whole(a, n) && Whole(b, n) && a - n < b < a + n
    ensures a == b
    decreases a
  {
    if a > 0 && b > 0 { WholeGap(a - n, b - n, n); }
  }

  // ------------------------------------------------------------------
  // Round trips

  lemma XorZeros(a: seq<byte>)
    ensures XorSeq(a, Zeros(|a|)) == a
    ensures XorSeq(Zeros(|a|), a) == a
  {
    forall i | 0 <= i < |a|
      ensures XorSeq(a, Zeros(|a|))[i] == a[i] && XorSeq(Zeros(|a|), a)[i] == a[i]
    {
      XorZero(a[i]);
    }
  }

  lemma {:induction false} XorZero(a: nat)
    ensures XorNat(a, 0) == a && XorNat(0, a) == a
  {
    if a > 0 { XorZero(a / 2); }
  }

  lemma {:induction false} XorSelf(a: nat)
    ensures XorNat(a, a) == 0
  {
    if a > 0 { XorSelf(a / 2); }
  }

  /** Decrypting ends with the last block's own decryption xored with the block before it. */
  lemma CbcDecTail(c: Cipher, front: seq<byte>, a: seq<byte>, b: seq<byte>)
    requires Lawful(c) && Whole(|front|, c.size) && |a| == c.size && |b| == c.size
    ensures Whole(|front + (a + b)|, c.size)
    ensures CbcDec(c, Iv(c), front + (a + b))
         == CbcDec(c, Iv(c), front)
          + (XorSeq(c.dec(a), Last(c, Iv(c), front)) + XorSeq(c.dec(b), a))
  {
    WholeBlock(c.size);
    WholeSum(|a|, |b|, c.size);
    CbcDecSplit(c, Iv(c), front, a + b);
    var iv := Last(c, Iv(c), front);
    CbcDecSplit(c, iv, a, b);
    CbcOneBlock(c, iv, a);
    CbcOneBlock(c, a, b);
    assert Last(c, iv, a) == a;
  }

  lemma WholeBlock(n: nat)
    requires n > 0
    ensures Whole(n, n)
  {
    assert Whole(0, n);
  }

  lemma SwapShape(front: seq<byte>, a: seq<byte>, b: seq<byte>, n: nat, short: nat)
    requires |a| == n && |b| == n && short <= n
    ensures SwapLastTwo(front + (a + b), n) == front + (b + a)
    ensures (front + (b + a))[..|front| + n + short] == front + (b + a[..short])
  {
  }

  lemma RestoreShape(c: Cipher, front: seq<byte>, b: seq<byte>, tail: seq<byte>)
    requires Lawful(c) && |b| == c.size && |tail| <= c.size
    ensures Restore(c, front + (b + tail), |tail|) == front + ((tail + c.dec(b)[|tail|..]) + b)
  {
    var x := front + (b + tail);
    assert x[..|front|] == front && x[|front|..|front| + c.size] == b && x[|front| + c.size..] == tail;
  }

  /** Bytes that are zero after xoring were equal before. */
  lemma XorZeroTail(d: seq<byte>, a: seq<byte>, short: nat)
    requires |d| == |a| && short <= |a|
    requires forall i :: short <= i < |a| ==> XorSeq(d, a)[i] == 0
    ensures d[short..] == a[short..]
  {
    forall i | short <= i < |a|
      ensures d[i] == a[i]
    {
      assert XorSeq(d, a)[i] == Xor(d[i], a[i]);
      XorNatUndone(d[i], a[i]);
      XorZero(a[i]);
    }
  }

  /** The last block of the decryption of `front + (a + b)`. */
  lemma LastPlainBlock(c: Cipher, front: seq<byte>, a: seq<byte>, b: seq<byte>)
    requires Lawful(c) && Whole(|front|, c.size) && |a| == c.size && |b| == c.size
    ensures Whole(|front + (a + b)|, c.size)
    ensures CbcDec(c, Iv(c), front + (a + b))[|front| + c.size..] == XorSeq(c.dec(b), a)
  {
    CbcDecTail(c, front, a, b);
    var p := CbcDec(c, Iv(c), front);
    var q := XorSeq(c.dec(a), Last(c, Iv(c), front));
    assert (p + (q + XorSeq(c.dec(b), a)))[|p| + |q|..] == XorSeq(c.dec(b), a);
  }

  /** Where the plaintext's last block is zero, the two last cipher blocks agree through `dec`. */
  lemma ZeroTailAgrees(c: Cipher, front: seq<byte>, a: seq<byte>, b: seq<byte>, short: nat)
    requires Lawful(c) && Whole(|front|, c.size) && |a| == c.size && |b| == c.size
    requires short <= c.size && Whole(|front + (a + b)|, c.size)
    requires forall i :: |front| + c.size + short <= i < |front| + 2 * c.size
               ==> CbcDec(c, Iv(c), front + (a + b))[i] == 0
    ensures a[..short] + c.dec(b)[short..] == a
  {
    LastPlainBlock(c, front, a, b);
    var plain := CbcDec(c, Iv(c), front + (a + b));
    var k := |front| + c.size;
    forall i | short <= i < c.size
      ensures XorSeq(c.dec(b), a)[i] == 0
    {
      assert plain[k..][i] == plain[k + i];
    }
    XorZeroTail(c.dec(b), a, short);
    assert a[..short] + a[short..] == a;
  }

  /** The chained encryption of a padded plaintext, cut into its two last blocks and the rest. */
  lemma ChainedShape(c: Cipher, p: seq<byte>)
    returns (front: seq<byte>, a: seq<byte>, b: seq<byte>)
    requires Lawful(c) && |p| > c.size
    ensures CbcEnc(c, Iv(c), PadTo(p, c.size)) == front + (a + b)
    ensures Whole(|front|, c.size) && |a| == c.size && |b| == c.size
    ensures |front| + c.size + ShortOf(|p|, c.size) == |p|
    ensures CtsEnc(c, p) == front + (b + a[..ShortOf(|p|, c.size)])
  {
    hide Lawful, CbcEnc, Iv;
    var n := c.size;
    BlockSize(c, Iv(c));
    ShortLength(|p|, n);
    var chained := CbcEnc(c, Iv(c), PadTo(p, n));
    var k := |chained| - 2 * n;
    front, a, b := chained[..k], chained[k..k + n], chained[k + n..];
    assert chained == front + (a + b);
    SwapShape(front, a, b, n, ShortOf(|p|, n));
  }

  /** Up to one block there is nothing to steal: the padded block is encrypted on its own. */
  lemma SingleBlock(c: Cipher, p: seq<byte>)
    requires Lawful(c) && 0 < |p| <= c.size
    ensures CtsEnc(c, p) == c.enc(p + Zeros(c.size - |p|))
  {
    PaddedLength(c, p);
    var padded := PadTo(p, c.size);
    assert padded == p + Zeros(c.size - |p|);
    CbcOneBlock(c, Iv(c), padded);
    XorZeros(padded);
  }

  /** What stealing drops is what decrypting the kept block reveals, because the padding is zero. */
  lemma RestoreUndoesStealing(c: Cipher, p: seq<byte>)
    requires Lawful(c) && |p| > c.size
    ensures c.size + ShortOf(|p|, c.size) <= |p|
    ensures Restore(c, CtsEnc(c, p), ShortOf(|p|, c.size)) == CbcEnc(c, Iv(c), PadTo(p, c.size))
  {
    var short := ShortOf(|p|, c.size);
    var front, a, b := ChainedShape(c, p);
    CbcDecEnc(c, Iv(c), PadTo(p, c.size));
    ZeroTailAgrees(c, front, a, b, short);
    RestoreShape(c, front, b, a[..short]);
  }

  /** Every byte string longer than a block survives encryption and decryption. */
  lemma CtsDecEnc(c: Cipher, p: seq<byte>)
    requires Lawful(c) && |p| >= c.size
    ensures CtsDec(c, CtsEnc(c, p)) == p
  {
    CbcDecEnc(c, Iv(c), PadTo(p, c.size));
    if |p| == c.size {
      WholeBlock(c.size);
    } else {
      RestoreUndoesStealing(c, p);
    }
  }

  /** A plaintext shorter than a block comes back padded with zeros to one block. */
  lemma CtsDecEncShort(c: Cipher, p: seq<byte>)
    requires Lawful(c) && 0 < |p| < c.size
    ensures CtsDec(c, CtsEnc(c, p)) == p + Zeros(c.size - |p|)
  {
    PaddedLength(c, p);
    CbcDecEnc(c, Iv(c), PadTo(p, c.size));
    assert PadTo(p, c.size) == p + Zeros(c.size - |p|);
  }

  /** A ciphertext cut into its last full block, the partial block after it, and the rest. */
  lemma StolenShape(c: Cipher, x: seq<byte>)
    returns (front: seq<byte>, b: seq<byte>, tail: seq<byte>)
    requires Lawful(c) && |x| > c.size
    ensures x == front + (b + tail) && Whole(|front|, c.size)
    ensures |b| == c.size && |tail| == ShortOf(|x|, c.size)
    ensures c.size + |tail| <= |x|
    ensures Restore(c, x, |tail|) == front + ((tail + c.dec(b)[|tail|..]) + b)
  {
    hide Lawful, Restore;
    BlockSize(c, Iv(c));
    var short := ShortOf(|x|, c.size);
    ShortLength(|x|, c.size);
    var k := |x| - c.size - short;
    front, b, tail := x[..k], x[k..k + c.size], x[k + c.size..];
    assert x == front + (b + tail);
    RestoreShape(c, front, b, tail);
  }

  /** The decryption of a restored ciphertext ends in zeros, so cutting it loses nothing. */
  lemma RestoredPlaintextIsPadded(c: Cipher, x: seq<byte>)
    requires Lawful(c) && |x| > c.size
    ensures c.size + ShortOf(|x|, c.size) <= |x|
    ensures Whole(|Restore(c, x, ShortOf(|x|, c.size))|, c.size)
    ensures CbcDec(c, Iv(c), Restore(c, x, ShortOf(|x|, c.size))) == PadTo(CtsDec(c, x), c.size)
  {
    var front, b, tail := StolenShape(c, x);
    var a := tail + c.dec(b)[|tail|..];
    LastPlainBlock(c, front, a, b);
    TailXorsToZero(c.dec(b), tail);
    var plain := CbcDec(c, Iv(c), front + (a + b));
    ZeroTail(plain, XorSeq(c.dec(b), a), |tail|);
    ZeroSuffixIsPadding(plain, |x|, c.size);
  }

  lemma ZeroTail(plain: seq<byte>, last: seq<byte>, short: nat)
    requires |last| <= |plain| && plain[|plain| - |last|..] == last
    requires forall i :: short <= i < |last| ==> last[i] == 0
    ensures forall i :: |plain| - |last| + short <= i < |plain| ==> plain[i] == 0
  {
    forall i | |plain| - |last| + short <= i < |plain|
      ensures plain[i] == 0
    {
      assert plain[i] == last[i - (|plain| - |last|)];
    }
  }

  /** A whole string that is zero in less than its last block is its own padding. */
  lemma ZeroSuffixIsPadding(plain: seq<byte>, len: nat, n: nat)
    requires n > 0 && Whole(|plain|, n) && len <= |plain| < len + n
    requires forall i :: len <= i < |plain| ==> plain[i] == 0
    ensures plain == PadTo(plain[..len], n)
  {
    var padded := PadTo(plain[..len], n);
    WholeGap(|padded|, |plain|, n);
    forall i | 0 <= i < |plain|
      ensures padded[i] == plain[i]
    {
      if i < len { assert padded[i] == padded[..len][i]; }
    }
  }

  lemma TailXorsToZero(d: seq<byte>, tail: seq<byte>)
    requires |tail| <= |d|
    ensures forall i :: |tail| <= i < |d| ==> XorSeq(d, tail + d[|tail|..])[i] == 0
  {
    var a := tail + d[|tail|..];
    forall i | |tail| <= i < |d|
      ensures XorSeq(d, a)[i] == 0
    {
      assert a[i] == d[i];
      XorSelf(d[i]);
    }
  }

  /** Every ciphertext of at least a block is the encryption of its decryption. */
  lemma CtsEncDec(c: Cipher, x: seq<byte>)
    requires Lawful(c) && |x| >= c.size
    ensures CtsEnc(c, CtsDec(c, x)) == x
  {
    if |x| == c.size {
      WholeBlock(c.size);
      CbcEncDec(c, Iv(c), x);
    } else {
      var front, b, tail := StolenShape(c, x);
      RestoredPlaintextIsPadded(c, x);
      CbcEncDec(c, Iv(c), Restore(c, x, |tail|));
      var a := tail + c.dec(b)[|tail|..];
      SwapShape(front, a, b, c.size, |tail|);
      assert a[..|tail|] == tail;
    }
  }

  // ------------------------------------------------------------------
  // The code

  /** `swap_last_two_blocks`, in place. */
  method SwapLastTwoBlocks(bytes: array<byte>, n: nat)
    requires 2 * n <= bytes.Length
    modifies bytes
    ensures bytes[..] == SwapLastTwo(old(bytes[..]), n)
    ensures forall m :: 0 <= m < bytes.Length - 2 * n ==> bytes[m] == old(bytes[m])
    ensures forall m :: bytes.Length - 2 * n <= m < bytes.Length - n ==> bytes[m] == old(bytes[m + n])
    ensures forall m :: bytes.Length - n <= m < bytes.Length ==> bytes[m] == old(bytes[m - n])
  {
    hide SwapLastTwo;
    var len := bytes.Length;
    for i := 0 to n
      invariant forall m :: 0 <= m < len - 2 * n ==> bytes[m] == old(bytes[m])
      invariant forall m :: len - 2 * n <= m < len - 2 * n + i ==> bytes[m] == old(bytes[m + n])
      invariant forall m :: len - n <= m < len - n + i ==> bytes[m] == old(bytes[m - n])
      invariant forall m :: len - 2 * n + i <= m < len - n ==> bytes[m] == old(bytes[m])
      invariant forall m :: len - n + i <= m < len ==> bytes[m] == old(bytes[m])
    {
      bytes[len - 2 * n + i], bytes[len - n + i] := bytes[len - n + i], bytes[len - 2 * n + i];
    }
    SwappedBytes(old(bytes[..]), bytes[..], n);
  }

  lemma SwappedBytes(s: seq<byte>, r: seq<byte>, n: nat)
    requires 2 * n <= |s| == |r|
    requires forall m :: 0 <= m < |s| - 2 * n ==> r[m] == s[m]
    requires forall m :: |s| - 2 * n <= m < |s| - n ==> r[m] == s[m + n]
    requires forall m :: |s| - n <= m < |s| ==> r[m] == s[m - n]
    ensures r == SwapLastTwo(s, n)
  {
  }

  /** A copy of a buffer with its last two blocks exchanged. */
  method Swapped(s: seq<byte>, n: nat) returns (r: seq<byte>)
    requires 2 * n <= |s|
    ensures r == SwapLastTwo(s, n)
  {
    var copy := new byte[|s|](i requires 0 <= i < |s| => s[i]);
    assert copy[..] == s;
    SwapLastTwoBlocks(copy, n);
    r := copy[..];
  }

  /** `aes_cts_encrypt`: the next initial vector and the ciphertext. */
  method AesCtsEncrypt(c: Cipher, plaintext: seq<byte>)
    returns (r: Result<(seq<byte>, seq<byte>), Error>)
    requires Lawful(c)
    ensures plaintext == [] ==> r == Err(EmptyPlaintext)
    ensures plaintext != [] ==>
      && r.Ok?
      && r.value.1 == CtsEnc(c, plaintext)
      && r.value.0 == Last(c, Iv(c), CbcEnc(c, Iv(c), PadTo(plaintext, c.size)))
  {
    if plaintext == [] { return Err(EmptyPlaintext); }
    var n := c.size;
    var iv := Iv(c);
    PaddedLength(c, plaintext);
    var padded := ZeroPad(plaintext, n);
    if |plaintext| <= n {
      var encrypted, previous := CbcEncrypt(c, iv, padded);
      assert encrypted[|encrypted| - n..] == encrypted;
      return Ok((encrypted, encrypted));
    }
    ShortOfMod(|plaintext|, n);
    ShortOfWhole(|plaintext|, n);
    if |plaintext| % n == 0 {
      var encrypted, previous := CbcEncrypt(c, iv, plaintext);
      var nextIv := encrypted[|encrypted| - n..];
      encrypted := Swapped(encrypted, n);
      return Ok((nextIv, encrypted));
    }
    var nextIv, ciphertext := StealLast(c, plaintext, padded);
    return Ok((nextIv, ciphertext));
  }

  /** Chaining over the regular blocks, if there are any, and the value to chain on with. */
  method EncryptRegular(c: Cipher, regular: seq<byte>)
    returns (ciphertext: seq<byte>, chainedIv: seq<byte>)
    requires Lawful(c) && Whole(|regular|, c.size)
    ensures ciphertext == CbcEnc(c, Iv(c), regular) && chainedIv == Last(c, Iv(c), ciphertext)
  {
    ciphertext := [];
    chainedIv := Iv(c);
    if regular != [] {
      var regularCipher, _ := CbcEncrypt(c, chainedIv, regular);
      chainedIv := regularCipher[|regularCipher| - c.size..];
      ciphertext := ciphertext + regularCipher;
    }
  }

  lemma CbcEncTail(c: Cipher, front: seq<byte>, p: seq<byte>, q: seq<byte>)
    requires Lawful(c) && Whole(|front|, c.size) && |p| == c.size && |q| == c.size
    ensures Whole(|front + (p + q)|, c.size)
    ensures var x := CbcEnc(c, Iv(c), front);
            var a := CbcEnc(c, Last(c, Iv(c), x), p);
            CbcEnc(c, Iv(c), front + (p + q)) == x + (a + CbcEnc(c, a, q))
  {
    WholeBlock(c.size);
    WholeSum(|p|, |q|, c.size);
    CbcEncSplit(c, Iv(c), front, p + q);
    var iv := Last(c, Iv(c), CbcEnc(c, Iv(c), front));
    CbcEncSplit(c, iv, p, q);
    assert Last(c, iv, CbcEnc(c, iv, p)) == CbcEnc(c, iv, p);
  }

  lemma LastOfThree(front: seq<byte>, a: seq<byte>, b: seq<byte>)
    ensures (front + (a + b))[|front| + |a|..] == b
  {
  }

  /** The stolen-block regime of `aes_cts_encrypt`. */
  method StealLast(c: Cipher, plaintext: seq<byte>, padded: seq<byte>)
    returns (nextIv: seq<byte>, ciphertext: seq<byte>)
    requires Lawful(c) && |plaintext| > c.size && padded == PadTo(plaintext, c.size)
    ensures ciphertext == CtsEnc(c, plaintext)
    ensures nextIv == Last(c, Iv(c), CbcEnc(c, Iv(c), padded))
  {
    hide Lawful, CbcEnc, Whole, Zeros, SwapLastTwo, XorSeq;
    var n := c.size;
    BlockSize(c, Iv(c));
    ShortLength(|plaintext|, n);
    WholeBlock(n);
    var regularLen := |padded| - 2 * n;
    var regular := padded[..regularLen];
    var penultimate, last := padded[regularLen..regularLen + n], padded[regularLen + n..];
    assert padded == regular + (penultimate + last);
    var chainedIv;
    ciphertext, chainedIv := EncryptRegular(c, regular);
    var penultimateBlock, _ := CbcEncrypt(c, chainedIv, penultimate);
    var lastBlock, _ := CbcEncrypt(c, penultimateBlock, last);
    CbcEncTail(c, regular, penultimate, last);
    SwapShape(ciphertext, penultimateBlock, lastBlock, n, ShortOf(|plaintext|, n));
    nextIv := lastBlock;
    Assoc(ciphertext, lastBlock, penultimateBlock);
    LastOfThree(ciphertext, penultimateBlock, lastBlock);
    ciphertext := ciphertext + lastBlock;
    ciphertext := ciphertext + penultimateBlock;
    ciphertext := ciphertext[..|plaintext|];
  }

  /** The exact-multiple regime of `aes_cts_decrypt`. */
  method DecryptExact(c: Cipher, ciphertext: seq<byte>) returns (plaintext: seq<byte>)
    requires Lawful(c) && |ciphertext| > c.size && ShortOf(|ciphertext|, c.size) == c.size
    ensures plaintext == CtsDec(c, ciphertext)
  {
    hide Lawful, CbcDec, Iv, Whole;
    BlockSize(c, Iv(c));
    ShortLength(|ciphertext|, c.size);
    var swapped := Swapped(ciphertext, c.size);
    RestoreExact(c, ciphertext);
    plaintext := CbcDecrypt(c, Iv(c), swapped);
    assert plaintext[..|ciphertext|] == plaintext;
  }

  /** With no short block, restoring is swapping. */
  lemma RestoreExact(c: Cipher, x: seq<byte>)
    requires Lawful(c) && |x| >= 2 * c.size
    ensures Restore(c, x, c.size) == SwapLastTwo(x, c.size)
  {
    hide Lawful;
    var cut := |x| - 2 * c.size;
    BlockSize(c, x[cut..cut + c.size]);
    assert c.dec(x[cut..cut + c.size])[c.size..] == [];
  }

  /** `aes_cts_decrypt`. */
  method AesCtsDecrypt(c: Cipher, ciphertext: seq<byte>) returns (r: Result<seq<byte>, Error>)
    requires Lawful(c)
    ensures |ciphertext| < c.size ==> r == Err(CiphertextTooShort(c.size, |ciphertext|))
    ensures |ciphertext| >= c.size ==> r == Ok(CtsDec(c, ciphertext))
  {
    hide Lawful, CbcDec, Iv, Restore, Whole;
    BlockSize(c, Iv(c));
    var n := c.size;
    if |ciphertext| < n { return Err(CiphertextTooShort(n, |ciphertext|)); }
    WholeBlock(n);
    ShortOfMod(|ciphertext|, n);
    var plain;
    if |ciphertext| % n == 0 {
      if |ciphertext| == n {
        plain := CbcDecrypt(c, Iv(c), ciphertext);
      } else {
        plain := DecryptExact(c, ciphertext);
      }
    } else {
      assert |ciphertext| != n by { DivUnique(n, n, 1, 0); }
      plain := DecryptStolen(c, ciphertext, |ciphertext| % n);
    }
    return Ok(plain);
  }

  /** Decrypting the regular blocks, if there are any, and the value to chain on with. */
  method DecryptRegular(c: Cipher, regular: seq<byte>)
    returns (plaintext: seq<byte>, chainIv: seq<byte>)
    requires Lawful(c) && Whole(|regular|, c.size)
    ensures plaintext == CbcDec(c, Iv(c), regular) && chainIv == Last(c, Iv(c), regular)
  {
    plaintext := [];
    chainIv := Iv(c);
    if regular != [] {
      var regularPlain := CbcDecrypt(c, chainIv, regular);
      plaintext := plaintext + regularPlain;
      chainIv := regular[|regular| - c.size..];
    }
  }

  /** The stolen-block regime of `aes_cts_decrypt`. */
  method DecryptStolen(c: Cipher, ciphertext: seq<byte>, shortLen: nat)
    returns (plaintext: seq<byte>)
    requires Lawful(c) && |ciphertext| > c.size && shortLen == ShortOf(|ciphertext|, c.size)
    ensures plaintext == CtsDec(c, ciphertext)
  {
    var n := c.size;
    ShortLength(|ciphertext|, n);
    WholeBlock(n);
    var regularLen := |ciphertext| - n - shortLen;
    var regularCipher := ciphertext[..regularLen];
    var penultimateCipher := ciphertext[regularLen..regularLen + n];
    var lastCipher := ciphertext[regularLen + n..];
    assert ciphertext == regularCipher + (penultimateCipher + lastCipher);
    var chainIv;
    plaintext, chainIv := DecryptRegular(c, regularCipher);
    var completed := CompleteLast(c, penultimateCipher, lastCipher);
    var lastPlain := CbcDecrypt(c, chainIv, completed);
    var finalPlain := CbcDecrypt(c, completed, penultimateCipher);
    RestoredTail(c, regularCipher, penultimateCipher, lastCipher);
    plaintext := plaintext + lastPlain;
    plaintext := plaintext + finalPlain;
    plaintext := plaintext[..|ciphertext|];
  }

  /** Complete a partial block with the tail that decrypting the full block after it reveals. */
  method CompleteLast(c: Cipher, penultimateCipher: seq<byte>, lastCipher: seq<byte>)
    returns (completed: seq<byte>)
    requires Lawful(c) && |penultimateCipher| == c.size && |lastCipher| <= c.size
    ensures completed == lastCipher + c.dec(penultimateCipher)[|lastCipher|..]
  {
    WholeBlock(c.size);
    var penultimatePlain := CbcDecrypt(c, Iv(c), penultimateCipher);
    CbcOneBlock(c, Iv(c), penultimateCipher);
    XorZeros(c.dec(penultimateCipher));
    var padLen := c.size - |lastCipher|;
    completed := lastCipher + penultimatePlain[c.size - padLen..];
  }

  lemma RestoredTail(c: Cipher, front: seq<byte>, b: seq<byte>, tail: seq<byte>)
    requires Lawful(c) && Whole(|front|, c.size) && |b| == c.size && |tail| <= c.size
    requires Whole(c.size, c.size) && |tail| == ShortOf(|front + (b + tail)|, c.size) > 0
    ensures var x := front + (b + tail);
            var a := tail + c.dec(b)[|tail|..];
            CtsDec(c, x)
            == ((CbcDec(c, Iv(c), front) + CbcDec(c, Last(c, Iv(c), front), a)) + CbcDec(c, a, b))[..|x|]
  {
    var a := tail + c.dec(b)[|tail|..];
    RestoreShape(c, front, b, tail);
    CbcDecTail(c, front, a, b);
    var p, q, r := CbcDec(c, Iv(c), front), CbcDec(c, Last(c, Iv(c), front), a), CbcDec(c, a, b);
    CbcOneBlock(c, Last(c, Iv(c), front), a);
    CbcOneBlock(c, a, b);
    Assoc(p, q, r);
  }
}
