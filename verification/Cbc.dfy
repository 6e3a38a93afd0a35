/** Cipher block chaining over an arbitrary block cipher (src/crypto.rs). */
module Cbc {
  import opened Bytes

  /** A block cipher under one fixed key. The cipher itself is a parameter of the model. */
  datatype Cipher = Cipher(size: nat, enc: seq<byte> -> seq<byte>, dec: seq<byte> -> seq<byte>)

  /** All the model knows of a block cipher: decryption and encryption of blocks undo each other. */
  ghost predicate Lawful(c: Cipher)
  {
    && c.size > 0
    && (forall b {:trigger c.enc(b)} :: |b| == c.size ==> |c.enc(b)| == c.size)
    && (forall b {:trigger c.dec(b)} :: |b| == c.size ==> |c.dec(b)| == c.size)
    && (forall b {:trigger c.dec(c.enc(b))} :: |b| == c.size ==> c.dec(c.enc(b)) == b)
    && (forall b {:trigger c.enc(c.dec(b))} :: |b| == c.size ==> c.enc(c.dec(b)) == b)
  }

  function CbcEnc(c: Cipher, iv: seq<byte>, p: seq<byte>): (x: seq<byte>)
    requires Lawful(c) && |iv| == c.size && Whole(|p|, c.size)
    ensures |x| == |p|
    decreases |p|
  {
    if p == [] then [] else
      var y := c.enc(XorSeq(p[..c.size], iv));
      y + CbcEnc(c, y, p[c.size..])
  }

  function CbcDec(c: Cipher, iv: seq<byte>, x: seq<byte>): (p: seq<byte>)
    requires Lawful(c) && |iv| == c.size && Whole(|x|, c.size)
    ensures |p| == |x|
    decreases |x|
  {
    if x == [] then [] else
      XorSeq(c.dec(x[..c.size]), iv) + CbcDec(c, x[..c.size], x[c.size..])
  }

  /** The chaining value after processing the ciphertext `x` from `iv`. */
  function Last(c: Cipher, iv: seq<byte>, x: seq<byte>): (b: seq<byte>)
    requires c.size > 0 && |iv| == c.size && Whole(|x|, c.size)
    ensures |b| == c.size
  {
    if x == [] then iv else
      x[|x| - c.size..]
  }

  /** Zero padding to a whole number of blocks. */
  function PadTo(p: seq<byte>, n: nat): (r: seq<byte>)
    requires n > 0
    ensures Whole(|r|, n) && |p| <= |r| < |p| + n
    ensures r[..|p|] == p && forall i :: |p| <= i < |r| ==> r[i] == 0
    ensures Whole(|p|, n) ==> r == p
  {
    if p == [] then p else
      ShortOfWhole(|p|, n);
      p + Zeros(n - ShortOf(|p|, n))
  }

  lemma BlockSize(c: Cipher, b: seq<byte>)
    requires Lawful(c) && |b| == c.size
    ensures c.size > 0 && |c.enc(b)| == c.size && |c.dec(b)| == c.size
  {
  }

  lemma NoBlocks(c: Cipher, iv: seq<byte>)
    requires Lawful(c) && |iv| == c.size
    ensures CbcEnc(c, iv, []) == [] && CbcDec(c, iv, []) == []
  {
  }

  // ------------------------------------------------------------------
  // Encryption and decryption undo each other

  lemma {:induction false} CbcDecEnc(c: Cipher, iv: seq<byte>, p: seq<byte>)
    requires Lawful(c) && |iv| == c.size && Whole(|p|, c.size)
    ensures CbcDec(c, iv, CbcEnc(c, iv, p)) == p
    decreases |p|
  {
    if p != [] {
      var first := p[..c.size];
      var y := c.enc(XorSeq(first, iv));
      var rest := CbcEnc(c, y, p[c.size..]);
      assert (y + rest)[..c.size] == y && (y + rest)[c.size..] == rest;
      CbcDecEnc(c, y, p[c.size..]);
      XorSeqUndone(first, iv);
    }
  }

  lemma {:induction false} CbcEncDec(c: Cipher, iv: seq<byte>, x: seq<byte>)
    requires Lawful(c) && |iv| == c.size && Whole(|x|, c.size)
    ensures CbcEnc(c, iv, CbcDec(c, iv, x)) == x
    decreases |x|
  {
    if x != [] {
      var first := x[..c.size];
      var d := XorSeq(c.dec(first), iv);
      var rest := CbcDec(c, first, x[c.size..]);
      assert (d + rest)[..c.size] == d && (d + rest)[c.size..] == rest;
      CbcEncDec(c, first, x[c.size..]);
      XorSeqUndone(c.dec(first), iv);
    }
  }

  // ------------------------------------------------------------------
  // Chaining splits at every block boundary

  lemma Assoc(a: seq<byte>, b: seq<byte>, d: seq<byte>)
    ensures (a + b) + d == a + (b + d)
  {
  }

  lemma LastRest(c: Cipher, iv: seq<byte>, x: seq<byte>)
    requires c.size > 0 && |iv| == c.size && Whole(|x|, c.size) && x != []
    ensures Last(c, iv, x) == Last(c, x[..c.size], x[c.size..])
  {
  }

  lemma {:induction false} CbcEncSplit(c: Cipher, iv: seq<byte>, a: seq<byte>, b: seq<byte>)
    requires Lawful(c) && |iv| == c.size && Whole(|a|, c.size) && Whole(|b|, c.size)
    ensures Whole(|a + b|, c.size)
    ensures CbcEnc(c, iv, a + b)
         == CbcEnc(c, iv, a) + CbcEnc(c, Last(c, iv, CbcEnc(c, iv, a)), b)
    decreases |a|
  {
    hide Lawful, XorSeq;
    BlockSize(c, iv);
    WholeSum(|a|, |b|, c.size);
    if a == [] {
      assert a + b == b;
    } else {
      BlockSize(c, XorSeq(a[..c.size], iv));
      var y := c.enc(XorSeq(a[..c.size], iv));
      var rest := CbcEnc(c, y, a[c.size..]);
      assert (a + b)[..c.size] == a[..c.size] && (a + b)[c.size..] == a[c.size..] + b;
      CbcEncSplit(c, y, a[c.size..], b);
      assert Last(c, iv, y + rest) == Last(c, y, rest);
      Assoc(y, rest, CbcEnc(c, Last(c, y, rest), b));
    }
  }

  lemma {:induction false} CbcDecSplit(c: Cipher, iv: seq<byte>, a: seq<byte>, b: seq<byte>)
    requires Lawful(c) && |iv| == c.size && Whole(|a|, c.size) && Whole(|b|, c.size)
    ensures Whole(|a + b|, c.size)
    ensures CbcDec(c, iv, a + b) == CbcDec(c, iv, a) + CbcDec(c, Last(c, iv, a), b)
    decreases |a|
  {
    hide XorSeq;
    WholeSum(|a|, |b|, c.size);
    if a == [] {
      assert a + b == b;
    } else {
      var y := a[..c.size];
      assert (a + b)[..c.size] == y && (a + b)[c.size..] == a[c.size..] + b;
      CbcDecSplit(c, y, a[c.size..], b);
      LastRest(c, iv, a);
      Assoc(XorSeq(c.dec(y), iv), CbcDec(c, y, a[c.size..]), CbcDec(c, Last(c, iv, a), b));
    }
  }

  lemma CbcOneBlock(c: Cipher, iv: seq<byte>, b: seq<byte>)
    requires Lawful(c) && |iv| == c.size && |b| == c.size
    ensures CbcEnc(c, iv, b) == c.enc(XorSeq(b, iv))
    ensures CbcDec(c, iv, b) == XorSeq(c.dec(b), iv)
  {
    assert b[..c.size] == b && b[c.size..] == [];
  }

  // ------------------------------------------------------------------
  // What each block is

  /** The ciphertext block at `i` encrypts the plaintext block there, xored with the ciphertext block before it. */
  lemma {:induction false} CbcEncBlock(c: Cipher, iv: seq<byte>, p: seq<byte>, i: nat)
    requires Lawful(c) && |iv| == c.size && Whole(|p|, c.size) && Whole(i, c.size) && i + c.size <= |p|
    ensures i == 0 || c.size <= i
    ensures var x := CbcEnc(c, iv, p);
            x[i..i + c.size] == c.enc(XorSeq(p[i..i + c.size], if i == 0 then iv else x[i - c.size..i]))
    decreases i
  {
    hide Lawful, XorSeq;
    BlockSize(c, iv);
    var n := c.size;
    var y := c.enc(XorSeq(p[..n], iv));
    BlockSize(c, XorSeq(p[..n], iv));
    var rest := CbcEnc(c, y, p[n..]);
    assert p == p[..n] + p[n..] && CbcEnc(c, iv, p) == y + rest;
    WholeLeast(i, n);
    if i == 0 {
      assert (y + rest)[0..n] == y && p[0..n] == p[..n];
    } else {
      WholeLeast(i - n, n);
      CbcEncBlock(c, y, p[n..], i - n);
      Behind(y, rest, i, n);
      Behind(p[..n], p[n..], i, n);
    }
  }

  lemma CbcDecFirst(c: Cipher, iv: seq<byte>, x: seq<byte>)
    requires Lawful(c) && |iv| == c.size && Whole(|x|, c.size) && x != []
    ensures c.size <= |x|
    ensures CbcDec(c, iv, x) == XorSeq(c.dec(x[..c.size]), iv) + CbcDec(c, x[..c.size], x[c.size..])
  {
  }

  /** The plaintext block at `i` is the decrypted block there, xored with the ciphertext block before it. */
  lemma {:induction false} CbcDecBlock(c: Cipher, iv: seq<byte>, x: seq<byte>, i: nat)
    requires Lawful(c) && |iv| == c.size && Whole(|x|, c.size) && Whole(i, c.size) && i + c.size <= |x|
    ensures i == 0 || c.size <= i
    ensures CbcDec(c, iv, x)[i..i + c.size]
         == XorSeq(c.dec(x[i..i + c.size]), if i == 0 then iv else x[i - c.size..i])
    decreases i
  {
    hide Lawful, XorSeq, CbcDec;
    BlockSize(c, iv);
    var n := c.size;
    var y := x[..n];
    BlockSize(c, y);
    var rest := CbcDec(c, y, x[n..]);
    CbcDecFirst(c, iv, x);
    assert x == y + x[n..];
    WholeLeast(i, n);
    if i == 0 {
      assert (XorSeq(c.dec(y), iv) + rest)[0..n] == XorSeq(c.dec(y), iv) && x[0..n] == y;
    } else {
      WholeLeast(i - n, n);
      CbcDecBlock(c, y, x[n..], i - n);
      Behind(XorSeq(c.dec(y), iv), rest, i, n);
      Behind(y, x[n..], i, n);
    }
  }

  /** The blocks at `i` and before it, behind a first block. */
  lemma Behind(first: seq<byte>, rest: seq<byte>, i: nat, n: nat)
    requires |first| == n <= i && i <= |rest|
    ensures (first + rest)[i..i + n] == rest[i - n..i]
    ensures i == n ==> (first + rest)[i - n..i] == first
    ensures 2 * n <= i ==> (first + rest)[i - n..i] == rest[i - n - n..i - n]
  {
  }

  // ------------------------------------------------------------------
  // The loops

  /** The inner loop of both chaining directions: one block xored into another. */
  method XorBlock(a: seq<byte>, b: seq<byte>) returns (r: seq<byte>)
    requires |a| == |b|
    ensures r == XorSeq(a, b)
  {
    var block := new byte[|a|](_ => 0);
    for i := 0 to |a|
      invariant forall k :: 0 <= k < i ==> block[k] == Xor(a[k], b[k])
    {
      block[i] := Xor(a[i], b[i]);
    }
    r := block[..];
  }

  lemma CbcEncStep(c: Cipher, iv: seq<byte>, p: seq<byte>, i: nat)
    requires Lawful(c) && |iv| == c.size && i < |p| && Whole(|p| - i, c.size)
    ensures i + c.size <= |p|
    ensures var y := c.enc(XorSeq(p[i..i + c.size], iv));
            CbcEnc(c, iv, p[i..]) == y + CbcEnc(c, y, p[i + c.size..])
  {
    assert p[i..][..c.size] == p[i..i + c.size] && p[i..][c.size..] == p[i + c.size..];
  }

  lemma CbcDecStep(c: Cipher, iv: seq<byte>, x: seq<byte>, i: nat, out: seq<byte>)
    requires Lawful(c) && |iv| == c.size && i < |x| && Whole(|x| - i, c.size)
    ensures i + c.size <= |x|
    ensures var y := x[i..i + c.size];
            out + CbcDec(c, iv, x[i..]) == (out + XorSeq(c.dec(y), iv)) + CbcDec(c, y, x[i + c.size..])
  {
    assert x[i..][..c.size] == x[i..i + c.size] && x[i..][c.size..] == x[i + c.size..];
    var y := x[i..i + c.size];
    Assoc(out, XorSeq(c.dec(y), iv), CbcDec(c, y, x[i + c.size..]));
  }

  /** What the encryption loop keeps after `i` bytes. */
  ghost predicate Encrypting(c: Cipher, iv: seq<byte>, p: seq<byte>, i: nat, out: seq<byte>, previous: seq<byte>)
    requires Lawful(c) && |iv| == c.size && Whole(|p|, c.size)
  {
    && i <= |p| && Whole(|p| - i, c.size) && |previous| == c.size && |out| == i
    && (if i == 0 then previous == iv else c.size <= i && previous == out[i - c.size..])
    && CbcEnc(c, iv, p) == out + CbcEnc(c, previous, p[i..])
  }

  lemma EncryptingStep(c: Cipher, iv: seq<byte>, p: seq<byte>, i: nat, out: seq<byte>, previous: seq<byte>)
    requires Lawful(c) && |iv| == c.size && Whole(|p|, c.size)
    requires i < |p| && Encrypting(c, iv, p, i, out, previous)
    ensures i + c.size <= |p|
    ensures var y := c.enc(XorSeq(p[i..i + c.size], previous));
            Encrypting(c, iv, p, i + c.size, out + y, y)
  {
    hide Lawful, CbcEnc;
    CbcEncStep(c, previous, p, i);
    BlockSize(c, XorSeq(p[i..i + c.size], previous));
    var y := c.enc(XorSeq(p[i..i + c.size], previous));
    Assoc(out, y, CbcEnc(c, y, p[i + c.size..]));
    assert (out + y)[i..] == y;
  }

  /** Encrypt whole blocks; `previous` is the chaining value left behind. */
  method CbcEncrypt(c: Cipher, iv: seq<byte>, plaintext: seq<byte>)
    returns (out: seq<byte>, previous: seq<byte>)
    requires Lawful(c) && |iv| == c.size && Whole(|plaintext|, c.size)
    ensures out == CbcEnc(c, iv, plaintext)
    ensures previous == Last(c, iv, out)
  {
    previous := iv;
    out := [];
    var i := 0;
    assert plaintext[0..] == plaintext;
    while i < |plaintext|
      invariant 0 <= i && Encrypting(c, iv, plaintext, i, out, previous)
      decreases |plaintext| - i
    {
      EncryptingStep(c, iv, plaintext, i, out, previous);
      var block := XorBlock(plaintext[i..i + c.size], previous);
      previous := c.enc(block);
      out := out + previous;
      i := i + c.size;
    }
    assert plaintext[i..] == [];
  }

  /** Decrypt whole blocks. */
  method CbcDecrypt(c: Cipher, iv: seq<byte>, ciphertext: seq<byte>) returns (out: seq<byte>)
    requires Lawful(c) && |iv| == c.size && Whole(|ciphertext|, c.size)
    ensures out == CbcDec(c, iv, ciphertext)
  {
    hide Lawful, CbcDec;
    BlockSize(c, iv);
    var previous := iv;
    out := [];
    var i := 0;
    ghost var total := CbcDec(c, iv, ciphertext);
    assert ciphertext[0..] == ciphertext;
    while i < |ciphertext|
      invariant 0 <= i <= |ciphertext| && Whole(|ciphertext| - i, c.size)
      invariant |previous| == c.size && total == out + CbcDec(c, previous, ciphertext[i..])
    {
      CbcDecStep(c, previous, ciphertext, i, out);
      var cipherBlock := ciphertext[i..i + c.size];
      BlockSize(c, cipherBlock);
      var block := XorBlock(c.dec(cipherBlock), previous);
      previous := cipherBlock;
      out := out + block;
      i := i + c.size;
    }
    assert ciphertext[i..] == [] && out + [] == out;
    NoBlocks(c, previous);
  }

  /** `zero_pad`: the loop-free resize of a buffer to a whole number of blocks. */
  method ZeroPad(bytes: seq<byte>, n: nat) returns (padded: seq<byte>)
    requires n > 0
    ensures padded == PadTo(bytes, n)
  {
    var remainder := |bytes| % n;
    padded := bytes;
    if bytes != [] { ShortOfMod(|bytes|, n); } else { DivUnique(0, n, 0, 0); }
    if remainder != 0 {
      padded := padded + Zeros(n - remainder);
    }
  }
}
