/** Results, bytes, bitwise operations on bytes, and fixed-width integer encodings. */
module Bytes {

  datatype Option<+T> = None | Some(value: T)

  /** The source's `Result<T, Error>`; usable with `:-`. */
  datatype Result<+T, +E> = Ok(value: T) | Err(error: E) {
    predicate IsFailure() { Err? }

    function PropagateFailure<U>(): Result<U, E>
      requires Err?
    {
      Err(error)
    }

    function Extract(): T
      requires Ok?
    {
      value
    }
  }

  type byte = x: int | 0 <= x < 256

  /** One more than the largest 32-bit number. */
  const U32 := 0x1_0000_0000

  /** One more than the largest length a Rust buffer can have on a 64-bit target. */
  const MAX_LEN := 0x8000_0000_0000_0000

  function Zeros(n: nat): (s: seq<byte>)
    ensures |s| == n && forall i :: 0 <= i < n ==> s[i] == 0
  {
    seq(n, _ => 0)
  }

  /** The bytes of an ASCII literal. */
  function Ascii(s: string): (r: seq<byte>)
    ensures |r| == |s| && forall i :: 0 <= i < |s| ==> r[i] == s[i] as int % 128
  {
    seq(|s|, i requires 0 <= i < |s| => s[i] as int % 128)
  }

  // ------------------------------------------------------------------
  // Powers

  function Pow(b: nat, k: nat): nat
  {
    if k == 0 then 1 else b * Pow(b, k - 1)
  }

  lemma {:induction false} PowPositive(b: nat, k: nat)
    requires b > 0
    ensures Pow(b, k) > 0
  {
    if k > 0 { PowPositive(b, k - 1); }
  }

  lemma {:induction false} PowAdd(b: nat, j: nat, k: nat)
    ensures Pow(b, j + k) == Pow(b, j) * Pow(b, k)
  {
    if j > 0 {
      PowAdd(b, j - 1, k);
      assert b * (Pow(b, j - 1) * Pow(b, k)) == (b * Pow(b, j - 1)) * Pow(b, k);
    }
  }

  // ------------------------------------------------------------------
  // Division with remainder

  lemma MulAtLeast(d: nat, k: int)
    ensures k >= 1 ==> d * k >= d
    ensures k <= -1 ==> d * k + d <= 0
  {
    if k >= 1 {
      assert d * k == d * (k - 1) + d;
    } else if k <= -1 {
      assert d * k + d == -(d * (-k - 1));
    }
  }

  lemma DivUnique(n: int, d: nat, q: int, r: nat)
    requires r < d && n == d * q + r
    ensures n / d == q && n % d == r
  {
    var q2, r2 := n / d, n % d;
    assert n == d * q2 + r2;
    assert d * (q - q2) == r2 - r by {
      assert d * (q - q2) == d * q - d * q2;
    }
    MulAtLeast(d, q - q2);
  }

  lemma ModStep(a: int, n: nat)
    requires n > 0
    ensures (a + n) % n == a % n && (a + n) / n == a / n + 1
  {
    var q, r := a / n, a % n;
    assert a + n == n * (q + 1) + r;
    DivUnique(a + n, n, q + 1, r);
  }

  /** `len` is a whole number of blocks of `n` bytes. */
  predicate Whole(len: nat, n: nat)
    requires n > 0
  {
    len == 0 || (n <= len && Whole(len - n, n))
  }

  lemma {:induction false} WholeMod(len: nat, n: nat)
    requires n > 0
    ensures Whole(len, n) <==> len % n == 0
    decreases len
  {
    if n <= len {
      WholeMod(len - n, n);
      ModStep(len - n, n);
    } else {
      DivUnique(len, n, 0, len);
    }
  }

  /** The number of bytes in the final, possibly partial, block of `len` bytes. */
  function ShortOf(len: nat, n: nat): (short: nat)
    requires n > 0
    ensures short <= n && short <= len
    ensures len > 0 ==> short > 0
  {
    if len <= n then len else ShortOf(len - n, n)
  }

  lemma {:induction false} ShortOfMod(len: nat, n: nat)
    requires n > 0 && len > 0
    ensures ShortOf(len, n) == if len % n == 0 then n else len % n
    decreases len
  {
    if len < n {
      DivUnique(len, n, 0, len);
    } else {
      ModStep(len - n, n);
      if len == n {
        DivUnique(0, n, 0, 0);
      } else {
        ShortOfMod(len - n, n);
      }
    }
  }

  lemma {:induction false} ShortOfWhole(len: nat, n: nat)
    requires n > 0 && len > 0
    ensures Whole(len + n - ShortOf(len, n), n) && Whole(len - ShortOf(len, n), n)
    ensures Whole(len, n) <==> ShortOf(len, n) == n
    decreases len
  {
    if len > n {
      ShortOfWhole(len - n, n);
    } else {
      assert Whole(0, n) && Whole(n, n);
    }
  }

  lemma WholeLeast(len: nat, n: nat)
    requires n > 0 && Whole(len, n)
    ensures len == 0 || n <= len
  {
  }

  lemma {:induction false} WholeSum(a: nat, b: nat, n: nat)
    requires n > 0 && Whole(a, n)
    ensures Whole(a + b, n) <==> Whole(b, n)
    decreases a
  {
    if a > 0 { WholeSum(a - n, b, n); }
  }

  // ------------------------------------------------------------------
  // Exclusive or

  /** Bitwise exclusive or of two naturals. */
  function XorNat(a: nat, b: nat): nat
    decreases a + b
  {
    if a == 0 && b == 0 then 0 else 2 * XorNat(a / 2, b / 2) + (a + b) % 2
  }

  lemma {:induction false} XorNatBound(a: nat, b: nat, k: nat)
    requires a < Pow(2, k) && b < Pow(2, k)
    ensures XorNat(a, b) < Pow(2, k)
    decreases k
  {
    if k == 0 {
    } else {
      XorNatBound(a / 2, b / 2, k - 1);
    }
  }

  lemma XorNatHalves(a: nat, b: nat)
    ensures XorNat(a, b) / 2 == XorNat(a / 2, b / 2) && XorNat(a, b) % 2 == (a + b) % 2
  {
  }

  lemma Parity(a: nat, b: nat, x: nat)
    requires x % 2 == (a + b) % 2
    ensures (x + b) % 2 == a % 2
  {
  }

  lemma {:induction false} XorNatUndone(a: nat, b: nat)
    ensures XorNat(XorNat(a, b), b) == a
    decreases a + b
  {
    if a > 0 || b > 0 {
      XorNatUndone(a / 2, b / 2);
      XorNatHalves(a, b);
      var r := XorNat(XorNat(a, b), b);
      XorNatHalves(XorNat(a, b), b);
      Parity(a, b, XorNat(a, b));
      assert r / 2 == a / 2 && r % 2 == a % 2;
    }
  }

  /** Every bit of an exclusive or is the sum of the two bits without a carry. */
  lemma {:induction false} XorNatBits(a: nat, b: nat, k: nat)
    ensures BitOf(XorNat(a, b), k) == (BitOf(a, k) + BitOf(b, k)) % 2
    decreases k
  {
    hide XorNat;
    XorNatHalves(a, b);
    if k > 0 { XorNatBits(a / 2, b / 2, k - 1); }
  }

  function Xor(a: byte, b: byte): byte
  {
    assert Pow(2, 8) == 256 by { PowTwoEight(); }
    XorNatBound(a, b, 8);
    XorNat(a, b)
  }

  lemma PowTwoEight()
    ensures Pow(2, 8) == 256
  {
    assert Pow(2, 4) == 16;
    PowAdd(2, 4, 4);
  }

  /** Bytewise exclusive or of two equally long strings. */
  function XorSeq(a: seq<byte>, b: seq<byte>): (c: seq<byte>)
    requires |a| == |b|
    ensures |c| == |a|
    ensures forall i :: 0 <= i < |a| ==> c[i] == Xor(a[i], b[i])
  {
    seq(|a|, i requires 0 <= i < |a| => Xor(a[i], b[i]))
  }

  lemma XorSeqUndone(a: seq<byte>, b: seq<byte>)
    requires |a| == |b|
    ensures XorSeq(XorSeq(a, b), b) == a
  {
    forall i | 0 <= i < |a|
      ensures XorSeq(XorSeq(a, b), b)[i] == a[i]
    {
      XorNatUndone(a[i], b[i]);
    }
  }

  // ------------------------------------------------------------------
  // Single bits

  /** Bit `k` counted from the least significant end: `(n >> k) & 1`. */
  function BitOf(n: nat, k: nat): (r: nat)
    ensures r <= 1
  {
    if k == 0 then n % 2 else BitOf(n / 2, k - 1)
  }

  /** `n | (1 << k)`. */
  function SetBitOf(n: nat, k: nat): (r: nat)
    ensures n <= r
  {
    if k == 0 then n / 2 * 2 + 1 else SetBitOf(n / 2, k - 1) * 2 + n % 2
  }

  lemma {:induction false} SetBitOfBits(n: nat, k: nat, j: nat)
    ensures BitOf(SetBitOf(n, k), j) == if j == k then 1 else BitOf(n, j)
  {
    if j > 0 && k > 0 { SetBitOfBits(n / 2, k - 1, j - 1); }
  }

  lemma {:induction false} SetBitOfBound(n: nat, k: nat, w: nat)
    requires n < Pow(2, w) && k < w
    ensures SetBitOf(n, k) < Pow(2, w)
  {
    if k > 0 { SetBitOfBound(n / 2, k - 1, w - 1); }
  }

  // ------------------------------------------------------------------
  // Big- and little-endian integers

  datatype Endian = Big | Little

  /** The value of a big-endian byte string. */
  function BeVal(s: seq<byte>): nat
  {
    if |s| == 0 then 0 else BeVal(s[..|s| - 1]) * 256 + s[|s| - 1]
  }

  /** `n` modulo 256^k as exactly `k` big-endian bytes. */
  function BePut(n: nat, k: nat): (s: seq<byte>)
    ensures |s| == k
  {
    if k == 0 then [] else BePut(n / 256, k - 1) + [n % 256]
  }

  lemma {:induction false} BeValBound(s: seq<byte>)
    ensures BeVal(s) < Pow(256, |s|)
  {
    if |s| > 0 { BeValBound(s[..|s| - 1]); }
  }

  lemma {:induction false} BePutVal(n: nat, k: nat)
    requires n < Pow(256, k)
    ensures BeVal(BePut(n, k)) == n
  {
    if k > 0 {
      BePutVal(n / 256, k - 1);
      assert BePut(n, k)[..k - 1] == BePut(n / 256, k - 1);
    }
  }

  lemma {:induction false} BeValPut(s: seq<byte>)
    ensures BePut(BeVal(s), |s|) == s
  {
    if |s| > 0 {
      BeValPut(s[..|s| - 1]);
    }
  }

  lemma {:induction false} BeValConcat(a: seq<byte>, b: seq<byte>)
    ensures BeVal(a + b) == BeVal(a) * Pow(256, |b|) + BeVal(b)
  {
    if |b| == 0 {
      assert a + b == a;
    } else {
      var b' := b[..|b| - 1];
      BeValConcat(a, b');
      assert (a + b)[..|a + b| - 1] == a + b';
      Horner(BeVal(a), Pow(256, |b'|), BeVal(b'), b[|b| - 1]);
    }
  }

  lemma Horner(x: nat, p: nat, v: nat, d: nat)
    ensures (x * p + v) * 256 + d == x * (256 * p) + (v * 256 + d)
  {
    assert (x * p) * 256 == x * (256 * p);
  }

  lemma BeValTwo(s: seq<byte>)
    requires |s| == 2
    ensures BeVal(s) == s[0] as int * 256 + s[1]
  {
    assert s[..1][..0] == [] && BeVal(s[..1]) == s[0];
  }

  lemma BeValFour(s: seq<byte>)
    requires |s| == 4
    ensures BeVal(s) == ((s[0] as int * 256 + s[1]) * 256 + s[2]) * 256 + s[3]
  {
    BeValTwo(s[..2]);
    assert s[..3][..2] == s[..2];
    assert BeVal(s[..3]) == (s[0] as int * 256 + s[1]) * 256 + s[2];
  }

  function Reverse(s: seq<byte>): (r: seq<byte>)
    ensures |r| == |s| && forall i :: 0 <= i < |s| ==> r[i] == s[|s| - 1 - i]
  {
    seq(|s|, i requires 0 <= i < |s| => s[|s| - 1 - i])
  }

  /** An unsigned `k`-byte integer in the given byte order. */
  function PutInt(n: nat, k: nat, e: Endian): (s: seq<byte>)
    ensures |s| == k
  {
    if e.Big? then BePut(n, k) else Reverse(BePut(n, k))
  }

  function GetInt(s: seq<byte>, e: Endian): nat
  {
    if e.Big? then BeVal(s) else BeVal(Reverse(s))
  }

  lemma GetPutInt(n: nat, k: nat, e: Endian)
    requires n < Pow(256, k)
    ensures GetInt(PutInt(n, k, e), e) == n
  {
    BePutVal(n, k);
    assert Reverse(Reverse(BePut(n, k))) == BePut(n, k);
  }

  lemma PutGetInt(s: seq<byte>, e: Endian)
    ensures PutInt(GetInt(s, e), |s|, e) == s
    ensures GetInt(s, e) < Pow(256, |s|)
  {
    if e.Big? {
      BeValPut(s);
      BeValBound(s);
    } else {
      BeValPut(Reverse(s));
      BeValBound(Reverse(s));
      assert Reverse(Reverse(s)) == s;
    }
  }

  /** Four bytes in either order. */
  lemma GetFour(s: seq<byte>)
    requires |s| == 4
    ensures GetInt(s, Big) == ((s[0] as int * 256 + s[1]) * 256 + s[2]) * 256 + s[3]
    ensures GetInt(s, Little) == ((s[3] as int * 256 + s[2]) * 256 + s[1]) * 256 + s[0]
  {
    BeValFour(s);
    BeValFour(Reverse(s));
  }

  lemma GetTwo(s: seq<byte>)
    requires |s| == 2
    ensures GetInt(s, Big) == s[0] as int * 256 + s[1]
    ensures GetInt(s, Little) == s[1] as int * 256 + s[0]
  {
    BeValTwo(s);
    BeValTwo(Reverse(s));
  }

  /** Eight little-endian bytes are four low and four high ones. */
  lemma GetEight(s: seq<byte>)
    requires |s| == 8
    ensures GetInt(s, Little) == GetInt(s[..4], Little) + U32 * GetInt(s[4..], Little)
  {
    assert Reverse(s) == Reverse(s[4..]) + Reverse(s[..4]);
    BeValConcat(Reverse(s[4..]), Reverse(s[..4]));
    PowTable();
  }

  lemma PowTable()
    ensures Pow(256, 1) == 0x100 && Pow(256, 2) == 0x1_0000 && Pow(256, 4) == 0x1_0000_0000
    ensures Pow(256, 8) == 0x1_0000_0000_0000_0000
  {
    PowAdd(256, 2, 2);
    PowAdd(256, 4, 4);
  }

  // ------------------------------------------------------------------
  // Two's complement

  /** The signed reading of an unsigned value below `2 * half`. */
  function Signed(n: nat, half: int): int
  {
    if n < half then n else n - 2 * half
  }

  /** The bit pattern of a signed value, read as unsigned. */
  function Pattern(i: int, half: int): (r: nat)
    requires half > 0
    ensures r < 2 * half
  {
    i % (2 * half)
  }

  lemma SignedPattern(i: int, half: int)
    requires half > 0
    ensures -half <= i < half <==> Signed(Pattern(i, half), half) == i
  {
    var w: nat := 2 * half;
    if 0 <= i < half {
      DivUnique(i, w, 0, i);
    } else if -half <= i < 0 {
      DivUnique(i, w, -1, i + w);
    }
  }

  lemma PatternSigned(n: nat, half: int)
    requires half > 0 && n < 2 * half
    ensures Pattern(Signed(n, half), half) == n && -half <= Signed(n, half) < half
  {
    var w: nat := 2 * half;
    if n < half {
      DivUnique(n, w, 0, n);
    } else {
      DivUnique(n - w, w, -1, n);
    }
  }
}
