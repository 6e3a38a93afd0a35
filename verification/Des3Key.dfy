/** DES3 key material from 21 seed bytes (src/crypto.rs). */
module Des3Key {
  import opened Bytes
  import opened CryptoError

  // ------------------------------------------------------------------
  // Parity

  /** The number of one bits among the low `k` bits. */
  function Ones(n: nat, k: nat): nat
  {
    if k == 0 then 0 else n % 2 + Ones(n / 2, k - 1)
  }

  /** `des3_calc_odd_parity`: the top seven bits kept, the lowest bit set to make the parity odd. */
  function OddParity(b: byte): byte
  {
    if Ones(b / 2, 7) % 2 == 0 then b / 2 * 2 + 1 else b / 2 * 2
  }

  lemma OnesStep(n: nat, k: nat)
    ensures Ones(n, k + 1) == n % 2 + Ones(n / 2, k)
  {
  }

  lemma OddParityIsOdd(b: byte)
    ensures Ones(OddParity(b), 8) % 2 == 1 && OddParity(b) / 2 == b / 2
  {
    hide Ones;
    OnesStep(OddParity(b), 7);
  }

  // ------------------------------------------------------------------
  // Stretching 56 bits over eight bytes

  /** The byte that collects the lowest bits of the first `k` seed bytes, in bits 1..k. */
  function LowestBits(seed: seq<byte>, k: nat): (r: nat)
    requires k <= |seed|
    ensures r < Pow(2, k + 1) && r % 2 == 0
  {
    if k == 0 then 0
    else
      assert Pow(2, k + 1) == 2 * Pow(2, k);
      LowestBits(seed, k - 1) + if seed[k - 1] % 2 != 0 then Pow(2, k) else 0
  }

  /** The last byte of a stretched block, before its parity is set. */
  function LastByte(seed: seq<byte>): (r: byte)
    requires |seed| == 7
    ensures r == LowestBits(seed, 7)
  {
    PowTwoEight();
    LowestBits(seed, 7)
  }

  /** `des3_stretch_56_bits`. */
  function Stretch(seed: seq<byte>): (r: seq<byte>)
    requires |seed| == 7
    ensures |r| == 8
  {
    seq(7, i requires 0 <= i < 7 => OddParity(seed[i])) + [OddParity(LastByte(seed))]
  }

  /** The seed bytes a stretched block holds. */
  function Unstretch(block: seq<byte>): (r: seq<byte>)
    requires |block| == 8
    ensures |r| == 7
  {
    seq(7, i requires 0 <= i < 7 => block[i] / 2 * 2 + BitOf(block[7], i + 1))
  }

  lemma {:induction false} BitOfHigh(n: nat, k: nat, i: nat)
    requires n < Pow(2, k) && i <= k
    ensures BitOf(n + Pow(2, k), i) == if i == k then 1 else BitOf(n, i)
  {
    if k > 0 && i > 0 { BitOfHigh(n / 2, k - 1, i - 1); }
  }

  lemma {:induction false} BitOfAbove(n: nat, k: nat)
    requires n < Pow(2, k)
    ensures BitOf(n, k) == 0
  {
    if k > 0 { BitOfAbove(n / 2, k - 1); }
  }

  lemma {:induction false} LowestBitsAt(seed: seq<byte>, k: nat, i: nat)
    requires k <= |seed| && i < k
    ensures BitOf(LowestBits(seed, k), i + 1) == seed[i] % 2
  {
    BitOfHigh(LowestBits(seed, k - 1), k, i + 1);
    BitOfAbove(LowestBits(seed, k - 1), k);
    if i < k - 1 { LowestBitsAt(seed, k - 1, i); }
  }

  /** Stretching loses no seed bit, and every byte it makes has odd parity. */
  lemma StretchKeepsBits(seed: seq<byte>)
    requires |seed| == 7
    ensures Unstretch(Stretch(seed)) == seed
    ensures forall i :: 0 <= i < 8 ==> Ones(Stretch(seed)[i], 8) % 2 == 1
  {
    var last := LastByte(seed);
    OddParityIsOdd(last);
    forall i | 0 <= i < 7
      ensures Unstretch(Stretch(seed))[i] == seed[i] && Ones(Stretch(seed)[i], 8) % 2 == 1
    {
      OddParityIsOdd(seed[i]);
      LowestBitsAt(seed, 7, i);
      assert BitOf(OddParity(last), i + 1) == BitOf(OddParity(last) / 2, i) == BitOf(last, i + 1);
    }
  }

  /** Where each seed bit goes: the top seven bits of a byte stay, its lowest goes to the last byte, and the
      lowest bit of every byte made is its parity. */
  lemma StretchBits(seed: seq<byte>)
    requires |seed| == 7
    ensures var r := Stretch(seed);
            && (forall i :: 0 <= i < 7 ==> r[i] / 2 == seed[i] / 2 && BitOf(r[7], i + 1) == seed[i] % 2)
            && forall i :: 0 <= i < 8 ==> Ones(r[i], 8) % 2 == 1
  {
    hide Ones, BitOf;
    var last := LastByte(seed);
    StretchKeepsBits(seed);
    OddParityIsOdd(last);
    forall i | 0 <= i < 7
      ensures Stretch(seed)[i] / 2 == seed[i] / 2 && BitOf(Stretch(seed)[7], i + 1) == seed[i] % 2
    {
      OddParityIsOdd(seed[i]);
      LowestBitsAt(seed, 7, i);
      BitOfHalf(OddParity(last), i);
      BitOfHalf(last, i);
    }
  }

  lemma BitOfHalf(n: nat, i: nat)
    ensures BitOf(n, i + 1) == BitOf(n / 2, i)
  {
  }

  /** The stretching loop. */
  method StretchLoop(seed: seq<byte>) returns (out: seq<byte>)
    requires |seed| == 7
    ensures out == Stretch(seed)
  {
    var lastByte := 0;
    out := [];
    for idx := 0 to |seed|
      invariant |out| == idx && forall i :: 0 <= i < idx ==> out[i] == OddParity(seed[i])
      invariant lastByte == LowestBits(seed, idx)
    {
      out := out + [OddParity(seed[idx])];
      if seed[idx] % 2 != 0 {
        lastByte := lastByte + Pow(2, idx + 1);
      }
    }
    assert lastByte == LastByte(seed);
    out := out + [OddParity(lastByte)];
  }

  // ------------------------------------------------------------------
  // Weak keys

  const WEAK_KEYS: set<seq<byte>> := {
    [0x01, 0x01, 0x01, 0x01, 0x01, 0x01, 0x01, 0x01],
    [0xfe, 0xfe, 0xfe, 0xfe, 0xfe, 0xfe, 0xfe, 0xfe],
    [0xe0, 0xe0, 0xe0, 0xe0, 0xf1, 0xf1, 0xf1, 0xf1],
    [0x1f, 0x1f, 0x1f, 0x1f, 0x0e, 0x0e, 0x0e, 0x0e],
    [0x01, 0x1f, 0x01, 0x1f, 0x01, 0x0e, 0x01, 0x0e],
    [0x1f, 0x01, 0x1f, 0x01, 0x0e, 0x01, 0x0e, 0x01],
    [0x01, 0xe0, 0x01, 0xe0, 0x01, 0xf1, 0x01, 0xf1],
    [0xe0, 0x01, 0xe0, 0x01, 0xf1, 0x01, 0xf1, 0x01],
    [0x01, 0xfe, 0x01, 0xfe, 0x01, 0xfe, 0x01, 0xfe],
    [0xfe, 0x01, 0xfe, 0x01, 0xfe, 0x01, 0xfe, 0x01],
    [0x1f, 0xe0, 0x1f, 0xe0, 0x0e, 0xf1, 0x0e, 0xf1],
    [0xe0, 0x1f, 0xe0, 0x1f, 0xf1, 0x0e, 0xf1, 0x0e],
    [0x1f, 0xfe, 0x1f, 0xfe, 0x0e, 0xfe, 0x0e, 0xfe],
    [0xfe, 0x1f, 0xfe, 0x1f, 0xfe, 0x0e, 0xfe, 0x0e],
    [0xe0, 0xfe, 0xe0, 0xfe, 0xf1, 0xfe, 0xf1, 0xfe],
    [0xfe, 0xe0, 0xfe, 0xe0, 0xfe, 0xf1, 0xfe, 0xf1]
  }

  /** What a half of a weak key repeats in its last four bytes for a byte of its first four. */
  function Partner(b: byte): byte
  {
    if b == 0xe0 then 0xf1 else if b == 0x1f then 0x0e else b
  }

  /** The table is complete: the weak and semi-weak keys are the sixteen alternations of two such bytes. */
  lemma WeakKeysAre(block: seq<byte>)
    ensures block in WEAK_KEYS <==>
      && |block| == 8
      && block[0] in {0x01, 0x1f, 0xe0, 0xfe} && block[1] in {0x01, 0x1f, 0xe0, 0xfe}
      && block[2] == block[0] && block[3] == block[1]
      && block[4] == block[6] == Partner(block[0]) && block[5] == block[7] == Partner(block[1])
  {
    if |block| == 8 {
      var x, y := block[0], block[1];
      var shape: seq<byte> := [x, y, x, y, Partner(x), Partner(y), Partner(x), Partner(y)];
      if block[2] == x && block[3] == y && block[4] == block[6] == Partner(x) && block[5] == block[7] == Partner(y) {
        assert block == shape;
      }
    }
  }

  /** `des3_fix_weak_key`. */
  function FixWeak(block: seq<byte>): (r: seq<byte>)
    requires |block| == 8
    ensures |r| == 8
  {
    if block in WEAK_KEYS then block[7 := Xor(block[7], 0xf0)] else block
  }

  lemma WeakPattern(block: seq<byte>)
    requires block in WEAK_KEYS
    ensures |block| == 8 && block[5] == block[7] && block[7] in {0x01, 0xfe, 0xf1, 0x0e}
  {
  }

  lemma FlippedBytes()
    ensures Xor(0x01, 0xf0) == 0xf1 && Xor(0xf1, 0xf0) == 0x01
    ensures Xor(0xfe, 0xf0) == 0x0e && Xor(0x0e, 0xf0) == 0xfe
  {
    assert XorNat(0x0, 0xf) == 0xf && XorNat(0xf, 0xf) == 0;
    assert XorNat(0x01, 0xf0) == 16 * XorNat(0x0, 0xf) + 1;
    assert XorNat(0xf1, 0xf0) == 16 * XorNat(0xf, 0xf) + 1;
    assert XorNat(0x0e, 0xf0) == 16 * XorNat(0x0, 0xf) + 14;
    assert XorNat(0xfe, 0xf0) == 16 * XorNat(0xf, 0xf) + 14;
  }

  /** A weak key has the upper half of its last byte flipped; any other block is left alone. */
  lemma FixWeakExact(block: seq<byte>)
    requires |block| == 8
    ensures block !in WEAK_KEYS ==> FixWeak(block) == block
    ensures block in WEAK_KEYS ==>
              && FixWeak(block)[..7] == block[..7]
              && FixWeak(block)[7] % 16 == block[7] % 16
              && FixWeak(block)[7] / 16 == 15 - block[7] / 16
  {
    hide Xor, XorNat;
    if block in WEAK_KEYS {
      WeakPattern(block);
      FlippedBytes();
    }
  }

  /** Flipping the high half of one of these bytes keeps its parity odd. */
  lemma FlippedParity(b: byte)
    requires b in {0x01, 0xfe, 0xf1, 0x0e}
    ensures Ones(Xor(b, 0xf0), 8) % 2 == 1
  {
    FlippedBytes();
    HalfOnes();
  }

  lemma HalfOnes()
    ensures Ones(0x01, 8) == 1 && Ones(0x0e, 8) == 3
    ensures Ones(0xf1, 8) == 5 && Ones(0xfe, 8) == 7
  {
    assert Ones(0x0, 4) == 0 && Ones(0xf, 4) == 4;
    assert Ones(0x1, 5) == 1 && Ones(0x3, 5) == 2;
    assert Ones(0x1f, 5) == 5 && Ones(0x1e, 5) == 4;
  }

  /** The fixup leaves no weak key behind and keeps odd parity. */
  lemma FixWeakWorks(block: seq<byte>)
    requires |block| == 8 && forall i :: 0 <= i < 8 ==> Ones(block[i], 8) % 2 == 1
    ensures FixWeak(block) !in WEAK_KEYS
    ensures forall i :: 0 <= i < 8 ==> Ones(FixWeak(block)[i], 8) % 2 == 1
  {
    hide Ones;
    if block in WEAK_KEYS {
      WeakPattern(block);
      FlippedBytes();
      FlippedParity(block[7]);
      var fixed := FixWeak(block);
      if fixed in WEAK_KEYS { WeakPattern(fixed); }
    }
  }

  // ------------------------------------------------------------------
  // The key

  /** The blocks of a key, one for every seven seed bytes. */
  function KeyFrom(seed: seq<byte>): (key: seq<byte>)
    requires Whole(|seed|, 7)
    decreases |seed|
  {
    if seed == [] then [] else FixWeak(Stretch(seed[..7])) + KeyFrom(seed[7..])
  }

  lemma {:induction false} KeyFromLength(seed: seq<byte>)
    requires Whole(|seed|, 7)
    ensures 7 * |KeyFrom(seed)| == 8 * |seed|
    decreases |seed|
  {
    if seed != [] { KeyFromLength(seed[7..]); }
  }

  function RandomToKey(seed: seq<byte>): (key: seq<byte>)
    requires |seed| == 21
    ensures |key| == 24
  {
    assert Whole(0, 7) && Whole(7, 7) && Whole(14, 7);
    KeyFromLength(seed);
    KeyFrom(seed)
  }

  /** Every byte of a derived key has odd parity, and none of its blocks is weak. */
  lemma {:induction false} KeyFromIsGood(seed: seq<byte>, j: nat)
    requires Whole(|seed|, 7) && 7 * j < |seed|
    ensures 8 * j + 8 <= |KeyFrom(seed)|
    ensures KeyFrom(seed)[8 * j..8 * j + 8] !in WEAK_KEYS
    ensures forall i :: 8 * j <= i < 8 * j + 8 ==> Ones(KeyFrom(seed)[i], 8) % 2 == 1
    decreases |seed|
  {
    var first, rest := FixWeak(Stretch(seed[..7])), KeyFrom(seed[7..]);
    if j == 0 {
      StretchKeepsBits(seed[..7]);
      FixWeakWorks(Stretch(seed[..7]));
      assert KeyFrom(seed)[0..8] == first;
    } else {
      KeyFromIsGood(seed[7..], j - 1);
      assert KeyFrom(seed)[8 * j..8 * j + 8] == rest[8 * j - 8..8 * j];
      forall i | 8 * j <= i < 8 * j + 8
        ensures Ones(KeyFrom(seed)[i], 8) % 2 == 1
      {
        assert KeyFrom(seed)[i] == rest[i - 8];
      }
    }
  }

  lemma KeyStep(seed: seq<byte>, i: nat)
    requires i < |seed| && Whole(|seed| - i, 7)
    ensures i + 7 <= |seed|
    ensures KeyFrom(seed[i..]) == FixWeak(Stretch(seed[i..i + 7])) + KeyFrom(seed[i + 7..])
  {
    assert seed[i..][..7] == seed[i..i + 7] && seed[i..][7..] == seed[i + 7..];
  }

  lemma KeyFromEmpty()
    ensures KeyFrom([]) == []
  {
  }

  /** Each seven seed bytes make one block of the key, stretched and fixed. */
  ghost predicate KeyBlocks(seed: seq<byte>, key: seq<byte>)
  {
    && |seed| == 21 && |key| == 24
    && key[..8] == FixWeak(Stretch(seed[..7]))
    && key[8..16] == FixWeak(Stretch(seed[7..14]))
    && key[16..] == FixWeak(Stretch(seed[14..]))
  }

  lemma RandomToKeyBlocks(seed: seq<byte>)
    requires |seed| == 21
    ensures KeyBlocks(seed, RandomToKey(seed))
  {
    hide FixWeak, Stretch;
    assert Whole(0, 7) && Whole(7, 7) && Whole(14, 7);
    assert seed[0..] == seed && seed[14..21] == seed[14..] && seed[21..] == [];
    KeyStep(seed, 0);
    KeyStep(seed, 7);
    KeyStep(seed, 14);
  }

  /** The loop of `des3_random_to_key` over the blocks. */
  method KeyLoop(bytes: seq<byte>) returns (key: seq<byte>)
    requires Whole(|bytes|, 7)
    ensures key == KeyFrom(bytes)
  {
    hide FixWeak, Stretch, KeyFrom;
    KeyFromEmpty();
    key := [];
    var i := 0;
    assert bytes[0..] == bytes;
    while i < |bytes|
      invariant 0 <= i <= |bytes| && Whole(|bytes| - i, 7)
      invariant KeyFrom(bytes) == key + KeyFrom(bytes[i..])
    {
      KeyStep(bytes, i);
      var block := StretchLoop(bytes[i..i + 7]);
      ghost var rest := KeyFrom(bytes[i + 7..]);
      assert key + (FixWeak(block) + rest) == (key + FixWeak(block)) + rest;
      key := key + FixWeak(block);
      i := i + 7;
    }
    assert bytes[i..] == [];
  }

  /** `des3_random_to_key`. */
  method Des3RandomToKey(bytes: seq<byte>) returns (r: Result<seq<byte>, Error>)
    ensures |bytes| != 21 ==> r == Err(InvalidSeedLength(21, |bytes|))
    ensures |bytes| == 21 ==> r == Ok(RandomToKey(bytes)) && KeyBlocks(bytes, r.value)
  {
    if |bytes| != 21 { return Err(InvalidSeedLength(21, |bytes|)); }
    assert Whole(21, 7) by { assert Whole(0, 7) && Whole(7, 7) && Whole(14, 7); }
    var key := KeyLoop(bytes);
    RandomToKeyBlocks(bytes);
    return Ok(key);
  }
}
