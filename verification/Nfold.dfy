/** The n-fold operation of section 5.1 of RFC 3961 (src/crypto.rs). */
module Nfold {
  import opened Bytes
  import opened CryptoError

  // ------------------------------------------------------------------
  // Bits of a byte string, most significant first

  /** `get_bit`. */
  function GetBit(s: seq<byte>, position: nat): (r: nat)
    requires position < 8 * |s|
    ensures r <= 1
  {
    BitOf(s[position / 8], 7 - position % 8)
  }

  /** `set_bit` on a copy. */
  function SetBit(s: seq<byte>, position: nat, value: nat): (r: seq<byte>)
    requires position < 8 * |s| && value <= 1
    ensures |r| == |s|
  {
    var k := 7 - position % 8;
    PowTwoEight();
    SetBitOfBound(s[position / 8], k, 8);
    s[position / 8 := if value == 0 then s[position / 8] else SetBitOf(s[position / 8], k)]
  }

  lemma SetThenGet(s: seq<byte>, p: nat, value: nat, q: nat)
    requires p < 8 * |s| && q < 8 * |s| && value <= 1
    ensures GetBit(SetBit(s, p, value), q) == if p == q && value == 1 then 1 else GetBit(s, q)
  {
    if p / 8 == q / 8 && value == 1 {
      SetBitOfBits(s[p / 8], 7 - p % 8, 7 - q % 8);
    }
  }

  /** The number spelled by the bits from position `i` on. */
  function Suffix(s: seq<byte>, i: nat): nat
    requires i <= 8 * |s|
    decreases 8 * |s| - i
  {
    if i == 8 * |s| then 0
    else GetBit(s, i) * Pow(2, 8 * |s| - 1 - i) + Suffix(s, i + 1)
  }

  lemma {:induction false} SuffixSame(s: seq<byte>, t: seq<byte>, i: nat)
    requires |s| == |t| && i <= 8 * |s|
    requires forall j :: i <= j < 8 * |s| ==> GetBit(s, j) == GetBit(t, j)
    ensures Suffix(s, i) == Suffix(t, i)
    decreases 8 * |s| - i
  {
    if i < 8 * |s| { SuffixSame(s, t, i + 1); }
  }

  /** The number spelled by the low `k` bits. */
  function LowBits(n: nat, k: nat): nat
  {
    if k == 0 then 0 else BitOf(n, k - 1) * Pow(2, k - 1) + LowBits(n, k - 1)
  }

  lemma DoubleProduct(b: nat, p: nat)
    ensures b * (2 * p) == 2 * (b * p)
  {
  }

  lemma {:induction false} LowBitsHalve(n: nat, k: nat)
    ensures LowBits(n, k + 1) == 2 * LowBits(n / 2, k) + n % 2
  {
    if k > 0 {
      LowBitsHalve(n, k - 1);
      DoubleProduct(BitOf(n / 2, k - 1), Pow(2, k - 1));
    }
  }

  lemma {:induction false} LowBitsAll(n: nat, k: nat)
    requires n < Pow(2, k)
    ensures LowBits(n, k) == n
  {
    if k > 0 {
      LowBitsHalve(n, k - 1);
      LowBitsAll(n / 2, k - 1);
    }
  }

  lemma {:induction false} PowTwoBytes(m: nat)
    ensures Pow(2, 8 * m) == Pow(256, m)
  {
    if m > 0 {
      PowTwoBytes(m - 1);
      PowAdd(2, 8, 8 * (m - 1));
      PowTwoEight();
    }
  }

  lemma Distribute(b: nat, p: nat, w: nat, l: nat)
    ensures b * (p * w) + l * w == (b * p + l) * w
  {
  }

  /** The last `k` bits of byte `j` weigh in above the bytes after it. */
  lemma {:induction false} SuffixInByte(s: seq<byte>, j: nat, k: nat)
    requires j < |s| && k <= 8
    ensures Suffix(s, 8 * j + 8 - k)
         == LowBits(s[j], k) * Pow(2, 8 * (|s| - j - 1)) + Suffix(s, 8 * j + 8)
  {
    if k > 0 {
      SuffixInByte(s, j, k - 1);
      SuffixBit(s, j, k, 8 * (|s| - j - 1));
      Distribute(BitOf(s[j], k - 1), Pow(2, k - 1), Pow(2, 8 * (|s| - j - 1)), LowBits(s[j], k - 1));
    }
  }

  lemma SuffixBit(s: seq<byte>, j: nat, k: nat, m: nat)
    requires j < |s| && 0 < k <= 8 && m == 8 * (|s| - j - 1)
    ensures Suffix(s, 8 * j + 8 - k)
         == BitOf(s[j], k - 1) * (Pow(2, k - 1) * Pow(2, m)) + Suffix(s, 8 * j + 8 - (k - 1))
  {
    var i := 8 * j + 8 - k;
    assert i / 8 == j && 7 - i % 8 == k - 1;
    assert 8 * |s| - 1 - i == k - 1 + m;
    PowAdd(2, k - 1, m);
  }

  lemma {:induction false} SuffixValue(s: seq<byte>, j: nat)
    requires j <= |s|
    ensures Suffix(s, 8 * j) == BeVal(s[j..])
    decreases |s| - j
  {
    if j < |s| {
      SuffixValue(s, j + 1);
      SuffixInByte(s, j, 8);
      PowTwoEight();
      LowBitsAll(s[j], 8);
      PowTwoBytes(|s| - j - 1);
      BeValConcat([s[j]], s[j + 1..]);
      assert s[j..] == [s[j]] + s[j + 1..];
      assert BeVal([s[j]]) == s[j];
    }
  }

  lemma ValueOfBits(s: seq<byte>)
    ensures Suffix(s, 0) == BeVal(s)
  {
    SuffixValue(s, 0);
    assert s[0..] == s;
  }

  // ------------------------------------------------------------------
  // Rotation

  /** `out` is `s` with its bits rotated right by `steps`. */
  ghost predicate IsRotation(s: seq<byte>, steps: nat, out: seq<byte>)
  {
    |out| == |s| && forall i :: 0 <= i < 8 * |s| ==> GetBit(out, Turned(i, steps, 8 * |s|)) == GetBit(s, i)
  }

  function Turned(i: nat, steps: nat, n: nat): (r: nat)
    requires i < n
    ensures r < n
  {
    (i + steps) % n
  }

  /** Every target position of a rotation has a source. */
  lemma TurnedOnto(q: nat, steps: nat, n: nat) returns (i: nat)
    requires q < n
    ensures i < n && Turned(i, steps, n) == q
  {
    var k := steps % n;
    var m := steps / n;
    assert steps == n * m + k;
    if k <= q {
      i := q - k;
      DivUnique(i + steps, n, m, q);
    } else {
      i := q + n - k;
      assert n * (m + 1) == n * m + n;
      DivUnique(i + steps, n, m + 1, q);
    }
  }

  lemma TurnedInjective(i: nat, j: nat, steps: nat, n: nat)
    requires i < n && j < n && Turned(i, steps, n) == Turned(j, steps, n)
    ensures i == j
  {
    var a, b := (i + steps) / n, (j + steps) / n;
    assert n * (a - b) == i - j by {
      assert n * (a - b) == n * a - n * b;
    }
    MulAtLeast(n, a - b);
  }

  lemma RotationUnique(s: seq<byte>, steps: nat, x: seq<byte>, y: seq<byte>)
    requires IsRotation(s, steps, x) && IsRotation(s, steps, y)
    ensures x == y
  {
    var n := 8 * |s|;
    forall q | 0 <= q < n
      ensures GetBit(x, q) == GetBit(y, q)
    {
      var i := TurnedOnto(q, steps, n);
    }
    SuffixSame(x, y, 0);
    ValueOfBits(x);
    ValueOfBits(y);
    BeValPut(x);
    BeValPut(y);
  }

  /** The recursion behind `Rotate`: the positions below `k` have been carried over. */
  function RotateUpTo(s: seq<byte>, steps: nat, k: nat): (out: seq<byte>)
    requires k <= 8 * |s|
    ensures |out| == |s|
  {
    if k == 0 then Zeros(|s|)
    else SetBit(RotateUpTo(s, steps, k - 1), Turned(k - 1, steps, 8 * |s|), GetBit(s, k - 1))
  }

  lemma {:induction false} ZeroBits(n: nat, q: nat)
    requires q < 8 * n
    ensures GetBit(Zeros(n), q) == 0
  {
    BitOfZero(7 - q % 8);
  }

  lemma {:induction false} BitOfZero(k: nat)
    ensures BitOf(0, k) == 0
  {
    if k > 0 { BitOfZero(k - 1); }
  }

  lemma {:induction false} RotateUpToBits(s: seq<byte>, steps: nat, k: nat, i: nat)
    requires k <= 8 * |s| && i < 8 * |s|
    ensures GetBit(RotateUpTo(s, steps, k), Turned(i, steps, 8 * |s|)) == if i < k then GetBit(s, i) else 0
    decreases k
  {
    var n := 8 * |s|;
    if k == 0 {
      ZeroBits(|s|, Turned(i, steps, n));
    } else {
      RotateUpToBits(s, steps, k - 1, i);
      SetThenGet(RotateUpTo(s, steps, k - 1), Turned(k - 1, steps, n), GetBit(s, k - 1), Turned(i, steps, n));
      if Turned(i, steps, n) == Turned(k - 1, steps, n) { TurnedInjective(i, k - 1, steps, n); }
    }
  }

  /** The rotation of `s` right by `steps` bits. */
  function Rotate(s: seq<byte>, steps: nat): (out: seq<byte>)
    ensures IsRotation(s, steps, out)
  {
    assert forall i :: 0 <= i < 8 * |s| ==>
      GetBit(RotateUpTo(s, steps, 8 * |s|), Turned(i, steps, 8 * |s|)) == GetBit(s, i) by {
      forall i | 0 <= i < 8 * |s|
        ensures GetBit(RotateUpTo(s, steps, 8 * |s|), Turned(i, steps, 8 * |s|)) == GetBit(s, i)
      {
        RotateUpToBits(s, steps, 8 * |s|, i);
      }
    }
    RotateUpTo(s, steps, 8 * |s|)
  }

  /** `rotate_right`. */
  method RotateRight(bytes: seq<byte>, steps: nat) returns (out: seq<byte>)
    ensures IsRotation(bytes, steps, out) && out == Rotate(bytes, steps)
  {
    var bitLen := |bytes| * 8;
    out := Zeros(|bytes|);
    for i := 0 to bitLen
      invariant out == RotateUpTo(bytes, steps, i)
    {
      var bit := GetBit(bytes, i);
      out := SetBit(out, (i + steps) % bitLen, bit);
    }
    assert out == Rotate(bytes, steps);
  }

  // ------------------------------------------------------------------
  // Ones' complement addition

  /** The largest `k`-byte number. */
  function MaxOf(k: nat): nat
  {
    PowPositive(256, k);
    Pow(256, k) - 1
  }

  /** Addition with the carry wrapped around. */
  function Wrap(sum: nat, max: nat): nat
  {
    if sum > max then sum - max else sum
  }

  /** One step of the addition loop keeps the running sum. */
  lemma AddStep(left: seq<byte>, right: seq<byte>, out: seq<byte>, i: nat, carry: nat, bit: nat, carry': nat)
    requires |left| == |right| == |out| && i < 8 * |left| && bit <= 1
    requires GetBit(left, i) + GetBit(right, i) + carry == bit + 2 * carry'
    requires Suffix(out, i + 1) + carry * Pow(2, 8 * |left| - 1 - i) == Suffix(left, i + 1) + Suffix(right, i + 1)
    requires GetBit(out, i) == 0
    ensures Suffix(SetBit(out, i, bit), i) + carry' * Pow(2, 8 * |left| - i) == Suffix(left, i) + Suffix(right, i)
  {
    var out' := SetBit(out, i, bit);
    forall j | i <= j < 8 * |left|
      ensures GetBit(out', j) == if j == i then bit else GetBit(out, j)
    {
      SetThenGet(out, i, bit, j);
    }
    SuffixSame(out, out', i + 1);
    var p := Pow(2, 8 * |left| - 1 - i);
    assert Pow(2, 8 * |left| - i) == 2 * p;
    AddDigit(GetBit(left, i), GetBit(right, i), carry, bit, carry', p);
  }

  lemma AddDigit(a: nat, b: nat, carry: nat, bit: nat, carry': nat, p: nat)
    requires a + b + carry == bit + 2 * carry'
    ensures a * p + b * p + carry * p == bit * p + carry' * (2 * p)
  {
    assert (a + b + carry) * p == (bit + 2 * carry') * p;
  }

  /** One iteration of the addition loop. */
  method AddBit(left: seq<byte>, right: seq<byte>, out: seq<byte>, bitIndex: nat, carry: nat)
    returns (out': seq<byte>, carry': nat)
    requires |left| == |right| == |out| && bitIndex < 8 * |left| && carry <= 1
    ensures var sum := GetBit(left, bitIndex) + GetBit(right, bitIndex) + carry;
            out' == SetBit(out, bitIndex, sum % 2) && carry' == sum / 2
  {
    var sum := GetBit(left, bitIndex) + GetBit(right, bitIndex) + carry;
    out' := out;
    match sum
    case 0 => carry' := 0;
    case 1 =>
      out' := SetBit(out', bitIndex, 1);
      carry' := 0;
    case 2 => carry' := 1;
    case _ =>
      out' := SetBit(out', bitIndex, 1);
      carry' := 1;
  }

  /** What the addition loop keeps: the bits from `i` on add up, and the bits before are clear. */
  ghost predicate Added(left: seq<byte>, right: seq<byte>, out: seq<byte>, i: nat, carry: nat)
  {
    && |left| == |right| == |out| && i <= 8 * |left| && carry <= 1
    && (forall j :: 0 <= j < i ==> GetBit(out, j) == 0)
    && Suffix(out, i) + carry * Pow(2, 8 * |left| - i) == Suffix(left, i) + Suffix(right, i)
  }

  lemma AddedNone(left: seq<byte>, right: seq<byte>)
    requires |left| == |right|
    ensures Added(left, right, Zeros(|left|), 8 * |left|, 0)
  {
    forall j | 0 <= j < 8 * |left|
      ensures GetBit(Zeros(|left|), j) == 0
    {
      ZeroBits(|left|, j);
    }
  }

  lemma AddedStep(left: seq<byte>, right: seq<byte>, out: seq<byte>, i: nat, carry: nat)
    requires i < 8 * |left| && Added(left, right, out, i + 1, carry)
    ensures var sum := GetBit(left, i) + GetBit(right, i) + carry;
            Added(left, right, SetBit(out, i, sum % 2), i, sum / 2)
  {
    var sum := GetBit(left, i) + GetBit(right, i) + carry;
    AddStep(left, right, out, i, carry, sum % 2, sum / 2);
    forall j | 0 <= j < i
      ensures GetBit(SetBit(out, i, sum % 2), j) == 0
    {
      SetThenGet(out, i, sum % 2, j);
    }
  }

  lemma AddedAll(left: seq<byte>, right: seq<byte>, out: seq<byte>, carry: nat)
    requires Added(left, right, out, 0, carry)
    ensures BeVal(out) + carry * (MaxOf(|left|) + 1) == BeVal(left) + BeVal(right)
    ensures BeVal(left) <= MaxOf(|left|) && BeVal(right) <= MaxOf(|left|) && BeVal(out) <= MaxOf(|left|)
    ensures carry == 1 ==> left != []
  {
    hide GetBit, SetBit;
    ValueOfBits(left);
    ValueOfBits(right);
    ValueOfBits(out);
    PowTwoBytes(|left|);
    ValueInRange(left);
    ValueInRange(right);
    ValueInRange(out);
  }

  lemma ValueInRange(s: seq<byte>)
    ensures BeVal(s) <= MaxOf(|s|)
  {
    BeValBound(s);
  }

  /** `ones_complement_addition`: the recursion happens at most once, since a wrapped sum plus one
      cannot carry again. */
  method OnesComplementAddition(left: seq<byte>, right: seq<byte>) returns (out: seq<byte>)
    requires |left| == |right|
    ensures |out| == |left|
    ensures BeVal(out) == Wrap(BeVal(left) + BeVal(right), MaxOf(|left|))
    decreases if BeVal(left) + BeVal(right) > MaxOf(|left|) then 1 else 0
  {
    var numBits := 8 * |left|;
    out := Zeros(|left|);
    var carry := 0;
    AddedNone(left, right);
    for bitIndex := numBits downto 0
      invariant Added(left, right, out, bitIndex, carry)
    {
      AddedStep(left, right, out, bitIndex, carry);
      out, carry := AddBit(left, right, out, bitIndex, carry);
    }
    AddedAll(left, right, out, carry);
    assert carry == 0 ==> BeVal(out) == BeVal(left) + BeVal(right);
    if carry == 1 {
      assert BeVal(out) + MaxOf(|left|) + 1 == BeVal(left) + BeVal(right);
      var carryArray := WithCarry(left);
      out := OnesComplementAddition(out, carryArray);
    }
  }

  /** The number one, as wide as `left`; a carry out of no bytes at all cannot be. */
  method WithCarry(left: seq<byte>) returns (carryArray: seq<byte>)
    requires left != []
    ensures |carryArray| == |left| && BeVal(carryArray) == 1
  {
    carryArray := Zeros(|left|);
    var last := |carryArray| - 1;
    carryArray := carryArray[last := 1];
    OneAtEnd(|left|);
  }

  lemma OneAtEnd(n: nat)
    requires n > 0
    ensures BeVal(Zeros(n)[n - 1 := 1]) == 1
  {
    ZerosValue(n - 1);
    assert Zeros(n)[n - 1 := 1][..n - 1] == Zeros(n - 1);
  }

  lemma {:induction false} ZerosValue(n: nat)
    ensures BeVal(Zeros(n)) == 0
  {
    if n > 0 {
      ZerosValue(n - 1);
      assert Zeros(n)[..n - 1] == Zeros(n - 1);
    }
  }

  // ------------------------------------------------------------------
  // Greatest common divisor and least common multiple

  function Gcd(a: nat, b: nat): nat
    decreases b
  {
    if b == 0 then a else Gcd(b, a % b)
  }

  lemma {:induction false} GcdPositive(a: nat, b: nat)
    requires a > 0 || b > 0
    ensures Gcd(a, b) > 0
    decreases b
  {
    if b > 0 { GcdPositive(b, a % b); }
  }

  /** The greatest common divisor divides both numbers. */
  lemma {:induction false} GcdDivides(a: nat, b: nat) returns (p: nat, q: nat)
    ensures a == Gcd(a, b) * p && b == Gcd(a, b) * q
    decreases b
  {
    if b == 0 {
      p, q := 1, 0;
    } else {
      var k, r := Divide(a, b);
      var p', q' := GcdDivides(b, r);
      p, q := p' * k + q', p';
      DivisorStep(Gcd(b, r), a, b, k, r, p', q');
    }
  }

  lemma Divide(a: nat, b: nat) returns (k: nat, r: nat)
    requires b > 0
    ensures a == b * k + r && r < b && r == a % b
  {
    k, r := a / b, a % b;
  }

  lemma DivisorStep(g: nat, a: nat, b: nat, k: nat, r: nat, p: nat, q: nat)
    requires a == b * k + r && b == g * p && r == g * q
    ensures a == g * (p * k + q)
  {
    assert (g * p) * k == g * (p * k);
  }

  /** Every common divisor divides the greatest one. */
  lemma {:induction false} GcdGreatest(d: nat, x: nat, y: nat) returns (k: nat)
    requires d > 0
    ensures Gcd(d * x, d * y) == d * k
    decreases y
  {
    if d * y == 0 {
      k := x;
      assert y == 0 by { if y > 0 { MulAtLeast(d, y); } }
    } else {
      var r := x % y;
      assert x == y * (x / y) + r;
      assert d * x == (d * y) * (x / y) + d * r by {
        assert d * (y * (x / y)) == (d * y) * (x / y);
      }
      assert d * r < d * y by {
        MulAtLeast(d, y - r);
        assert d * (y - r) == d * y - d * r;
      }
      DivUnique(d * x, d * y, x / y, d * r);
      k := GcdGreatest(d, y, r);
    }
  }

  lemma {:induction false} GcdScale(d: nat, x: nat, y: nat)
    requires d > 0
    ensures Gcd(d * x, d * y) == d * Gcd(x, y)
    decreases y
  {
    if y == 0 {
    } else {
      var r := x % y;
      assert x == y * (x / y) + r;
      assert d * x == (d * y) * (x / y) + d * r by {
        assert d * (y * (x / y)) == (d * y) * (x / y);
      }
      MulAtLeast(d, y);
      assert d * r < d * y by {
        MulAtLeast(d, y - r);
        assert d * (y - r) == d * y - d * r;
      }
      DivUnique(d * x, d * y, x / y, d * r);
      GcdScale(d, y, r);
    }
  }

  /** `gcd`. */
  method GcdLoop(left: nat, right: nat) returns (g: nat)
    ensures g == Gcd(left, right)
  {
    var l, r := left, right;
    while r != 0
      invariant Gcd(l, r) == Gcd(left, right)
      decreases r
    {
      var next := l % r;
      l := r;
      r := next;
    }
    g := l;
  }

  /** `lcm`, by the `gcd` loop. */
  method LcmOf(left: nat, right: nat) returns (lcm: nat)
    requires left > 0
    ensures lcm == Lcm(left, right)
  {
    GcdPositive(left, right);
    var gcd := GcdLoop(left, right);
    lcm := (left * right) / gcd;
  }

  function Lcm(left: nat, right: nat): nat
    requires left > 0
  {
    GcdPositive(left, right);
    (left * right) / Gcd(left, right)
  }

  /** The least common multiple, as a multiple of both. */
  lemma LcmMultiple(left: nat, right: nat) returns (p: nat, q: nat)
    requires left > 0 && right > 0
    ensures Lcm(left, right) == right * p && Lcm(left, right) == left * q
  {
    p, q := GcdDivides(left, right);
    GcdPositive(left, right);
    LcmQuotient(Gcd(left, right), left, right, p, q);
  }

  lemma LcmQuotient(g: nat, left: nat, right: nat, p: nat, q: nat)
    requires g > 0 && left == g * p && right == g * q
    ensures (left * right) / g == right * p && right * p == left * q
  {
    assert left * right == g * (right * p) by {
      assert (g * p) * right == g * (p * right);
    }
    assert (g * p) * q == (g * q) * p;
    DivUnique(left * right, g, right * p, 0);
  }

  predicate Divides(d: nat, n: nat)
  {
    d > 0 && n % d == 0
  }

  lemma MultipleDivides(d: nat, k: nat)
    requires d > 0
    ensures Divides(d, d * k)
  {
    DivUnique(d * k, d, k, 0);
  }

  /** The least positive number both divide. */
  ghost predicate IsLeastMultiple(m: nat, a: nat, b: nat)
  {
    && m > 0 && Divides(a, m) && Divides(b, m)
    && forall n: nat :: n > 0 && Divides(a, n) && Divides(b, n) ==> m <= n
  }

  /** Every common multiple is a multiple of the least one. */
  lemma LcmDivides(a: nat, b: nat, n: nat, x: nat, y: nat) returns (k: nat)
    requires a > 0 && b > 0 && n == a * x && n == b * y
    ensures n == Lcm(a, b) * k
  {
    var g := Gcd(a, b);
    GcdPositive(a, b);
    GcdScale(x + 1, a, b);
    k := ScaledGcd(a, b, x, y);
    var p, q := GcdDivides(a, b);
    LcmQuotient(g, a, b, p, q);
    assert g * Lcm(a, b) == a * b by { assert g * (b * p) == (g * p) * b; }
    CancelLcm(a, b, g, Lcm(a, b), n, x, k);
  }

  lemma ScaledGcd(a: nat, b: nat, x: nat, y: nat) returns (k: nat)
    requires a > 0 && b > 0 && a * x == b * y
    ensures x * Gcd(a, b) == b * k
  {
    if x == 0 {
      k := 0;
    } else {
      GcdScale(x, a, b);
      k := GcdGreatest(b, y, x);
      assert x * a == b * y && x * b == b * x;
    }
  }

  lemma CancelLcm(a: nat, b: nat, g: nat, l: nat, n: nat, x: nat, k: nat)
    requires g > 0 && g * l == a * b && n == a * x && x * g == b * k
    ensures n == l * k
  {
    assert g * n == a * (x * g);
    assert a * (b * k) == (a * b) * k;
    assert g * n == g * (l * k);
    Cancel(g, n, l * k);
  }

  lemma Cancel(g: nat, u: nat, v: nat)
    requires g > 0 && g * u == g * v
    ensures u == v
  {
    MulAtLeast(g, u - v);
    assert g * (u - v) == g * u - g * v;
  }

  lemma LcmLeast(a: nat, b: nat)
    requires a > 0 && b > 0
    ensures IsLeastMultiple(Lcm(a, b), a, b)
  {
    var p, q := LcmMultiple(a, b);
    MultipleDivides(b, p);
    MultipleDivides(a, q);
    var p', q' := GcdDivides(a, b);
    GcdPositive(a, b);
    LcmQuotient(Gcd(a, b), a, b, p', q');
    assert p' > 0 && Lcm(a, b) > 0 by {
      assert p' == 0 ==> a == 0;
      MulAtLeast(b, p');
    }
    forall n: nat | n > 0 && Divides(a, n) && Divides(b, n) ensures Lcm(a, b) <= n {
      var k := LcmDivides(a, b, n, n / a, n / b);
      assert k == 0 ==> n == 0;
      MulAtLeast(Lcm(a, b), k);
    }
  }

  /** How many copies of `inputBits` bits `nfold` concatenates. */
  function Copies(inputBits: nat, outputBits: nat): nat
    requires inputBits > 0 && outputBits > 0
  {
    Lcm(outputBits, inputBits) / inputBits
  }

  lemma CopiesMultiple(inputBits: nat, outputBits: nat) returns (q: nat)
    requires inputBits > 0 && outputBits > 0
    ensures inputBits * Copies(inputBits, outputBits) == outputBits * q
  {
    var p, q' := LcmMultiple(outputBits, inputBits);
    q := q';
    DivUnique(inputBits * p, inputBits, p, 0);
  }

  /** The concatenated copies are a whole number of output chunks. */
  lemma CopiesWhole(copies: nat, q: nat, input: nat, output: nat)
    requires output > 0 && (8 * input) * copies == (8 * output) * q
    ensures Whole(copies * input, output)
  {
    assert 8 * (copies * input) == (8 * input) * copies;
    assert 8 * (q * output) == (8 * output) * q;
    WholeTimes(q, output);
  }

  lemma {:induction false} WholeTimes(q: nat, n: nat)
    requires n > 0
    ensures Whole(q * n, n)
  {
    if q > 0 {
      WholeTimes(q - 1, n);
      assert q * n == (q - 1) * n + n;
    }
  }

  // ------------------------------------------------------------------
  // n-fold

  /** The first `n` copies of the input, copy `i` rotated right by `13 * i` bits. */
  function Concatenated(input: seq<byte>, n: nat): (s: seq<byte>)
    ensures |s| == n * |input|
  {
    if n == 0 then [] else Concatenated(input, n - 1) + Rotate(input, 13 * (n - 1))
  }

  /** The representative of `s` modulo `max` in 1..max, or 0 for 0. */
  function Residue(s: nat, max: nat): (r: nat)
    requires max > 0
    ensures r <= max && (r == 0 <==> s == 0)
  {
    if s == 0 then 0 else (s - 1) % max + 1
  }

  /** Folding in one more chunk: the chunks add up because 256^k is 1 modulo `max`. */
  lemma ResidueStep(s: nat, v: nat, max: nat)
    requires max > 0 && v <= max
    ensures Wrap(Residue(s, max) + v, max) == Residue(s * (max + 1) + v, max)
  {
    var r := Residue(s, max);
    var q := if s == 0 then 0 else (s - 1) / max;
    assert s == max * q + r;
    var t := s * (max + 1) + v;
    assert s == 0 ==> r == 0;
    Regroup(s, q, r, v, max);
    if t > 0 {
      var w := Wrap(r + v, max);
      if r + v > max {
        assert max * (s + q + 1) == max * (s + q) + max;
        ResidueIs(t, max, s + q + 1, w);
      } else {
        ResidueIs(t, max, s + q, w);
      }
    }
  }

  lemma Regroup(s: nat, q: nat, r: nat, v: nat, max: nat)
    requires s == max * q + r
    ensures s * (max + 1) + v == max * (s + q) + (r + v)
    ensures s * (max + 1) + v == 0 <==> s == 0 && v == 0
  {
    assert max * (s + q) == max * s + max * q;
  }

  lemma ResidueIs(t: nat, max: nat, q: nat, w: nat)
    requires max > 0 && t > 0 && t == max * q + w && 0 < w <= max
    ensures Residue(t, max) == w
  {
    DivUnique(t - 1, max, q, w - 1);
  }

  /** The n-fold of `input` to `output` bytes: the residue of the concatenation's value. */
  function NfoldOf(input: seq<byte>, output: nat): (r: seq<byte>)
    requires input != [] && output > 0
    ensures |r| == output
    ensures BeVal(r) == Residue(BeVal(Concatenated(input, Copies(8 * |input|, 8 * output))), MaxPositive(output))
  {
    var v := Residue(BeVal(Concatenated(input, Copies(8 * |input|, 8 * output))), MaxPositive(output));
    BePutVal(v, output);
    BePut(v, output)
  }

  function MaxPositive(k: nat): (m: nat)
    requires k > 0
    ensures m > 0
  {
    PowPositive(256, k - 1);
    MaxOf(k)
  }

  /** Copy `i` in `s` is the input with bit `b` moved `13 * i` places to the right, cyclically. */
  ghost predicate CopyAt(input: seq<byte>, s: seq<byte>, i: nat)
    requires input != []
  {
    && i * |input| <= (i + 1) * |input| <= |s|
    && var copy := s[i * |input|..(i + 1) * |input|];
       |copy| == |input| && forall b :: 0 <= b < 8 * |input| ==>
         GetBit(copy, (b + 13 * i) % (8 * |input|)) == GetBit(input, b)
  }

  /** Rotated copies, as many as make the least common multiple of input and output. */
  ghost predicate Replicated(input: seq<byte>, output: nat, s: seq<byte>)
    requires input != []
  {
    && IsLeastMultiple(|s|, |input|, output)
    && forall i: nat :: i * |input| < |s| ==> CopyAt(input, s, i)
  }

  /** The n-fold, spelled out: the value of the replicated string modulo 2^n - 1, with 2^n - 1 for 0 unless
      the value is 0. */
  ghost predicate IsNfold(input: seq<byte>, output: nat, folded: seq<byte>)
    requires input != []
  {
    && |folded| == output && output > 0
    && (exists s :: Replicated(input, output, s))
    && forall s :: Replicated(input, output, s) ==> FoldedFrom(s, folded)
  }

  ghost predicate FoldedFrom(s: seq<byte>, folded: seq<byte>)
    requires folded != []
  {
    && Pow(256, |folded|) > 1
    && BeVal(folded) == if BeVal(s) == 0 then 0 else (BeVal(s) - 1) % (Pow(256, |folded|) - 1) + 1
  }

  lemma ConcatenatedLength(input: seq<byte>, output: nat)
    requires input != [] && output > 0
    ensures IsLeastMultiple(|Concatenated(input, Copies(8 * |input|, 8 * output))|, |input|, output)
  {
    var a, b := 8 * |input|, 8 * output;
    var p, q := LcmMultiple(b, a);
    var n := Copies(a, b);
    DivUnique(a * p, a, p, 0);
    assert a * n == 8 * (n * |input|);
    assert b * q == 8 * (output * q);
    LcmLeast(b, a);
    MultipleDivides(|input|, n);
    MultipleDivides(output, q);
    EighthLeast(n * |input|, |input|, output);
  }

  lemma EighthLeast(m: nat, a: nat, b: nat)
    requires IsLeastMultiple(8 * m, 8 * b, 8 * a) && Divides(a, m) && Divides(b, m)
    ensures IsLeastMultiple(m, a, b)
  {
    forall n: nat | n > 0 && Divides(a, n) && Divides(b, n) ensures m <= n {
      assert 8 * n == (8 * a) * (n / a) && 8 * n == (8 * b) * (n / b);
      MultipleDivides(8 * a, n / a);
      MultipleDivides(8 * b, n / b);
    }
  }

  lemma {:induction false} ConcatenatedAt(input: seq<byte>, n: nat, i: nat)
    requires input != [] && i < n
    ensures i * |input| <= (i + 1) * |input| <= n * |input|
    ensures Concatenated(input, n)[i * |input|..(i + 1) * |input|] == Rotate(input, 13 * i)
  {
    hide IsRotation, Rotate;
    CopyBounds(i, n, |input|);
    var s, last := Concatenated(input, n - 1), Rotate(input, 13 * (n - 1));
    if i < n - 1 {
      ConcatenatedAt(input, n - 1, i);
      SliceInside(s, last, i * |input|, (i + 1) * |input|);
    } else {
      SliceLast(s, last);
    }
  }

  lemma SliceInside(s: seq<byte>, t: seq<byte>, a: nat, b: nat)
    requires a <= b <= |s|
    ensures (s + t)[a..b] == s[a..b]
  {
  }

  lemma SliceLast(s: seq<byte>, t: seq<byte>)
    ensures (s + t)[|s|..|s| + |t|] == t
  {
  }

  lemma CopyBounds(i: nat, n: nat, len: nat)
    requires i < n
    ensures i * len <= (i + 1) * len <= n * len && (i + 1) * len == i * len + len
  {
    assert n * len == (i + 1) * len + (n - i - 1) * len;
  }

  /** The concatenation the code builds is replicated, and nothing else is. */
  lemma ConcatenatedReplicated(input: seq<byte>, output: nat)
    requires input != [] && output > 0
    ensures Replicated(input, output, Concatenated(input, Copies(8 * |input|, 8 * output)))
  {
    hide IsLeastMultiple, Copies, CopyAt, Concatenated;
    ConcatenatedLength(input, output);
    var n := Copies(8 * |input|, 8 * output);
    var s := Concatenated(input, n);
    forall i: nat | i * |input| < |s| ensures CopyAt(input, s, i) {
      BelowCount(i, n, |input|);
      ConcatenatedCopy(input, n, i);
    }
  }

  lemma ConcatenatedCopy(input: seq<byte>, n: nat, i: nat)
    requires input != [] && i < n
    ensures CopyAt(input, Concatenated(input, n), i)
  {
    hide Rotate, Concatenated, GetBit;
    ConcatenatedAt(input, n, i);
    CopyBounds(i, n, |input|);
    RotationBits(input, 13 * i, Rotate(input, 13 * i));
  }

  /** A rotation, without the name of the place each bit goes to. */
  lemma RotationBits(s: seq<byte>, steps: nat, out: seq<byte>)
    requires IsRotation(s, steps, out) && s != []
    ensures forall b :: 0 <= b < 8 * |s| ==> GetBit(out, (b + steps) % (8 * |s|)) == GetBit(s, b)
  {
    hide GetBit;
    forall b | 0 <= b < 8 * |s| ensures GetBit(out, (b + steps) % (8 * |s|)) == GetBit(s, b) {
      assert Turned(b, steps, 8 * |s|) == (b + steps) % (8 * |s|);
    }
  }

  lemma BelowCount(i: nat, n: nat, len: nat)
    requires i * len < n * len
    ensures i < n
  {
    MulAtLeast(len, i - n);
    assert i * len == n * len + len * (i - n);
  }

  lemma CopyIsRotation(input: seq<byte>, s: seq<byte>, i: nat)
    requires input != [] && CopyAt(input, s, i)
    ensures IsRotation(input, 13 * i, s[i * |input|..(i + 1) * |input|])
  {
    var copy := s[i * |input|..(i + 1) * |input|];
    forall b | 0 <= b < 8 * |input|
      ensures GetBit(copy, Turned(b, 13 * i, 8 * |input|)) == GetBit(input, b)
    {
      assert Turned(b, 13 * i, 8 * |input|) == (b + 13 * i) % (8 * |input|);
    }
  }

  lemma {:induction false} CopiesAgree(input: seq<byte>, s: seq<byte>, t: seq<byte>, n: nat)
    requires input != [] && n * |input| <= |s| && n * |input| <= |t|
    requires forall i: nat :: i < n ==> CopyAt(input, s, i) && CopyAt(input, t, i)
    ensures s[..n * |input|] == t[..n * |input|]
  {
    if n > 0 {
      var m := n - 1;
      CopyBounds(m, n, |input|);
      CopiesAgree(input, s, t, m);
      assert CopyAt(input, s, m) && CopyAt(input, t, m);
      CopyIsRotation(input, s, m);
      CopyIsRotation(input, t, m);
      var a, b := m * |input|, n * |input|;
      RotationUnique(input, 13 * m, s[a..b], t[a..b]);
      assert s[..b] == s[..a] + s[a..b] && t[..b] == t[..a] + t[a..b];
    }
  }

  lemma ReplicatedUnique(input: seq<byte>, output: nat, s: seq<byte>, t: seq<byte>)
    requires input != [] && Replicated(input, output, s) && Replicated(input, output, t)
    ensures s == t
  {
    hide CopyAt;
    assert |s| == |t|;
    var n := |s| / |input|;
    assert |s| == n * |input|;
    forall i: nat | i < n ensures CopyAt(input, s, i) && CopyAt(input, t, i) {
      CopyBounds(i, n, |input|);
    }
    CopiesAgree(input, s, t, n);
    assert s[..|s|] == s && t[..|t|] == t;
  }

  /** `NfoldOf` is the n-fold, and the n-fold is one byte string. */
  lemma NfoldOfIsNfold(input: seq<byte>, output: nat)
    requires input != [] && output > 0
    ensures IsNfold(input, output, NfoldOf(input, output))
  {
    hide Replicated, Concatenated, Copies;
    var c := Concatenated(input, Copies(8 * |input|, 8 * output));
    var r := NfoldOf(input, output);
    ConcatenatedReplicated(input, output);
    assert MaxPositive(output) == Pow(256, output) - 1;
    forall s | Replicated(input, output, s) ensures FoldedFrom(s, r) {
      ReplicatedUnique(input, output, s, c);
    }
  }

  lemma NfoldUnique(input: seq<byte>, output: nat, x: seq<byte>, y: seq<byte>)
    requires input != [] && IsNfold(input, output, x) && IsNfold(input, output, y)
    ensures x == y
  {
    hide Replicated;
    var s :| Replicated(input, output, s);
    assert FoldedFrom(s, x) && FoldedFrom(s, y);
    BeValPut(x);
    BeValPut(y);
  }

  /** The copying loop of `nfold`. */
  method Replicate(input: seq<byte>, replicate: nat) returns (sumBytes: seq<byte>)
    ensures sumBytes == Concatenated(input, replicate)
  {
    sumBytes := [];
    for i := 0 to replicate
      invariant sumBytes == Concatenated(input, i)
    {
      var rotated := RotateRight(input, 13 * i);
      sumBytes := sumBytes + rotated;
    }
  }

  /** The folding loop of `nfold`; `chunks_exact` leaves no byte out. */
  method FoldChunks(sumBytes: seq<byte>, outputLen: nat) returns (folded: seq<byte>)
    requires outputLen > 0 && Whole(|sumBytes|, outputLen)
    ensures |folded| == outputLen
    ensures BeVal(folded) == Residue(BeVal(sumBytes), MaxPositive(outputLen))
  {
    folded := Zeros(outputLen);
    ZerosValue(outputLen);
    var i := 0;
    while i + outputLen <= |sumBytes|
      invariant 0 <= i <= |sumBytes| && Whole(|sumBytes| - i, outputLen)
      invariant |folded| == outputLen
      invariant BeVal(folded) == Residue(BeVal(sumBytes[..i]), MaxPositive(outputLen))
    {
      var chunk := sumBytes[i..i + outputLen];
      ghost var s := BeVal(sumBytes[..i]);
      folded := OnesComplementAddition(folded, chunk);
      assert sumBytes[..i + outputLen] == sumBytes[..i] + chunk;
      BeValConcat(sumBytes[..i], chunk);
      BeValBound(chunk);
      ResidueStep(s, BeVal(chunk), MaxPositive(outputLen));
      i := i + outputLen;
    }
    assert sumBytes[..i] == sumBytes;
  }

  method CountCopies(inputBits: nat, outputBits: nat) returns (replicate: nat)
    requires inputBits > 0 && outputBits > 0
    ensures replicate == Copies(inputBits, outputBits)
  {
    var lcmBits := LcmOf(outputBits, inputBits);
    replicate := lcmBits / inputBits;
  }

  /** `nfold`. */
  method NfoldBytes(input: seq<byte>, outputBits: nat) returns (r: Result<seq<byte>, Error>)
    ensures input == [] ==> r == Err(EmptyNfoldInput)
    ensures input != [] && (outputBits == 0 || outputBits % 8 != 0)
        ==> r == Err(InvalidNfoldOutputBits(outputBits))
    ensures input != [] && outputBits > 0 && outputBits % 8 == 0
        ==> r == Ok(NfoldOf(input, outputBits / 8)) && IsNfold(input, outputBits / 8, r.value)
  {
    if input == [] { return Err(EmptyNfoldInput); }
    if outputBits == 0 || outputBits % 8 != 0 { return Err(InvalidNfoldOutputBits(outputBits)); }
    var outputLen := outputBits / 8;
    var inputBits := |input| * 8;
    var replicate := CountCopies(inputBits, outputBits);
    assert outputBits == 8 * outputLen && inputBits == 8 * |input|;
    ghost var q := CopiesMultiple(inputBits, outputBits);
    CopiesWhole(replicate, q, |input|, outputLen);
    var sumBytes := Replicate(input, replicate);
    var folded := FoldChunks(sumBytes, outputLen);
    BeValPut(folded);
    NfoldOfIsNfold(input, outputLen);
    return Ok(folded);
  }
}
