/**
 The LSA checksum of src/packet/checksum.rs (section 12.1.7 of RFC 2328): generation with
 wrapping i32 accumulators, verification, and exactly when the two agree.
 */
module Fletcher {
  import opened Numbers

  const LONGEST_SAFE := 4103

  /** First Fletcher sum: the bytes added up. */
  function ByteSum(data: seq<u8>): nat {
    if data == [] then 0 else ByteSum(data[..|data| - 1]) + data[|data| - 1]
  }

  /** Second Fletcher sum: all the running first sums added up. */
  function PrefixSum(data: seq<u8>): nat {
    if data == [] then 0 else PrefixSum(data[..|data| - 1]) + ByteSum(data)
  }

  /** What the verifier of the protocol asks of the bytes. */
  predicate Verifies(data: seq<u8>) {
    ByteSum(data) % 255 == 0 && PrefixSum(data) % 255 == 0
  }

  /** The data with the two checksum bytes read as zero. */
  function Zeroed(data: seq<u8>, offset: nat): (z: seq<u8>)
    ensures |z| == |data|
  {
    seq(|data|, i requires 0 <= i < |data| => if i == offset || i == offset + 1 then 0 else data[i])
  }

  /** The check bytes computed from the two final accumulators. */
  function CheckBytes(sum0: int, sum1: int, q: int): (pair: (u8, u8)) {
    var c0 := RemTrunc(sum0, 255);
    var c1 := RemTrunc(sum1, 255);
    var x := RemTrunc(-c1 + (q - 1) * c0, 255);
    var x := if x <= 0 then x + 255 else x;
    var y := 510 - c0 - x;
    var y := if y > 255 then y - 255 else y;
    var y := if y <= 0 then y + 255 else y;
    (x % 256, y % 256)
  }

  function Generated(data: seq<u8>, offset: nat): (u8, u8) {
    var z := Zeroed(data, offset);
    CheckBytes(WrapI32(ByteSum(z)), WrapI32(PrefixSum(z)), WrapI32(WrapI32(|data|) - WrapI32(offset)))
  }

  /** The data with the generated pair written at the checksum field. */
  function Sealed(data: seq<u8>, offset: nat): (s: seq<u8>)
    requires offset + 1 < |data|
    ensures |s| == |data|
  {
    var pair := Generated(data, offset);
    data[offset := pair.0][offset + 1 := pair.1]
  }

  /** The accumulation loop of `fletcher16`, with i32 wrap-around at every addition. */
  method Accumulate(data: seq<u8>, checksumOffset: nat) returns (c0: i32, c1: i32)
    ensures c0 == WrapI32(ByteSum(Zeroed(data, checksumOffset)))
    ensures c1 == WrapI32(PrefixSum(Zeroed(data, checksumOffset)))
  {
    ghost var z := Zeroed(data, checksumOffset);
    c0, c1 := 0, 0;
    for i := 0 to |data|
      invariant c0 == WrapI32(ByteSum(z[..i]))
      invariant c1 == WrapI32(PrefixSum(z[..i]))
    {
      hide WrapI32;
      assert z[..i + 1][..i] == z[..i];
      if !(i == checksumOffset || i == checksumOffset + 1) {
        WrapI32Add(ByteSum(z[..i]), data[i]);
        WrapI32Small(data[i]);
        c0 := WrapI32(c0 + data[i]);
      }
      WrapI32Add(PrefixSum(z[..i]), ByteSum(z[..i + 1]));
      c1 := WrapI32(c1 + c0);
    }
    assert z[..|data|] == z;
  }

  /** `fletcher16`: accumulate, then solve for the two bytes. */
  method Fletcher16(data: seq<u8>, checksumOffset: nat) returns (x: u8, y: u8)
    ensures (x, y) == Generated(data, checksumOffset)
  {
    var c0, c1 := Accumulate(data, checksumOffset);
    var pair := CheckBytes(c0, c1, WrapI32(WrapI32(|data|) - WrapI32(checksumOffset)));
    return pair.0, pair.1;
  }

  lemma DropMultiple(a: int, k: int, x: int)
    requires a == 255 * k + x
    ensures a % 255 == x % 255
  {
  }

  lemma ReduceSum(a: nat, b: nat)
    ensures (a % 255 + b % 255) % 255 == (a + b) % 255
  {
    DropMultiple(a + b, a / 255 + b / 255, a % 255 + b % 255);
  }

  /** `fletcher16_verify`: the sums are reduced at every byte, which changes nothing. */
  method Fletcher16Verify(data: seq<u8>) returns (ok: bool)
    ensures ok <==> Verifies(data)
  {
    var c0: int, c1: int := 0, 0;
    for i := 0 to |data|
      invariant c0 == ByteSum(data[..i]) % 255
      invariant c1 == PrefixSum(data[..i]) % 255
    {
      assert data[..i + 1][..i] == data[..i];
      DropMultiple(ByteSum(data[..i + 1]), ByteSum(data[..i]) / 255, ByteSum(data[..i]) % 255 + data[i]);
      ReduceSum(PrefixSum(data[..i]), ByteSum(data[..i + 1]));
      c0 := (c0 + data[i]) % 255;
      c1 := (c1 + c0) % 255;
    }
    assert data[..|data|] == data;
    return c0 == 0 && c1 == 0;
  }

  /** Changing the byte at `i` moves the first sum by the difference and the second by (n - i) times it. */
  lemma {:induction false} SumsAfterUpdate(data: seq<u8>, i: nat, b: u8)
    requires i < |data|
    ensures ByteSum(data[i := b]) == ByteSum(data) + (b - data[i])
    ensures PrefixSum(data[i := b]) == PrefixSum(data) + (|data| - i) * (b - data[i])
  {
    var n := |data| - 1;
    var u := data[i := b];
    if i == n {
      assert u[..n] == data[..n];
    } else {
      assert u[..n] == data[..n][i := b];
      SumsAfterUpdate(data[..n], i, b);
      MulStep(n + 1 - i, b - data[i]);
    }
  }

  lemma {:induction false} SumBounds(data: seq<u8>)
    ensures ByteSum(data) <= 255 * |data|
    ensures 2 * PrefixSum(data) <= 255 * (|data| * (|data| + 1))
  {
    if data != [] {
      var n := |data| - 1;
      SumBounds(data[..n]);
      assert n * (n + 1) + 2 * (n + 1) == (n + 1) * (n + 2);
    }
  }

  /** The check bytes lie in 1..255 whatever the second accumulator wrapped to. */
  lemma CheckBytesNonZero(sum0: nat, sum1: int, q: int)
    ensures 1 <= CheckBytes(sum0, sum1, q).0 <= 255
    ensures 1 <= CheckBytes(sum0, sum1, q).1 <= 255
  {
  }

  /** Both check bytes are non-zero: an LSA checksum field of 0 never leaves this generator. */
  lemma GeneratedBytesNonZero(data: seq<u8>, offset: nat)
    requires |data| <= 0xFFFF
    ensures 1 <= Generated(data, offset).0 <= 255
    ensures 1 <= Generated(data, offset).1 <= 255
  {
    hide CheckBytes, WrapI32;
    var z := Zeroed(data, offset);
    SumBounds(z);
    WrapI32Small(ByteSum(z));
    CheckBytesNonZero(ByteSum(z), WrapI32(PrefixSum(z)), WrapI32(WrapI32(|data|) - WrapI32(offset)));
  }

  /** The sums of the sealed data, before reduction. */
  lemma SealedSums(data: seq<u8>, offset: nat)
    requires offset + 1 < |data|
    ensures var z := Zeroed(data, offset);
            var pair := Generated(data, offset);
            var q := |data| - offset;
            && ByteSum(Sealed(data, offset)) == ByteSum(z) + pair.0 + pair.1
            && PrefixSum(Sealed(data, offset)) == PrefixSum(z) + q * pair.0 + (q - 1) * pair.1
  {
    var z := Zeroed(data, offset);
    var pair := Generated(data, offset);
    var half: seq<u8> := z[offset := pair.0];
    SumsAfterUpdate(z, offset, pair.0);
    SumsAfterUpdate(half, offset + 1, pair.1);
    assert Sealed(data, offset) == half[offset + 1 := pair.1];
  }

  /** A truncated remainder differs from its dividend by a multiple of the modulus. */
  lemma RemTruncQuotient(a: int, m: nat) returns (k: int)
    requires m > 0
    ensures a == RemTrunc(a, m) + m * k
  {
    if a >= 0 {
      k := a / m;
    } else {
      k := -((-a) / m);
      assert -a == m * ((-a) / m) + (-a) % m;
    }
  }

  /** The two bytes as the reduced accumulators plus multiples of 255. */
  lemma CheckBytesShape(sum0: nat, sum1: int, q: int) returns (u: int, v: int)
    ensures var c0, c1 := RemTrunc(sum0, 255), RemTrunc(sum1, 255);
            var (x, y) := CheckBytes(sum0, sum1, q);
            && x == -c1 + (q - 1) * c0 + 255 * u
            && y == 255 * v - c0 - x
  {
    hide RemTrunc;
    var c0, c1 := RemTrunc(sum0, 255), RemTrunc(sum1, 255);
    RemainderRange(sum0);
    var r := -c1 + (q - 1) * c0;
    u := LiftedRemainder(r);
    v := SecondByteShape(c0, r + 255 * u);
  }

  lemma RemainderRange(a: nat)
    ensures 0 <= RemTrunc(a, 255) < 255
  {
  }

  /** The remainder lifted into 1..255. */
  lemma LiftedRemainder(r: int) returns (u: int)
    ensures var x := RemTrunc(r, 255); r + 255 * u == (if x <= 0 then x + 255 else x)
    ensures 1 <= r + 255 * u <= 255
  {
    var k := RemTruncQuotient(r, 255);
    u := if RemTrunc(r, 255) <= 0 then 1 - k else -k;
  }

  lemma SecondByteShape(c0: int, x: int) returns (v: int)
    requires 0 <= c0 < 255 && 1 <= x <= 255
    ensures var y := 510 - c0 - x;
            var y' := if y > 255 then y - 255 else y;
            255 * v - c0 - x == (if y' <= 0 then y' + 255 else y') && 1 <= 255 * v - c0 - x <= 255
  {
    v := if 510 - c0 - x > 255 then 1 else 2;
  }

  /** q*x + (q-1)*y with the shapes above substituted. */
  lemma WeightedPair(c0: int, c1: int, q: int, x: int, y: int, u: int, v: int)
    requires x == -c1 + (q - 1) * c0 + 255 * u
    requires y == 255 * v - c0 - x
    ensures q * x + (q - 1) * y == -c1 + 255 * (u + (q - 1) * v)
  {
    var p := q - 1;
    calc {
      q * x + p * y;
      p * (x + y) + x;
      p * (255 * v - c0) + x;
      255 * (p * v) - p * c0 + x;
    }
  }

  /** The two bytes solve the pair of congruences for the accumulators they were computed from. */
  lemma CheckBytesSolve(sum0: nat, sum1: int, q: int) returns (s: int, t: int)
    ensures var (x, y) := CheckBytes(sum0, sum1, q);
            && sum0 + x + y == 255 * t
            && sum1 + q * x + (q - 1) * y == 255 * s
  {
    var (x, y) := CheckBytes(sum0, sum1, q);
    var u, v := CheckBytesShape(sum0, sum1, q);
    var k0 := RemTruncQuotient(sum0, 255);
    var k1 := RemTruncQuotient(sum1, 255);
    WeightedPair(RemTrunc(sum0, 255), RemTrunc(sum1, 255), q, x, y, u, v);
    s, t := k1 + u + (q - 1) * v, k0 + v;
  }

  /** At LSA sizes only the second accumulator can wrap. */
  lemma GeneratedFromSums(data: seq<u8>, offset: nat)
    requires offset + 1 < |data| <= 0xFFFF
    ensures var z := Zeroed(data, offset);
            Generated(data, offset) == CheckBytes(ByteSum(z), WrapI32(PrefixSum(z)), |data| - offset)
  {
    hide CheckBytes, WrapI32;
    SumBounds(Zeroed(data, offset));
    WrapI32Small(ByteSum(Zeroed(data, offset)));
    WrapI32Small(|data|);
    WrapI32Small(offset);
    WrapI32Small(|data| - offset);
  }

  /** What the generated pair solves, in terms of the sums of the zeroed data. */
  lemma GeneratedSolves(data: seq<u8>, offset: nat) returns (s: int, t: int)
    requires offset + 1 < |data| <= 0xFFFF
    ensures var z := Zeroed(data, offset);
            var q := |data| - offset;
            && ByteSum(z) + Generated(data, offset).0 + Generated(data, offset).1 == 255 * t
            && WrapI32(PrefixSum(z)) + q * Generated(data, offset).0 + (q - 1) * Generated(data, offset).1 == 255 * s
  {
    hide *;
    var z := Zeroed(data, offset);
    GeneratedFromSums(data, offset);
    s, t := CheckBytesSolve(ByteSum(z), WrapI32(PrefixSum(z)), |data| - offset);
  }

  /** The sums of the sealed data as multiples of 255, up to the wraps of the accumulator. */
  lemma SealedSumsSolved(data: seq<u8>, offset: nat, wraps: int) returns (k0: int, k1: int)
    requires offset + 1 < |data| <= 0xFFFF
    requires PrefixSum(Zeroed(data, offset)) == WrapI32(PrefixSum(Zeroed(data, offset))) + 0x1_0000_0000 * wraps
    ensures ByteSum(Sealed(data, offset)) == 255 * k0
    ensures PrefixSum(Sealed(data, offset)) == 255 * k1 + wraps
  {
    SealedSums(data, offset);
    var s, t := GeneratedSolves(data, offset);
    k0, k1 := t, s + 16843009 * wraps;
  }

  lemma RemainderOf(a: int, k: int, r: int)
    requires a == 255 * k + r && 0 <= r < 255
    ensures a % 255 == r
  {
  }

  /**
   Exactly when generation is correct. For every LSA-sized input the sealed data verifies if and
   only if the second accumulator stays within i32; each wrap shifts the sum by one modulo 255,
   and fewer than 255 wraps are possible at this length.
   */
  lemma SealedVerifiesIffFits(data: seq<u8>, offset: nat)
    requires offset + 1 < |data| <= 0xFFFF
    ensures Verifies(Sealed(data, offset)) <==> PrefixSum(Zeroed(data, offset)) <= I32_MAX
  {
    var z := Zeroed(data, offset);
    SumBounds(z);
    SquareBound(|data|, 0xFFFF);
    var wraps := (PrefixSum(z) + 0x8000_0000) / 0x1_0000_0000;
    var k0, k1 := SealedSumsSolved(data, offset, wraps);
    RemainderOf(ByteSum(Sealed(data, offset)), k0, 0);
    RemainderOf(PrefixSum(Sealed(data, offset)), k1, wraps);
  }

  lemma SquareBound(n: nat, m: nat)
    requires n <= m
    ensures n * (n + 1) <= m * (m + 1)
  {
    calc {
      n * (n + 1);
    <=
      m * (n + 1);
    <=
      m * (m + 1);
    }
  }

  /** The accumulator bound of the source: up to 4103 bytes nothing wraps, whatever the bytes are. */
  lemma SealedVerifies(data: seq<u8>, offset: nat)
    requires offset + 1 < |data| <= LONGEST_SAFE
    ensures Verifies(Sealed(data, offset))
  {
    SumBounds(Zeroed(data, offset));
    SquareBound(|data|, LONGEST_SAFE);
    SealedVerifiesIffFits(data, offset);
  }

  function Ones(n: nat): seq<u8> {
    seq(n, _ => 255)
  }

  lemma {:induction false} OnesSums(n: nat)
    ensures 2 * PrefixSum(Ones(n)) == 255 * (n * (n + 1)) && ByteSum(Ones(n)) == 255 * n
  {
    if n > 0 {
      assert Ones(n)[..n - 1] == Ones(n - 1);
      OnesSums(n - 1);
      assert (n - 1) * n + 2 * n == n * (n + 1);
    }
  }

  /** One byte more and the bound is broken: this input is sealed with a pair that does not verify. */
  lemma LongestSafeIsTight()
    ensures var n := LONGEST_SAFE + 1; !Verifies(Sealed(Ones(n), n - 2))
  {
    var n := LONGEST_SAFE + 1;
    OnesSums(n);
    var half: seq<u8> := Ones(n)[n - 2 := 0];
    SumsAfterUpdate(Ones(n), n - 2, 0);
    SumsAfterUpdate(half, n - 1, 0);
    assert Zeroed(Ones(n), n - 2) == half[n - 1 := 0];
    SealedVerifiesIffFits(Ones(n), n - 2);
  }

  lemma ShiftedSums(s0: int, s1: int, m: int, d: int)
    requires s0 % 255 == 0 && s1 % 255 == 0 && -255 <= d <= 255
    ensures (s0 + d) % 255 == 0 && (s1 + m * d) % 255 == 0 <==> d % 255 == 0
  {
    if d == 255 {
      WholeShift(s1, m);
    } else if d == -255 {
      WholeShift(s1, -m);
    } else if d == 0 {
      assert m * d == 0;
    } else {
      PartialShift(s0, d);
    }
  }

  lemma WholeShift(s: int, k: int)
    requires s % 255 == 0
    ensures (s + 255 * k) % 255 == 0 && (s + k * 255) % 255 == 0
  {
    DropMultiple(s + 255 * k, s / 255 + k, 0);
  }

  lemma PartialShift(s: int, d: int)
    requires s % 255 == 0 && -255 < d < 255 && d != 0
    ensures (s + d) % 255 != 0 && d % 255 != 0
  {
    DropMultiple(s + d, s / 255, d);
  }

  /** A verifying block with one byte replaced still verifies only in the 0x00 / 0xFF confusion. */
  lemma SingleByteChangeDetected(data: seq<u8>, i: nat, b: u8)
    requires i < |data| && Verifies(data)
    ensures Verifies(data[i := b]) <==> (b - data[i]) % 255 == 0
  {
    SumsAfterUpdate(data, i, b);
    ShiftedSums(ByteSum(data), PrefixSum(data), |data| - i, b - data[i]);
  }
}
