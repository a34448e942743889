/**
 The packet checksum of src/packet/checksum.rs and src/packet/mod.rs (RFC 1071; appendix D.4 of
 RFC 2328): a one's-complement word sum that skips the authentication field.
 */
module InternetChecksum {
  import opened Numbers

  const HEADER_LEN := 24
  const CHECKSUM_AT := 12
  const AUTH_AT := 16
  /** Longest input whose word sum fits the u32 accumulator. */
  const LONGEST_SAFE := 131074

  /** The sum of the big-endian 16-bit words; a trailing odd byte is a high byte. */
  function WordSum(data: seq<u8>): nat {
    if data == [] then 0
    else
      var n := |data| - 1;
      WordSum(data[..n]) + (data[n] as int) * (if n % 2 == 0 then 256 else 1)
  }

  /** End-around carry: add the high half into the low half until it fits 16 bits. */
  function Folded(sum: nat): u16 {
    if sum < 0x1_0000 then sum else Folded(sum % 0x1_0000 + sum / 0x1_0000)
  }

  function Checksum(data: seq<u8>): u16 {
    0xFFFF - Folded(WordSum(data) % 0x1_0000_0000)
  }

  lemma WordStep(data: seq<u8>, i: nat)
    requires i + 1 < |data| && i % 2 == 0
    ensures WordSum(data[..i + 2]) == WordSum(data[..i]) + (data[i] as int) * 256 + data[i + 1]
  {
    assert data[..i + 2][..i + 1] == data[..i + 1];
    assert data[..i + 1][..i] == data[..i];
  }

  lemma WrappedAdd(sum: nat, x: nat)
    ensures (sum % 0x1_0000_0000 + x) % 0x1_0000_0000 == (sum + x) % 0x1_0000_0000
  {
  }

  /** The word loop of `ip_checksum`, in a wrapping u32. */
  method SumWords(data: seq<u8>) returns (sum: u32)
    ensures sum == WordSum(data) % 0x1_0000_0000
  {
    sum := 0;
    var i := 0;
    while i + 1 < |data|
      invariant 0 <= i <= |data| && i % 2 == 0
      invariant sum == WordSum(data[..i]) % 0x1_0000_0000
    {
      WordStep(data, i);
      hide WordSum;
      WrappedAdd(WordSum(data[..i]), (data[i] as int) * 256 + data[i + 1]);
      sum := (sum + (data[i] as int) * 256 + data[i + 1]) % 0x1_0000_0000;
      i := i + 2;
    }
    if i < |data| {
      assert data[..i + 1][..i] == data[..i];
      WrappedAdd(WordSum(data[..i]), (data[i] as int) * 256);
      sum := (sum + (data[i] as int) * 256) % 0x1_0000_0000;
      i := i + 1;
    }
    assert data[..i] == data;
  }

  /** `ip_checksum`: add up the words, then fold the carries until 16 bits are left. */
  method IpChecksum(data: seq<u8>) returns (c: u16)
    ensures c == Checksum(data)
  {
    var sum := SumWords(data);
    while sum / 0x1_0000 != 0
      invariant Folded(sum) == Folded(WordSum(data) % 0x1_0000_0000)
      decreases sum
    {
      sum := sum % 0x1_0000 + sum / 0x1_0000;
    }
    return 0xFFFF - sum;
  }

  lemma FoldStep(sum: nat, hi: nat, lo: nat)
    requires sum == 0x1_0000 * hi + lo
    ensures sum % 65535 == (lo + hi) % 65535
  {
    assert sum == 65535 * hi + (lo + hi);
  }

  /** Folding keeps the sum modulo 65535 and never turns a non-zero sum into zero. */
  lemma {:induction false} FoldedCongruent(sum: nat)
    ensures Folded(sum) % 65535 == sum % 65535
    ensures Folded(sum) == 0 <==> sum == 0
    decreases sum
  {
    if sum >= 0x1_0000 {
      var hi, lo := sum / 0x1_0000, sum % 0x1_0000;
      FoldStep(sum, hi, lo);
      FoldedCongruent(lo + hi);
    }
  }

  lemma {:induction false} WordSumBound(data: seq<u8>)
    ensures WordSum(data) <= 0xFFFF * ((|data| + 1) / 2)
    ensures |data| % 2 == 1 ==> WordSum(data) <= 0xFFFF * (|data| / 2) + 0xFF00
  {
    if data != [] {
      WordSumBound(data[..|data| - 1]);
    }
  }

  lemma {:induction false} WordSumAfterUpdate(data: seq<u8>, i: nat, b: u8)
    requires i < |data|
    ensures WordSum(data[i := b]) == WordSum(data) + (b - data[i]) * (if i % 2 == 0 then 256 else 1)
  {
    var n := |data| - 1;
    var u: seq<u8> := data[i := b];
    if i == n {
      assert u[..n] == data[..n];
    } else {
      assert u[..n] == data[..n][i := b];
      WordSumAfterUpdate(data[..n], i, b);
    }
  }

  lemma FullFold(f: u16, s: nat)
    requires f % 65535 == s % 65535 && (f == 0 <==> s == 0)
    ensures f == 0xFFFF <==> s % 65535 == 0 && s != 0
  {
  }

  lemma ComplementSum(s: nat, f: u16, field: u16)
    requires f % 65535 == s % 65535
    ensures (s + field) % 65535 == 0 <==> field % 65535 == (0xFFFF - f) % 65535
  {
    var k := s / 65535;
    assert s == 65535 * k + f % 65535;
    assert (s + field) % 65535 == (f % 65535 + field) % 65535;
  }

  /** Within the accumulator bound, a checksum of zero means: a non-zero multiple of 65535. */
  lemma ChecksumZero(data: seq<u8>)
    requires |data| <= LONGEST_SAFE
    ensures Checksum(data) == 0 <==> WordSum(data) % 65535 == 0 && WordSum(data) != 0
  {
    hide Folded, WordSum;
    WordSumBound(data);
    FoldedCongruent(WordSum(data));
    FullFold(Folded(WordSum(data)), WordSum(data));
  }

  // ---------------------------------------------------------------- packets

  function WithField(packet: seq<u8>, field: u16): (p: seq<u8>)
    requires |packet| >= HEADER_LEN
    ensures |p| == |packet|
  {
    packet[CHECKSUM_AT := field / 256][CHECKSUM_AT + 1 := field % 256]
  }

  function Field(packet: seq<u8>): u16
    requires |packet| >= HEADER_LEN
  {
    (packet[CHECKSUM_AT] as int) * 256 + packet[CHECKSUM_AT + 1]
  }

  /** The packet with the eight authentication bytes zeroed. */
  function WithoutAuth(packet: seq<u8>): (p: seq<u8>)
    requires |packet| >= HEADER_LEN
    ensures |p| == |packet|
  {
    packet[..AUTH_AT] + [0, 0, 0, 0, 0, 0, 0, 0] + packet[HEADER_LEN..]
  }

  /** The bytes the checksum is computed over. */
  function Covered(packet: seq<u8>): seq<u8>
    requires |packet| >= HEADER_LEN
  {
    WithoutAuth(WithField(packet, 0))
  }

  function Sealed(packet: seq<u8>): (p: seq<u8>)
    ensures |p| == |packet|
  {
    if |packet| < HEADER_LEN then packet else WithField(packet, Checksum(Covered(packet)))
  }

  predicate Accepts(packet: seq<u8>) {
    |packet| >= HEADER_LEN && Checksum(WithoutAuth(packet)) == 0
  }

  /** `set_ospf_checksum`, in place: zero, compute, write, restore the authentication bytes. */
  method SetOspfChecksum(packet: array<u8>)
    modifies packet
    ensures packet[..] == Sealed(old(packet[..]))
  {
    hide Checksum;
    if packet.Length < HEADER_LEN {
      return;
    }
    ghost var was := packet[..];
    packet[CHECKSUM_AT] := 0;
    packet[CHECKSUM_AT + 1] := 0;
    var authSave := packet[AUTH_AT..HEADER_LEN];
    for i := AUTH_AT to HEADER_LEN
      modifies packet
      invariant forall j :: 0 <= j < packet.Length ==>
          packet[j] == if AUTH_AT <= j < i then 0 else WithField(was, 0)[j]
    {
      packet[i] := 0;
    }
    assert packet[..] == Covered(was);
    var cksum := IpChecksum(packet[..]);
    packet[CHECKSUM_AT] := cksum / 256;
    packet[CHECKSUM_AT + 1] := cksum % 256;
    for i := AUTH_AT to HEADER_LEN
      modifies packet
      invariant forall j :: 0 <= j < packet.Length ==>
          packet[j] == if i <= j < HEADER_LEN then 0 else Sealed(was)[j]
    {
      packet[i] := authSave[i - AUTH_AT];
    }
  }

  /** `verify_ospf_checksum` works on a copy with the authentication bytes zeroed. */
  method VerifyOspfChecksum(packet: seq<u8>) returns (ok: bool)
    ensures ok <==> Accepts(packet)
  {
    if |packet| < HEADER_LEN {
      return false;
    }
    var c := IpChecksum(WithoutAuth(packet));
    return c == 0;
  }

  /** The word sum of a packet is that of the covered bytes plus the checksum field. */
  lemma WordSumSplitsField(packet: seq<u8>)
    requires |packet| >= HEADER_LEN
    ensures WordSum(WithoutAuth(packet)) == WordSum(Covered(packet)) + Field(packet)
  {
    var c := Covered(packet);
    var hi, lo := packet[CHECKSUM_AT], packet[CHECKSUM_AT + 1];
    var half: seq<u8> := c[CHECKSUM_AT := hi];
    WordSumAfterUpdate(c, CHECKSUM_AT, hi);
    WordSumAfterUpdate(half, CHECKSUM_AT + 1, lo);
    assert half[CHECKSUM_AT + 1 := lo] == WithoutAuth(packet);
  }

  lemma CoveredChecksum(packet: seq<u8>)
    requires HEADER_LEN <= |packet| <= LONGEST_SAFE
    ensures Checksum(Covered(packet)) == 0xFFFF - Folded(WordSum(Covered(packet)))
  {
    hide Folded, WordSum, WithoutAuth;
    WordSumBound(Covered(packet));
  }

  /**
   Exactly which checksum fields are accepted: those congruent to the generated one modulo 65535,
   except that the all-zero packet is never accepted.
   */
  lemma AcceptsIff(packet: seq<u8>)
    requires HEADER_LEN <= |packet| <= LONGEST_SAFE
    ensures Accepts(packet) <==>
            && Field(packet) % 65535 == Checksum(Covered(packet)) % 65535
            && WordSum(WithoutAuth(packet)) != 0
  {
    WordSumSplitsField(packet);
    CoveredChecksum(packet);
    hide Folded, WordSum, WithoutAuth, Covered, Checksum, Field;
    ChecksumZero(WithoutAuth(packet));
    var s := WordSum(Covered(packet));
    FoldedCongruent(s);
    ComplementSum(s, Folded(s), Field(packet));
  }

  /** A packet is accepted after its checksum was set, and so is any packet that differs from it
      only in the authentication bytes. */
  lemma SealedAccepted(packet: seq<u8>, received: seq<u8>)
    requires HEADER_LEN <= |packet| <= LONGEST_SAFE
    requires |received| == |packet|
    requires forall i :: 0 <= i < |packet| && !(AUTH_AT <= i < HEADER_LEN) ==> received[i] == Sealed(packet)[i]
    ensures Accepts(received)
  {
    var sealed := Sealed(packet);
    assert WithoutAuth(received) == WithoutAuth(sealed);
    assert Covered(sealed) == Covered(packet);
    assert Field(sealed) == Checksum(Covered(packet));
    WordSumSplitsField(sealed);
    AcceptsIff(sealed);
    WordSumBound(Covered(packet));
    FoldedCongruent(WordSum(Covered(packet)));
    assert WordSum(WithoutAuth(sealed)) != 0;
  }

  // ---------------------------------------------------------------- positions, spelled out

  /** The packet with the given bytes read as zero: the checksum at 12 and 13, the authentication data from 16 to 23. */
  ghost function Blanked(packet: seq<u8>, field: bool): (z: seq<u8>)
    ensures |z| == |packet|
  {
    seq(|packet|, i requires 0 <= i < |packet| => if (field && (i == 12 || i == 13)) || 16 <= i < 24 then 0 else packet[i])
  }

  /** The checksum goes to bytes 12 and 13, most significant byte first, and is computed without them and without the
      authentication data; short packets are left alone. */
  lemma SealedMeaning(packet: seq<u8>)
    ensures var p := Sealed(packet);
            if |packet| < 24 then p == packet
            else
              && (p[12] as int) * 256 + p[13] == Checksum(Blanked(packet, true))
              && |p| == |packet| && forall i :: 0 <= i < |packet| && i != 12 && i != 13 ==> p[i] == packet[i]
  {
    hide Checksum;
    if |packet| >= 24 {
      assert Covered(packet) == Blanked(packet, true);
    }
  }

  lemma AcceptsMeaning(packet: seq<u8>)
    ensures Accepts(packet) <==> |packet| >= 24 && Checksum(Blanked(packet, false)) == 0
  {
    hide Checksum;
    if |packet| >= 24 {
      assert WithoutAuth(packet) == Blanked(packet, false);
    }
  }

  /** A trailing odd byte counts as the high byte of a word. */
  lemma WordTail(data: seq<u8>)
    requires |data| % 2 == 1
    ensures WordSum(data) == WordSum(data[..|data| - 1]) + (data[|data| - 1] as int) * 256
  {
  }

  /** The checksum is the complement of a 16-bit number congruent to the sum and zero only if the sum is. */
  lemma ChecksumMeaning(data: seq<u8>)
    requires |data| <= LONGEST_SAFE
    ensures (0xFFFF - Checksum(data)) % 65535 == WordSum(data) % 65535
    ensures Checksum(data) == 0xFFFF <==> WordSum(data) == 0
  {
    hide Folded, WordSum;
    WordSumBound(data);
    FoldedCongruent(WordSum(data));
  }
}
