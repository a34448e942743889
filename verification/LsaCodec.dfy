/**
 Wire format of LSAs and Link State Updates (src/packet/lsa.rs, src/packet/lsu.rs; appendix A.4 and
 A.3.5 of RFC 2328): encoders, parsers, and the round trip between them.
 */
module LsaCodec {
  import opened Numbers
  import opened LsaTypes
  import Fletcher

  type Bytes = seq<u8>

  datatype PacketError = TooShort(expected: nat, got: nat) | BadLsaType(value: u8)

  datatype Result<+T> = Ok(value: T) | Err(error: PacketError) {
    predicate IsFailure() {
      Err?
    }

    function PropagateFailure<U>(): Result<U>
      requires Err?
    {
      Err(error)
    }

    function Extract(): T
      requires Ok?
    {
      value
    }
  }

  /** A parsed list with the items read before it put in front; a failure stays a failure. */
  function Prepend<T>(items: seq<T>, tail: Result<seq<T>>): Result<seq<T>> {
    if tail.Ok? then Ok(items + tail.value) else tail
  }

  lemma PrependEmpty<T>(tail: Result<seq<T>>)
    ensures Prepend([], tail) == tail
  {
    if tail.Ok? {
      assert [] + tail.value == tail.value;
    }
  }

  lemma PrependStep<T>(items: seq<T>, item: T, tail: Result<seq<T>>)
    ensures Prepend(items, Prepend([item], tail)) == Prepend(items + [item], tail)
  {
    if tail.Ok? {
      assert items + ([item] + tail.value) == items + [item] + tail.value;
    }
  }

  /** What is left of the buffer from `off` on; parsers may step past its end. */
  function From(d: Bytes, off: nat): Bytes {
    if off <= |d| then d[off..] else []
  }

  // ---------------------------------------------------------------- big-endian integers

  function Be16(v: u16): (b: Bytes)
    ensures |b| == 2
  {
    [v / 0x100, v % 0x100]
  }

  function Be32(v: u32): (b: Bytes)
    ensures |b| == 4
  {
    [v / 0x100 / 0x100 / 0x100, v / 0x100 / 0x100 % 0x100, v / 0x100 % 0x100, v % 0x100]
  }

  function Read16(d: Bytes, at: nat): u16
    requires at + 2 <= |d|
  {
    (d[at] as int) * 0x100 + d[at + 1]
  }

  function Read24(d: Bytes, at: nat): u32
    requires at + 3 <= |d|
  {
    (d[at] as int) * 0x1_0000 + (d[at + 1] as int) * 0x100 + d[at + 2]
  }

  function Read32(d: Bytes, at: nat): u32
    requires at + 4 <= |d|
  {
    (d[at] as int) * 0x100_0000 + (d[at + 1] as int) * 0x1_0000 + (d[at + 2] as int) * 0x100 + d[at + 3]
  }

  /** The two's-complement bit pattern of an i32, and back. */
  function Unsigned(v: i32): u32 {
    if v < 0 then (v as int) + 0x1_0000_0000 else v
  }

  function Signed(v: u32): i32 {
    if v >= 0x8000_0000 then (v as int) - 0x1_0000_0000 else v
  }

  lemma Read32OfBe32(d: Bytes, at: nat, v: u32)
    requires at + 4 <= |d| && d[at..at + 4] == Be32(v)
    ensures Read32(d, at) == v
  {
    var b := d[at..at + 4];
    assert d[at] == b[0] && d[at + 1] == b[1] && d[at + 2] == b[2] && d[at + 3] == b[3];
  }

  lemma Read24OfBe32(d: Bytes, at: nat, v: u32)
    requires at + 3 <= |d| && d[at..at + 3] == Be32(v)[1..] && v < 0x100_0000
    ensures Read24(d, at) == v
  {
    var b := d[at..at + 3];
    assert d[at] == b[0] && d[at + 1] == b[1] && d[at + 2] == b[2];
  }

  // ---------------------------------------------------------------- header

  function TypeCode(t: LsaType): u8 {
    match t
    case Router => 1
    case Network => 2
    case SummaryNetwork => 3
    case SummaryAsbr => 4
    case AsExternal => 5
  }

  function TypeFrom(v: u8): Result<LsaType> {
    if v == 1 then Ok(Router)
    else if v == 2 then Ok(Network)
    else if v == 3 then Ok(SummaryNetwork)
    else if v == 4 then Ok(SummaryAsbr)
    else if v == 5 then Ok(AsExternal)
    else Err(BadLsaType(v))
  }

  /** Everything before the checksum and length fields. */
  function HeaderFront(h: LsaHeader): (b: Bytes)
    ensures |b| == 16
  {
    Be16(h.lsAge) + [h.options, TypeCode(h.lsType)] + Be32(h.linkStateId) + Be32(h.advertisingRouter)
    + Be32(Unsigned(h.lsSequenceNumber))
  }

  function EncodeHeader(h: LsaHeader): (b: Bytes)
    ensures |b| == LSA_HEADER_LEN
  {
    HeaderFront(h) + Be16(h.lsChecksum) + Be16(h.length)
  }

  function ParseHeader(d: Bytes): Result<LsaHeader> {
    if |d| < LSA_HEADER_LEN then Err(TooShort(LSA_HEADER_LEN, |d|))
    else
      var lsType :- TypeFrom(d[3]);
      Ok(LsaHeader(Read16(d, 0), d[2], lsType, Read32(d, 4), Read32(d, 8), Signed(Read32(d, 12)),
                   Read16(d, 16), Read16(d, 18)))
  }

  /** A header followed by anything is read back as it was written. */
  lemma ParseEncodedHeader(h: LsaHeader, rest: Bytes)
    ensures ParseHeader(EncodeHeader(h) + rest) == Ok(h)
  {
    var d := EncodeHeader(h) + rest;
    assert d[4..8] == Be32(h.linkStateId);
    assert d[8..12] == Be32(h.advertisingRouter);
    assert d[12..16] == Be32(Unsigned(h.lsSequenceNumber));
    Read32OfBe32(d, 4, h.linkStateId);
    Read32OfBe32(d, 8, h.advertisingRouter);
    Read32OfBe32(d, 12, Unsigned(h.lsSequenceNumber));
    assert Read16(d, 0) == h.lsAge && Read16(d, 16) == h.lsChecksum && Read16(d, 18) == h.length;
  }

  // ---------------------------------------------------------------- bodies

  function LinkTypeCode(t: RouterLinkType): u8 {
    match t
    case PointToPoint => 1
    case TransitNetwork => 2
    case StubNetwork => 3
    case VirtualLink => 4
  }

  function LinkTypeFrom(v: u8): Result<RouterLinkType> {
    if v == 1 then Ok(PointToPoint)
    else if v == 2 then Ok(TransitNetwork)
    else if v == 3 then Ok(StubNetwork)
    else if v == 4 then Ok(VirtualLink)
    else Err(BadLsaType(v))
  }

  function EncodeLink(l: RouterLink): (b: Bytes)
    ensures |b| == 12
  {
    Be32(l.linkId) + Be32(l.linkData) + [LinkTypeCode(l.linkType), l.numTos] + Be16(l.metric)
  }

  function ParseLink(d: Bytes): Result<RouterLink> {
    if |d| < 12 then Err(TooShort(12, |d|))
    else
      var linkType :- LinkTypeFrom(d[8]);
      Ok(RouterLink(Read32(d, 0), Read32(d, 4), linkType, d[9], Read16(d, 10)))
  }

  /** A parsed link takes 12 bytes plus 4 for each TOS entry it announces; the encoder writes none. */
  function LinkWireSize(l: RouterLink): nat {
    12 + (l.numTos as int) * 4
  }

  function EncodeLinks(links: seq<RouterLink>): (b: Bytes)
    ensures |b| == 12 * |links|
  {
    if links == [] then [] else EncodeLink(links[0]) + EncodeLinks(links[1..])
  }

  /** Up to `count` links from the front of `d`, stopping early when fewer than 12 bytes are left. */
  function ParseLinks(d: Bytes, count: nat): Result<seq<RouterLink>>
    decreases count
  {
    if count == 0 || |d| < 12 then Ok([])
    else
      var link :- ParseLink(d);
      Prepend([link], ParseLinks(From(d, LinkWireSize(link)), count - 1))
  }

  function EncodeAddresses(addrs: seq<u32>): (b: Bytes)
    ensures |b| == 4 * |addrs|
  {
    if addrs == [] then [] else Be32(addrs[0]) + EncodeAddresses(addrs[1..])
  }

  function ParseAddresses(d: Bytes): seq<u32> {
    if |d| < 4 then [] else [Read32(d, 0)] + ParseAddresses(d[4..])
  }

  function EncodeBody(b: LsaBody): Bytes {
    match b
    case RouterBody(flags, links) => [flags, 0] + Be16(|links| % 0x1_0000) + EncodeLinks(links)
    case NetworkBody(mask, attached) => Be32(mask) + EncodeAddresses(attached)
    case SummaryBody(mask, metric) => Be32(mask) + [0] + Be32(metric)[1..]
    case AsExternalBody(mask, type2, metric, fa, tag) =>
      Be32(mask) + [if type2 then 0x80 else 0] + Be32(metric)[1..] + Be32(fa) + Be32(tag)
    case OpaqueBody(data) => data
  }

  function ParseBody(t: LsaType, d: Bytes): Result<LsaBody> {
    match t
    case Router =>
      if |d| < 4 then Err(TooShort(4, |d|))
      else
        var links :- ParseLinks(d[4..], Read16(d, 2));
        Ok(RouterBody(d[0], links))
    case Network =>
      if |d| < 4 then Err(TooShort(4, |d|)) else Ok(NetworkBody(Read32(d, 0), ParseAddresses(d[4..])))
    case SummaryNetwork | SummaryAsbr =>
      if |d| < 8 then Err(TooShort(8, |d|)) else Ok(SummaryBody(Read32(d, 0), Read24(d, 5)))
    case AsExternal =>
      if |d| < 16 then Err(TooShort(16, |d|))
      else Ok(AsExternalBody(Read32(d, 0), d[4] >= 0x80, Read24(d, 5), Read32(d, 8), Read32(d, 12)))
  }

  /** What the encoder can represent without loss. */
  predicate EncodableBody(t: LsaType, b: LsaBody) {
    match t
    case Router => b.RouterBody? && forall l :: l in b.links ==> l.numTos == 0
    case Network => b.NetworkBody?
    case SummaryNetwork | SummaryAsbr => b.SummaryBody? && b.metric < 0x100_0000
    case AsExternal => b.AsExternalBody? && b.metric < 0x100_0000
  }

  lemma ParseEncodedLink(l: RouterLink, rest: Bytes)
    ensures ParseLink(EncodeLink(l) + rest) == Ok(l)
  {
    var d := EncodeLink(l) + rest;
    assert d[0..4] == Be32(l.linkId);
    assert d[4..8] == Be32(l.linkData);
    Read32OfBe32(d, 0, l.linkId);
    Read32OfBe32(d, 4, l.linkData);
    assert Read16(d, 10) == l.metric;
  }

  lemma {:induction false} ParseEncodedLinks(links: seq<RouterLink>)
    requires forall l :: l in links ==> l.numTos == 0
    ensures ParseLinks(EncodeLinks(links), |links|) == Ok(links)
  {
    if links != [] {
      var rest := EncodeLinks(links[1..]);
      ParseEncodedLink(links[0], rest);
      assert EncodeLinks(links)[12..] == rest;
      ParseEncodedLinks(links[1..]);
      assert [links[0]] + links[1..] == links;
    }
  }

  lemma {:induction false} ParseEncodedAddresses(addrs: seq<u32>)
    ensures ParseAddresses(EncodeAddresses(addrs)) == addrs
  {
    if addrs != [] {
      var d := EncodeAddresses(addrs);
      assert d[0..4] == Be32(addrs[0]);
      Read32OfBe32(d, 0, addrs[0]);
      assert d[4..] == EncodeAddresses(addrs[1..]);
      ParseEncodedAddresses(addrs[1..]);
    }
  }

  lemma ParseEncodedRouter(b: LsaBody)
    requires b.RouterBody? && EncodableBody(Router, b) && |EncodeBody(b)| + LSA_HEADER_LEN <= 0xFFFF
    ensures ParseBody(Router, EncodeBody(b)) == Ok(b)
  {
    hide EncodeLinks, ParseLinks;
    var d := EncodeBody(b);
    assert d[4..] == EncodeLinks(b.links);
    assert Read16(d, 2) == |b.links|;
    ParseEncodedLinks(b.links);
  }

  lemma ParseEncodedNetwork(b: LsaBody)
    requires b.NetworkBody?
    ensures ParseBody(Network, EncodeBody(b)) == Ok(b)
  {
    hide EncodeAddresses, ParseAddresses, Be32, Read32;
    var d := EncodeBody(b);
    assert d[0..4] == Be32(b.networkMask) && d[4..] == EncodeAddresses(b.attachedRouters);
    Read32OfBe32(d, 0, b.networkMask);
    ParseEncodedAddresses(b.attachedRouters);
  }

  lemma ParseEncodedSummary(t: LsaType, b: LsaBody)
    requires (t.SummaryNetwork? || t.SummaryAsbr?) && EncodableBody(t, b)
    ensures ParseBody(t, EncodeBody(b)) == Ok(b)
  {
    hide Be32, Read32, Read24;
    var d := EncodeBody(b);
    assert d[0..4] == Be32(b.networkMask) && d[5..8] == Be32(b.metric)[1..];
    Read32OfBe32(d, 0, b.networkMask);
    Read24OfBe32(d, 5, b.metric);
  }

  lemma ParseEncodedExternal(b: LsaBody)
    requires EncodableBody(AsExternal, b)
    ensures ParseBody(AsExternal, EncodeBody(b)) == Ok(b)
  {
    hide Be32, Read32, Read24;
    var d := EncodeBody(b);
    assert d[0..4] == Be32(b.networkMask) && d[5..8] == Be32(b.metric)[1..];
    assert d[8..12] == Be32(b.forwardingAddress) && d[12..16] == Be32(b.externalRouteTag);
    Read32OfBe32(d, 0, b.networkMask);
    Read24OfBe32(d, 5, b.metric);
    Read32OfBe32(d, 8, b.forwardingAddress);
    Read32OfBe32(d, 12, b.externalRouteTag);
  }

  /** Every body the encoder can represent is read back unchanged. */
  lemma ParseEncodedBody(t: LsaType, b: LsaBody)
    requires EncodableBody(t, b) && |EncodeBody(b)| + LSA_HEADER_LEN <= 0xFFFF
    ensures ParseBody(t, EncodeBody(b)) == Ok(b)
  {
    hide ParseBody, EncodeBody;
    match t
    case Router => ParseEncodedRouter(b);
    case Network => ParseEncodedNetwork(b);
    case SummaryNetwork => ParseEncodedSummary(t, b);
    case SummaryAsbr => ParseEncodedSummary(t, b);
    case AsExternal => ParseEncodedExternal(b);
  }

  // ---------------------------------------------------------------- whole LSAs

  predicate Encodable(l: Lsa) {
    EncodableBody(l.header.lsType, l.body) && EncodedFits(l)
  }

  /** The length field is 16 bits; the encoder refuses anything longer. */
  predicate EncodedFits(l: Lsa) {
    LSA_HEADER_LEN + |EncodeBody(l.body)| <= 0xFFFF
  }

  function WireLength(l: Lsa): u16
    requires EncodedFits(l)
  {
    LSA_HEADER_LEN + |EncodeBody(l.body)|
  }

  /** Header and body as written, with the length field patched. */
  function Patched(l: Lsa): (b: Bytes)
    requires EncodedFits(l)
    ensures |b| == WireLength(l)
  {
    (EncodeHeader(l.header) + EncodeBody(l.body))[18 := WireLength(l) / 0x100][19 := WireLength(l) % 0x100]
  }

  /** `Lsa::encode`: the Fletcher pair goes to bytes 16 and 17 and covers everything from byte 2. */
  function EncodeLsa(l: Lsa): (b: Bytes)
    requires EncodedFits(l)
    ensures |b| == WireLength(l)
  {
    Patched(l)[..2] + Fletcher.Sealed(Patched(l)[2..], 14)
  }

  function LsaChecksum(l: Lsa): u16
    requires EncodedFits(l)
  {
    var pair := Fletcher.Generated(Patched(l)[2..], 14);
    (pair.0 as int) * 0x100 + pair.1
  }

  /** The LSA with the length and checksum that encoding computes. */
  function Corrected(l: Lsa): Lsa
    requires EncodedFits(l)
  {
    l.(header := l.header.(length := WireLength(l), lsChecksum := LsaChecksum(l)))
  }

  function ParseLsa(d: Bytes): Result<Lsa> {
    var header :- ParseHeader(d);
    if header.length < LSA_HEADER_LEN then Err(TooShort(LSA_HEADER_LEN, header.length))
    else
      var end := if header.length <= |d| then header.length else |d|;
      var body :- ParseBody(header.lsType, d[LSA_HEADER_LEN..end]);
      Ok(Lsa(header, body))
  }

  lemma SameFront(h: LsaHeader, length: u16, checksum: u16)
    ensures HeaderFront(h.(length := length, lsChecksum := checksum)) == HeaderFront(h)
  {
  }

  /** Encoding writes exactly the header of the corrected LSA. */
  lemma EncodeLsaShape(l: Lsa)
    requires EncodedFits(l)
    ensures EncodeLsa(l) == EncodeHeader(Corrected(l).header) + EncodeBody(l.body)
  {
    hide Fletcher.Generated, HeaderFront, EncodeBody;
    var pair := Fletcher.Generated(Patched(l)[2..], 14);
    assert Be16(LsaChecksum(l)) == [pair.0, pair.1];
    assert HeaderFront(Corrected(l).header) == HeaderFront(l.header) by {
      SameFront(l.header, WireLength(l), LsaChecksum(l));
    }
    var b := EncodeLsa(l);
    assert b[..16] == HeaderFront(l.header);
    assert b[16..20] == [pair.0, pair.1] + Be16(WireLength(l));
    assert b[20..] == EncodeBody(l.body);
    assert b == b[..16] + b[16..20] + b[20..];
  }

  /** Round trip: whatever follows on the wire, the LSA is read back up to length and checksum. */
  lemma ParseEncodedLsa(l: Lsa, rest: Bytes)
    requires Encodable(l)
    ensures ParseLsa(EncodeLsa(l) + rest) == Ok(Corrected(l))
  {
    hide EncodeHeader, EncodeBody, ParseHeader, ParseBody, LsaChecksum, EncodeLsa, EncodableBody;
    EncodeLsaShape(l);
    var d := EncodeLsa(l) + rest;
    var header := Corrected(l).header;
    assert d == EncodeHeader(header) + (EncodeBody(l.body) + rest);
    ParseEncodedHeader(header, EncodeBody(l.body) + rest);
    assert d[LSA_HEADER_LEN..WireLength(l)] == EncodeBody(l.body);
    ParseEncodedBody(l.header.lsType, l.body);
  }

  /** Whatever the body, a parse that succeeds yields the corrected header. */
  lemma ParsedHeader(l: Lsa)
    requires EncodedFits(l) && ParseLsa(EncodeLsa(l)).Ok?
    ensures ParseLsa(EncodeLsa(l)).value.header == Corrected(l).header
  {
    hide EncodeHeader, EncodeBody, ParseHeader, ParseBody, LsaChecksum, EncodeLsa;
    EncodeLsaShape(l);
    ParseEncodedHeader(Corrected(l).header, EncodeBody(l.body));
  }

  lemma PlainLinksEncodable(l: Lsa)
    requires EncodedFits(l) && l.header.lsType == Router && l.body.RouterBody?
    requires forall link :: link in l.body.links ==> link.numTos == 0
    ensures Encodable(l)
  {
  }

  /** Encoding does not look at the stored length and checksum, so re-encoding the parse gives the
      same bytes. */
  lemma ReencodeIdentical(l: Lsa)
    requires EncodedFits(l)
    ensures EncodeLsa(Corrected(l)) == EncodeLsa(l)
  {
    var c := Corrected(l);
    SameFront(l.header, WireLength(l), LsaChecksum(l));
    PatchedAlike(l, c);
    SealedAlike(Patched(l)[2..], Patched(c)[2..], 14);
    hide Patched, Fletcher.Sealed, EncodeBody;
    assert Patched(l)[..2] == Patched(c)[..2];
  }

  /** The buffers of two LSAs with the same front and body differ at most in bytes 16 and 17. */
  lemma PatchedAlike(l: Lsa, c: Lsa)
    requires EncodedFits(l) && EncodedFits(c) && l.body == c.body && HeaderFront(l.header) == HeaderFront(c.header)
    ensures forall i :: 0 <= i < WireLength(l) && i != 16 && i != 17 ==> Patched(l)[i] == Patched(c)[i]
  {
    hide EncodeBody, HeaderFront;
  }

  /** The generated pair does not depend on the bytes it replaces. */
  lemma SealedAlike(a: Bytes, b: Bytes, offset: nat)
    requires |a| == |b| && offset + 1 < |a|
    requires forall i :: 0 <= i < |a| && i != offset && i != offset + 1 ==> a[i] == b[i]
    ensures Fletcher.Sealed(a, offset) == Fletcher.Sealed(b, offset)
  {
    hide Fletcher.CheckBytes;
    assert Fletcher.Zeroed(a, offset) == Fletcher.Zeroed(b, offset);
  }

  /** The longest encoding whose accumulator fits whatever the contents are. */
  const LONGEST_VERIFIED := 4110

  /** The bytes the checksum sees: type and length bytes are bounded, the field itself reads as zero. */
  function Summed(l: Lsa): (z: Bytes)
    requires EncodedFits(l)
    ensures |z| == WireLength(l) - 2
  {
    Fletcher.Zeroed(Patched(l)[2..], 14)
  }

  lemma SummedBytes(l: Lsa)
    requires EncodedFits(l)
    ensures var z := Summed(l);
            && z[1] == TypeCode(l.header.lsType) <= 5 && z[14] == 0 && z[15] == 0
            && z[16] == WireLength(l) / 0x100 && z[17] == WireLength(l) % 0x100
  {
    hide EncodeBody;
    assert Patched(l)[3] == HeaderFront(l.header)[3] == TypeCode(l.header.lsType);
  }

  /** Raising bytes 1 and 14 to 17 to 0xFF. */
  function Raised(z: Bytes): (r: Bytes)
    requires |z| > 17
    ensures |r| == |z|
  {
    z[1 := 255][14 := 255][15 := 255][16 := 255][17 := 255]
  }

  /** What raising the byte at `i` from `b` to 0xFF adds to the second sum of `n` bytes. */
  function Gain(n: nat, i: nat, b: u8): int {
    (n - i) * (255 - b)
  }

  lemma RaisedByte(z: Bytes, i: nat)
    requires i < |z|
    ensures Fletcher.PrefixSum(z[i := 255]) == Fletcher.PrefixSum(z) + Gain(|z|, i, z[i])
  {
    Fletcher.SumsAfterUpdate(z, i, 255);
  }

  lemma RaisedSum(z: Bytes)
    requires |z| > 17
    ensures Fletcher.PrefixSum(Raised(z)) == Fletcher.PrefixSum(z) + Gain(|z|, 1, z[1])
            + Gain(|z|, 14, z[14]) + Gain(|z|, 15, z[15]) + Gain(|z|, 16, z[16]) + Gain(|z|, 17, z[17])
  {
    hide Fletcher.PrefixSum, Gain;
    RaisedByte(z, 1);
    RaisedByte(z[1 := 255], 14);
    RaisedByte(z[1 := 255][14 := 255], 15);
    RaisedByte(z[1 := 255][14 := 255][15 := 255], 16);
    RaisedByte(z[1 := 255][14 := 255][15 := 255][16 := 255], 17);
  }

  /** The type and length bytes of an LSA leave room for seven bytes more than arbitrary data has. */
  lemma LongestVerifiedFits(l: Lsa)
    requires EncodedFits(l) && Fletcher.LONGEST_SAFE + 2 < WireLength(l) <= LONGEST_VERIFIED
    ensures Fletcher.PrefixSum(Summed(l)) <= I32_MAX
  {
    hide Fletcher.PrefixSum, Fletcher.ByteSum, Summed, Raised, EncodeBody, Gain, TypeCode;
    var z := Summed(l);
    SummedBytes(l);
    RaisedSum(z);
    Fletcher.SumBounds(Raised(z));
    RoomLeft(|z|, z[1], Fletcher.PrefixSum(z), Fletcher.PrefixSum(Raised(z)));
  }

  lemma RoomLeft(n: nat, t: nat, sum: nat, raised: nat)
    requires Fletcher.LONGEST_SAFE < n <= LONGEST_VERIFIED - 2 && t <= 5
    requires raised == sum + Gain(n, 1, t) + Gain(n, 14, 0) + Gain(n, 15, 0)
                       + Gain(n, 16, (n + 2) / 0x100) + Gain(n, 17, (n + 2) % 0x100)
    requires 2 * raised <= 255 * (n * (n + 1))
    ensures sum <= I32_MAX
  {
    if n == 4104 {
    } else if n == 4105 {
    } else if n == 4106 {
    } else if n == 4107 {
    } else {
      assert n == 4108;
    }
  }

  /** Every encoded LSA verifies from byte 2 exactly when its Fletcher accumulator fits an i32, which it
      does up to 4110 bytes. */
  lemma EncodedLsaVerifies(l: Lsa)
    requires EncodedFits(l)
    ensures Fletcher.Verifies(EncodeLsa(l)[2..]) <==> Fletcher.PrefixSum(Summed(l)) <= I32_MAX
    ensures WireLength(l) <= LONGEST_VERIFIED ==> Fletcher.Verifies(EncodeLsa(l)[2..])
  {
    assert EncodeLsa(l)[2..] == Fletcher.Sealed(Patched(l)[2..], 14);
    Fletcher.SealedVerifiesIffFits(Patched(l)[2..], 14);
    if WireLength(l) <= Fletcher.LONGEST_SAFE + 2 {
      Fletcher.SealedVerifies(Patched(l)[2..], 14);
    } else if WireLength(l) <= LONGEST_VERIFIED {
      LongestVerifiedFits(l);
    }
  }

  /** Encodings are made of 32-bit words, so the next length after 4110 is 4112. */
  lemma EncodingAligned(l: Lsa)
    requires Encodable(l)
    ensures WireLength(l) % 4 == 0
  {
  }

  const ALL_ONES: u32 := 0xFFFF_FFFF

  /** A Network-LSA of 4112 bytes. */
  function LongNetworkLsa(): (l: Lsa)
    ensures EncodedFits(l) && Encodable(l) && WireLength(l) == 4112 && l.header.lsType == Network
  {
    Lsa(LsaHeader(0, 255, Network, ALL_ONES, ALL_ONES, -1, 0, 0), NetworkBody(ALL_ONES, seq(1022, _ => ALL_ONES)))
  }

  lemma {:induction false} OnesAddresses(k: nat)
    ensures EncodeAddresses(seq(k, _ => ALL_ONES)) == Fletcher.Ones(4 * k)
  {
    if k > 0 {
      assert seq(k, _ => ALL_ONES)[1..] == seq(k - 1, _ => ALL_ONES);
      OnesAddresses(k - 1);
      assert Be32(ALL_ONES) == Fletcher.Ones(4);
      assert Fletcher.Ones(4) + Fletcher.Ones(4 * (k - 1)) == Fletcher.Ones(4 * k);
    }
  }

  /** All its bytes are 0xFF but those of type, checksum and length. */
  lemma LongNetworkBytes()
    ensures Raised(Summed(LongNetworkLsa())) == Fletcher.Ones(4110)
  {
    var l := LongNetworkLsa();
    LongNetworkParts();
    hide EncodeBody, EncodeHeader, LongNetworkLsa;
    var r := Raised(Summed(l));
    forall i | 0 <= i < 4110 ensures r[i] == 255 {
      assert 2 <= i < 14 ==> Patched(l)[i + 2] == EncodeHeader(l.header)[4..16][i - 2];
      assert 18 <= i ==> Patched(l)[i + 2] == EncodeBody(l.body)[i - 18];
    }
  }

  lemma LongNetworkParts()
    ensures var l := LongNetworkLsa();
            && EncodeBody(l.body) == Fletcher.Ones(4092)
            && EncodeHeader(l.header)[4..16] == Fletcher.Ones(12) && EncodeHeader(l.header)[2] == 255
  {
    var l := LongNetworkLsa();
    OnesAddresses(1022);
    assert Be32(ALL_ONES) == Fletcher.Ones(4) && Unsigned(-1) == ALL_ONES;
    assert EncodeBody(l.body) == Fletcher.Ones(4) + Fletcher.Ones(4088);
  }

  /** The bound is tight: this Network-LSA is sent with a checksum that does not verify. */
  lemma LongNetworkLsaFails()
    ensures !Fletcher.Verifies(EncodeLsa(LongNetworkLsa())[2..])
  {
    hide Fletcher.PrefixSum, Summed, Raised, EncodeBody, EncodeLsa, Fletcher.Ones, Fletcher.Verifies, LongNetworkLsa;
    var l := LongNetworkLsa();
    EncodedLsaVerifies(l);
    SummedBytes(l);
    RaisedSum(Summed(l));
    LongNetworkBytes();
    Fletcher.OnesSums(4110);
  }

  // ---------------------------------------------------------------- Link State Update

  ghost predicate AllFit(lsas: seq<Lsa>) {
    forall i :: 0 <= i < |lsas| ==> EncodedFits(lsas[i])
  }

  ghost predicate AllEncodable(lsas: seq<Lsa>) {
    AllFit(lsas) && forall i :: 0 <= i < |lsas| ==> Encodable(lsas[i])
  }

  function EncodeLsas(lsas: seq<Lsa>): Bytes
    requires AllFit(lsas)
  {
    if lsas == [] then [] else EncodeLsa(lsas[0]) + EncodeLsas(lsas[1..])
  }

  function EncodeLsu(lsas: seq<Lsa>): Bytes
    requires AllFit(lsas)
  {
    Be32(|lsas| % 0x1_0000_0000) + EncodeLsas(lsas)
  }

  /** Up to `count` LSAs from the front of `d`, stopping early when the bytes run out. */
  function ParseLsas(d: Bytes, count: nat): Result<seq<Lsa>>
    decreases count
  {
    if count == 0 || d == [] then Ok([])
    else
      var lsa :- ParseLsa(d);
      Prepend([lsa], ParseLsas(From(d, lsa.header.length), count - 1))
  }

  function ParseLsu(d: Bytes): Result<seq<Lsa>> {
    if |d| < 4 then Err(TooShort(4, |d|)) else ParseLsas(d[4..], Read32(d, 0))
  }

  function CorrectedAll(lsas: seq<Lsa>): (c: seq<Lsa>)
    requires AllFit(lsas)
    ensures |c| == |lsas|
  {
    seq(|lsas|, i requires 0 <= i < |lsas| => Corrected(lsas[i]))
  }

  /** The parser takes one encoded LSA off the front and goes on with the rest. */
  lemma ParseLsasStep(l: Lsa, rest: Bytes, count: nat)
    requires Encodable(l) && count > 0
    ensures ParseLsas(EncodeLsa(l) + rest, count) == Prepend([Corrected(l)], ParseLsas(rest, count - 1))
  {
    hide ParseLsa, EncodeLsa, LsaChecksum, EncodableBody, EncodeBody;
    ParseEncodedLsa(l, rest);
    var d := EncodeLsa(l) + rest;
    assert From(d, WireLength(l)) == rest;
  }

  lemma CorrectedAllFront(lsas: seq<Lsa>)
    requires AllFit(lsas) && lsas != []
    ensures AllFit(lsas[1..]) && CorrectedAll(lsas) == [Corrected(lsas[0])] + CorrectedAll(lsas[1..])
  {
    hide Corrected, EncodedFits;
  }

  lemma {:induction false} ParseEncodedLsas(lsas: seq<Lsa>)
    requires AllEncodable(lsas)
    ensures ParseLsas(EncodeLsas(lsas), |lsas|) == Ok(CorrectedAll(lsas))
  {
    hide Encodable, EncodedFits, EncodeLsa, Corrected;
    if lsas == [] {
      assert CorrectedAll(lsas) == [];
    } else {
      CorrectedAllFront(lsas);
      hide ParseLsas, CorrectedAll;
      ParseLsasStep(lsas[0], EncodeLsas(lsas[1..]), |lsas|);
      ParseEncodedLsas(lsas[1..]);
    }
  }

  /** Round trip of a whole Link State Update. */
  lemma ParseEncodedLsu(lsas: seq<Lsa>)
    requires AllEncodable(lsas) && |lsas| <= U32_MAX
    ensures ParseLsu(EncodeLsu(lsas)) == Ok(CorrectedAll(lsas))
  {
    hide EncodeLsas, ParseLsas, Encodable, CorrectedAll, EncodedFits;
    var d := EncodeLsu(lsas);
    assert d[0..4] == Be32(|lsas|);
    assert d[4..] == EncodeLsas(lsas);
    Read32OfBe32(d, 0, |lsas|);
    ParseEncodedLsas(lsas);
  }

  /** ... and the parsed update encodes to the same bytes again. */
  lemma {:induction false} ReencodeLsasIdentical(lsas: seq<Lsa>)
    requires AllFit(lsas)
    ensures AllFit(CorrectedAll(lsas)) && EncodeLsas(CorrectedAll(lsas)) == EncodeLsas(lsas)
  {
    hide EncodeLsa, LsaChecksum, EncodeBody;
    if lsas != [] {
      CorrectedAllFront(lsas);
      ReencodeLsasIdentical(lsas[1..]);
      ReencodeIdentical(lsas[0]);
      assert CorrectedAll(lsas)[1..] == CorrectedAll(lsas[1..]);
    }
  }

  // ---------------------------------------------------------------- the loops of the source

  /** The link loop of `RouterLsa::parse`. */
  method ParseLinkList(d: Bytes, numLinks: nat) returns (r: Result<seq<RouterLink>>)
    ensures r == ParseLinks(d, numLinks)
  {
    hide ParseLink;
    var links: seq<RouterLink> := [];
    var off, k := 0, 0;
    PrependEmpty(ParseLinks(d, numLinks));
    while k < numLinks && off + 12 <= |d|
      invariant 0 <= off && 0 <= k <= numLinks
      invariant ParseLinks(d, numLinks) == Prepend(links, ParseLinks(From(d, off), numLinks - k))
      decreases numLinks - k
    {
      var parsed := ParseLink(d[off..]);
      if parsed.Err? {
        return Err(parsed.error);
      }
      var size := LinkWireSize(parsed.value);
      assert From(From(d, off), size) == From(d, off + size);
      PrependStep(links, parsed.value, ParseLinks(From(d, off + size), numLinks - k - 1));
      off, links, k := off + size, links + [parsed.value], k + 1;
    }
    assert links + [] == links;
    return Ok(links);
  }

  /** `RouterLsa::parse`. */
  method ParseRouterLsa(d: Bytes) returns (r: Result<LsaBody>)
    ensures r == ParseBody(Router, d)
  {
    hide ParseLinks;
    if |d| < 4 {
      return Err(TooShort(4, |d|));
    }
    var links :- ParseLinkList(d[4..], Read16(d, 2));
    return Ok(RouterBody(d[0], links));
  }

  /** `NetworkLsa::parse`. */
  method ParseNetworkLsa(d: Bytes) returns (r: Result<LsaBody>)
    ensures r == ParseBody(Network, d)
  {
    if |d| < 4 {
      return Err(TooShort(4, |d|));
    }
    var attached: seq<u32> := [];
    var off := 4;
    while off + 4 <= |d|
      invariant 4 <= off <= |d|
      invariant ParseAddresses(d[4..]) == attached + ParseAddresses(d[off..])
    {
      assert d[off..][4..] == d[off + 4..];
      attached := attached + [Read32(d, off)];
      off := off + 4;
    }
    assert attached + [] == attached;
    return Ok(NetworkBody(Read32(d, 0), attached));
  }

  /** The LSA loop of `LsUpdatePacket::parse`. */
  method ParseLsaList(d: Bytes, numLsas: nat) returns (r: Result<seq<Lsa>>)
    ensures r == ParseLsas(d, numLsas)
  {
    hide ParseLsa;
    var lsas: seq<Lsa> := [];
    var off, k := 0, 0;
    PrependEmpty(ParseLsas(d, numLsas));
    while k < numLsas && off < |d|
      invariant 0 <= off && 0 <= k <= numLsas
      invariant ParseLsas(d, numLsas) == Prepend(lsas, ParseLsas(From(d, off), numLsas - k))
      decreases numLsas - k
    {
      var parsed := ParseLsa(d[off..]);
      if parsed.Err? {
        return Err(parsed.error);
      }
      var size := parsed.value.header.length;
      assert From(From(d, off), size) == From(d, off + size);
      PrependStep(lsas, parsed.value, ParseLsas(From(d, off + size), numLsas - k - 1));
      off, lsas, k := off + size, lsas + [parsed.value], k + 1;
    }
    assert lsas + [] == lsas;
    return Ok(lsas);
  }

  /** `LsUpdatePacket::parse`. */
  method ParseLsUpdate(d: Bytes) returns (r: Result<seq<Lsa>>)
    ensures r == ParseLsu(d)
  {
    hide ParseLsas;
    if |d| < 4 {
      return Err(TooShort(4, |d|));
    }
    r := ParseLsaList(d[4..], Read32(d, 0));
  }

  /** The link loop of `RouterLsa::encode`. */
  method AppendLinks(buf: Bytes, links: seq<RouterLink>) returns (out: Bytes)
    ensures out == buf + EncodeLinks(links)
  {
    hide EncodeLink;
    out := buf;
    for i := 0 to |links|
      invariant out + EncodeLinks(links[i..]) == buf + EncodeLinks(links)
    {
      assert links[i..][1..] == links[i + 1..];
      var b := EncodeLink(links[i]);
      assert out + (b + EncodeLinks(links[i + 1..])) == (out + b) + EncodeLinks(links[i + 1..]);
      out := out + b;
    }
    assert out + [] == out;
  }

  /** The router loop of `NetworkLsa::encode`. */
  method AppendAddresses(buf: Bytes, addrs: seq<u32>) returns (out: Bytes)
    ensures out == buf + EncodeAddresses(addrs)
  {
    hide Be32;
    out := buf;
    for i := 0 to |addrs|
      invariant out + EncodeAddresses(addrs[i..]) == buf + EncodeAddresses(addrs)
    {
      assert addrs[i..][1..] == addrs[i + 1..];
      var b := Be32(addrs[i]);
      assert out + (b + EncodeAddresses(addrs[i + 1..])) == (out + b) + EncodeAddresses(addrs[i + 1..]);
      out := out + b;
    }
    assert out + [] == out;
  }

  /** The body encoders, appending to a buffer. */
  method AppendBody(buf: Bytes, b: LsaBody) returns (out: Bytes)
    ensures out == buf + EncodeBody(b)
  {
    match b
    case RouterBody(flags, links) => out := AppendLinks(buf + ([flags, 0] + Be16(|links| % 0x1_0000)), links);
    case NetworkBody(mask, attached) => out := AppendAddresses(buf + Be32(mask), attached);
    case SummaryBody(_, _) => out := buf + EncodeBody(b);
    case AsExternalBody(_, _, _, _, _) => out := buf + EncodeBody(b);
    case OpaqueBody(data) => out := buf + data;
  }

  /** `Lsa::encode`: append, patch the length, then write the Fletcher pair. */
  method EncodeLsaBuffer(l: Lsa) returns (buf: Bytes)
    requires EncodedFits(l)
    ensures buf == EncodeLsa(l)
  {
    hide Fletcher.Generated;
    buf := AppendBody(EncodeHeader(l.header), l.body);
    var len := |buf|;
    buf := buf[18 := len / 0x100];
    buf := buf[19 := len % 0x100];
    assert buf == Patched(l);
    var c1, c2 := Fletcher.Fletcher16(buf[2..], 14);
    buf := buf[16 := c1];
    buf := buf[17 := c2];
    assert buf[2..] == Fletcher.Sealed(Patched(l)[2..], 14);
    assert buf == buf[..2] + buf[2..];
  }

  /** The LSA loop of `LsUpdatePacket::encode`. */
  method AppendLsas(buf: Bytes, lsas: seq<Lsa>) returns (out: Bytes)
    requires AllFit(lsas)
    ensures out == buf + EncodeLsas(lsas)
  {
    hide EncodeLsa, EncodedFits;
    out := buf;
    for i := 0 to |lsas|
      invariant out + EncodeLsas(lsas[i..]) == buf + EncodeLsas(lsas)
    {
      assert lsas[i..][1..] == lsas[i + 1..];
      var b := EncodeLsaBuffer(lsas[i]);
      assert out + (b + EncodeLsas(lsas[i + 1..])) == (out + b) + EncodeLsas(lsas[i + 1..]);
      out := out + b;
    }
    assert out + [] == out;
  }

  /** `LsUpdatePacket::encode`. */
  method EncodeLsUpdate(lsas: seq<Lsa>) returns (buf: Bytes)
    requires AllFit(lsas)
    ensures buf == EncodeLsu(lsas)
  {
    buf := AppendLsas(Be32(|lsas| % 0x1_0000_0000), lsas);
  }
}
