/**
 Where every field of an encoded LSA is (appendix A.4 of RFC 2328): the positions a peer reads, stated without the
 encoders and parsers of src/packet/lsa.rs.
 */
module LsaLayout {
  import opened Numbers
  import opened LsaTypes
  import opened LsaCodec

  /** The number in `n` bytes from `at` on, most significant byte first. */
  ghost function BigEndian(d: Bytes, at: nat, n: nat): nat
    requires at + n <= |d|
  {
    if n == 0 then 0 else BigEndian(d, at, n - 1) * 256 + d[at + n - 1]
  }

  lemma TwoBytes(d: Bytes, at: nat)
    requires at + 2 <= |d|
    ensures BigEndian(d, at, 2) == (d[at] as int) * 256 + d[at + 1]
  {
    assert BigEndian(d, at, 0) == 0;
    assert BigEndian(d, at, 1) == d[at];
  }

  lemma ThreeBytes(d: Bytes, at: nat)
    requires at + 3 <= |d|
    ensures BigEndian(d, at, 3) == ((d[at] as int) * 256 + d[at + 1]) * 256 + d[at + 2]
  {
    TwoBytes(d, at);
  }

  lemma FourBytes(d: Bytes, at: nat)
    requires at + 4 <= |d|
    ensures BigEndian(d, at, 4) == (((d[at] as int) * 256 + d[at + 1]) * 256 + d[at + 2]) * 256 + d[at + 3]
  {
    ThreeBytes(d, at);
  }

  lemma Be16At(d: Bytes, at: nat, v: u16)
    requires at + 2 <= |d| && d[at..at + 2] == Be16(v)
    ensures BigEndian(d, at, 2) == v
  {
    var b := d[at..at + 2];
    assert d[at] == b[0] && d[at + 1] == b[1];
    TwoBytes(d, at);
  }

  lemma Be24At(d: Bytes, at: nat, v: u32)
    requires at + 3 <= |d| && d[at..at + 3] == Be32(v)[1..] && v < 0x100_0000
    ensures BigEndian(d, at, 3) == v
  {
    var b := d[at..at + 3];
    assert d[at] == b[0] && d[at + 1] == b[1] && d[at + 2] == b[2];
    ThreeBytes(d, at);
  }

  lemma Be32At(d: Bytes, at: nat, v: u32)
    requires at + 4 <= |d| && d[at..at + 4] == Be32(v)
    ensures BigEndian(d, at, 4) == v
  {
    var b := d[at..at + 4];
    assert d[at] == b[0] && d[at + 1] == b[1] && d[at + 2] == b[2] && d[at + 3] == b[3];
    FourBytes(d, at);
  }

  // ---------------------------------------------------------------- header

  lemma HeaderLayout(h: LsaHeader)
    ensures var b := EncodeHeader(h);
            && |b| == 20
            && BigEndian(b, 0, 2) == h.lsAge && b[2] == h.options
            && b[3] == (match h.lsType case Router => 1 case Network => 2 case SummaryNetwork => 3 case SummaryAsbr => 4 case AsExternal => 5)
            && BigEndian(b, 4, 4) == h.linkStateId && BigEndian(b, 8, 4) == h.advertisingRouter
            && BigEndian(b, 12, 4) == (if h.lsSequenceNumber < 0 then h.lsSequenceNumber + 0x1_0000_0000 else h.lsSequenceNumber)
            && BigEndian(b, 16, 2) == h.lsChecksum && BigEndian(b, 18, 2) == h.length
  {
    hide BigEndian, Be16, Be32;
    var b := EncodeHeader(h);
    assert b[0..2] == Be16(h.lsAge) && b[4..8] == Be32(h.linkStateId) && b[8..12] == Be32(h.advertisingRouter);
    assert b[12..16] == Be32(Unsigned(h.lsSequenceNumber)) && b[16..18] == Be16(h.lsChecksum) && b[18..20] == Be16(h.length);
    Be16At(b, 0, h.lsAge);
    Be32At(b, 4, h.linkStateId);
    Be32At(b, 8, h.advertisingRouter);
    Be32At(b, 12, Unsigned(h.lsSequenceNumber));
    Be16At(b, 16, h.lsChecksum);
    Be16At(b, 18, h.length);
  }

  // ---------------------------------------------------------------- bodies

  /** One link of a Router-LSA, 12 bytes from `at` on. */
  ghost predicate LinkAt(b: Bytes, at: nat, l: RouterLink) {
    && at + 12 <= |b|
    && BigEndian(b, at, 4) == l.linkId && BigEndian(b, at + 4, 4) == l.linkData
    && b[at + 8] == (match l.linkType case PointToPoint => 1 case TransitNetwork => 2 case StubNetwork => 3 case VirtualLink => 4)
    && b[at + 9] == l.numTos && BigEndian(b, at + 10, 2) == l.metric
  }

  lemma EncodedLinkAt(b: Bytes, at: nat, l: RouterLink)
    requires at + 12 <= |b| && b[at..at + 12] == EncodeLink(l)
    ensures LinkAt(b, at, l)
  {
    hide BigEndian, Be16, Be32;
    var e := b[at..at + 12];
    assert b[at..at + 4] == e[0..4] == Be32(l.linkId);
    assert b[at + 4..at + 8] == e[4..8] == Be32(l.linkData);
    assert b[at + 8] == e[8] && b[at + 9] == e[9];
    assert b[at + 10..at + 12] == e[10..12] == Be16(l.metric);
    Be32At(b, at, l.linkId);
    Be32At(b, at + 4, l.linkData);
    Be16At(b, at + 10, l.metric);
  }

  lemma SliceOfRest(b: Bytes, k: nat, from: nat, to: nat)
    requires from <= to && k + to <= |b|
    ensures b[k..][from..to] == b[k + from..k + to]
  {
  }

  lemma {:induction false} EncodedLinks(links: seq<RouterLink>, i: nat)
    requires i < |links|
    ensures EncodeLinks(links)[12 * i..12 * i + 12] == EncodeLink(links[i])
  {
    hide EncodeLink;
    if i > 0 {
      EncodedLinks(links[1..], i - 1);
      assert EncodeLinks(links)[12..] == EncodeLinks(links[1..]);
      SliceOfRest(EncodeLinks(links), 12, 12 * (i - 1), 12 * (i - 1) + 12);
    }
  }

  /** Flags, a zero byte, the number of links, then the links. */
  lemma RouterLayout(flags: u8, links: seq<RouterLink>)
    ensures var b := EncodeBody(RouterBody(flags, links));
            && |b| == 4 + 12 * |links| && b[0] == flags && b[1] == 0 && BigEndian(b, 2, 2) == |links| % 0x1_0000
            && forall i :: 0 <= i < |links| ==> LinkAt(b, 4 + 12 * i, links[i])
  {
    hide BigEndian, Be16, EncodeLink, EncodeLinks;
    var b := EncodeBody(RouterBody(flags, links));
    assert b[2..4] == Be16(|links| % 0x1_0000);
    Be16At(b, 2, |links| % 0x1_0000);
    forall i | 0 <= i < |links| ensures LinkAt(b, 4 + 12 * i, links[i]) {
      EncodedLinks(links, i);
      assert b[4..] == EncodeLinks(links);
      SliceOfRest(b, 4, 12 * i, 12 * i + 12);
      EncodedLinkAt(b, 4 + 12 * i, links[i]);
    }
  }

  lemma {:induction false} EncodedAddresses(addrs: seq<u32>, i: nat)
    requires i < |addrs|
    ensures EncodeAddresses(addrs)[4 * i..4 * i + 4] == Be32(addrs[i])
  {
    hide Be32;
    if i > 0 {
      EncodedAddresses(addrs[1..], i - 1);
      assert EncodeAddresses(addrs)[4..] == EncodeAddresses(addrs[1..]);
      SliceOfRest(EncodeAddresses(addrs), 4, 4 * (i - 1), 4 * (i - 1) + 4);
    }
  }

  /** The mask, then the attached routers. */
  lemma NetworkLayout(mask: u32, attached: seq<u32>)
    ensures var b := EncodeBody(NetworkBody(mask, attached));
            && |b| == 4 + 4 * |attached| && BigEndian(b, 0, 4) == mask
            && forall i :: 0 <= i < |attached| ==> BigEndian(b, 4 + 4 * i, 4) == attached[i]
  {
    hide BigEndian, Be32, EncodeAddresses;
    var b := EncodeBody(NetworkBody(mask, attached));
    assert b[0..4] == Be32(mask);
    Be32At(b, 0, mask);
    forall i | 0 <= i < |attached| ensures BigEndian(b, 4 + 4 * i, 4) == attached[i] {
      EncodedAddresses(attached, i);
      assert b[4..] == EncodeAddresses(attached);
      SliceOfRest(b, 4, 4 * i, 4 * i + 4);
      Be32At(b, 4 + 4 * i, attached[i]);
    }
  }

  /** The mask, a zero byte, the metric in 24 bits. */
  lemma SummaryLayout(mask: u32, metric: u32)
    requires metric < 0x100_0000
    ensures var b := EncodeBody(SummaryBody(mask, metric));
            |b| == 8 && BigEndian(b, 0, 4) == mask && b[4] == 0 && BigEndian(b, 5, 3) == metric
  {
    hide BigEndian, Be32;
    var b := EncodeBody(SummaryBody(mask, metric));
    assert b[0..4] == Be32(mask) && b[5..8] == Be32(metric)[1..];
    Be32At(b, 0, mask);
    Be24At(b, 5, metric);
  }

  /** The mask, the E bit on top of a byte, the metric in 24 bits, the forwarding address, the tag. */
  lemma ExternalLayout(mask: u32, type2: bool, metric: u32, fa: u32, tag: u32)
    requires metric < 0x100_0000
    ensures var b := EncodeBody(AsExternalBody(mask, type2, metric, fa, tag));
            && |b| == 16 && BigEndian(b, 0, 4) == mask && b[4] == (if type2 then 128 else 0) && BigEndian(b, 5, 3) == metric
            && BigEndian(b, 8, 4) == fa && BigEndian(b, 12, 4) == tag
  {
    hide BigEndian, Be32;
    var b := EncodeBody(AsExternalBody(mask, type2, metric, fa, tag));
    assert b[0..4] == Be32(mask) && b[5..8] == Be32(metric)[1..] && b[8..12] == Be32(fa) && b[12..16] == Be32(tag);
    Be32At(b, 0, mask);
    Be24At(b, 5, metric);
    Be32At(b, 8, fa);
    Be32At(b, 12, tag);
  }

  // ---------------------------------------------------------------- whole LSAs and updates

  /** The header up to its checksum field, two check bytes, the true length, then the body. */
  lemma LsaBytes(l: Lsa)
    requires EncodedFits(l)
    ensures var b := EncodeLsa(l);
            && |b| == 20 + |EncodeBody(l.body)|
            && b[..16] == EncodeHeader(l.header)[..16] && BigEndian(b, 18, 2) == |b| && b[20..] == EncodeBody(l.body)
  {
    hide EncodeBody, LsaChecksum, BigEndian, EncodeLsa, HeaderFront, Be16;
    EncodeLsaShape(l);
    SameFront(l.header, WireLength(l), LsaChecksum(l));
    var b := EncodeLsa(l);
    assert b[..16] == HeaderFront(l.header) == EncodeHeader(l.header)[..16];
    assert b[18..20] == Be16(WireLength(l));
    Be16At(b, 18, WireLength(l));
  }

  /** The number of LSAs in 32 bits, then the LSAs one after the other. */
  lemma LsuLayout(lsas: seq<Lsa>)
    requires AllFit(lsas)
    ensures var b := EncodeLsu(lsas);
            && |b| >= 4 && BigEndian(b, 0, 4) == |lsas| % 0x1_0000_0000 && b[4..] == EncodeLsas(lsas)
            && (lsas != [] ==> EncodeLsas(lsas) == EncodeLsa(lsas[0]) + EncodeLsas(lsas[1..]))
  {
    hide BigEndian, Be32, EncodeLsa;
    var b := EncodeLsu(lsas);
    assert b[0..4] == Be32(|lsas| % 0x1_0000_0000);
    Be32At(b, 0, |lsas| % 0x1_0000_0000);
  }
}
