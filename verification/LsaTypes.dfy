/** The OSPFv2 LSA of src/packet/lsa.rs and the recency order of section 13.1 of RFC 2328. */
module LsaTypes {
  import opened Numbers

  const MAX_AGE: u16 := 3600
  const MAX_AGE_DIFF := 900
  const LSA_HEADER_LEN := 20
  const MAX_SEQUENCE_NUMBER: i32 := 0x7FFF_FFFF
  const INITIAL_SEQUENCE_NUMBER: i32 := -0x7FFF_FFFF

  datatype LsaType = Router | Network | SummaryNetwork | SummaryAsbr | AsExternal

  datatype LsaKey = LsaKey(lsType: LsaType, linkStateId: u32, advertisingRouter: u32)

  datatype LsaHeader = LsaHeader(
    lsAge: u16, options: u8, lsType: LsaType, linkStateId: u32, advertisingRouter: u32,
    lsSequenceNumber: i32, lsChecksum: u16, length: u16)
  {
    function Key(): LsaKey {
      LsaKey(lsType, linkStateId, advertisingRouter)
    }
  }

  datatype RouterLinkType = PointToPoint | TransitNetwork | StubNetwork | VirtualLink

  datatype RouterLink = RouterLink(linkId: u32, linkData: u32, linkType: RouterLinkType, numTos: u8, metric: u16)

  datatype LsaBody =
    | RouterBody(flags: u8, links: seq<RouterLink>)
    | NetworkBody(networkMask: u32, attachedRouters: seq<u32>)
    | SummaryBody(networkMask: u32, metric: u32)
    | AsExternalBody(networkMask: u32, metricType2: bool, metric: u32, forwardingAddress: u32, externalRouteTag: u32)
    | OpaqueBody(data: seq<u8>)

  datatype Lsa = Lsa(header: LsaHeader, body: LsaBody) {
    function Key(): LsaKey {
      header.Key()
    }
  }

  // ---------------------------------------------------------------- recency

  datatype Ordering = Less | Equal | Greater

  /** `LsaHeader::is_more_recent_than`. */
  function IsMoreRecentThan(a: LsaHeader, b: LsaHeader): Ordering {
    if a.lsSequenceNumber > b.lsSequenceNumber then Greater
    else if a.lsSequenceNumber < b.lsSequenceNumber then Less
    else if a.lsChecksum > b.lsChecksum then Greater
    else if a.lsChecksum < b.lsChecksum then Less
    else if a.lsAge == MAX_AGE && b.lsAge != MAX_AGE then Greater
    else if a.lsAge != MAX_AGE && b.lsAge == MAX_AGE then Less
    else if a.lsAge as int - b.lsAge as int > MAX_AGE_DIFF then Less
    else if b.lsAge as int - a.lsAge as int > MAX_AGE_DIFF then Greater
    else Equal
  }

  predicate Newer(a: LsaHeader, b: LsaHeader) {
    IsMoreRecentThan(a, b) == Greater
  }

  /** The (sequence number, checksum) rank that flooding must agree on. */
  predicate AtLeast(a: LsaHeader, b: LsaHeader) {
    || a.lsSequenceNumber > b.lsSequenceNumber
    || (a.lsSequenceNumber == b.lsSequenceNumber && a.lsChecksum >= b.lsChecksum)
  }

  predicate SameInstance(a: LsaHeader, b: LsaHeader) {
    a.lsSequenceNumber == b.lsSequenceNumber && a.lsChecksum == b.lsChecksum
  }

  /** Swapping the arguments reverses the verdict; being newer is transitive and refines the rank. */
  lemma RecencyIsStrictOrder(a: LsaHeader, b: LsaHeader, c: LsaHeader)
    ensures IsMoreRecentThan(a, b) == Less <==> IsMoreRecentThan(b, a) == Greater
    ensures Newer(a, b) && Newer(b, c) ==> Newer(a, c)
    ensures Newer(a, b) ==> AtLeast(a, b)
    ensures IsMoreRecentThan(a, b) == Equal ==> SameInstance(a, b)
    ensures SameInstance(a, b) ==>
              (Newer(a, b) <==> b.lsAge != MAX_AGE && (a.lsAge == MAX_AGE || b.lsAge > a.lsAge + 900))
  {
  }

  /** Equal is not transitive: ages 0, 900 and 1800 are pairwise one step apart but not two. */
  lemma EqualIsNotTransitive(a: LsaHeader)
    ensures var young := a.(lsAge := 0);
            var middle := a.(lsAge := 900);
            var aged := a.(lsAge := 1800);
            && IsMoreRecentThan(young, middle) == Equal
            && IsMoreRecentThan(middle, aged) == Equal
            && IsMoreRecentThan(young, aged) == Greater
  {
  }
}
