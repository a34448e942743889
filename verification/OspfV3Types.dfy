/** Types of the OSPFv3 instance shared by its parts (src/instance_v3.rs, src/packet_v3/lsa.rs). */
module OspfV3Types {
  import opened Numbers

  const UNSPECIFIED: u32 := 0

  datatype NeighborStateV3 = Down | Init | TwoWay | ExStart | Exchange | Loading | Full {
    function Rank(): nat {
      match this
      case Down => 0
      case Init => 1
      case TwoWay => 2
      case ExStart => 3
      case Exchange => 4
      case Loading => 5
      case Full => 6
    }

    predicate AtLeast(other: NeighborStateV3) {
      Rank() >= other.Rank()
    }
  }

  datatype LsaV3Type =
    | Router | Network | InterAreaPrefix | InterAreaRouter | AsExternal | Nssa | Link | IntraAreaPrefix

  datatype LsaV3Header = LsaV3Header(
    lsAge: u16, lsType: LsaV3Type, linkStateId: u32, advertisingRouter: u32,
    lsSequenceNumber: i32, lsChecksum: u16, length: u16)
  {
    /** Same LSA, possibly another instance of it. */
    predicate SameLsa(other: LsaV3Header) {
      lsType == other.lsType && linkStateId == other.linkStateId && advertisingRouter == other.advertisingRouter
    }
  }
}
