/** The receive-side header validator: unwraps Ethernet, an optional 802.1Q
    tag, the PROFINET header and the DCP header of a received buffer, refusing
    the buffer at the first gate it fails with the reason for that gate. */
module Validator {
  import opened Bytes
  import opened Results
  import opened Layout

  /** One reason per rejection site of the validator. */
  datatype Reject =
    | EtherTruncated     // fewer octets than an Ethernet header
    | AddressMismatch    // destination neither the local address nor broadcast
    | VlanTruncated      // tagged, but the tag is cut off
    | VlanNotProfinet    // tagged, but the encapsulated ethertype is not PROFINET
    | EtherNotProfinet   // untagged, and the ethertype is not PROFINET
    | PnTruncated        // the PROFINET header is cut off
    | FrameIdMismatch    // a frame-id was asked for and this is another one
    | DcpTruncated       // the DCP header is cut off
    | DataLengthExceeds  // the declared DCP data length runs past the buffer

  /** What the validator hands back: where the DCP header starts in the
      buffer, and the header read from there. */
  datatype DcpView = DcpView(offset: nat, header: DcpHeader)

  /** True when the Ethernet header is present and announces an 802.1Q tag. */
  predicate IsTagged(buf: seq<uint8>)
  {
    |buf| >= ETH_HEADER_LEN && ReadBE16(buf, 12) == ETH_P_8021Q
  }

  /** Where the PROFINET header starts: after the Ethernet header, and after
      the tag when there is one. */
  function PnOffset(buf: seq<uint8>): nat
  {
    if IsTagged(buf) then ETH_HEADER_LEN + VLAN_HEADER_LEN else ETH_HEADER_LEN
  }

  /** The header validator. `ifAddr` is the local address, or `None` to accept
      any destination; `frameId` is the frame-id to insist on, 0 for any. The
      cursor advances past each header before the length gate for that header,
      so each gate demands the whole header. */
  function GetDcpHeader(buf: seq<uint8>, ifAddr: Option<MacAddress>, frameId: uint16)
    : (r: Result<DcpView, Reject>)
    // the first gate: the Ethernet header must be there
    ensures r == Err(EtherTruncated) <==> |buf| < ETH_HEADER_LEN
    // what an accepted buffer satisfies
    ensures r.Ok? ==> |buf| >= ETH_HEADER_LEN
    ensures r.Ok? && ifAddr.Some? ==> buf[0..6] == ifAddr.value || buf[0..6] == BROADCAST
    ensures r.Ok? ==> r.value.offset == (if IsTagged(buf) then 20 else 16)
    ensures r.Ok? ==> r.value.offset + DCP_HEADER_LEN + r.value.header.dataLength <= |buf|
    ensures r.Ok? ==> ReadBE16(buf, r.value.offset - 4) == ETH_P_PROFINET
    ensures r.Ok? && frameId != 0 ==> ReadBE16(buf, r.value.offset - 2) == frameId
    ensures r.Ok? ==> r.value.header == DecodeDcpHeader(buf[r.value.offset..r.value.offset + DCP_HEADER_LEN])
  {
    var ptr := ETH_HEADER_LEN;
    if |buf| < ptr then Err(EtherTruncated)
    else
      var eh := DecodeEthernetHeader(buf[0..ptr]);
      if ifAddr.Some? && eh.dst != ifAddr.value && eh.dst != BROADCAST then Err(AddressMismatch)
      else if eh.etherType == ETH_P_8021Q && |buf| < ptr + VLAN_HEADER_LEN then Err(VlanTruncated)
      else if eh.etherType == ETH_P_8021Q
              && DecodeVlanTag(buf[ptr..ptr + VLAN_HEADER_LEN]).encapsulatedProto != ETH_P_PROFINET
      then Err(VlanNotProfinet)
      else if eh.etherType != ETH_P_8021Q && eh.etherType != ETH_P_PROFINET then Err(EtherNotProfinet)
      else
        var pnAt := if eh.etherType == ETH_P_8021Q then ptr + VLAN_HEADER_LEN else ptr;
        ReadBE16Window(buf[0..ptr], 12, buf, 12);
        if |buf| < pnAt + PN_HEADER_LEN then Err(PnTruncated)
        else
          var pn := DecodePnHeader(buf[pnAt..pnAt + PN_HEADER_LEN]);
          ReadBE16Window(buf[pnAt..pnAt + PN_HEADER_LEN], 0, buf, pnAt);
          if frameId != 0 && pn.frameId != frameId then Err(FrameIdMismatch)
          else
            var dcpAt := pnAt + PN_HEADER_LEN;
            if |buf| < dcpAt + DCP_HEADER_LEN then Err(DcpTruncated)
            else
              var dcp := DecodeDcpHeader(buf[dcpAt..dcpAt + DCP_HEADER_LEN]);
              assert buf[dcpAt..dcpAt + DCP_HEADER_LEN][8..10] == buf[dcpAt + 8..dcpAt + 10];
              ReadBE16Window(buf[dcpAt..dcpAt + DCP_HEADER_LEN], 8, buf, dcpAt + 8);
              if dcp.dataLength > |buf| - (dcpAt + DCP_HEADER_LEN) then Err(DataLengthExceeds)
              else Ok(DcpView(dcpAt, dcp))
  }
}
