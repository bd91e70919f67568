/** The DCP Identify request builder: an Ethernet header addressed to the
    PROFINET identify multicast, the identify-request frame-id, a DCP header
    and a single All-Selector block. */
module Encoder {
  import opened Bytes
  import opened Layout

  /** The request frame, written field by field in the order the builder
      stores them. The frame-id and the xid are plain stores without a byte
      swap, so they are written in host order (little-endian host); the
      response delay and the data length go through `htons`. */
  function IdentRequest(src: MacAddress): (r: seq<uint8>)
    ensures |r| == ETH_HEADER_LEN + PN_HEADER_LEN + DCP_HEADER_LEN + BLOCK_HEADER_LEN == 30
    // the byte image on the wire
    ensures r == [0x01, 0x0e, 0xcf, 0x00, 0x00, 0x00] + src + [0x88, 0x92]
                 + [0xFE, 0xFE]
                 + [0x05, 0x00, 0x42, 0x42, 0x42, 0x42, 0x00, 0x80, 0x00, 0x04]
                 + [0xFF, 0xFF, 0x00, 0x00]
    // and what a network-order reader of each header sees
    ensures DecodeEthernetHeader(r[0..14]) == EthernetHeader(PN_MULTICAST, src, ETH_P_PROFINET)
    ensures DecodePnHeader(r[14..16]) == PnHeader(PN_FRAME_ID_DCP_REQUEST)
    ensures DecodeDcpHeader(r[16..26])
            == DcpHeader(SERVICE_ID_IDENTIFY, SERVICE_TYPE_REQUEST, DISCOVERY_XID, 128, 4)
    ensures DecodeBlockHeader(r[26..30])
            == BlockHeader(OPTION_ALL_SELECTOR, SUBOPTION_ALL_SELECTOR, 0)
  {
    var eth := EncodeEthernetHeader(EthernetHeader(PN_MULTICAST, src, ETH_P_PROFINET));
    var pn := WriteLE16(PN_FRAME_ID_DCP_REQUEST);
    var block := EncodeBlockHeader(BlockHeader(OPTION_ALL_SELECTOR, SUBOPTION_ALL_SELECTOR, 0));
    var dcp := [SERVICE_ID_IDENTIFY, SERVICE_TYPE_REQUEST] + WriteLE32(DISCOVERY_XID)
               + WriteBE16(128) + WriteBE16(|block| as uint16);
    var r := eth + pn + dcp + block;
    assert r[0..14] == eth && r[14..16] == pn && r[16..26] == dcp && r[26..30] == block;
    HostOrderStoresAreNetworkOrder();
    assert dcp == EncodeDcpHeader(DcpHeader(SERVICE_ID_IDENTIFY, SERVICE_TYPE_REQUEST, DISCOVERY_XID, 128, 4));
    r
  }

  /** The identify builder stores the frame-id and the xid without `htons` /
      `htonl`; the octets are nevertheless the network-order ones, because both
      constants read the same in either byte order. */
  lemma HostOrderStoresAreNetworkOrder()
    ensures WriteLE16(PN_FRAME_ID_DCP_REQUEST) == WriteBE16(PN_FRAME_ID_DCP_REQUEST)
    ensures WriteLE32(DISCOVERY_XID) == WriteBE32(DISCOVERY_XID)
  {
    assert WriteLE16(0xFEFE) == [0xFE, 0xFE] == WriteBE16(0xFEFE);
    assert WriteLE16(0x4242) == [0x42, 0x42] == WriteBE16(0x4242);
    assert DISCOVERY_XID % 0x1_0000 == 0x4242 && DISCOVERY_XID / 0x1_0000 == 0x4242;
  }
}
