/** The packed wire layouts and constants of the DCP codec: Ethernet, 802.1Q
    tag, PROFINET and DCP headers, the DCP block header and the bodies of the
    blocks the identify parser understands, and the identify-response record.
    Every header is given as a decoder over a window of exactly its size and an
    encoder, and the two are proved inverse in both directions. */
module Layout {
  import opened Bytes

  /** A 6-octet link-layer address. */
  type MacAddress = s: seq<uint8> | |s| == 6 witness [0, 0, 0, 0, 0, 0]

  /** The all-ones broadcast address. */
  const BROADCAST: MacAddress := [0xff, 0xff, 0xff, 0xff, 0xff, 0xff]
  /** The PROFINET DCP identify multicast address. */
  const PN_MULTICAST: MacAddress := [0x01, 0x0e, 0xcf, 0x00, 0x00, 0x00]

  const ETH_P_PROFINET: uint16 := 0x8892
  const ETH_P_8021Q: uint16 := 0x8100

  const PN_FRAME_ID_DCP_HELLO: uint16 := 0xFEFC
  const PN_FRAME_ID_DCP_GETSET: uint16 := 0xFEFD
  const PN_FRAME_ID_DCP_REQUEST: uint16 := 0xFEFE
  const PN_FRAME_ID_DCP_RESPONSE: uint16 := 0xFEFF

  const DISCOVERY_XID: uint32 := 0x4242_4242
  const FLASHLED_XID: uint32 := 0x2424_2424

  const SERVICE_ID_GET: uint8 := 3
  const SERVICE_ID_SET: uint8 := 4
  const SERVICE_ID_IDENTIFY: uint8 := 5
  const SERVICE_TYPE_REQUEST: uint8 := 0
  const SERVICE_TYPE_RESPONSE_SUCCESS: uint8 := 1
  const SERVICE_TYPE_RESPONSE_UNSUPPORTED: uint8 := 5

  const OPTION_ADDR: uint8 := 1
  const OPTION_DEV_PROPS: uint8 := 2
  const OPTION_DHCP: uint8 := 3
  const OPTION_LLDP: uint8 := 4
  const OPTION_CONTROL: uint8 := 5
  const OPTION_ALL_SELECTOR: uint8 := 255

  const SUBOPTION_ADDR_MAC: uint8 := 1
  const SUBOPTION_ADDR_IP: uint8 := 2
  const SUBOPTION_DEV_PROPS_CUSTOM: uint8 := 1
  const SUBOPTION_DEV_PROPS_NAME: uint8 := 2
  const SUBOPTION_DEV_PROPS_ID: uint8 := 3
  const SUBOPTION_DEV_PROPS_ROLE: uint8 := 4
  const SUBOPTION_ALL_SELECTOR: uint8 := 255

  /** Header sizes (the `sizeof` of the packed structs). */
  const ETH_HEADER_LEN: nat := 14
  const VLAN_HEADER_LEN: nat := 4
  const PN_HEADER_LEN: nat := 2
  const DCP_HEADER_LEN: nat := 10
  const BLOCK_HEADER_LEN: nat := 4

  /** Offsets of the block body fields, counted from the start of the block
      header, and the full sizes of the fixed-size blocks. */
  const BLOCK_INFO_AT: nat := 4
  const TEXT_AT: nat := 6
  const ID_VENDOR_AT: nat := 6
  const ID_DEVICE_AT: nat := 8
  const ID_BLOCK_LEN: nat := 10
  const ROLE_AT: nat := 6
  const ROLE_BLOCK_LEN: nat := 8
  const IP_ADDR_AT: nat := 6
  const IP_MASK_AT: nat := 10
  const IP_GATEWAY_AT: nat := 14
  const IP_BLOCK_LEN: nat := 18

  /** Capacity of the station-name and vendor-value fields of the record. */
  const TEXT_FIELD_LEN: nat := 64

  // --- Ethernet ---

  datatype EthernetHeader = EthernetHeader(dst: MacAddress, src: MacAddress, etherType: uint16)

  /** The destination, the source and the network-order ethertype, in the
      order of `struct ether_header`. */
  function DecodeEthernetHeader(w: seq<uint8>): (h: EthernetHeader)
    requires |w| == ETH_HEADER_LEN
    ensures h.dst == w[0..6] && h.src == w[6..12]
    ensures WriteBE16(h.etherType) == w[12..14]
  {
    ReadWriteBE16(w, 12);
    EthernetHeader(w[0..6], w[6..12], ReadBE16(w, 12))
  }

  function EncodeEthernetHeader(h: EthernetHeader): (w: seq<uint8>)
    ensures |w| == ETH_HEADER_LEN
    ensures DecodeEthernetHeader(w) == h
  {
    var w := h.dst + h.src + WriteBE16(h.etherType);
    assert w[12..14] == WriteBE16(h.etherType);
    ReadBE16Window(w, 12, WriteBE16(h.etherType), 0);
    w
  }

  /** Every 14-octet window is the encoding of the header decoded from it. */
  lemma EthernetHeaderBijective(w: seq<uint8>)
    requires |w| == ETH_HEADER_LEN
    ensures EncodeEthernetHeader(DecodeEthernetHeader(w)) == w
  {
    ReadWriteBE16(w, 12);
    assert w == w[0..6] + w[6..12] + w[12..14];
  }

  // --- 802.1Q tag ---

  datatype VlanTag = VlanTag(tci: uint16, encapsulatedProto: uint16)

  /** The network-order TCI, then the encapsulated ethertype. */
  function DecodeVlanTag(w: seq<uint8>): (t: VlanTag)
    requires |w| == VLAN_HEADER_LEN
    ensures WriteBE16(t.tci) == w[0..2]
    ensures WriteBE16(t.encapsulatedProto) == w[2..4]
  {
    ReadWriteBE16(w, 0);
    ReadWriteBE16(w, 2);
    VlanTag(ReadBE16(w, 0), ReadBE16(w, 2))
  }

  function EncodeVlanTag(t: VlanTag): (w: seq<uint8>)
    ensures |w| == VLAN_HEADER_LEN
    ensures DecodeVlanTag(w) == t
  {
    var w := WriteBE16(t.tci) + WriteBE16(t.encapsulatedProto);
    ReadBE16Window(w, 0, WriteBE16(t.tci), 0);
    ReadBE16Window(w, 2, WriteBE16(t.encapsulatedProto), 0);
    w
  }

  lemma VlanTagBijective(w: seq<uint8>)
    requires |w| == VLAN_HEADER_LEN
    ensures EncodeVlanTag(DecodeVlanTag(w)) == w
  {
    ReadWriteBE16(w, 0);
    ReadWriteBE16(w, 2);
    assert w == w[0..2] + w[2..4];
  }

  // --- PROFINET ---

  datatype PnHeader = PnHeader(frameId: uint16)

  /** The network-order frame-id. */
  function DecodePnHeader(w: seq<uint8>): (h: PnHeader)
    requires |w| == PN_HEADER_LEN
    ensures WriteBE16(h.frameId) == w
  {
    ReadWriteBE16(w, 0);
    PnHeader(ReadBE16(w, 0))
  }

  function EncodePnHeader(h: PnHeader): (w: seq<uint8>)
    ensures |w| == PN_HEADER_LEN
    ensures DecodePnHeader(w) == h
  {
    WriteBE16(h.frameId)
  }

  lemma PnHeaderBijective(w: seq<uint8>)
    requires |w| == PN_HEADER_LEN
    ensures EncodePnHeader(DecodePnHeader(w)) == w
  {
    ReadWriteBE16(w, 0);
  }

  // --- PROFINET DCP ---

  datatype DcpHeader = DcpHeader(serviceId: uint8, serviceType: uint8, xid: uint32,
                                 responseDelay: uint16, dataLength: uint16)

  /** Service id, service type, then the network-order xid, response delay
      and data length. */
  function DecodeDcpHeader(w: seq<uint8>): (h: DcpHeader)
    requires |w| == DCP_HEADER_LEN
    ensures h.serviceId == w[0] && h.serviceType == w[1]
    ensures WriteBE32(h.xid) == w[2..6]
    ensures WriteBE16(h.responseDelay) == w[6..8]
    ensures WriteBE16(h.dataLength) == w[8..10]
  {
    ReadWriteBE32(w, 2);
    ReadWriteBE16(w, 6);
    ReadWriteBE16(w, 8);
    DcpHeader(w[0], w[1], ReadBE32(w, 2), ReadBE16(w, 6), ReadBE16(w, 8))
  }

  function EncodeDcpHeader(h: DcpHeader): (w: seq<uint8>)
    ensures |w| == DCP_HEADER_LEN
    ensures DecodeDcpHeader(w) == h
  {
    var x := WriteBE32(h.xid);
    var d := WriteBE16(h.responseDelay);
    var n := WriteBE16(h.dataLength);
    var w := [h.serviceId, h.serviceType] + x + d + n;
    assert w[2..6] == x && w[6..8] == d && w[8..10] == n;
    ReadBE16Window(w, 2, x, 0);
    ReadBE16Window(w, 4, x, 2);
    ReadBE16Window(w, 6, d, 0);
    ReadBE16Window(w, 8, n, 0);
    w
  }

  lemma DcpHeaderBijective(w: seq<uint8>)
    requires |w| == DCP_HEADER_LEN
    ensures EncodeDcpHeader(DecodeDcpHeader(w)) == w
  {
    ReadWriteBE32(w, 2);
    ReadWriteBE16(w, 6);
    ReadWriteBE16(w, 8);
    assert w == [w[0], w[1]] + w[2..6] + w[6..8] + w[8..10];
  }

  // --- DCP block header ---

  datatype BlockHeader = BlockHeader(option: uint8, suboption: uint8, blockLength: uint16)

  /** Option, suboption, then the network-order block length. */
  function DecodeBlockHeader(w: seq<uint8>): (h: BlockHeader)
    requires |w| == BLOCK_HEADER_LEN
    ensures h.option == w[0] && h.suboption == w[1]
    ensures WriteBE16(h.blockLength) == w[2..4]
  {
    ReadWriteBE16(w, 2);
    BlockHeader(w[0], w[1], ReadBE16(w, 2))
  }

  function EncodeBlockHeader(h: BlockHeader): (w: seq<uint8>)
    ensures |w| == BLOCK_HEADER_LEN
    ensures DecodeBlockHeader(w) == h
  {
    var n := WriteBE16(h.blockLength);
    var w := [h.option, h.suboption] + n;
    ReadBE16Window(w, 2, n, 0);
    w
  }

  lemma BlockHeaderBijective(w: seq<uint8>)
    requires |w| == BLOCK_HEADER_LEN
    ensures EncodeBlockHeader(DecodeBlockHeader(w)) == w
  {
    ReadWriteBE16(w, 2);
    assert w == [w[0], w[1]] + w[2..4];
  }

  // --- Identify response record ---

  /** A fixed-capacity text field of the record (a `char[64]`). */
  type TextField = s: seq<uint8> | |s| == TEXT_FIELD_LEN witness seq(64, i => 0)
  /** A 4-octet IPv4 field of the record. */
  type Ipv4 = s: seq<uint8> | |s| == 4 witness [0, 0, 0, 0]

  /** The identify-response record the block parser fills in. */
  datatype Descriptor = Descriptor(
    vendorValue: TextField,
    stationName: TextField,
    idVendor: uint16,
    idDevice: uint16,
    role: uint8,
    ipInfo: uint16,
    ipAddr: Ipv4,
    ipMask: Ipv4,
    ipGateway: Ipv4)

  /** The record as the caller initialises it before parsing: all zero. */
  function ZeroDescriptor(): (d: Descriptor)
    ensures forall i :: 0 <= i < TEXT_FIELD_LEN ==> d.stationName[i] == 0 && d.vendorValue[i] == 0
    ensures d.idVendor == 0 && d.idDevice == 0 && d.role == 0 && d.ipInfo == 0
    ensures d.ipAddr == d.ipMask == d.ipGateway == [0, 0, 0, 0]
  {
    Descriptor(seq(64, i => 0), seq(64, i => 0), 0, 0, 0, 0, [0, 0, 0, 0], [0, 0, 0, 0], [0, 0, 0, 0])
  }
}
