/** Properties that connect the encoder, the validator and the block walker:
    what the validator makes of the Identify request, of a well-formed
    Identify response, and of a response whose declared length is too large,
    and the record decoded from a typical response. */
module Scenarios {
  import opened Bytes
  import opened Results
  import opened Layout
  import opened Encoder
  import opened Validator
  import opened ValidatorProofs
  import opened Blocks
  import opened BlockProofs

  /** The Identify request passes the validator when no local address filter
      is given: its DCP header sits at 16 and reads back as built, and its
      block area (the 4-octet All-Selector) changes no record. */
  lemma IdentRequestAcceptedUnfiltered(src: MacAddress, d: Descriptor)
    ensures GetDcpHeader(IdentRequest(src), None, PN_FRAME_ID_DCP_REQUEST)
            == Ok(DcpView(16, DcpHeader(SERVICE_ID_IDENTIFY, SERVICE_TYPE_REQUEST, DISCOVERY_XID, 128, 4)))
    ensures Walk(IdentRequest(src)[26..30], 0, d) == d
  {
    var r := IdentRequest(src);
    assert r[0..14][12..14] == r[12..14];
    ReadBE16Window(r[0..14], 12, r, 12);
    ReadBE16Window(r[14..16], 0, r, 14);
  }

  /** With the sender's own address as the filter the request is refused:
      the PROFINET multicast destination is neither local nor broadcast. */
  lemma IdentRequestRefusedFiltered(src: MacAddress, frameId: uint16)
    requires src != PN_MULTICAST
    ensures GetDcpHeader(IdentRequest(src), Some(src), frameId) == Err(AddressMismatch)
  {
    var r := IdentRequest(src);
    assert r[0..6] == PN_MULTICAST;
  }

  /** A well-formed untagged Identify response, as a device sends it. */
  function ResponseFrame(dst: MacAddress, src: MacAddress, xid: uint32, blocks: seq<uint8>): (f: seq<uint8>)
    requires |blocks| < 0x1_0000
    ensures |f| == 26 + |blocks|
  {
    EncodeEthernetHeader(EthernetHeader(dst, src, ETH_P_PROFINET))
    + EncodePnHeader(PnHeader(PN_FRAME_ID_DCP_RESPONSE))
    + EncodeDcpHeader(DcpHeader(SERVICE_ID_IDENTIFY, SERVICE_TYPE_RESPONSE_SUCCESS, xid, 0, |blocks| as uint16))
    + blocks
  }

  /** Encoding a response and validating it gives back its DCP header and
      exactly its blocks, with the receiver's own address as filter. */
  lemma ResponseRoundTrip(dst: MacAddress, src: MacAddress, xid: uint32, blocks: seq<uint8>)
    requires |blocks| < 0x1_0000
    ensures var f := ResponseFrame(dst, src, xid, blocks);
            var hdr := DcpHeader(SERVICE_ID_IDENTIFY, SERVICE_TYPE_RESPONSE_SUCCESS, xid, 0, |blocks| as uint16);
            && GetDcpHeader(f, Some(dst), PN_FRAME_ID_DCP_RESPONSE) == Ok(DcpView(16, hdr))
            && BlockArea(f, DcpView(16, hdr)) == blocks
  {
    var f := ResponseFrame(dst, src, xid, blocks);
    var eth := EncodeEthernetHeader(EthernetHeader(dst, src, ETH_P_PROFINET));
    var pn := EncodePnHeader(PnHeader(PN_FRAME_ID_DCP_RESPONSE));
    var hdr := DcpHeader(SERVICE_ID_IDENTIFY, SERVICE_TYPE_RESPONSE_SUCCESS, xid, 0, |blocks| as uint16);
    var dcp := EncodeDcpHeader(hdr);
    assert f[0..14] == eth && f[14..16] == pn && f[16..26] == dcp && f[26..] == blocks;
    ReadBE16Window(f, 12, eth, 12);
    ReadBE16Window(f, 14, pn, 0);
  }

  /** The same response carried in an 802.1Q tag is accepted with its DCP
      header four octets further on. */
  lemma TaggedResponseRoundTrip(dst: MacAddress, src: MacAddress, xid: uint32, blocks: seq<uint8>, tci: uint16)
    requires |blocks| < 0x1_0000
    ensures var hdr := DcpHeader(SERVICE_ID_IDENTIFY, SERVICE_TYPE_RESPONSE_SUCCESS, xid, 0, |blocks| as uint16);
            GetDcpHeader(Tag(ResponseFrame(dst, src, xid, blocks), tci), Some(dst), PN_FRAME_ID_DCP_RESPONSE)
            == Ok(DcpView(20, hdr))
  {
    var f := ResponseFrame(dst, src, xid, blocks);
    ResponseRoundTrip(dst, src, xid, blocks);
    VlanTransparency(f, tci, Some(dst), PN_FRAME_ID_DCP_RESPONSE);
  }

  /** `buf` with the DCP data-length field of the header at `at` set to `n`. */
  function WithDataLength(buf: seq<uint8>, at: nat, n: uint16): (r: seq<uint8>)
    requires at + DCP_HEADER_LEN <= |buf|
    ensures |r| == |buf|
  {
    buf[..at + 8] + WriteBE16(n) + buf[at + DCP_HEADER_LEN..]
  }

  /** Declared-length guard: an accepted frame whose DCP header is made to
      declare more octets than follow it is refused for exactly that reason,
      for every such length. */
  lemma {:induction false} DeclaredLengthGuard(buf: seq<uint8>, ifAddr: Option<MacAddress>,
                                               frameId: uint16, n: uint16)
    requires GetDcpHeader(buf, ifAddr, frameId).Ok?
    requires n > |buf| - (GetDcpHeader(buf, ifAddr, frameId).value.offset + DCP_HEADER_LEN)
    ensures GetDcpHeader(WithDataLength(buf, GetDcpHeader(buf, ifAddr, frameId).value.offset, n), ifAddr, frameId)
            == Err(DataLengthExceeds)
  {
    var v := GetDcpHeader(buf, ifAddr, frameId).value;
    var b := WithDataLength(buf, v.offset, n);
    assert b[..v.offset + 8] == buf[..v.offset + 8];
    SameWindows(buf, b, v.offset + 8);
    assert buf[0..14] == b[0..14];
    assert buf[12..14] == b[12..14];
    ReadBE16Window(buf, 12, b, 12);
    assert buf[14..18] == b[14..18];
    assert buf[v.offset - 2..v.offset] == b[v.offset - 2..v.offset];
    SliceOfSlice(b, v.offset, v.offset + DCP_HEADER_LEN, 8, 10);
    assert b[v.offset + 8..v.offset + 10] == WriteBE16(n);
    ReadBE16Window(b[v.offset..v.offset + DCP_HEADER_LEN], 8, WriteBE16(n), 0);
  }

  /** The blocks of a typical response: Device-Properties/Name "plc-01",
      Device-Properties/Id vendor 0x002A device 0x0101, and Address/IP
      10.0.0.5 mask 255.255.255.0 gateway 10.0.0.1. */
  const PLC_NAME: seq<uint8> := [0x70, 0x6c, 0x63, 0x2d, 0x30, 0x31]
  const NAME_BLOCK: seq<uint8> := [2, 2, 0, 8, 0, 0] + PLC_NAME
  const ID_BLOCK: seq<uint8> := [2, 3, 0, 6, 0, 0, 0x00, 0x2A, 0x01, 0x01]
  const IP_BLOCK: seq<uint8> := [1, 2, 0, 14, 0, 0, 10, 0, 0, 5, 255, 255, 255, 0, 10, 0, 0, 1]
  const SAMPLE_BLOCKS: seq<uint8> := NAME_BLOCK + ID_BLOCK + IP_BLOCK

  /** A window of `s` that holds `w` octet for octet is `w`. */
  lemma WindowIs(s: seq<uint8>, lo: nat, w: seq<uint8>)
    requires lo + |w| <= |s|
    requires forall i :: 0 <= i < |w| ==> s[lo + i] == w[i]
    ensures s[lo..lo + |w|] == w
  {
  }

  /** The record the sample blocks describe. */
  function SampleDescriptor(): Descriptor
  {
    ZeroDescriptor().(stationName := PLC_NAME + seq(58, i => 0),
                      idVendor := 0x002A, idDevice := 0x0101,
                      ipAddr := [10, 0, 0, 5], ipMask := [255, 255, 255, 0], ipGateway := [10, 0, 0, 1])
  }

  lemma SampleNameStep()
    ensures BlockAt(SAMPLE_BLOCKS, 0) == BlockHeader(2, 2, 8) && NextBlock(SAMPLE_BLOCKS, 0) == 12
    ensures ApplyBlock(SAMPLE_BLOCKS, 0, ZeroDescriptor())
            == ZeroDescriptor().(stationName := PLC_NAME + seq(58, i => 0))
  {
    var a := SAMPLE_BLOCKS;
    var z := ZeroDescriptor();
    assert a[..12] == NAME_BLOCK;
    WindowIs(a, 0, [2, 2, 0, 8]);
    assert BlockAt(a, 0) == BlockHeader(2, 2, 8);
    WindowIs(a, 6, PLC_NAME);
    NameBlockCopiesPrefix(a, 0, z);
    var name := ApplyBlock(a, 0, z).stationName;
    assert name[..6] == PLC_NAME && name[6..] == z.stationName[6..];
    assert z.stationName[6..] == seq(58, i => 0);
    assert name == name[..6] + name[6..];
  }

  lemma SampleIdStep(d: Descriptor)
    ensures BlockAt(SAMPLE_BLOCKS, 12) == BlockHeader(2, 3, 6) && NextBlock(SAMPLE_BLOCKS, 12) == 22
    ensures ApplyBlock(SAMPLE_BLOCKS, 12, d) == d.(idVendor := 0x002A, idDevice := 0x0101)
  {
    var a := SAMPLE_BLOCKS;
    assert a[12..22] == ID_BLOCK;
    WindowIs(a, 12, [2, 3, 0, 6]);
  }

  lemma SampleIpStep(d: Descriptor)
    ensures BlockAt(SAMPLE_BLOCKS, 22) == BlockHeader(1, 2, 14) && NextBlock(SAMPLE_BLOCKS, 22) == 40
    ensures ApplyBlock(SAMPLE_BLOCKS, 22, d)
            == d.(ipInfo := 0, ipAddr := [10, 0, 0, 5], ipMask := [255, 255, 255, 0], ipGateway := [10, 0, 0, 1])
  {
    var a := SAMPLE_BLOCKS;
    assert a[22..] == IP_BLOCK;
    WindowIs(a, 22, [1, 2, 0, 14]);
    WindowIs(a, 28, [10, 0, 0, 5]);
    WindowIs(a, 32, [255, 255, 255, 0]);
    WindowIs(a, 36, [10, 0, 0, 1]);
  }

  /** Walking the sample blocks into a zeroed record gives the sample record. */
  lemma SampleBlocksWalk()
    ensures Walk(SAMPLE_BLOCKS, 0, ZeroDescriptor()) == SampleDescriptor()
  {
    var a := SAMPLE_BLOCKS;
    var z := ZeroDescriptor();
    assert |a| == 40;
    SampleNameStep();
    var d1 := ApplyBlock(a, 0, z);
    SampleIdStep(d1);
    var d2 := ApplyBlock(a, 12, d1);
    SampleIpStep(d2);
    var d3 := ApplyBlock(a, 22, d2);
    assert d3 == SampleDescriptor();
    assert Walk(a, 40, d3) == d3;
    assert Walk(a, 22, d2) == Walk(a, 40, d3);
    assert Walk(a, 12, d1) == Walk(a, 22, d2);
  }

  /** End to end: that response is accepted, and walking its blocks into a
      zeroed record yields exactly those fields, every other field zero. */
  lemma SampleResponseDecodes(dst: MacAddress, src: MacAddress, xid: uint32)
    ensures var f := ResponseFrame(dst, src, xid, SAMPLE_BLOCKS);
            var r := GetDcpHeader(f, Some(dst), PN_FRAME_ID_DCP_RESPONSE);
            && r.Ok?
            && var d := Walk(BlockArea(f, r.value), 0, ZeroDescriptor());
               && d.stationName == PLC_NAME + seq(58, i => 0)
               && d.vendorValue == ZeroDescriptor().vendorValue
               && d.idVendor == 0x002A && d.idDevice == 0x0101 && d.role == 0
               && d.ipInfo == 0
               && d.ipAddr == [10, 0, 0, 5] && d.ipMask == [255, 255, 255, 0] && d.ipGateway == [10, 0, 0, 1]
  {
    ResponseRoundTrip(dst, src, xid, SAMPLE_BLOCKS);
    SampleBlocksWalk();
  }
}
