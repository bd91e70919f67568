/** Properties of the header validator that relate several calls: address
    filtering, 802.1Q transparency, the verdict on every prefix of an
    accepted frame, and indifference to trailing padding. */
module ValidatorProofs {
  import opened Bytes
  import opened Results
  import opened Layout
  import opened Validator

  /** The destination gate: no local address was given, or the frame is
      addressed to it or to broadcast. */
  predicate AddressAccepted(buf: seq<uint8>, ifAddr: Option<MacAddress>)
    requires |buf| >= ETH_HEADER_LEN
  {
    ifAddr.None? || buf[0..6] == ifAddr.value || buf[0..6] == BROADCAST
  }

  /** The ethertype gates: PROFINET directly, or an 802.1Q tag that is all
      there and encapsulates PROFINET. */
  predicate EtherTypeAccepted(buf: seq<uint8>)
    requires |buf| >= ETH_HEADER_LEN
  {
    if IsTagged(buf) then |buf| >= ETH_HEADER_LEN + VLAN_HEADER_LEN && ReadBE16(buf, 16) == ETH_P_PROFINET
    else ReadBE16(buf, 12) == ETH_P_PROFINET
  }

  /** The frame-id gate: any frame-id was asked for, or this one. */
  predicate FrameIdAccepted(buf: seq<uint8>, frameId: uint16)
    requires PnOffset(buf) + PN_HEADER_LEN <= |buf|
  {
    frameId == 0 || ReadBE16(buf, PnOffset(buf)) == frameId
  }

  /** What each rejection reason says about the buffer: the condition its
      gate tests failed, after every earlier gate passed. */
  lemma RejectionMeaning(buf: seq<uint8>, ifAddr: Option<MacAddress>, frameId: uint16)
    ensures GetDcpHeader(buf, ifAddr, frameId) == Err(AddressMismatch) ==>
              |buf| >= ETH_HEADER_LEN && ifAddr.Some? && !AddressAccepted(buf, ifAddr)
    ensures GetDcpHeader(buf, ifAddr, frameId) == Err(VlanTruncated) ==>
              IsTagged(buf) && AddressAccepted(buf, ifAddr) && |buf| < ETH_HEADER_LEN + VLAN_HEADER_LEN
    ensures GetDcpHeader(buf, ifAddr, frameId) == Err(VlanNotProfinet) ==>
              IsTagged(buf) && AddressAccepted(buf, ifAddr)
              && |buf| >= ETH_HEADER_LEN + VLAN_HEADER_LEN && ReadBE16(buf, 16) != ETH_P_PROFINET
    ensures GetDcpHeader(buf, ifAddr, frameId) == Err(EtherNotProfinet) ==>
              |buf| >= ETH_HEADER_LEN && AddressAccepted(buf, ifAddr)
              && ReadBE16(buf, 12) !in {ETH_P_8021Q, ETH_P_PROFINET}
    ensures GetDcpHeader(buf, ifAddr, frameId) == Err(PnTruncated) ==>
              |buf| >= ETH_HEADER_LEN && AddressAccepted(buf, ifAddr) && EtherTypeAccepted(buf)
              && |buf| < PnOffset(buf) + PN_HEADER_LEN
    ensures GetDcpHeader(buf, ifAddr, frameId) == Err(FrameIdMismatch) ==>
              |buf| >= ETH_HEADER_LEN && AddressAccepted(buf, ifAddr) && EtherTypeAccepted(buf)
              && PnOffset(buf) + PN_HEADER_LEN <= |buf| && !FrameIdAccepted(buf, frameId)
    ensures GetDcpHeader(buf, ifAddr, frameId) == Err(DcpTruncated) ==>
              |buf| >= ETH_HEADER_LEN && AddressAccepted(buf, ifAddr) && EtherTypeAccepted(buf)
              && PnOffset(buf) + PN_HEADER_LEN <= |buf| && FrameIdAccepted(buf, frameId)
              && |buf| < PnOffset(buf) + PN_HEADER_LEN + DCP_HEADER_LEN
    ensures GetDcpHeader(buf, ifAddr, frameId) == Err(DataLengthExceeds) ==>
              var at := PnOffset(buf) + PN_HEADER_LEN;
              && |buf| >= ETH_HEADER_LEN && AddressAccepted(buf, ifAddr) && EtherTypeAccepted(buf)
              && at + DCP_HEADER_LEN <= |buf| && FrameIdAccepted(buf, frameId)
              && ReadBE16(buf, at + 8) > |buf| - (at + DCP_HEADER_LEN)
  {
  }

  /** With a local address, exactly the frames addressed neither to it nor to
      broadcast are refused for their address; without one, none is. */
  lemma AddressFilter(buf: seq<uint8>, ifAddr: Option<MacAddress>, frameId: uint16)
    requires |buf| >= ETH_HEADER_LEN
    ensures GetDcpHeader(buf, ifAddr, frameId) == Err(AddressMismatch)
            <==> ifAddr.Some? && buf[0..6] != ifAddr.value && buf[0..6] != BROADCAST
  {
  }

  /** The PROFINET identify multicast is not among the accepted destinations. */
  lemma MulticastRefusedUnderFilter(buf: seq<uint8>, local: MacAddress, frameId: uint16)
    requires |buf| >= ETH_HEADER_LEN && buf[0..6] == PN_MULTICAST && local != PN_MULTICAST
    ensures GetDcpHeader(buf, Some(local), frameId) == Err(AddressMismatch)
  {
  }

  /** `frame` with an 802.1Q tag carrying `tci` inserted after the two addresses. */
  function Tag(frame: seq<uint8>, tci: uint16): (t: seq<uint8>)
    requires |frame| >= ETH_HEADER_LEN
    ensures |t| == |frame| + VLAN_HEADER_LEN
    ensures t[0..12] == frame[0..12]
    ensures DecodeVlanTag(t[14..18]) == VlanTag(tci, ReadBE16(frame, 12))
    ensures IsTagged(t)
  {
    var t := frame[..12] + WriteBE16(ETH_P_8021Q) + WriteBE16(tci) + frame[12..];
    assert t[12..14] == WriteBE16(ETH_P_8021Q);
    ReadBE16Window(t, 12, WriteBE16(ETH_P_8021Q), 0);
    assert t[14..18][0..2] == WriteBE16(tci);
    ReadBE16Window(t[14..18], 0, WriteBE16(tci), 0);
    assert t[16] == frame[12] && t[17] == frame[13];
    assert t[14..18][2..4] == frame[12..14];
    ReadBE16Window(t[14..18], 2, frame, 12);
    t
  }

  /** Past the Ethernet addresses the tagged frame is the untagged one moved
      four octets on. */
  lemma TagShift(frame: seq<uint8>, tci: uint16, a: nat, b: nat)
    requires |frame| >= ETH_HEADER_LEN && 12 <= a <= b <= |frame|
    ensures Tag(frame, tci)[a + 4..b + 4] == frame[a..b]
  {
    var t := Tag(frame, tci);
    assert t == frame[..12] + WriteBE16(ETH_P_8021Q) + WriteBE16(tci) + frame[12..];
    forall i | 0 <= i < b - a
      ensures t[a + 4..b + 4][i] == frame[a..b][i]
    {
      assert t[a + 4 + i] == frame[12..][a + i - 12];
    }
  }

  /** What tagging does to a verdict: an accepted header moves four octets on,
      an untagged ethertype mismatch becomes an encapsulated one, and every
      other verdict stays. */
  function Retagged(r: Result<DcpView, Reject>): Result<DcpView, Reject>
  {
    match r
    case Ok(v) => Ok(v.(offset := v.offset + VLAN_HEADER_LEN))
    case Err(EtherNotProfinet) => Err(VlanNotProfinet)
    case Err(e) => Err(e)
  }

  /** 802.1Q transparency: tagging an untagged frame changes its verdict only
      by moving the header and renaming the ethertype mismatch. */
  lemma {:induction false} VlanTransparency(frame: seq<uint8>, tci: uint16,
                                            ifAddr: Option<MacAddress>, frameId: uint16)
    requires |frame| >= ETH_HEADER_LEN && !IsTagged(frame)
    ensures GetDcpHeader(Tag(frame, tci), ifAddr, frameId) == Retagged(GetDcpHeader(frame, ifAddr, frameId))
  {
    var t := Tag(frame, tci);
    assert t[0..14][0..6] == frame[0..14][0..6];
    assert DecodeVlanTag(t[14..18]).encapsulatedProto == DecodeEthernetHeader(frame[0..14]).etherType;
    if |frame| >= 16 {
      TagShift(frame, tci, 14, 16);
    }
    if |frame| >= 26 {
      TagShift(frame, tci, 16, 26);
    }
  }

  /** Two buffers hold the same octets in every window below `n`. */
  lemma SameWindows(b: seq<uint8>, c: seq<uint8>, n: nat)
    requires n <= |b| && n <= |c| && b[..n] == c[..n]
    ensures forall i, j :: 0 <= i <= j <= n ==> b[i..j] == c[i..j]
  {
    forall i, j | 0 <= i <= j <= n
      ensures b[i..j] == c[i..j]
    {
      assert b[i..j] == b[..n][i..j];
      assert c[i..j] == c[..n][i..j];
    }
  }

  /** The verdict on an accepted buffer depends only on its first
      `offset + 10 + data-length` octets: every buffer that starts with them
      is accepted with the same header, whatever follows (Ethernet padding). */
  lemma {:induction false} AcceptanceIsLocal(buf: seq<uint8>, other: seq<uint8>,
                                             ifAddr: Option<MacAddress>, frameId: uint16)
    requires GetDcpHeader(buf, ifAddr, frameId).Ok?
    requires var v := GetDcpHeader(buf, ifAddr, frameId).value;
             var end := v.offset + DCP_HEADER_LEN + v.header.dataLength;
             end <= |other| && other[..end] == buf[..end]
    ensures GetDcpHeader(other, ifAddr, frameId) == GetDcpHeader(buf, ifAddr, frameId)
  {
    var v := GetDcpHeader(buf, ifAddr, frameId).value;
    var end := v.offset + DCP_HEADER_LEN + v.header.dataLength;
    SameWindows(buf, other, end);
    assert buf[0..14] == other[0..14];
    assert buf[12..14] == other[12..14];
    ReadBE16Window(buf, 12, other, 12);
    assert buf[14..18] == other[14..18];
    assert buf[v.offset..v.offset + DCP_HEADER_LEN] == other[v.offset..v.offset + DCP_HEADER_LEN];
    assert buf[v.offset - 2..v.offset] == other[v.offset - 2..v.offset];
  }

  /** Padding a frame never changes its acceptance. */
  lemma PaddingIgnored(buf: seq<uint8>, pad: seq<uint8>, ifAddr: Option<MacAddress>, frameId: uint16)
    requires GetDcpHeader(buf, ifAddr, frameId).Ok?
    ensures GetDcpHeader(buf + pad, ifAddr, frameId) == GetDcpHeader(buf, ifAddr, frameId)
  {
    var v := GetDcpHeader(buf, ifAddr, frameId).value;
    var end := v.offset + DCP_HEADER_LEN + v.header.dataLength;
    assert (buf + pad)[..end] == buf[..end];
    AcceptanceIsLocal(buf, buf + pad, ifAddr, frameId);
  }

  /** Truncation safety: cutting an accepted frame to `k` octets is refused
      exactly at the first header the cut reaches, and a cut inside the block
      area is refused by the declared-length gate. */
  lemma {:induction false} PrefixVerdict(frame: seq<uint8>, ifAddr: Option<MacAddress>,
                                         frameId: uint16, k: nat)
    requires GetDcpHeader(frame, ifAddr, frameId).Ok?
    requires k <= |frame|
    ensures var v := GetDcpHeader(frame, ifAddr, frameId).value;
            var r := GetDcpHeader(frame[..k], ifAddr, frameId);
            && (k < ETH_HEADER_LEN ==> r == Err(EtherTruncated))
            && (IsTagged(frame) && ETH_HEADER_LEN <= k < ETH_HEADER_LEN + VLAN_HEADER_LEN
                ==> r == Err(VlanTruncated))
            && (v.offset - PN_HEADER_LEN <= k < v.offset ==> r == Err(PnTruncated))
            && (v.offset <= k < v.offset + DCP_HEADER_LEN ==> r == Err(DcpTruncated))
            && (v.offset + DCP_HEADER_LEN <= k < v.offset + DCP_HEADER_LEN + v.header.dataLength
                ==> r == Err(DataLengthExceeds))
            && (v.offset + DCP_HEADER_LEN + v.header.dataLength <= k ==> r == Ok(v))
  {
    var v := GetDcpHeader(frame, ifAddr, frameId).value;
    var p := frame[..k];
    if k >= ETH_HEADER_LEN {
      SameWindows(frame, p, k);
      assert frame[0..14] == p[0..14];
      assert frame[12..14] == p[12..14];
      ReadBE16Window(frame, 12, p, 12);
      if k >= 18 {
        assert frame[14..18] == p[14..18];
      }
      if k >= v.offset {
        assert frame[v.offset - 2..v.offset] == p[v.offset - 2..v.offset];
      }
      if k >= v.offset + DCP_HEADER_LEN {
        assert frame[v.offset..v.offset + DCP_HEADER_LEN] == p[v.offset..v.offset + DCP_HEADER_LEN];
      }
      if v.offset + DCP_HEADER_LEN + v.header.dataLength <= k {
        var end := v.offset + DCP_HEADER_LEN + v.header.dataLength;
        assert p[..end] == frame[..end];
        AcceptanceIsLocal(frame, p, ifAddr, frameId);
      }
    }
  }
}
