/** The block walker as the loop the C code runs: a cursor `consumed` over the
    DCP data that follows the header, reading each block in place from the
    received buffer. It is proved to compute the functional walk. */
module Parser {
  import opened Bytes
  import opened Layout
  import opened Validator
  import opened Blocks
  import opened BlockProofs

  /** The `blockLen - 2` text octets a Custom or Name block carries, taken
      in place from 6 octets into the block. */
  method TextInPlace(buf: seq<uint8>, base: nat, dcpDataLen: nat, consumed: nat, blockLen: nat)
    returns (text: seq<uint8>)
    requires base + dcpDataLen <= |buf| && 2 <= blockLen && consumed + BLOCK_HEADER_LEN + blockLen <= dcpDataLen
    ensures text == buf[base..base + dcpDataLen][consumed + TEXT_AT..consumed + BLOCK_HEADER_LEN + blockLen]
    ensures |text| == blockLen - 2
  {
    var at := base + consumed;
    SliceOfSlice(buf, base, base + dcpDataLen, consumed + TEXT_AT, consumed + BLOCK_HEADER_LEN + blockLen);
    text := buf[at + TEXT_AT..at + BLOCK_HEADER_LEN + blockLen];
  }

  /** The Device-Properties arm of the block switch: lengths outside 2..63 are
      ignored, Custom and Name copy `length - 2` octets from 6 octets into
      the block, Id reads two big-endian ids at 6 and 8, Role a byte at 6. */
  method ApplyDevPropsInPlace(buf: seq<uint8>, base: nat, dcpDataLen: nat, consumed: nat, d: Descriptor)
    returns (d': Descriptor)
    requires base + dcpDataLen <= |buf| && consumed + BLOCK_HEADER_LEN < dcpDataLen
    ensures d' == ApplyDevProps(buf[base..base + dcpDataLen], consumed, d)
  {
    ghost var area := buf[base..base + dcpDataLen];
    var end := base + dcpDataLen;
    var at := base + consumed;
    SliceOfSlice(buf, base, end, consumed, consumed + BLOCK_HEADER_LEN);
    ReadBE16Window(area[consumed..consumed + BLOCK_HEADER_LEN], 2, buf, at + 2);
    var suboption := buf[at + 1];
    var blockLen := ReadBE16(buf, at + 2) as nat;
    ghost var h := BlockAt(area, consumed);
    assert suboption == h.suboption && blockLen == h.blockLength && |area| == end - base;
    d' := d;
    if !(blockLen > 63 || blockLen < 2) {
      if suboption == SUBOPTION_DEV_PROPS_CUSTOM {
        if at + BLOCK_HEADER_LEN + blockLen <= end {
          var text := TextInPlace(buf, base, dcpDataLen, consumed, blockLen);
          d' := d.(vendorValue := CopyInto(d.vendorValue, text));
        }
      } else if suboption == SUBOPTION_DEV_PROPS_NAME {
        if at + BLOCK_HEADER_LEN + blockLen <= end {
          var text := TextInPlace(buf, base, dcpDataLen, consumed, blockLen);
          d' := d.(stationName := CopyInto(d.stationName, text));
        }
      } else if suboption == SUBOPTION_DEV_PROPS_ID {
        if at + ID_BLOCK_LEN <= end {
          SliceOfSlice(buf, base, end, consumed + ID_VENDOR_AT, consumed + ID_VENDOR_AT + 2);
          SliceOfSlice(buf, base, end, consumed + ID_DEVICE_AT, consumed + ID_DEVICE_AT + 2);
          ReadBE16Window(area, consumed + ID_VENDOR_AT, buf, at + ID_VENDOR_AT);
          ReadBE16Window(area, consumed + ID_DEVICE_AT, buf, at + ID_DEVICE_AT);
          d' := d.(idVendor := ReadBE16(buf, at + ID_VENDOR_AT), idDevice := ReadBE16(buf, at + ID_DEVICE_AT));
        }
      } else if suboption == SUBOPTION_DEV_PROPS_ROLE {
        if at + ROLE_AT + 1 <= end {
          d' := d.(role := buf[at + ROLE_AT]);
        }
      }
    }
  }

  /** The Address arm of the block switch: only the IP suboption is read,
      block-info at 4, then address, mask and gateway at 6, 10 and 14. */
  method ApplyAddrInPlace(buf: seq<uint8>, base: nat, dcpDataLen: nat, consumed: nat, d: Descriptor)
    returns (d': Descriptor)
    requires base + dcpDataLen <= |buf| && consumed + BLOCK_HEADER_LEN < dcpDataLen
    ensures d' == ApplyAddr(buf[base..base + dcpDataLen], consumed, d)
  {
    ghost var area := buf[base..base + dcpDataLen];
    var end := base + dcpDataLen;
    var at := base + consumed;
    SliceOfSlice(buf, base, end, consumed, consumed + BLOCK_HEADER_LEN);
    var suboption := buf[at + 1];
    d' := d;
    if suboption == SUBOPTION_ADDR_IP {
      if at + IP_BLOCK_LEN <= end {
        SliceOfSlice(buf, base, end, consumed + BLOCK_INFO_AT, consumed + BLOCK_INFO_AT + 2);
        SliceOfSlice(buf, base, end, consumed + IP_ADDR_AT, consumed + IP_ADDR_AT + 4);
        SliceOfSlice(buf, base, end, consumed + IP_MASK_AT, consumed + IP_MASK_AT + 4);
        SliceOfSlice(buf, base, end, consumed + IP_GATEWAY_AT, consumed + IP_GATEWAY_AT + 4);
        ReadBE16Window(area, consumed + BLOCK_INFO_AT, buf, at + BLOCK_INFO_AT);
        d' := d.(ipInfo := ReadBE16(buf, at + BLOCK_INFO_AT),
                 ipAddr := buf[at + IP_ADDR_AT..at + IP_ADDR_AT + 4],
                 ipMask := buf[at + IP_MASK_AT..at + IP_MASK_AT + 4],
                 ipGateway := buf[at + IP_GATEWAY_AT..at + IP_GATEWAY_AT + 4]);
      }
    }
  }

  /** The body of the walk for the block `consumed` octets into the DCP data
      that starts at `base`: the switch on the option, reading in place from
      `buf`; also returns the block's declared length. */
  method ApplyBlockInPlace(buf: seq<uint8>, base: nat, dcpDataLen: nat, consumed: nat, d: Descriptor)
    returns (d': Descriptor, blockLen: nat)
    requires base + dcpDataLen <= |buf| && consumed + BLOCK_HEADER_LEN < dcpDataLen
    ensures d' == ApplyBlock(buf[base..base + dcpDataLen], consumed, d)
    ensures blockLen == BlockAt(buf[base..base + dcpDataLen], consumed).blockLength
  {
    ghost var area := buf[base..base + dcpDataLen];
    var at := base + consumed;
    SliceOfSlice(buf, base, base + dcpDataLen, consumed, consumed + BLOCK_HEADER_LEN);
    ReadBE16Window(area[consumed..consumed + BLOCK_HEADER_LEN], 2, buf, at + 2);
    var option := buf[at];
    blockLen := ReadBE16(buf, at + 2) as nat;
    if option == OPTION_DEV_PROPS {
      d' := ApplyDevPropsInPlace(buf, base, dcpDataLen, consumed, d);
    } else if option == OPTION_ADDR {
      d' := ApplyAddrInPlace(buf, base, dcpDataLen, consumed, d);
    } else {
      d' := d;
    }
  }

  /** Parses the blocks of a validated Identify response into `init` (the
      caller's zeroed record): every fixed-size field ends with the value of
      the last block that sets it, and octets 61..63 of the text fields are
      never written. */
  method ParseResponseBlocks(buf: seq<uint8>, v: DcpView, init: Descriptor) returns (d: Descriptor)
    requires v.offset + DCP_HEADER_LEN + v.header.dataLength <= |buf|
    requires v.header == DecodeDcpHeader(buf[v.offset..v.offset + DCP_HEADER_LEN])
    ensures d == Walk(BlockArea(buf, v), 0, init)
    ensures forall f: Field :: FieldValue(d, f)
              == LastValue(BlockArea(buf, v), Offsets(BlockArea(buf, v), 0), f, FieldValue(init, f))
    ensures d.stationName[61..] == init.stationName[61..]
    ensures d.vendorValue[61..] == init.vendorValue[61..]
  {
    ghost var area := BlockArea(buf, v);
    var base := v.offset + DCP_HEADER_LEN;
    assert buf[v.offset..v.offset + DCP_HEADER_LEN][8..10] == buf[v.offset + 8..v.offset + 10];
    ReadBE16Window(buf[v.offset..v.offset + DCP_HEADER_LEN], 8, buf, v.offset + 8);
    var dcpDataLen := ReadBE16(buf, v.offset + 8) as nat;
    var consumed: nat := 0;
    d := init;
    while dcpDataLen - consumed > BLOCK_HEADER_LEN
      invariant Walk(area, consumed, d) == Walk(area, 0, init)
      decreases dcpDataLen - consumed
    {
      var blockLen;
      ghost var before := consumed;
      d, blockLen := ApplyBlockInPlace(buf, base, dcpDataLen, consumed, d);
      consumed := consumed + blockLen + BLOCK_HEADER_LEN;
      consumed := consumed + blockLen % 2;  // word alignment
      assert consumed == NextBlock(area, before);
    }
    forall f: Field
      ensures FieldValue(d, f) == LastValue(area, Offsets(area, 0), f, FieldValue(init, f))
    {
      WalkLastWriter(area, init, f);
    }
  }
}
