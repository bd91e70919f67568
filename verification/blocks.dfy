/** The Identify-response block walker: steps through the DCP blocks that
    follow a validated DCP header and records Device-Properties and IP
    blocks in the response record.

    Every field read is guarded against the end of the block area (the
    data-length octets after the DCP header); a block whose fields would lie
    past that end is left unapplied, and the walk steps on exactly as it
    would have. */
module Blocks {
  import opened Bytes
  import opened Layout
  import opened Validator

  /** The block area a validated view describes: the declared data length of
      octets right after the DCP header. The buffer is the headers, the
      area and whatever trails it, in that order. */
  function BlockArea(buf: seq<uint8>, v: DcpView): (area: seq<uint8>)
    requires v.offset + DCP_HEADER_LEN + v.header.dataLength <= |buf|
    ensures |area| == v.header.dataLength
    ensures buf == buf[..v.offset + DCP_HEADER_LEN] + area + buf[v.offset + DCP_HEADER_LEN + |area|..]
  {
    buf[v.offset + DCP_HEADER_LEN..v.offset + DCP_HEADER_LEN + v.header.dataLength]
  }

  /** The header of the block that starts at `at`. */
  function BlockAt(area: seq<uint8>, at: nat): BlockHeader
    requires at + BLOCK_HEADER_LEN <= |area|
  {
    DecodeBlockHeader(area[at..at + BLOCK_HEADER_LEN])
  }

  /** `bytes` copied over the start of `field`, as `memcpy` into a `char[64]`. */
  function CopyInto(field: TextField, bytes: seq<uint8>): (r: TextField)
    requires |bytes| <= TEXT_FIELD_LEN
    ensures r[..|bytes|] == bytes
    ensures r[|bytes|..] == field[|bytes|..]
  {
    bytes + field[|bytes|..]
  }

  /** The Device-Properties arm of the block step. A length outside 2..63
      is ignored whatever the suboption; Custom and Name copy `length - 2`
      octets starting 6 octets into the block; Id reads two big-endian ids
      at 6 and 8; Role reads the octet at 6. The IP fields are never
      touched, and a text copy of at most 61 octets leaves the last three
      octets of its field alone. */
  function ApplyDevProps(area: seq<uint8>, at: nat, d: Descriptor): (r: Descriptor)
    requires at + BLOCK_HEADER_LEN <= |area|
    ensures r.ipInfo == d.ipInfo && r.ipAddr == d.ipAddr && r.ipMask == d.ipMask && r.ipGateway == d.ipGateway
    ensures r.stationName[61..] == d.stationName[61..] && r.vendorValue[61..] == d.vendorValue[61..]
  {
    var h := BlockAt(area, at);
    var len := h.blockLength as nat;
    if len > 63 || len < 2 then d
    else if h.suboption == SUBOPTION_DEV_PROPS_CUSTOM then
      if at + BLOCK_HEADER_LEN + len <= |area|
      then d.(vendorValue := CopyInto(d.vendorValue, area[at + TEXT_AT..at + BLOCK_HEADER_LEN + len]))
      else d
    else if h.suboption == SUBOPTION_DEV_PROPS_NAME then
      if at + BLOCK_HEADER_LEN + len <= |area|
      then d.(stationName := CopyInto(d.stationName, area[at + TEXT_AT..at + BLOCK_HEADER_LEN + len]))
      else d
    else if h.suboption == SUBOPTION_DEV_PROPS_ID then
      if at + ID_BLOCK_LEN <= |area|
      then d.(idVendor := ReadBE16(area, at + ID_VENDOR_AT), idDevice := ReadBE16(area, at + ID_DEVICE_AT))
      else d
    else if h.suboption == SUBOPTION_DEV_PROPS_ROLE then
      if at + ROLE_AT + 1 <= |area| then d.(role := area[at + ROLE_AT]) else d
    else d
  }

  /** The Address arm of the block step: only the IP suboption is read,
      block-info at 4, then address, mask and gateway at 6, 10 and 14. No
      other field of the record changes. */
  function ApplyAddr(area: seq<uint8>, at: nat, d: Descriptor): (r: Descriptor)
    requires at + BLOCK_HEADER_LEN <= |area|
    ensures r == d.(ipInfo := r.ipInfo, ipAddr := r.ipAddr, ipMask := r.ipMask, ipGateway := r.ipGateway)
  {
    if BlockAt(area, at).suboption == SUBOPTION_ADDR_IP && at + IP_BLOCK_LEN <= |area|
    then d.(ipInfo := ReadBE16(area, at + BLOCK_INFO_AT),
            ipAddr := area[at + IP_ADDR_AT..at + IP_ADDR_AT + 4],
            ipMask := area[at + IP_MASK_AT..at + IP_MASK_AT + 4],
            ipGateway := area[at + IP_GATEWAY_AT..at + IP_GATEWAY_AT + 4])
    else d
  }

  /** The effect of one block on the record: a switch on the option. No
      block touches octets 61..63 of either text field, so a record that
      starts zeroed keeps both fields NUL-terminated. */
  function ApplyBlock(area: seq<uint8>, at: nat, d: Descriptor): (r: Descriptor)
    requires at + BLOCK_HEADER_LEN <= |area|
    ensures r.stationName[61..] == d.stationName[61..]
    ensures r.vendorValue[61..] == d.vendorValue[61..]
  {
    var option := BlockAt(area, at).option;
    if option == OPTION_DEV_PROPS then ApplyDevProps(area, at, d)
    else if option == OPTION_ADDR then ApplyAddr(area, at, d)
    else d
  }

  /** Where the block after the one at `at` starts: past the header and the
      declared length, plus one pad octet when the length is odd. */
  function NextBlock(area: seq<uint8>, at: nat): (n: nat)
    requires at + BLOCK_HEADER_LEN <= |area|
    ensures n - at >= BLOCK_HEADER_LEN
    ensures (n - at) % 2 == 0
    ensures at + BLOCK_HEADER_LEN + BlockAt(area, at).blockLength <= n
    ensures n <= at + BLOCK_HEADER_LEN + BlockAt(area, at).blockLength + 1
  {
    var len := BlockAt(area, at).blockLength as nat;
    assert (len + len % 2) % 2 == 0;
    at + BLOCK_HEADER_LEN + len + len % 2
  }

  /** The walk from the block at `at` on: while more than a block header's
      worth of octets remain, apply the block and step to the next one.
      The walk never touches octets 61..63 of the text fields. */
  function Walk(area: seq<uint8>, at: nat, d: Descriptor): (r: Descriptor)
    ensures r.stationName[61..] == d.stationName[61..]
    ensures r.vendorValue[61..] == d.vendorValue[61..]
    decreases |area| - at
  {
    if |area| - at > BLOCK_HEADER_LEN then Walk(area, NextBlock(area, at), ApplyBlock(area, at, d))
    else d
  }
}
