# PROFINET DCP frame codec — a Dafny model

This project models the DCP (Discovery and Configuration Protocol of PROFINET IO,
IEC 61158-6-10) frame codec of `pn-tools`. It covers three things:

- **The Identify-request builder.** It writes a fixed 30-octet frame. The frame has
  an Ethernet header to the PROFINET identify multicast 01:0e:cf:00:00:00, ethertype
  0x8892, frame-id 0xFEFE, a DCP header (Identify/Request, xid 0x42424242,
  response delay 128, data length 4) and one All-Selector block.
- **The receive-side header validator.** It unwraps Ethernet, an optional IEEE 802.1Q
  tag (clause 9 of IEEE 802.1Q), the PROFINET header and the DCP header. It applies the
  destination filter, the ethertype, frame-id and length gates in the order the source
  does. It returns either the DCP header and where it sits, or one of nine rejection
  reasons, one per rejection site.
- **The Identify-response block walker.** It steps through the (option, suboption,
  length) blocks that follow the DCP header. It fills the identify-response record:
  station name, vendor value, vendor/device id, role, and IP address/mask/gateway with
  its block-info.

Bytes are `uint8` values in `seq`s. The five packed headers (Ethernet, 802.1Q tag,
PROFINET, DCP and DCP block header) each have a decoder over a window of exactly their
size and an encoder, and the two are proved inverse. The block bodies (Id, Role, IP and
the text blocks, `src/common.h:150-180`) have no codec: like the pointer casts of the
source, they become explicit big-endian reads at fixed offsets.

Modules, leaf first:

- `Results`: the `Option` and `Result` datatypes.
- `Bytes`: network-order readers and writers.
- `Layout`: constants and packed layouts from `src/common.h`.
- `Encoder`: the identify request.
- `Validator` and `ValidatorProofs`: the header validator and its properties.
- `Blocks` and `BlockProofs`: the walker as functions and its properties.
- `Parser`: the walker as the C loop, proved equal to the functional walk.
- `Scenarios`: properties that cross components.

Notes on behaviour the model makes explicit:

- **Length gates.** `_CHECK_LENGTH` runs after the cursor has been advanced past the
  header it guards. So each gate demands the whole header. The thresholds are 14, then
  18 when tagged, then 16/20, then 26/30 octets. `PrefixVerdict` states this for every
  prefix of an accepted frame.
- **Byte order in the request.** The builder stores the frame-id and the xid without
  `htons`/`htonl`. The model writes them as a little-endian host stores them.
  `HostOrderStoresAreNetworkOrder` shows that the octets are the network-order ones,
  because 0xFEFE and 0x42424242 are byte palindromes.
- **The request and the address filter.** The identify request passes the validator
  only without a local address filter (`IdentRequestAcceptedUnfiltered`). With a
  filter, its multicast destination is neither the local address nor broadcast, so it
  is refused (`IdentRequestRefusedFiltered`).
- **Guarded reads.** The walker reads every field only inside the block area, which is
  the declared data length of octets after the DCP header. The C does not check this
  (see Findings). A block whose fields would leave the area is not applied, and the
  walk steps past it exactly as the C loop does.
- **Text copies.** They overwrite only the first `length - 2 ≤ 61` octets of the
  64-octet field. Octets 61..63 are never written, so a zeroed record stays
  NUL-terminated (`Blocks.Walk`).

## Model

| member | source | states |
|---|---|---|
| Layout.DecodeEthernetHeader | src/common.c:126-139 | destination and source are octets 0-5 and 6-11; the ethertype is the value whose network-order octets are 12-13 |
| Layout.EncodeEthernetHeader | src/common.c:70-76 | the 14-octet Ethernet header reads back as the destination, source and ethertype it was built from |
| Layout.EthernetHeaderBijective | src/common.c:122-139 | every 14-octet window is the encoding of the header read from it (the overlay loses nothing) |
| Layout.DecodeVlanTag | src/common.c:144-148 | the TCI and the encapsulated ethertype are the values whose network-order octets are 0-1 and 2-3 of the tag |
| Layout.EncodeVlanTag | src/common.h:46-50 | the 4-octet tag holds the TCI, then the encapsulated ethertype, both big-endian |
| Layout.VlanTagBijective | src/common.h:46-50 | every 4-octet window is the encoding of the tag read from it |
| Layout.DecodePnHeader | src/common.c:160-164 | the frame-id is the value whose network-order octets are the 2-octet header |
| Layout.EncodePnHeader | src/common.h:54-57 | the PROFINET header is the 2-octet big-endian frame-id |
| Layout.PnHeaderBijective | src/common.h:54-57 | every 2-octet window is the encoding of the frame-id read from it |
| Layout.DecodeDcpHeader | src/common.c:170-174 | service id and service type are octets 0 and 1; xid, response delay and data length are the values whose network-order octets are 2-5, 6-7 and 8-9 |
| Layout.EncodeDcpHeader | src/common.h:108-115 | the 10-octet DCP header: service-id at 0, service-type at 1, xid at 2-5, response delay at 6-7, data length at 8-9, round-tripping |
| Layout.DcpHeaderBijective | src/common.h:108-115 | every 10-octet window is the encoding of the DCP header read from it |
| Layout.DecodeBlockHeader | src/common.c:195-196 | option and suboption are octets 0 and 1; the block length is the value whose network-order octets are 2-3 |
| Layout.EncodeBlockHeader | src/common.h:143-148 | the 4-octet block header: option, suboption, big-endian length, round-tripping |
| Layout.BlockHeaderBijective | src/common.h:143-148 | every 4-octet window is the encoding of the block header read from it |
| Layout.ZeroDescriptor | src/common.h:197-208 | the record with both 64-octet text fields, ids, role, IP info and the three 4-octet IP fields all zero, as the caller initialises it |
| Encoder.IdentRequest | src/common.c:65-108 | the request is exactly 30 octets with the byte image 01 0e cf 00 00 00, source, 88 92, FE FE, 05 00 42 42 42 42 00 80 00 04, FF FF 00 00, and each header reads back as built |
| Encoder.HostOrderStoresAreNetworkOrder | src/common.c:78-91 | storing frame-id 0xFEFE and xid 0x42424242 without a byte swap yields the same octets as the network-order store |
| Validator.GetDcpHeader | src/common.c:110-182 | refused as Ethernet-truncated exactly when shorter than 14 octets; an accepted buffer has a matching or broadcast destination under a filter, PROFINET as its (encapsulated) ethertype, the header at 16 or 20 by tagging, the requested frame-id unless 0, and a data length that fits |
| ValidatorProofs.RejectionMeaning | src/common.c:110-182 | each rejection reason implies that its gate's condition failed after every earlier gate passed: address mismatch, truncated or non-PROFINET VLAN tag, foreign ethertype, truncated PN or DCP header, wrong frame-id, data length past the buffer |
| ValidatorProofs.AddressFilter | src/common.c:130-137 | with a local address, a frame is refused for its address exactly when its destination is neither that address nor broadcast; without one, never |
| ValidatorProofs.MulticastRefusedUnderFilter | src/common.c:131-133 | a frame to the PROFINET multicast is refused under any other local address |
| ValidatorProofs.VlanTransparency | src/common.c:139-158 | tagging an untagged frame keeps its verdict, moving an accepted header four octets on and turning the ethertype mismatch into the encapsulated-ethertype mismatch |
| ValidatorProofs.AcceptanceIsLocal | src/common.c:170-181 | any buffer starting with an accepted buffer's headers and block area is accepted with the same header |
| ValidatorProofs.PaddingIgnored | src/common.c:174-181 | trailing octets (Ethernet padding) never change an acceptance |
| ValidatorProofs.PrefixVerdict | src/common.c:119-179 | each prefix of an accepted frame is refused at the first header it cuts (Ethernet, tag, PROFINET, DCP), then for the declared length inside the block area, and accepted unchanged once the area is complete |
| Scenarios.IdentRequestAcceptedUnfiltered | src/common.c:65-108 | without an address filter the request validates to its own DCP header at 16, and its block area changes no record |
| Scenarios.IdentRequestRefusedFiltered | src/common.c:131-136 | with the sender's address as filter the request is refused for its multicast destination |
| Scenarios.ResponseRoundTrip | src/common.c:117-182 | an encoded untagged Identify response validates to its DCP header at 16, and its block area is exactly the encoded blocks |
| Scenarios.TaggedResponseRoundTrip | src/common.c:141-153 | the same response inside an 802.1Q tag validates to the same header at 20 |
| Scenarios.DeclaredLengthGuard | src/common.c:174-179 | setting an accepted frame's data length to any value larger than the octets after the DCP header makes it refused for the declared length |
| Scenarios.SampleBlocksWalk | src/common.c:193-246 | walking the sample Name, Id and IP blocks into a zeroed record gives exactly the sample record |
| Scenarios.SampleResponseDecodes | src/common.c:184-247 | a response with Name "plc-01", Id 0x002A/0x0101 and IP 10.0.0.5/255.255.255.0/10.0.0.1 decodes to exactly those fields with all others zero |
| Blocks.BlockArea | src/common.c:186-189 | the area holds exactly the declared data length of octets, and the buffer is the headers, then the area, then whatever trails it |
| Blocks.CopyInto | src/common.c:212-217 | the `memcpy` into a 64-octet field: its first octets become the copied ones and the rest keep their old value |
| Blocks.ApplyDevProps | src/common.c:205-228 | a Device-Properties block never changes the IP fields and never writes octets 61..63 of either text field (the values it stores are stated by `BlockProofs.ApplyField` and the two `CopiesPrefix` lemmas) |
| Blocks.ApplyAddr | src/common.c:230-241 | an Address block changes no field other than IP info, address, mask and gateway (the values are stated by `BlockProofs.ApplyField`) |
| Blocks.ApplyBlock | src/common.c:203-242 | no block writes octets 61..63 of either text field |
| Blocks.Walk | src/common.c:193-246 | the walk never writes octets 61..63 of the text fields, so a zeroed record stays NUL-terminated |
| Blocks.NextBlock | src/common.c:244-245 | the next block starts at least 4 and an even number of octets on, at the declared end or one pad octet past it |
| BlockProofs.DevPropsOutOfRangeIgnored | src/common.c:207-208 | a Device-Properties block with length below 2 or above 63 changes nothing, whatever its suboption |
| BlockProofs.NameBlockCopiesPrefix | src/common.c:215-217 | a Name block copies exactly length-2 (at most 61) octets, from block offset 6 to its declared end, over the start of the station name; nothing else changes |
| BlockProofs.CustomBlockCopiesPrefix | src/common.c:212-214 | a Custom block does the same to the vendor value |
| BlockProofs.ApplyField | src/common.c:218-239 | an Id, Role or IP block sets its field to the big-endian values at block offsets 6/8, 6, and 4/6/10/14; any other block leaves that field alone |
| BlockProofs.OtherBlocksIgnored | src/common.c:203-242 | blocks other than Device-Properties Custom/Name/Id/Role and Address IP leave the record unchanged |
| BlockProofs.Offsets | src/common.c:193-195 | the walk visits headers starting at the first offset, each with more than 4 octets after it, and stops exactly when 4 or fewer remain |
| BlockProofs.OffsetsNext | src/common.c:244-245 | each visited header is its predecessor's successor |
| BlockProofs.OffsetsStep | src/common.c:244-245 | consecutive visited headers are at least 4 and an even distance apart, so the walk terminates |
| BlockProofs.OffsetsAligned | src/common.c:244-245 | a walk from an even offset visits only even offsets (word alignment) |
| BlockProofs.WalkIsFold | src/common.c:193-246 | the walk applies exactly the blocks at its visited offsets, in order |
| BlockProofs.FoldLastWriter | src/common.c:218-239 | after a sequence of blocks each fixed-size field holds the value of the last block that sets it, or its initial value |
| BlockProofs.WalkLastWriter | src/common.c:193-246 | after the whole walk a later Id, Role or IP block overrides an earlier one |
| BlockProofs.ShortAreaChangesNothing | src/common.c:193 | a block area of at most 4 octets leaves the record as it was |
| BlockProofs.ReadEndAsWritten | src/common.c:203-242 | the C switch reads from the block header up to at most 67 octets past the block start, never compared with the area end; a text block of length 2 copies nothing and reads only its header |
| BlockProofs.OverReadAsWritten | src/common.c:193-238 | the loop admits an IP block header with one octet after it, and the C read then runs 13 octets past the area |
| BlockProofs.GuardedApplyReadsInArea | src/common.c:203-242 | the guarded step applies a block only when every octet the C reads lies inside the area, and then it sets exactly the fields the C sets |
| Parser.ApplyDevPropsInPlace | src/common.c:205-228 | the Device-Properties arm, reading in place from the received buffer, computes the same record as the functional Device-Properties step over the block area |
| Parser.ApplyAddrInPlace | src/common.c:230-241 | the Address arm, reading in place, computes the same record as the functional Address step over the block area |
| Parser.ApplyBlockInPlace | src/common.c:195-242 | the whole switch on the in-place block computes the block step and returns the declared length |
| Parser.ParseResponseBlocks | src/common.c:184-247 | the cursor loop computes the functional walk; every fixed-size field ends as its last setting block says; octets 61..63 of the text fields keep their initial values |

## Left out

- `pnt_dcp_create_flashled_request` and `open_raw_sock`: declared in `src/common.h` but their bodies are not part of this model. Only the unused control-signal and control-response block layouts (`src/common.h:182-195`) are visible, so they are not modelled either.
- Verbosity state, `pnt_debug`, `pnt_print` and `dump_buffer`: stderr diagnostics behind a mutable global. The validator's debug messages become its rejection reasons.
- `src/discovery.c`, `src/flashled.c` and `src/main.c`: socket setup, send/receive, the timeout loop, argument parsing and printing are I/O. The only thing taken from them is that the caller zeroes the record and passes only validated headers to the walker. The walker's `requires` says that the block area fits in the buffer and that the view's header is the one in the buffer.
- The PROFINET frame-class table, alarm frame-ids and `pn_footer` (`src/common.h:59-84` and `src/common.h:90-95`): constants and a layout the codec never uses. The DCP frame-ids at `src/common.h:85-88` are modelled in `Layout`.
- Transaction ids: the validator does not compare the xid, and neither does the model.
- Buffer size: the received length is the length of the sequence. Negative `recvfrom` results are filtered by the caller before the validator runs.
- Host byte order: plain stores are modelled for a little-endian host. On a big-endian host they would already be in network order, and for the two constants involved the octets are the same either way.
- BlockProofs.GuardedApplyReadsInArea: the walker is deliberately weaker than the C on malformed input. A block whose fields lie past the declared block area is not applied, whereas the C reads whatever follows in memory. On every block whose reads stay inside the area, the model and the C agree.

## Findings

| source | as written | input that shows it | evidently intended | confidence | as-written member | corrected member |
|---|---|---|---|---|---|---|
| src/common.c:193-238 | the loop runs while more than 4 octets of DCP data remain, then reads Id (block octets 6-9), Role (6), IP (4-17) and text (6 up to the declared length) without comparing those offsets with the DCP data length | block area `01 02 00 0E 00`, an Address/IP header with one octet after it: the loop admits it and the IP read ends 13 octets past the area (past the received frame when the area ends it) | no field is read outside the declared DCP data; a block that does not fit is not applied | high; not executed | BlockProofs.OverReadAsWritten | BlockProofs.GuardedApplyReadsInArea |
