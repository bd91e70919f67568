/** Properties of the block walker: what one block does to the record, where
    the walk visits, and what the record holds after the walk. */
module BlockProofs {
  import opened Bytes
  import opened Layout
  import opened Blocks

  // --- One block ---

  /** A Device-Properties block whose length is outside 2..63 changes
      nothing, whatever its suboption. */
  lemma DevPropsOutOfRangeIgnored(area: seq<uint8>, at: nat, d: Descriptor)
    requires at + BLOCK_HEADER_LEN <= |area|
    requires BlockAt(area, at).option == OPTION_DEV_PROPS
    requires BlockAt(area, at).blockLength < 2 || BlockAt(area, at).blockLength > 63
    ensures ApplyBlock(area, at, d) == d
  {
  }

  /** A Name block in range copies exactly `length - 2` octets, from 6 octets
      into the block up to the block's declared end, over the start of the
      station name; the rest of the name and every other field stay. */
  lemma NameBlockCopiesPrefix(area: seq<uint8>, at: nat, d: Descriptor)
    requires at + BLOCK_HEADER_LEN <= |area|
    requires BlockAt(area, at).option == OPTION_DEV_PROPS
    requires BlockAt(area, at).suboption == SUBOPTION_DEV_PROPS_NAME
    requires 2 <= BlockAt(area, at).blockLength <= 63
    requires at + BLOCK_HEADER_LEN + BlockAt(area, at).blockLength <= |area|
    ensures var n := BlockAt(area, at).blockLength - 2;
            var d' := ApplyBlock(area, at, d);
            && n <= 61
            && d'.stationName[..n] == area[at + 6..at + BLOCK_HEADER_LEN + BlockAt(area, at).blockLength]
            && d'.stationName[n..] == d.stationName[n..]
            && d' == d.(stationName := d'.stationName)
  {
  }

  /** A Custom block in range does the same to the vendor value. */
  lemma CustomBlockCopiesPrefix(area: seq<uint8>, at: nat, d: Descriptor)
    requires at + BLOCK_HEADER_LEN <= |area|
    requires BlockAt(area, at).option == OPTION_DEV_PROPS
    requires BlockAt(area, at).suboption == SUBOPTION_DEV_PROPS_CUSTOM
    requires 2 <= BlockAt(area, at).blockLength <= 63
    requires at + BLOCK_HEADER_LEN + BlockAt(area, at).blockLength <= |area|
    ensures var n := BlockAt(area, at).blockLength - 2;
            var d' := ApplyBlock(area, at, d);
            && n <= 61
            && d'.vendorValue[..n] == area[at + 6..at + BLOCK_HEADER_LEN + BlockAt(area, at).blockLength]
            && d'.vendorValue[n..] == d.vendorValue[n..]
            && d' == d.(vendorValue := d'.vendorValue)
  {
  }

  /** The fixed-size fields of the record a block can set. */
  datatype Field = Ids | Role | Ip

  /** The value of a fixed-size field, flattened to numbers. */
  function FieldValue(d: Descriptor, f: Field): seq<int>
  {
    match f
    case Ids => [d.idVendor as int, d.idDevice as int]
    case Role => [d.role as int]
    case Ip => [d.ipInfo as int] + d.ipAddr + d.ipMask + d.ipGateway
  }

  /** True when the block at `at` sets field `f`: the option and suboption
      select it, a Device-Properties length is in 2..63, and the whole fixed
      body lies inside the area. */
  predicate Sets(area: seq<uint8>, at: nat, f: Field)
    requires at + BLOCK_HEADER_LEN <= |area|
  {
    var h := BlockAt(area, at);
    match f
    case Ids => h.option == OPTION_DEV_PROPS && h.suboption == SUBOPTION_DEV_PROPS_ID
                && 2 <= h.blockLength <= 63 && at + ID_BLOCK_LEN <= |area|
    case Role => h.option == OPTION_DEV_PROPS && h.suboption == SUBOPTION_DEV_PROPS_ROLE
                 && 2 <= h.blockLength <= 63 && at + ROLE_AT + 1 <= |area|
    case Ip => h.option == OPTION_ADDR && h.suboption == SUBOPTION_ADDR_IP && at + IP_BLOCK_LEN <= |area|
  }

  /** The value a setting block carries for `f`, read at the fixed offsets of
      the packed block layouts: vendor id at 6, device id at 8, role at 6,
      block-info at 4, address at 6, mask at 10, gateway at 14. */
  function BlockValue(area: seq<uint8>, at: nat, f: Field): seq<int>
    requires at + BLOCK_HEADER_LEN <= |area| && Sets(area, at, f)
  {
    match f
    case Ids => [ReadBE16(area, at + 6) as int, ReadBE16(area, at + 8) as int]
    case Role => [area[at + 6] as int]
    case Ip => [ReadBE16(area, at + 4) as int] + area[at + 6..at + 18]
  }

  /** One block sets `f` to the value it carries when it is a block for `f`,
      and leaves `f` as it was otherwise. */
  lemma ApplyField(area: seq<uint8>, at: nat, d: Descriptor, f: Field)
    requires at + BLOCK_HEADER_LEN <= |area|
    ensures FieldValue(ApplyBlock(area, at, d), f)
            == if Sets(area, at, f) then BlockValue(area, at, f) else FieldValue(d, f)
  {
    if f == Ip && Sets(area, at, f) {
      assert area[at + 6..at + 18] == area[at + 6..at + 10] + area[at + 10..at + 14] + area[at + 14..at + 18];
      assert area[at + 6..at + 18]
             == area[at + IP_ADDR_AT..at + IP_ADDR_AT + 4] + area[at + IP_MASK_AT..at + IP_MASK_AT + 4]
                + area[at + IP_GATEWAY_AT..at + IP_GATEWAY_AT + 4];
    }
  }

  /** Blocks other than Device-Properties Custom/Name/Id/Role and Address IP
      leave the record unchanged. */
  lemma OtherBlocksIgnored(area: seq<uint8>, at: nat, d: Descriptor)
    requires at + BLOCK_HEADER_LEN <= |area|
    requires var h := BlockAt(area, at);
             !(h.option == OPTION_DEV_PROPS && 1 <= h.suboption <= 4)
             && !(h.option == OPTION_ADDR && h.suboption == SUBOPTION_ADDR_IP)
    ensures ApplyBlock(area, at, d) == d
  {
  }

  // --- The walk ---

  /** The offsets of the block headers the walk visits from `at`: the first
      is `at`, each next one is the previous one's successor, every one has
      more than a block header's worth of octets after it, and the successor
      of the last one has not. */
  function Offsets(area: seq<uint8>, at: nat): (r: seq<nat>)
    ensures |r| > 0 <==> |area| - at > BLOCK_HEADER_LEN
    ensures |r| > 0 ==> r[0] == at
    ensures forall i :: 0 <= i < |r| ==> at <= r[i] && r[i] + BLOCK_HEADER_LEN < |area|
    ensures |r| > 0 ==> |area| - NextBlock(area, r[|r| - 1]) <= BLOCK_HEADER_LEN
    decreases |area| - at
  {
    if |area| - at > BLOCK_HEADER_LEN then
      var rest := Offsets(area, NextBlock(area, at));
      var r := [at] + rest;
      assert forall i :: 1 <= i < |r| ==> r[i] == rest[i - 1];
      r
    else []
  }

  /** Each visited header after the first is its predecessor's successor. */
  lemma {:induction false} OffsetsNext(area: seq<uint8>, at: nat, i: nat)
    requires i + 1 < |Offsets(area, at)|
    ensures Offsets(area, at)[i + 1] == NextBlock(area, Offsets(area, at)[i])
    decreases i
  {
    var rest := Offsets(area, NextBlock(area, at));
    assert Offsets(area, at) == [at] + rest;
    if i > 0 {
      OffsetsNext(area, NextBlock(area, at), i - 1);
    }
  }

  /** Progress of the walk: consecutive headers are at least a block header
      apart, and an even distance apart. */
  lemma OffsetsStep(area: seq<uint8>, at: nat, i: nat)
    requires i + 1 < |Offsets(area, at)|
    ensures var r := Offsets(area, at);
            r[i] + BLOCK_HEADER_LEN <= r[i + 1] && (r[i + 1] - r[i]) % 2 == 0
  {
    OffsetsNext(area, at, i);
  }

  lemma EvenStep(a: int, b: int)
    requires a % 2 == 0 && (b - a) % 2 == 0
    ensures b % 2 == 0
  {
  }

  /** Alignment: a walk that starts on an even offset visits only even
      offsets, so every block header it reads is word aligned. */
  lemma {:induction false} OffsetsAligned(area: seq<uint8>, at: nat, i: nat)
    requires at % 2 == 0 && i < |Offsets(area, at)|
    ensures Offsets(area, at)[i] % 2 == 0
  {
    var r := Offsets(area, at);
    if i > 0 {
      OffsetsAligned(area, at, i - 1);
      OffsetsStep(area, at, i - 1);
      EvenStep(r[i - 1], r[i]);
    } else {
      assert r[0] == at;
    }
  }

  /** Applying the blocks at `offs` in order. */
  function Fold(area: seq<uint8>, offs: seq<nat>, d: Descriptor): Descriptor
    requires forall i :: 0 <= i < |offs| ==> offs[i] + BLOCK_HEADER_LEN <= |area|
  {
    if offs == [] then d else Fold(area, offs[1..], ApplyBlock(area, offs[0], d))
  }

  /** The walk applies exactly the blocks at its visited offsets, in order. */
  lemma {:induction false} WalkIsFold(area: seq<uint8>, at: nat, d: Descriptor)
    ensures Walk(area, at, d) == Fold(area, Offsets(area, at), d)
    decreases |area| - at
  {
    if |area| - at > BLOCK_HEADER_LEN {
      var offs := Offsets(area, at);
      assert offs[1..] == Offsets(area, NextBlock(area, at));
      WalkIsFold(area, NextBlock(area, at), ApplyBlock(area, at, d));
    }
  }

  /** Folding over one more block is applying it to the fold of the rest. */
  lemma {:induction false} FoldSnoc(area: seq<uint8>, offs: seq<nat>, o: nat, d: Descriptor)
    requires forall i :: 0 <= i < |offs| ==> offs[i] + BLOCK_HEADER_LEN <= |area|
    requires o + BLOCK_HEADER_LEN <= |area|
    ensures Fold(area, offs + [o], d) == ApplyBlock(area, o, Fold(area, offs, d))
    decreases |offs|
  {
    if offs == [] {
      assert offs + [o] == [o];
      assert ([o])[1..] == [];
    } else {
      assert (offs + [o])[1..] == offs[1..] + [o];
      FoldSnoc(area, offs[1..], o, ApplyBlock(area, offs[0], d));
    }
  }

  /** The value `f` ends with after the blocks at `offs`, read backwards: the
      value of the last block that sets `f`, or `initial` when none does. */
  function LastValue(area: seq<uint8>, offs: seq<nat>, f: Field, initial: seq<int>): seq<int>
    requires forall i :: 0 <= i < |offs| ==> offs[i] + BLOCK_HEADER_LEN <= |area|
  {
    if offs == [] then initial
    else
      var o := offs[|offs| - 1];
      if Sets(area, o, f) then BlockValue(area, o, f)
      else LastValue(area, offs[..|offs| - 1], f, initial)
  }

  /** The last block of a kind wins: after applying the blocks at `offs`, a
      fixed-size field holds the value of the last block that sets it. */
  lemma {:induction false} FoldLastWriter(area: seq<uint8>, offs: seq<nat>, d: Descriptor, f: Field)
    requires forall i :: 0 <= i < |offs| ==> offs[i] + BLOCK_HEADER_LEN <= |area|
    ensures FieldValue(Fold(area, offs, d), f) == LastValue(area, offs, f, FieldValue(d, f))
    decreases |offs|
  {
    if offs != [] {
      var init := offs[..|offs| - 1];
      var o := offs[|offs| - 1];
      assert offs == init + [o];
      FoldSnoc(area, init, o, d);
      FoldLastWriter(area, init, d, f);
      ApplyField(area, o, Fold(area, init, d), f);
    }
  }

  /** After the whole walk each fixed-size field holds the value of the last
      visited block that sets it, or its initial value when none does. */
  lemma WalkLastWriter(area: seq<uint8>, d: Descriptor, f: Field)
    ensures FieldValue(Walk(area, 0, d), f) == LastValue(area, Offsets(area, 0), f, FieldValue(d, f))
  {
    WalkIsFold(area, 0, d);
    FoldLastWriter(area, Offsets(area, 0), d, f);
  }

  /** An area too short to hold more than one block header leaves the record
      as it was. */
  lemma ShortAreaChangesNothing(area: seq<uint8>, d: Descriptor)
    requires |area| <= BLOCK_HEADER_LEN
    ensures Walk(area, 0, d) == d
  {
  }

  // --- Reads past the block area ---

  /** How far into the area the unguarded C switch reads for the block at
      `at` (one past the last octet): the header always, then the copied text
      up to the declared end when there is any (a length of 2 copies nothing),
      the ids up to 10, the role at 6, the IP body up to 18. None of these is
      compared with the area's end. */
  function ReadEndAsWritten(area: seq<uint8>, at: nat): (n: nat)
    requires at + BLOCK_HEADER_LEN <= |area|
    ensures at + BLOCK_HEADER_LEN <= n <= at + BLOCK_HEADER_LEN + 63
  {
    var h := BlockAt(area, at);
    if h.option == OPTION_DEV_PROPS && 2 <= h.blockLength <= 63 then
      if h.suboption == SUBOPTION_DEV_PROPS_CUSTOM || h.suboption == SUBOPTION_DEV_PROPS_NAME
      then if 2 < h.blockLength then at + BLOCK_HEADER_LEN + h.blockLength else at + BLOCK_HEADER_LEN
      else if h.suboption == SUBOPTION_DEV_PROPS_ID then at + ID_BLOCK_LEN
      else if h.suboption == SUBOPTION_DEV_PROPS_ROLE then at + ROLE_AT + 1
      else at + BLOCK_HEADER_LEN
    else if h.option == OPTION_ADDR && h.suboption == SUBOPTION_ADDR_IP then at + IP_BLOCK_LEN
    else at + BLOCK_HEADER_LEN
  }

  /** The loop admits a block with five octets left, and for an IP block the
      C switch then reads thirteen octets past the end of the area. */
  lemma OverReadAsWritten()
    ensures var area: seq<uint8> := [1, 2, 0, 14, 0];
            && |area| - 0 > BLOCK_HEADER_LEN
            && ReadEndAsWritten(area, 0) == |area| + 13
  {
    var area: seq<uint8> := [1, 2, 0, 14, 0];
    assert area[0..4] == [1, 2, 0, 14];
  }

  /** The guarded block step changes the record only when every octet the C
      switch would read lies inside the area, and then it stores exactly the
      values the C switch stores. */
  lemma GuardedApplyReadsInArea(area: seq<uint8>, at: nat, d: Descriptor)
    requires at + BLOCK_HEADER_LEN <= |area|
    ensures ApplyBlock(area, at, d) != d ==> ReadEndAsWritten(area, at) <= |area|
    ensures ReadEndAsWritten(area, at) <= |area| ==>
              forall f: Field :: Sets(area, at, f) <==> IsBlockFor(area, at, f)
  {
  }

  /** The option, suboption and length test of the C switch for field `f`,
      without any test against the area's end. */
  predicate IsBlockFor(area: seq<uint8>, at: nat, f: Field)
    requires at + BLOCK_HEADER_LEN <= |area|
  {
    var h := BlockAt(area, at);
    match f
    case Ids => h.option == OPTION_DEV_PROPS && h.suboption == SUBOPTION_DEV_PROPS_ID && 2 <= h.blockLength <= 63
    case Role => h.option == OPTION_DEV_PROPS && h.suboption == SUBOPTION_DEV_PROPS_ROLE && 2 <= h.blockLength <= 63
    case Ip => h.option == OPTION_ADDR && h.suboption == SUBOPTION_ADDR_IP
  }
}
