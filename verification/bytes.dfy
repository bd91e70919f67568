/** Octets and fixed-width integers as they appear on the wire, with the
    big-endian (network order) readers and writers the codec needs, and the
    little-endian store a plain assignment performs on a little-endian host. */
module Bytes {

  type uint8 = x: int | 0 <= x < 0x100
  type uint16 = x: int | 0 <= x < 0x1_0000
  type uint32 = x: int | 0 <= x < 0x1_0000_0000

  /** The 16-bit value stored in network order at `b[at]`, `b[at + 1]` (ntohs). */
  function ReadBE16(b: seq<uint8>, at: nat): uint16
    requires at + 2 <= |b|
  {
    (b[at] as int) * 0x100 + b[at + 1] as int
  }

  /** The 32-bit value stored in network order at `b[at..at + 4]` (ntohl). */
  function ReadBE32(b: seq<uint8>, at: nat): uint32
    requires at + 4 <= |b|
  {
    (ReadBE16(b, at) as int) * 0x1_0000 + ReadBE16(b, at + 2) as int
  }

  /** The two octets `htons(v)` puts in memory. */
  function WriteBE16(v: uint16): (r: seq<uint8>)
    ensures |r| == 2 && ReadBE16(r, 0) == v
  {
    [v / 0x100, v % 0x100]
  }

  /** The four octets `htonl(v)` puts in memory. */
  function WriteBE32(v: uint32): (r: seq<uint8>)
    ensures |r| == 4 && ReadBE32(r, 0) == v
  {
    var hi := WriteBE16(v / 0x1_0000);
    var lo := WriteBE16(v % 0x1_0000);
    assert (hi + lo)[0..2] == hi && (hi + lo)[2..4] == lo;
    hi + lo
  }

  /** The two octets a plain 16-bit store (no `htons`) puts in memory on a
      little-endian host: least significant octet first. */
  function WriteLE16(v: uint16): (r: seq<uint8>)
    ensures |r| == 2 && r[0] as int + (r[1] as int) * 0x100 == v
  {
    [v % 0x100, v / 0x100]
  }

  /** The four octets a plain 32-bit store (no `htonl`) puts in memory on a
      little-endian host. */
  function WriteLE32(v: uint32): (r: seq<uint8>)
    ensures |r| == 4
    ensures r[0] as int + (r[1] as int) * 0x100 + (r[2] as int) * 0x1_0000 + (r[3] as int) * 0x100_0000 == v
  {
    WriteLE16(v % 0x1_0000) + WriteLE16(v / 0x1_0000)
  }

  /** Writing back what was read reproduces the two octets: the 16-bit
      network-order codec is a bijection between values and octet pairs. */
  lemma ReadWriteBE16(b: seq<uint8>, at: nat)
    requires at + 2 <= |b|
    ensures WriteBE16(ReadBE16(b, at)) == b[at..at + 2]
  {
  }

  /** Writing back what was read reproduces the four octets. */
  lemma ReadWriteBE32(b: seq<uint8>, at: nat)
    requires at + 4 <= |b|
    ensures WriteBE32(ReadBE32(b, at)) == b[at..at + 4]
  {
    var v := ReadBE32(b, at);
    assert v / 0x1_0000 == ReadBE16(b, at);
    assert v % 0x1_0000 == ReadBE16(b, at + 2);
    ReadWriteBE16(b, at);
    ReadWriteBE16(b, at + 2);
  }

  /** A 16-bit value reads the same from two sequences that hold the same two
      octets, wherever they sit. */
  lemma ReadBE16Window(b: seq<uint8>, at: nat, c: seq<uint8>, at': nat)
    requires at + 2 <= |b| && at' + 2 <= |c|
    requires b[at..at + 2] == c[at'..at' + 2]
    ensures ReadBE16(b, at) == ReadBE16(c, at')
  {
    assert b[at] == b[at..at + 2][0] && b[at + 1] == b[at..at + 2][1];
    assert c[at'] == c[at'..at' + 2][0] && c[at' + 1] == c[at'..at' + 2][1];
  }

  /** A window of a window is a window of the original sequence. */
  lemma SliceOfSlice(s: seq<uint8>, lo: nat, hi: nat, a: nat, b: nat)
    requires lo <= hi <= |s| && a <= b <= hi - lo
    ensures s[lo..hi][a..b] == s[lo + a..lo + b]
  {
    assert forall i :: 0 <= i < b - a ==> s[lo..hi][a..b][i] == s[lo + a + i];
  }
}
