/** GUIDs and their 16-byte memory layout (authvars_test/host/edk2/uefi_types.h). */
module Guids {
  import opened Bytes

  datatype GuidFields = GuidFields(data1: u32, data2: u16, data3: u16, data4: seq<u8>)
  type Guid = g: GuidFields | |g.data4| == 8 witness GuidFields(0, 0, 0, [0, 0, 0, 0, 0, 0, 0, 0])

  const EMPTY_GUID: Guid := GuidFields(0, 0, 0, [0, 0, 0, 0, 0, 0, 0, 0])

  function GuidBytes(g: Guid): (b: seq<u8>)
    ensures |b| == 16
  {
    Le32(g.data1) + (Le16(g.data2) + (Le16(g.data3) + g.data4))
  }

  function ReadGuid(b: seq<u8>, at: nat): Guid
    requires at + 16 <= |b|
  {
    GuidFields(U32(b, at), U16(b, at + 4), U16(b, at + 6), b[at + 8..at + 16])
  }

  /** The bytes of the global variable GUID, as every machine stores them. */
  lemma GlobalGuidBytes()
    ensures GuidBytes(GuidFields(0x8BE4DF61, 0x93CA, 0x11D2, [0xAA, 0x0D, 0x00, 0xE0, 0x98, 0x03, 0x2B, 0x8C]))
            == [0x61, 0xDF, 0xE4, 0x8B, 0xCA, 0x93, 0xD2, 0x11, 0xAA, 0x0D, 0x00, 0xE0, 0x98, 0x03, 0x2B, 0x8C]
  {}

  lemma ReadsGuid(b: seq<u8>, at: nat, g: Guid)
    requires Slot(b, at, GuidBytes(g))
    ensures ReadGuid(b, at) == g
  {}
}
