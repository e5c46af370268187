/** Names of the variables that the programs create under fixed names. */
module VarNames {
  import opened Bytes
  import opened WideStrings
  import opened Guids
  import opened VariableStore
  import opened Messages

  /** The characters of an L"..." literal. */
  function Literal(s: string): (r: seq<u32>)
    ensures |r| == |s| && forall i :: 0 <= i < |s| ==> r[i] == s[i] as int
  {
    seq(|s|, i requires 0 <= i < |s| => s[i] as int)
  }

  /** TestVendorGuid. */
  const TEST_GUID: Guid := GuidFields(0x1FE7ACE3, 0xC36D, 0x4CA7, [0xB4, 0xEA, 0x70, 0xFF, 0x5A, 0xDF, 0x97, 0xDC])

  datatype VarName = VarName(name: seq<u32>, guid: Guid) {
    function Key(): Key { KeyOf(name, guid) }
  }

  /** A short plain name. */
  predicate Plain(v: VarName) {
    && v.name != [] && v.name[0] != 1 && |v.name| <= 0x20
    && AllFit(v.name) && 0 !in v.name
  }

  /** Different plain names are different variables. */
  lemma PlainKeys(v: VarName, w: VarName)
    requires Plain(v) && Plain(w)
    ensures ValidName(v.Key().name)
    ensures v.Key() == w.Key() <==> v == w
  {
    NoNulls(v.name);
    NoNulls(w.name);
    NarrowThenWidenAll(v.name);
    NarrowThenWidenAll(w.name);
    assert v.Key().name == NarrowAll(v.name) && w.Key().name == NarrowAll(w.name);
  }

  lemma PlainLiteral(s: string, guid: Guid)
    requires 0 < |s| <= 0x20 && forall i :: 0 <= i < |s| ==> 1 < s[i] as int < 0x8000
    ensures Plain(VarName(Literal(s), guid))
  {}
}
