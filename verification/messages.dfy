/** The messages exchanged with the trusted application: how the driver lays a request
    out in the parameter buffer, how the application reads it back, and the layouts of
    the results (authvars_test/host/edk2_driver/UEFIVarServices.h). The structures are
    those of the 32-bit target: wchar_t has 4 bytes, so the name of a GET parameter is
    at byte 24 of 28, the payload of a SET parameter at byte 40 of 44, and the data of a
    GET result at byte 12 of 16. */
module Messages {
  import opened Bytes
  import opened WideStrings
  import opened Guids
  import opened VariableStore

  const GET_PARAM_SIZE: nat := 28
  const SET_PARAM_SIZE: nat := 44
  const GET_RESULT_SIZE: nat := 16
  const NEXT_RESULT_SIZE: nat := 28
  const QUERY_PARAM_SIZE: nat := 8
  const QUERY_RESULT_SIZE: nat := 32

  const NAME_AT: nat := 24
  const PAYLOAD_AT: nat := 40
  const DATA_AT: nat := 12

  /** The size TaOpenSession gives both buffers: the larger of the two variable size
      limits plus the largest parameter structure. */
  const BUFFER_SIZE: nat := 0x8000 + SET_PARAM_SIZE

  // ---- requests, as the driver fills them in over the old contents of the buffer ----

  /** GET and GETNEXT parameters. */
  function FillNameParam(b: seq<u8>, nameSize: u16, guid: Guid, name: seq<u32>): (r: seq<u8>)
    requires NAME_AT + 2 * (|name| + 1) <= |b|
    ensures |r| == |b|
  {
    var b1 := Splice(b, 0, Le32(GET_PARAM_SIZE));
    var b2 := Splice(b1, 4, Le16(nameSize));
    var b3 := Splice(b2, 8, GuidBytes(guid));
    Narrowed(b3, NAME_AT, name)
  }

  /** The fixed fields of SET parameters, in the order the driver stores them. */
  function SetHeader(b: seq<u8>, nameSize: u16, attributes: u32, dataSize: u32, guid: Guid): (r: seq<u8>)
    requires PAYLOAD_AT <= |b|
    ensures |r| == |b|
  {
    var b1 := Splice(b, 0, Le32(SET_PARAM_SIZE));
    var b2 := Splice(b1, 4, Le16(nameSize));
    var b3 := Splice(b2, 24, Le32(attributes));
    var b4 := Splice(b3, 28, Le32(dataSize));
    var b5 := Splice(b4, 32, Le32(0));
    var b6 := Splice(b5, 36, Le32(nameSize));
    Splice(b6, 8, GuidBytes(guid))
  }

  /** SET parameters: the name slot is followed by the data slot. */
  function FillSetParam(b: seq<u8>, nameSize: nat, attributes: u32, guid: Guid, name: seq<u32>, data: seq<u8>)
    : (r: seq<u8>)
    requires 2 * (|name| + 1) <= nameSize < 0x1_0000 && |data| < 0x1_0000_0000
    requires PAYLOAD_AT + nameSize + |data| <= |b|
    ensures |r| == |b|
  {
    var named := Narrowed(SetHeader(b, nameSize, attributes, |data|, guid), PAYLOAD_AT, name);
    Splice(named, PAYLOAD_AT + nameSize, data)
  }

  function FillQueryParam(b: seq<u8>, attributes: u32): (r: seq<u8>)
    requires QUERY_PARAM_SIZE <= |b|
    ensures |r| == |b|
  {
    Splice(Splice(b, 0, Le32(QUERY_PARAM_SIZE)), 4, Le32(attributes))
  }

  // ---- requests, as the trusted application reads them ----

  datatype NameRequest = NameRequest(nameSize: u16, key: Key)
  datatype SetRequest = SetRequest(key: Key, attributes: u32, data: seq<u8>)

  function ParseNameRequest(b: seq<u8>): Option<NameRequest> {
    if |b| < GET_PARAM_SIZE || NAME_AT + U16(b, 4) > |b| then None
    else Some(NameRequest(U16(b, 4), Key(NarrowString(b[NAME_AT..NAME_AT + U16(b, 4)]), ReadGuid(b, 8))))
  }

  function ParseSetRequest(b: seq<u8>): Option<SetRequest> {
    if |b| < SET_PARAM_SIZE then None
    else
      var nameAt := PAYLOAD_AT + U32(b, 32);
      var dataAt := PAYLOAD_AT + U32(b, 36);
      if nameAt + U16(b, 4) > |b| || dataAt + U32(b, 28) > |b| then None
      else Some(SetRequest(Key(NarrowString(b[nameAt..nameAt + U16(b, 4)]), ReadGuid(b, 8)),
                           U32(b, 24),
                           b[dataAt..dataAt + U32(b, 28)]))
  }

  function ParseQueryRequest(b: seq<u8>): Option<u32> {
    if |b| < QUERY_PARAM_SIZE then None else Some(U32(b, 4))
  }

  // ---- results ----

  function GetResult(e: Entry): (b: seq<u8>)
    requires |e.data| < 0x1_0000_0000
    ensures |b| == DATA_AT + |e.data|
  {
    Le32(GET_RESULT_SIZE) + (Le32(e.attributes) + (Le32(|e.data|) + e.data))
  }

  /** The size covers exactly the 16-bit name with its terminator. */
  function NextResult(k: Key): (b: seq<u8>)
    requires |k.name| <= 0x7FFE
    ensures |b| == NAME_AT + 2 * (|k.name| + 1)
  {
    Le32(NEXT_RESULT_SIZE) + (Le16(2 * (|k.name| + 1)) + ([0, 0] + (GuidBytes(k.guid) + Enc16(k.name + [0]))))
  }

  function QueryResult(maximum: u64, remaining: u64, largest: u64): (b: seq<u8>)
    ensures |b| == QUERY_RESULT_SIZE
  {
    Le32(QUERY_RESULT_SIZE) + (Fill(4, 0) + (Le64(maximum) + (Le64(remaining) + Le64(largest))))
  }

  /** The key under which the application files a variable named by the client. */
  function KeyOf(name: seq<u32>, guid: Guid): Key {
    Key(Cut(NarrowAll(name)), guid)
  }

  // ---- the layouts in numbers (authvars_test/host/edk2_driver/UEFIVarServices.h) ----

  /** A GET or GETNEXT request: its size, the size of the name, the GUID, the name. */
  lemma NameLayout(b: seq<u8>, nameSize: u16, guid: Guid, name: seq<u32>)
    requires 24 + 2 * (|name| + 1) <= |b|
    ensures var r := FillNameParam(b, nameSize, guid, name);
            && U32(r, 0) == 28 && U16(r, 4) == nameSize && Slot(r, 8, GuidBytes(guid))
            && Slot(r, 24, Enc16(NarrowAll(name) + [0]))
  {
    hide Splice, GuidBytes;
    var b1 := Splice(b, 0, Le32(GET_PARAM_SIZE));
    var b2 := Splice(b1, 4, Le16(nameSize));
    var b3 := Splice(b2, 8, GuidBytes(guid));
    var r := FillNameParam(b, nameSize, guid, name);
    SpliceFields(b, 0, Le32(GET_PARAM_SIZE));
    SpliceFields(b1, 4, Le16(nameSize));
    SpliceFields(b2, 8, GuidBytes(guid));
    SpliceFields(b3, 24, Enc16(NarrowAll(name) + [0]));
    ReadsLe32(r, 0, 28);
    ReadsLe16(r, 4, nameSize);
  }

  /** A SET request: its size, the size of the name, the GUID, the attributes, the size of
      the data, the offsets of name and data in the payload, and the payload. */
  lemma SetLayout(b: seq<u8>, nameSize: nat, attributes: u32, guid: Guid, name: seq<u32>, data: seq<u8>)
    requires 2 * (|name| + 1) <= nameSize < 0x1_0000 && |data| < 0x1_0000_0000
    requires 40 + nameSize + |data| <= |b|
    ensures var r := FillSetParam(b, nameSize, attributes, guid, name, data);
            && U32(r, 0) == 44 && U16(r, 4) == nameSize && Slot(r, 8, GuidBytes(guid))
            && U32(r, 24) == attributes && U32(r, 28) == |data| && U32(r, 32) == 0 && U32(r, 36) == nameSize
            && Slot(r, 40, Enc16(NarrowAll(name) + [0])) && Slot(r, 40 + nameSize, data)
  {
    hide Splice, GuidBytes, SetHeader;
    var r := FillSetParam(b, nameSize, attributes, guid, name, data);
    var h := SetHeader(b, nameSize, attributes, |data|, guid);
    var t := Enc16(NarrowAll(name) + [0]);
    SetParamFields(b, nameSize, attributes, guid, name, data);
    SetHeaderSize(b, nameSize, attributes, |data|, guid);
    SpliceFields(h, 40, t);
    SpliceFields(Splice(h, 40, t), 40 + nameSize, data);
    ReadsLe32(r, 0, 44);
    ReadsLe16(r, 4, nameSize);
    ReadsLe32(r, 24, attributes);
    ReadsLe32(r, 28, |data|);
    ReadsLe32(r, 32, 0);
    ReadsLe32(r, 36, nameSize);
  }

  lemma SetHeaderSize(b: seq<u8>, nameSize: u16, attributes: u32, dataSize: u32, guid: Guid)
    requires 40 <= |b|
    ensures Slot(SetHeader(b, nameSize, attributes, dataSize, guid), 0, Le32(44))
  {
    hide Splice, GuidBytes;
    var b1 := Splice(b, 0, Le32(SET_PARAM_SIZE));
    var b2 := Splice(b1, 4, Le16(nameSize));
    var b3 := Splice(b2, 24, Le32(attributes));
    var b4 := Splice(b3, 28, Le32(dataSize));
    var b5 := Splice(b4, 32, Le32(0));
    var b6 := Splice(b5, 36, Le32(nameSize));
    SpliceFields(b, 0, Le32(SET_PARAM_SIZE));
    SpliceFields(b1, 4, Le16(nameSize));
    SpliceFields(b2, 24, Le32(attributes));
    SpliceFields(b3, 28, Le32(dataSize));
    SpliceFields(b4, 32, Le32(0));
    SpliceFields(b5, 36, Le32(nameSize));
    SpliceFields(b6, 8, GuidBytes(guid));
  }

  /** A QUERY request: its size and the attributes. */
  lemma QueryLayout(b: seq<u8>, attributes: u32)
    requires 8 <= |b|
    ensures var r := FillQueryParam(b, attributes);
            U32(r, 0) == 8 && U32(r, 4) == attributes
  {
    hide Splice;
    var b1 := Splice(b, 0, Le32(8));
    SpliceFields(b, 0, Le32(8));
    SpliceFields(b1, 4, Le32(attributes));
    ReadsLe32(FillQueryParam(b, attributes), 0, 8);
    ReadsLe32(FillQueryParam(b, attributes), 4, attributes);
  }

  // ---- the application reads what the driver wrote ----

  /** A GET or GETNEXT request is read back as the caller's name and GUID, whatever the
      buffer held before; an announced size of zero stands for "no name". */
  lemma ReadsNameRequest(b: seq<u8>, nameSize: u16, guid: Guid, name: seq<u32>, n: nat)
    requires nameSize == 0 || 2 * (|name| + 1) <= nameSize
    requires NAME_AT + 2 * (|name| + 1) <= n <= |b| && NAME_AT + nameSize <= n && GET_PARAM_SIZE <= n
    ensures ParseNameRequest(FillNameParam(b, nameSize, guid, name)[..n])
            == Some(NameRequest(nameSize, if nameSize == 0 then Key([], guid) else KeyOf(name, guid)))
  {
    hide Splice, Le16, Le32, GuidBytes, U16, Enc16, NarrowAll, Cut;
    var b1 := Splice(b, 0, Le32(GET_PARAM_SIZE));
    var b2 := Splice(b1, 4, Le16(nameSize));
    var b3 := Splice(b2, 8, GuidBytes(guid));
    var t := Enc16(NarrowAll(name) + [0]);
    var r := Splice(b3, NAME_AT, t);
    SpliceFields(b1, 4, Le16(nameSize));
    SpliceFields(b2, 8, GuidBytes(guid));
    SpliceFields(b3, NAME_AT, t);
    SlotInPrefix(r, n, 4, Le16(nameSize));
    SlotInPrefix(r, n, 8, GuidBytes(guid));
    ReadsLe16(r[..n], 4, nameSize);
    ReadsGuid(r[..n], 8, guid);
    if nameSize != 0 {
      NameSlot(r, n, NAME_AT, nameSize, NarrowAll(name), t);
    }
  }

  /** The characters found in a name slot that starts with an encoded string. */
  lemma NameSlot(b: seq<u8>, n: nat, at: nat, size: nat, s: seq<u16>, t: seq<u8>)
    requires t == Enc16(s + [0]) && Slot(b, at, t)
    requires |t| <= size && at + size <= n <= |b|
    ensures NarrowString(b[..n][at..at + size]) == Cut(s)
  {
    var rest := SlotRest(b, n, at, size, t);
    NarrowRoundTrip(s, rest);
  }

  lemma SlotRest(b: seq<u8>, n: nat, at: nat, size: nat, t: seq<u8>) returns (rest: seq<u8>)
    requires Slot(b, at, t) && |t| <= size && at + size <= n <= |b|
    ensures b[..n][at..at + size] == t + rest
  {
    rest := b[at + |t|..at + size];
    assert b[..n][at..at + size] == b[at..at + |t|] + rest;
  }

  /** The fields of a SET parameter, where the layout puts them. */
  ghost predicate HasSetFields(r: seq<u8>, nameSize: u16, attributes: u32, guid: Guid, name: seq<u32>, data: seq<u8>)
    requires |data| < 0x1_0000_0000
  {
    && Slot(r, 4, Le16(nameSize)) && Slot(r, 8, GuidBytes(guid)) && Slot(r, 24, Le32(attributes))
    && Slot(r, 28, Le32(|data|)) && Slot(r, 32, Le32(0)) && Slot(r, 36, Le32(nameSize))
    && Slot(r, PAYLOAD_AT, Enc16(NarrowAll(name) + [0])) && Slot(r, PAYLOAD_AT + nameSize, data)
  }

  /** A SET request is read back as the caller's name, GUID, attributes and data. */
  lemma ReadsSetRequest(b: seq<u8>, nameSize: nat, attributes: u32, guid: Guid, name: seq<u32>, data: seq<u8>, n: nat)
    requires 2 * (|name| + 1) <= nameSize < 0x1_0000 && |data| < 0x1_0000_0000
    requires PAYLOAD_AT + nameSize + |data| <= n <= |b| && SET_PARAM_SIZE <= n
    ensures ParseSetRequest(FillSetParam(b, nameSize, attributes, guid, name, data)[..n])
            == Some(SetRequest(KeyOf(name, guid), attributes, data))
  {
    SetParamFields(b, nameSize, attributes, guid, name, data);
    ReadsSetFields(FillSetParam(b, nameSize, attributes, guid, name, data), n, nameSize, attributes, guid, name, data);
  }

  lemma ReadsSetFields(r: seq<u8>, n: nat, nameSize: u16, attributes: u32, guid: Guid, name: seq<u32>, data: seq<u8>)
    requires 2 * (|name| + 1) <= nameSize && |data| < 0x1_0000_0000
    requires PAYLOAD_AT + nameSize + |data| <= n <= |r| && SET_PARAM_SIZE <= n
    requires HasSetFields(r, nameSize, attributes, guid, name, data)
    ensures ParseSetRequest(r[..n]) == Some(SetRequest(KeyOf(name, guid), attributes, data))
  {
    hide Le16, Le32, GuidBytes, U16, U32, ReadGuid, NarrowString, Enc16, NarrowAll, Cut, ParseSetRequest;
    ReadsSetHeader(r, n, nameSize, attributes, guid, |data|);
    SlotInPrefix(r, n, PAYLOAD_AT + nameSize, data);
    NameSlot(r, n, PAYLOAD_AT, nameSize, NarrowAll(name), Enc16(NarrowAll(name) + [0]));
    ParsesSetFields(r[..n], nameSize, attributes, KeyOf(name, guid), data);
  }

  lemma ParsesSetFields(b: seq<u8>, nameSize: nat, attributes: u32, key: Key, data: seq<u8>)
    requires SET_PARAM_SIZE <= |b| && PAYLOAD_AT + nameSize + |data| <= |b|
    requires U16(b, 4) == nameSize && ReadGuid(b, 8) == key.guid && U32(b, 24) == attributes
    requires U32(b, 28) == |data| && U32(b, 32) == 0 && U32(b, 36) == nameSize
    requires NarrowString(b[PAYLOAD_AT..PAYLOAD_AT + nameSize]) == key.name
    requires Slot(b, PAYLOAD_AT + nameSize, data)
    ensures ParseSetRequest(b) == Some(SetRequest(key, attributes, data))
  {}

  lemma ReadsSetHeader(r: seq<u8>, n: nat, nameSize: u16, attributes: u32, guid: Guid, dataSize: u32)
    requires Slot(r, 4, Le16(nameSize)) && Slot(r, 8, GuidBytes(guid)) && Slot(r, 24, Le32(attributes))
    requires Slot(r, 28, Le32(dataSize)) && Slot(r, 32, Le32(0)) && Slot(r, 36, Le32(nameSize))
    requires PAYLOAD_AT <= n <= |r|
    ensures U16(r[..n], 4) == nameSize && ReadGuid(r[..n], 8) == guid && U32(r[..n], 24) == attributes
    ensures U32(r[..n], 28) == dataSize && U32(r[..n], 32) == 0 && U32(r[..n], 36) == nameSize
  {
    SlotInPrefix(r, n, 4, Le16(nameSize));
    SlotInPrefix(r, n, 8, GuidBytes(guid));
    ReadsLe16(r[..n], 4, nameSize);
    ReadsGuid(r[..n], 8, guid);
    ReadsPrefix32(r, n, 24, attributes);
    ReadsPrefix32(r, n, 28, dataSize);
    ReadsPrefix32(r, n, 32, 0);
    ReadsPrefix32(r, n, 36, nameSize);
  }

  lemma ReadsPrefix32(r: seq<u8>, n: nat, at: nat, v: u32)
    requires Slot(r, at, Le32(v)) && at + 4 <= n <= |r|
    ensures U32(r[..n], at) == v
  {}

  lemma SetHeaderFields(b: seq<u8>, nameSize: u16, attributes: u32, dataSize: u32, guid: Guid)
    requires PAYLOAD_AT <= |b|
    ensures var r := SetHeader(b, nameSize, attributes, dataSize, guid);
            && Slot(r, 4, Le16(nameSize)) && Slot(r, 8, GuidBytes(guid)) && Slot(r, 24, Le32(attributes))
            && Slot(r, 28, Le32(dataSize)) && Slot(r, 32, Le32(0)) && Slot(r, 36, Le32(nameSize))
            && forall at: nat, t: seq<u8> {:trigger Slot(r, at, t)} :: PAYLOAD_AT <= at && Slot(b, at, t) ==>
               Slot(r, at, t)
  {
    var b1 := Splice(b, 0, Le32(SET_PARAM_SIZE));
    var b2 := Splice(b1, 4, Le16(nameSize));
    var b3 := Splice(b2, 24, Le32(attributes));
    var b4 := Splice(b3, 28, Le32(dataSize));
    var b5 := Splice(b4, 32, Le32(0));
    var b6 := Splice(b5, 36, Le32(nameSize));
    SpliceFields(b, 0, Le32(SET_PARAM_SIZE));
    SpliceFields(b1, 4, Le16(nameSize));
    SpliceFields(b2, 24, Le32(attributes));
    SpliceFields(b3, 28, Le32(dataSize));
    SpliceFields(b4, 32, Le32(0));
    SpliceFields(b5, 36, Le32(nameSize));
    SpliceFields(b6, 8, GuidBytes(guid));
  }

  lemma SetParamFields(b: seq<u8>, nameSize: nat, attributes: u32, guid: Guid, name: seq<u32>, data: seq<u8>)
    requires 2 * (|name| + 1) <= nameSize < 0x1_0000 && |data| < 0x1_0000_0000
    requires PAYLOAD_AT + nameSize + |data| <= |b|
    ensures HasSetFields(FillSetParam(b, nameSize, attributes, guid, name, data), nameSize, attributes, guid, name,
                         data)
  {
    var h := SetHeader(b, nameSize, attributes, |data|, guid);
    var t := Enc16(NarrowAll(name) + [0]);
    SetHeaderFields(b, nameSize, attributes, |data|, guid);
    SpliceFields(h, PAYLOAD_AT, t);
    SpliceFields(Splice(h, PAYLOAD_AT, t), PAYLOAD_AT + nameSize, data);
  }

  /** Both query fields are overwritten, so old contents cannot show through. */
  lemma ReadsQueryRequest(b: seq<u8>, attributes: u32)
    requires QUERY_PARAM_SIZE <= |b|
    ensures ParseQueryRequest(FillQueryParam(b, attributes)[..QUERY_PARAM_SIZE]) == Some(attributes)
  {
    var b1 := Splice(b, 0, Le32(QUERY_PARAM_SIZE));
    SpliceSlot(b1, 4, Le32(attributes));
    ReadsPrefix32(FillQueryParam(b, attributes), QUERY_PARAM_SIZE, 4, attributes);
  }

  // ---- what the requests leave of the old buffer ----

  /** The name slot of GET and SET is twice as long as the 16-bit name. The units after the
      terminator are those the buffer held before: they are zero exactly if it was cleared. */
  lemma NamePaddingIsOldContents(b: seq<u8>, nameSize: u16, guid: Guid, name: seq<u32>, i: nat)
    requires NAME_AT + 2 * (|name| + 1) <= i < |b|
    ensures FillNameParam(b, nameSize, guid, name)[i] == b[i]
  {
    var b1 := Splice(b, 0, Le32(GET_PARAM_SIZE));
    var b2 := Splice(b1, 4, Le16(nameSize));
    var b3 := Splice(b2, 8, GuidBytes(guid));
    SpliceIs(b, 0, Le32(GET_PARAM_SIZE));
    SpliceIs(b1, 4, Le16(nameSize));
    SpliceIs(b2, 8, GuidBytes(guid));
    SpliceIs(b3, NAME_AT, Enc16(NarrowAll(name) + [0]));
  }

  lemma SetPaddingIsOldContents(b: seq<u8>, nameSize: nat, attributes: u32, guid: Guid, name: seq<u32>, data: seq<u8>,
                                i: nat)
    requires 2 * (|name| + 1) <= nameSize < 0x1_0000 && |data| < 0x1_0000_0000
    requires PAYLOAD_AT + nameSize + |data| <= |b|
    requires PAYLOAD_AT + 2 * (|name| + 1) <= i < PAYLOAD_AT + nameSize
    ensures FillSetParam(b, nameSize, attributes, guid, name, data)[i] == b[i]
  {
    var h := SetHeader(b, nameSize, attributes, |data|, guid);
    var t := Enc16(NarrowAll(name) + [0]);
    SetHeaderFields(b, nameSize, attributes, |data|, guid);
    SpliceFields(h, PAYLOAD_AT, t);
    SpliceFields(Splice(h, PAYLOAD_AT, t), PAYLOAD_AT + nameSize, data);
    assert Slot(b, i, [b[i]]);
    SlotByte(FillSetParam(b, nameSize, attributes, guid, name, data), i, [b[i]], 0);
  }

  // ---- the driver reads what the application wrote ----

  lemma ReadsGetResult(b: seq<u8>, e: Entry)
    requires |e.data| < 0x1_0000_0000 && |GetResult(e)| <= |b|
    ensures var r := Splice(b, 0, GetResult(e));
            U32(r, 4) == e.attributes && U32(r, 8) == |e.data| && r[DATA_AT..DATA_AT + |e.data|] == e.data
  {
    var r := Splice(b, 0, GetResult(e));
    SpliceSlot(b, 0, GetResult(e));
    SlotPart(r, 0, Le32(GET_RESULT_SIZE), Le32(e.attributes) + (Le32(|e.data|) + e.data));
    SlotPart(r, 4, Le32(e.attributes), Le32(|e.data|) + e.data);
    SlotPart(r, 8, Le32(|e.data|), e.data);
    ReadsLe32(r, 4, e.attributes);
    ReadsLe32(r, 8, |e.data|);
  }

  lemma ReadsNextResult(b: seq<u8>, k: Key)
    requires ValidName(k.name) && |NextResult(k)| <= |b|
    ensures var r := Splice(b, 0, NextResult(k));
            && U16(r, 4) == 2 * (|k.name| + 1) && ReadGuid(r, 8) == k.guid
            && NarrowString(r[NAME_AT..]) == k.name && NarrowTerminated(r[NAME_AT..])
  {
    var t := Enc16(k.name + [0]);
    SpliceSlot(b, 0, NextResult(k));
    NextResultSlots(Splice(b, 0, NextResult(k)), Le16(2 * (|k.name| + 1)), GuidBytes(k.guid), t);
    ReadsLe16(Splice(b, 0, NextResult(k)), 4, 2 * (|k.name| + 1));
    ReadsGuid(Splice(b, 0, NextResult(k)), 8, k.guid);
    StringAt(Splice(b, 0, NextResult(k)), NAME_AT, k.name, t);
  }

  lemma NextResultSlots(r: seq<u8>, size: seq<u8>, guid: seq<u8>, name: seq<u8>)
    requires |size| == 2 && |guid| == 16
    requires Slot(r, 0, Le32(NEXT_RESULT_SIZE) + (size + ([0, 0] + (guid + name))))
    ensures Slot(r, 4, size) && Slot(r, 8, guid) && Slot(r, NAME_AT, name)
  {}

  lemma StringAt(r: seq<u8>, at: nat, s: seq<u16>, t: seq<u8>)
    requires t == Enc16(s + [0]) && Slot(r, at, t) && 0 !in s
    ensures NarrowString(r[at..]) == s && NarrowTerminated(r[at..])
  {
    var rest := r[at + |t|..];
    assert r[at..] == r[at..at + |t|] + rest;
    NarrowRoundTrip(s, rest);
  }

  lemma ReadsQueryResult(b: seq<u8>, maximum: u64, remaining: u64, largest: u64)
    requires QUERY_RESULT_SIZE <= |b|
    ensures var r := Splice(b, 0, QueryResult(maximum, remaining, largest));
            U64(r, 8) == maximum && U64(r, 16) == remaining && U64(r, 24) == largest
  {
    var r := Splice(b, 0, QueryResult(maximum, remaining, largest));
    SpliceSlot(b, 0, QueryResult(maximum, remaining, largest));
    SlotPart(r, 0, Le32(QUERY_RESULT_SIZE), Fill(4, 0) + (Le64(maximum) + (Le64(remaining) + Le64(largest))));
    SlotPart(r, 4, Fill(4, 0), Le64(maximum) + (Le64(remaining) + Le64(largest)));
    SlotPart(r, 8, Le64(maximum), Le64(remaining) + Le64(largest));
    SlotPart(r, 16, Le64(remaining), Le64(largest));
    ReadsLe64(r, 8, maximum);
    ReadsLe64(r, 16, remaining);
    ReadsLe64(r, 24, largest);
  }
}
