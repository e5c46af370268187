/** The variable services as the client programs use them, through the gRT table
    (authvars_test/host/edk2_driver/AuthVarsDxe.c:1558-1561): calls that own their
    string and data buffers and go through the driver. Their contracts no longer
    mention bytes, only the ordered map. */
module RuntimeServices {
  import opened Bytes
  import opened WideStrings
  import opened Guids
  import opened VariableStore
  import opened Messages
  import opened OpteeDriver
  import opened Spec = DriverSpec

  /** A driver after a successful initialisation. */
  ghost predicate Ready(d: Driver)
    reads d
  {
    d.Valid() && d.mTeecSessionOpened
  }

  lemma ReadyIsValid(d: Driver)
    requires Ready(d)
    ensures VariableStore.Valid(d.store)
  {}

  method AllocateString(s: seq<u32>) returns (a: array<u8>)
    requires 0 !in s
    ensures fresh(a) && a.Length == StrSize(s)
    ensures WideTerminated(a[..]) && WideString(a[..]) == s
  {
    var bytes := Enc32(s + [0]);
    a := new u8[|bytes|](i requires 0 <= i < |bytes| => bytes[i]);
    assert a[..] == bytes + [];
    WideRoundTrip(s, []);
  }

  /** What a Get answers through the driver: the hook its session id, otherwise the map. */
  function GetAnswerOf(s: Store, sessionId: u32, name: seq<u32>, guid: Guid, room: u32): GetReturn
    requires VariableStore.Valid(s)
  {
    if IsHook(name, guid, room) then GetReturn(EfiSuccess, None, Some(room), Le32(sessionId))
    else MapGet(s, name, guid, room)
  }

  lemma GetAnswerFits(s: Store, sessionId: u32, name: seq<u32>, guid: Guid, room: u32)
    requires VariableStore.Valid(s)
    ensures var r := GetAnswerOf(s, sessionId, name, guid, room);
            r.dataSize.Some? && |r.data| <= room && (r.status == EfiSuccess ==> r.dataSize == Some(|r.data|))
  {}

  /** The specification of the driver's Get, in an open session, is that answer. */
  lemma GetIsAnswer(st: DriverState, name: seq<u32>, guid: Guid, room: u32, hasData: bool)
    requires ValidState(st) && st.open && IsCString(name) && (room != 0 ==> hasData)
    ensures var (st', r) := Spec.GetVariable(st, Some(name), Some(guid), Some(room), hasData);
            r == GetAnswerOf(st.store, st.sessionId, name, guid, room) && st'.store == st.store
              && st'.sessionId == st.sessionId && st'.open
  {
    if !IsHook(name, guid, room) {
      GetStepRefines(st, Some(name), Some(guid), Some(room), hasData);
    }
  }

  /** GetVariable into the caller's own buffer. */
  method CallGet(d: Driver, name: seq<u32>, guid: Guid, room: u32, data: array?<u8>)
    returns (status: Status, attributes: Option<u32>, newSize: u32)
    requires Ready(d) && IsCString(name)
    requires data != d.mVariableParamMem && data != d.mVariableResultMem
    requires room != 0 ==> data != null
    requires data != null ==> room <= data.Length
    modifies d, d.mVariableParamMem, d.mVariableResultMem, data
    ensures Ready(d) && d.store == old(d.store) && d.sessionId == old(d.sessionId)
    ensures var r := GetAnswerOf(d.store, d.sessionId, name, guid, room);
            && status == r.status && attributes == r.attributes && Some(newSize) == r.dataSize
            && (data != null ==> |r.data| <= data.Length && data[..] == Splice(old(data[..]), 0, r.data))
  {
    hide MapGet, GetAnswerOf, Spec.GetVariable, VariableStore.Valid;
    var a := AllocateString(name);
    ghost var before := d.State();
    GetIsAnswer(before, name, guid, room, data != null);
    GetAnswerFits(before.store, before.sessionId, name, guid, room);
    var size;
    ghost var copied;
    status, attributes, size, copied := d.GetVariable(a, Some(guid), Some(room), data);
    assert GetReturn(status, attributes, size, copied) == GetAnswerOf(before.store, before.sessionId, name, guid, room);
    newSize := size.value;
  }

  method GetVariable(d: Driver, name: seq<u32>, guid: Guid, room: u32) returns (r: GetReturn)
    requires Ready(d) && IsCString(name) && !IsHook(name, guid, room)
    modifies d, d.mVariableParamMem, d.mVariableResultMem
    ensures Ready(d) && d.store == old(d.store)
    ensures r == MapGet(d.store, name, guid, room)
  {
    hide MapGet, VariableStore.Valid;
    var data: array?<u8> := null;
    if room != 0 {
      data := new u8[room](_ => 0);
    }
    ghost var contents: seq<u8> := if data == null then [] else data[..];
    var status, attributes, newSize := CallGet(d, name, guid, room, data);
    ghost var answer := GetAnswerOf(d.store, d.sessionId, name, guid, room);
    GetAnswerFits(d.store, d.sessionId, name, guid, room);
    NoDataUnlessSuccess(d.store, name, guid, room);
    var bytes := [];
    if data != null && status == EfiSuccess {
      assert data[..newSize] == answer.data by { SpliceHead(contents, answer.data); }
      bytes := data[..newSize];
    }
    return GetReturn(status, attributes, Some(newSize), bytes);
  }

  lemma NoDataUnlessSuccess(s: Store, name: seq<u32>, guid: Guid, room: u32)
    requires VariableStore.Valid(s)
    ensures MapGet(s, name, guid, room).status != EfiSuccess || room == 0 ==> MapGet(s, name, guid, room).data == []
  {}

  /** What a Set does to the store, and its answer: an empty name is refused before
      anything else, the hook only takes the session id, any other call updates the map. */
  function SetAnswerOf(s: Store, name: seq<u32>, guid: Guid, attributes: u32, data: seq<u8>): (r: (Store, Status))
    requires VariableStore.Valid(s) && |data| < 0x1_0000_0000
    ensures VariableStore.Valid(r.0)
  {
    MapSetKeepsValid(s, name, guid, attributes, data);
    if name == [] then (s, EfiInvalidParameter)
    else if IsHook(name, guid, |data|) then (s, EfiSuccess)
    else MapSet(s, name, guid, attributes, data)
  }

  /** The specification of the driver's Set, in an open session, does that. */
  lemma SetIsAnswer(st: DriverState, name: seq<u32>, guid: Guid, attributes: u32, data: seq<u8>, bytes: Option<seq<u8>>)
    requires ValidState(st) && st.open && IsCString(name) && |data| < 0x1_0000_0000
    requires bytes == if data == [] then None else Some(data)
    ensures var (st', status) := Spec.SetVariable(st, Some(name), Some(guid), attributes, |data|, bytes);
            && (st'.store, status) == SetAnswerOf(st.store, name, guid, attributes, data) && st'.open
            && st'.sessionId == if IsHook(name, guid, |data|) then U32(data, 0) else st.sessionId
  {
    hide VariableStore.Valid;
    if !IsHook(name, guid, |data|) {
      SetStepRefines(st, Some(name), Some(guid), attributes, |data|, bytes);
    }
  }

  method SetVariable(d: Driver, name: seq<u32>, guid: Guid, attributes: u32, data: seq<u8>) returns (status: Status)
    requires Ready(d) && IsCString(name) && |data| < 0x1_0000_0000
    modifies d, d.mVariableParamMem, d.mVariableResultMem
    ensures Ready(d)
    ensures (d.store, status) == SetAnswerOf(old(d.store), name, guid, attributes, data)
    ensures d.sessionId == if IsHook(name, guid, |data|) then U32(data, 0) else old(d.sessionId)
  {
    hide SetAnswerOf, MapSet, Spec.SetVariable, VariableStore.Valid;
    var a := AllocateString(name);
    var bytes: array?<u8> := null;
    if data != [] {
      bytes := new u8[|data|](i requires 0 <= i < |data| => data[i]);
      assert bytes[..|data|] == data;
    }
    ghost var before := d.State();
    SetIsAnswer(before, name, guid, attributes, data, if bytes == null then None else Some(data));
    status := d.SetVariable(a, Some(guid), attributes, |data|, bytes);
  }

  method QueryVariableInfo(d: Driver, attributes: u32) returns (r: QueryReturn)
    requires Ready(d)
    modifies d, d.mVariableParamMem, d.mVariableResultMem
    ensures Ready(d) && d.store == old(d.store)
    ensures r == MapQuery(d.store, attributes)
  {
    QueryRefines(d.State(), attributes);
    r := d.QueryVariableInfo(attributes, true);
  }

  // ---- walking the store ----

  /** The cursor (name, guid) has i variables behind it. */
  ghost predicate AtPosition(s: Store, name: seq<u32>, guid: Guid, i: nat) {
    && i <= |s.order|
    && if name == [] then i == 0 else i > 0 && KeyOf(name, guid) == s.order[i - 1]
  }

  /** The wide name under which GetNextVariableName reports a key leads back to it. */
  lemma ReportedNameFindsKey(k: Key)
    requires ValidName(k.name)
    ensures KeyOf(WidenAll(k.name), k.guid) == k && WidenAll(k.name) != [] && 0 !in WidenAll(k.name)
  {
    WidenThenNarrowAll(k.name);
  }

  lemma IndexAt(order: seq<Key>, i: nat)
    requires Distinct(order) && i < |order|
    ensures IndexOf(order, order[i]) == i
  {}

  lemma NextAtPosition(s: Store, nameSize: u32, name: seq<u32>, guid: Guid, i: nat)
    requires VariableStore.Valid(s) && AtPosition(s, name, guid, i) && NextFits(name, nameSize)
    ensures i == |s.order| ==> MapNext(s, nameSize, name, guid) == NextReturn(EfiNotFound, nameSize, None, Some(guid))
    ensures i < |s.order| ==>
              var k := s.order[i];
              MapNext(s, nameSize, name, guid) ==
              if WideSize(k) / 2 > nameSize / 2 then NextReturn(EfiBufferTooSmall, WideSize(k), None, Some(guid))
              else NextReturn(EfiSuccess, WideSize(k), Some(WidenAll(k.name)), Some(k.guid))
  {
    if i > 0 {
      IndexAt(s.order, i - 1);
    }
  }

  /** GetNextVariableName on the caller's own buffer, as the map answers it. */
  method CallNext(d: Driver, nameSize: u32, name: array<u8>, guid: Guid)
    returns (status: Status, newSize: u32, newGuid: Guid)
    requires Ready(d) && name != d.mVariableParamMem && name != d.mVariableResultMem
    requires WideTerminated(name[..]) && nameSize <= name.Length < 0x1_0000_0000
    modifies d, d.mVariableParamMem, d.mVariableResultMem, name
    ensures Ready(d) && d.store == old(d.store) && WideTerminated(name[..])
    ensures var r := MapNext(d.store, nameSize, old(WideString(name[..])), guid);
            && status == r.status && newSize == r.nameSize && Some(newGuid) == r.guid
            && (r.name.None? ==> name[..] == old(name[..]))
            && (r.name.Some? ==> newSize <= nameSize && WideString(name[..]) == r.name.value)
    ensures d.reported == old(d.reported) + if status == EfiSuccess then [KeyOf(WideString(name[..]), newGuid)] else []
  {
    hide WideString, Enc32, MapNext, VariableStore.Valid, Spec.GetNextVariableName;
    ghost var s, bytes, store := WideString(name[..]), name[..], d.store;
    NextStepRefines(d.State(), nameSize, Some(s), Some(guid));
    ghost var r := MapNext(store, nameSize, s, guid);
    NextSucceeds(store, nameSize, s, guid);
    var g;
    status, newSize, g := d.GetNextVariableName(nameSize, name, Some(guid));
    newGuid := g.value;
    if r.name.Some? {
      ReportedName(store, nameSize, s, guid);
      StoredString(bytes, r.name.value, Enc32(r.name.value + [0]));
    }
  }

  lemma NextSucceeds(s: Store, nameSize: u32, name: seq<u32>, guid: Guid)
    requires VariableStore.Valid(s)
    ensures var r := MapNext(s, nameSize, name, guid);
            r.guid.Some? && (r.name.Some? ==> r.nameSize <= nameSize)
  {}

  lemma ReportedName(s: Store, nameSize: u32, name: seq<u32>, guid: Guid)
    requires VariableStore.Valid(s) && MapNext(s, nameSize, name, guid).name.Some?
    ensures 0 !in MapNext(s, nameSize, name, guid).name.value
  {
    var k := Next(s, CursorOf(name, guid)).value;
    assert k in s.vars;
    ReportedNameFindsKey(k);
  }

  /** GetNextVariableName called with a cursor that has i variables behind it: the next
      variable is the i-th, the cursor moves to it on success and stays otherwise. */
  method GetNextVariableName(d: Driver, nameSize: u32, name: array<u8>, guid: Guid, ghost i: nat)
    returns (status: Status, newSize: u32, newGuid: Guid)
    requires Ready(d) && name != d.mVariableParamMem && name != d.mVariableResultMem
    requires WideTerminated(name[..]) && nameSize <= name.Length < 0x1_0000_0000
    requires AtPosition(d.store, WideString(name[..]), guid, i)
    modifies d, d.mVariableParamMem, d.mVariableResultMem, name
    ensures Ready(d) && d.store == old(d.store)
    ensures WideTerminated(name[..])
    ensures !NextFits(old(WideString(name[..])), nameSize) <==> status == EfiBadBufferSize
    ensures status == EfiBadBufferSize || status == EfiNotFound || status == EfiBufferTooSmall || status == EfiSuccess
    ensures status != EfiSuccess ==> name[..] == old(name[..]) && newGuid == guid
    ensures status == EfiNotFound ==> i == |d.store.order| && newSize == nameSize
    ensures status == EfiBufferTooSmall ==>
            i < |d.store.order| && newSize == WideSize(d.store.order[i]) && newSize / 2 > nameSize / 2
    ensures status == EfiSuccess ==>
              && i < |d.store.order| && newSize == WideSize(d.store.order[i]) <= nameSize
              && newGuid == d.store.order[i].guid && WideString(name[..]) == WidenAll(d.store.order[i].name)
              && AtPosition(d.store, WideString(name[..]), newGuid, i + 1)
    ensures d.reported == old(d.reported) + if status == EfiSuccess then [KeyOf(WideString(name[..]), newGuid)] else []
  {
    ghost var s := WideString(name[..]);
    if NextFits(s, nameSize) {
      NextAtPosition(d.store, nameSize, s, guid, i);
    }
    status, newSize, newGuid := CallNext(d, nameSize, name, guid);
    if status == EfiSuccess {
      assert d.store.order[i] in d.store.vars;
      ReportedNameFindsKey(d.store.order[i]);
    }
  }
}
