/** What the driver's entry points compute, twice: on bytes, through the two shared
    buffers and the trusted application, and on the plain ordered map. The lemmas say
    that the two agree, call by call and over every sequence of calls. */
module DriverSpec {
  import opened Bytes
  import opened WideStrings
  import opened Guids
  import opened VariableStore
  import opened Messages
  import opened TrustedApp

  datatype Status = EfiSuccess | EfiInvalidParameter | EfiBadBufferSize | EfiBufferTooSmall | EfiNotReady
                  | EfiOutOfResources | EfiNotFound | EfiProtocolError | EfiSecurityViolation

  /** The status mapping of OpteeRuntimeVariableInvokeCommand. */
  function StatusOf(code: TeecResult): Status {
    match code
    case Success => EfiSuccess
    case ItemNotFound => EfiNotFound
    case ShortBuffer => EfiBufferTooSmall
    case OutOfMemory => EfiOutOfResources
    case AccessDenied => EfiSecurityViolation
    case BadParameters => EfiProtocolError
  }

  /** Both buffers, the session, and the store on the far side of the session. */
  datatype DriverState = DriverState(param: seq<u8>, result: seq<u8>, open: bool, sessionId: u32, store: Store)

  ghost predicate ValidState(st: DriverState) {
    |st.param| == BUFFER_SIZE && |st.result| == BUFFER_SIZE && Valid(st.store)
  }

  /** attributes: the value stored through the Attributes pointer, if any;
      dataSize: the value of *DataSize afterwards; data: the bytes copied to Data. */
  datatype GetReturn = GetReturn(status: Status, attributes: Option<u32>, dataSize: Option<u32>, data: seq<u8>)

  /** name: the string written back to VariableName, if any. */
  datatype NextReturn = NextReturn(status: Status, nameSize: u32, name: Option<seq<u32>>, guid: Option<Guid>)

  datatype QueryReturn = QueryReturn(status: Status, info: Option<(u64, u64, u64)>)

  /** Unsigned 32-bit addition. */
  function Add32(a: u32, b: u32): u32 { (a + b) % 0x1_0000_0000 }

  /** The two size tests of Get and GetNext: each part alone, then the 32-bit sums.
      The first test keeps the sums from wrapping. */
  predicate SizesFit(paramHead: u32, paramTail: u32, resultHead: u32, resultTail: u32)
    requires paramHead <= BUFFER_SIZE && resultHead <= BUFFER_SIZE
    ensures SizesFit(paramHead, paramTail, resultHead, resultTail)
            <==> paramHead + paramTail <= BUFFER_SIZE && resultHead + resultTail <= BUFFER_SIZE
                 && paramTail < BUFFER_SIZE && resultTail < BUFFER_SIZE
  {
    && !(paramTail >= BUFFER_SIZE || resultTail >= BUFFER_SIZE)
    && !(Add32(paramHead, paramTail) > BUFFER_SIZE || Add32(resultHead, resultTail) > BUFFER_SIZE)
  }

  /** The size tests of Set, where name and data share the parameter buffer. */
  predicate SetSizeFits(nameSize: u32, dataSize: u32)
    ensures SetSizeFits(nameSize, dataSize) <==> SET_PARAM_SIZE + nameSize + dataSize <= BUFFER_SIZE
  {
    && !(nameSize >= BUFFER_SIZE || dataSize >= BUFFER_SIZE)
    && !(Add32(Add32(SET_PARAM_SIZE, nameSize), dataSize) > BUFFER_SIZE)
  }

  /** The test hook that both Get and Set have: such calls carry a session id. */
  predicate IsHook(name: seq<u32>, guid: Guid, dataSize: u32) {
    name != [] && name[0] == 1 && guid.data1 == 1 && dataSize == 4
  }

  /** A string that exists in the memory of a 32-bit target. */
  predicate IsCString(name: seq<u32>) { 0 !in name && StrSize(name) < 0x1_0000_0000 }

  const ZEROED: seq<u8> := Fill(BUFFER_SIZE, 0)

  // ---- GetVariable ----

  function GetVariable(st: DriverState, name: Option<seq<u32>>, guid: Option<Guid>, dataSize: Option<u32>,
                       hasData: bool)
    : (r: (DriverState, GetReturn))
    requires ValidState(st) && (name.Some? ==> IsCString(name.value))
    ensures |r.0.param| == BUFFER_SIZE && |r.0.result| == BUFFER_SIZE
  {
    if name.None? || guid.None? || dataSize.None? || (dataSize.value != 0 && !hasData) then
      (st, GetReturn(EfiInvalidParameter, None, dataSize, []))
    else if IsHook(name.value, guid.value, dataSize.value) then
      (st, GetReturn(EfiSuccess, None, dataSize, Le32(st.sessionId)))
    else if !st.open then
      (st, GetReturn(EfiNotReady, None, dataSize, []))
    else if !SizesFit(GET_PARAM_SIZE, StrSize(name.value), GET_RESULT_SIZE, dataSize.value) then
      (st, GetReturn(EfiBadBufferSize, None, dataSize, []))
    else
      ExchangeGet(st, name.value, guid.value, dataSize.value)
  }

  predicate GetFits(name: seq<u32>, dataSize: nat) {
    GET_PARAM_SIZE + StrSize(name) <= BUFFER_SIZE && GET_RESULT_SIZE + dataSize <= BUFFER_SIZE
  }

  /** The parameter buffer when the command is invoked. */
  function GetParam(name: seq<u32>, guid: Guid): (r: seq<u8>)
    requires GetFits(name, 0)
    ensures |r| == BUFFER_SIZE
  {
    FillNameParam(ZEROED, StrSize(name), guid, name)
  }

  function ExchangeGet(st: DriverState, name: seq<u32>, guid: Guid, dataSize: u32): (r: (DriverState, GetReturn))
    requires ValidState(st) && GetFits(name, dataSize)
    ensures |r.0.param| == BUFFER_SIZE && |r.0.result| == BUFFER_SIZE
  {
    var param := GetParam(name, guid);
    var (store, reply) :=
      InvokeCommand(st.store, VSGetOp, param[..GET_PARAM_SIZE + StrSize(name)], GET_RESULT_SIZE + dataSize);
    var result := Splice(ZEROED, 0, reply.output);
    (st.(param := param, result := result, store := store), FinishGet(reply, result, dataSize))
  }

  /** What makes up an exchange, for a driver that has its pieces. */
  lemma ExchangeGetIs(st: DriverState, name: seq<u32>, guid: Guid, dataSize: u32, st': DriverState, reply: Reply)
    requires ValidState(st) && GetFits(name, dataSize)
    requires st' == st.(param := GetParam(name, guid), result := st'.result, store := st'.store)
    requires (st'.store, reply)
             == InvokeCommand(st.store, VSGetOp, st'.param[..GET_PARAM_SIZE + StrSize(name)],
                              GET_RESULT_SIZE + dataSize)
    requires st'.result == Splice(ZEROED, 0, reply.output)
    ensures ExchangeGet(st, name, guid, dataSize) == (st', FinishGet(reply, st'.result, dataSize))
  {
    hide InvokeCommand, FinishGet, GetParam;
  }

  /** What Get reports once the trusted application has answered. */
  function FinishGet(reply: Reply, result: seq<u8>, dataSize: u32): GetReturn
    requires |result| == BUFFER_SIZE && GET_RESULT_SIZE + dataSize <= BUFFER_SIZE
    requires reply.code == ShortBuffer ==> GET_RESULT_SIZE <= reply.resultSize
  {
    var status := StatusOf(reply.code);
    var attributes := Some(U32(result, 4));
    var actual := U32(result, 8);
    if status == EfiBufferTooSmall then GetReturn(status, attributes, Some(reply.resultSize - GET_RESULT_SIZE), [])
    else if status != EfiSuccess then GetReturn(status, attributes, Some(dataSize), [])
    else if actual > dataSize then GetReturn(EfiBadBufferSize, attributes, Some(actual), [])
    else GetReturn(status, attributes, Some(actual), result[DATA_AT..DATA_AT + actual])
  }

  /** GetVariable on the map, with the size limits of the transport. */
  function MapGet(s: Store, name: seq<u32>, guid: Guid, dataSize: u32): GetReturn
    requires Valid(s)
  {
    var k := KeyOf(name, guid);
    if !GetFits(name, dataSize) then GetReturn(EfiBadBufferSize, None, Some(dataSize), [])
    else if k !in s.vars then GetReturn(EfiNotFound, Some(0), Some(dataSize), [])
    else
      EntryFits(s.order, s.vars, k);
      var e := s.vars[k];
      if |e.data| > dataSize then GetReturn(EfiBufferTooSmall, Some(0), Some(|e.data|), [])
      else GetReturn(EfiSuccess, Some(e.attributes), Some(|e.data|), e.data)
  }

  lemma ExchangeGetRefines(st: DriverState, name: seq<u32>, guid: Guid, dataSize: u32)
    requires ValidState(st) && GetFits(name, dataSize)
    ensures ExchangeGet(st, name, guid, dataSize).1 == MapGet(st.store, name, guid, dataSize)
    ensures ExchangeGet(st, name, guid, dataSize).0.store == st.store
  {
    var q := NameRequest(StrSize(name), KeyOf(name, guid));
    ReadsNameRequest(ZEROED, StrSize(name), guid, name, GET_PARAM_SIZE + StrSize(name));
    assert InvokeCommand(st.store, VSGetOp, GetParam(name, guid)[..GET_PARAM_SIZE + StrSize(name)],
                         GET_RESULT_SIZE + dataSize)
           == (st.store, RunGet(st.store, q, GET_RESULT_SIZE + dataSize));
    GetReplyRefines(st.store, StrSize(name), name, guid, dataSize);
  }

  lemma GetReplyRefines(s: Store, nameSize: u16, name: seq<u32>, guid: Guid, dataSize: u32)
    requires Valid(s) && GetFits(name, dataSize)
    ensures var reply := RunGet(s, NameRequest(nameSize, KeyOf(name, guid)), GET_RESULT_SIZE + dataSize);
            FinishGet(reply, Splice(ZEROED, 0, reply.output), dataSize) == MapGet(s, name, guid, dataSize)
  {
    var k := KeyOf(name, guid);
    EmptyOutput();
    if k in s.vars {
      EntryFits(s.order, s.vars, k);
      if |s.vars[k].data| <= dataSize {
        ReadsGetResult(ZEROED, s.vars[k]);
      }
    }
  }

  lemma EmptyOutput()
    ensures Splice(ZEROED, 0, []) == ZEROED && U32(ZEROED, 4) == 0
  {}

  // ---- GetNextVariableName ----

  /** The size announced for the cursor name: zero asks for the first variable. */
  function CursorSize(name: seq<u32>): nat {
    if name == [] then 0 else StrSize(name) / 2
  }

  predicate NextFits(name: seq<u32>, nameSize: nat) {
    && GET_PARAM_SIZE + CursorSize(name) <= BUFFER_SIZE
    && NEXT_RESULT_SIZE + nameSize / 2 <= BUFFER_SIZE
  }

  function GetNextVariableName(st: DriverState, nameSize: u32, name: Option<seq<u32>>, guid: Option<Guid>)
    : (r: (DriverState, NextReturn))
    requires ValidState(st) && (name.Some? ==> IsCString(name.value))
    ensures |r.0.param| == BUFFER_SIZE && |r.0.result| == BUFFER_SIZE
  {
    if name.None? || guid.None? then
      (st, NextReturn(EfiInvalidParameter, nameSize, None, guid))
    else if !st.open then
      (st, NextReturn(EfiNotReady, nameSize, None, guid))
    else if !SizesFit(GET_PARAM_SIZE, CursorSize(name.value), NEXT_RESULT_SIZE, nameSize / 2) then
      (st, NextReturn(EfiBadBufferSize, nameSize, None, guid))
    else
      ExchangeNext(st, nameSize, name.value, guid.value)
  }

  /** The parameter buffer when the command is invoked: nothing has cleared it. */
  function NextParam(b: seq<u8>, name: seq<u32>, guid: Guid): (r: seq<u8>)
    requires |b| == BUFFER_SIZE && NextFits(name, 0)
    ensures |r| == BUFFER_SIZE
  {
    FillNameParam(b, CursorSize(name), guid, name)
  }

  function ExchangeNext(st: DriverState, nameSize: u32, name: seq<u32>, guid: Guid): (r: (DriverState, NextReturn))
    requires ValidState(st) && NextFits(name, nameSize)
    ensures |r.0.param| == BUFFER_SIZE && |r.0.result| == BUFFER_SIZE
  {
    var param := NextParam(st.param, name, guid);
    var (store, reply) :=
      InvokeCommand(st.store, VSGetNextVarOp, param[..GET_PARAM_SIZE + CursorSize(name)],
                    NEXT_RESULT_SIZE + nameSize / 2);
    var result := Splice(st.result, 0, reply.output);
    (st.(param := param, result := result, store := store), FinishNext(reply, result, nameSize, guid))
  }

  lemma ExchangeNextIs(st: DriverState, nameSize: u32, name: seq<u32>, guid: Guid, st': DriverState, reply: Reply)
    requires ValidState(st) && NextFits(name, nameSize)
    requires st' == st.(param := NextParam(st.param, name, guid), result := st'.result, store := st'.store)
    requires (st'.store, reply)
             == InvokeCommand(st.store, VSGetNextVarOp, st'.param[..GET_PARAM_SIZE + CursorSize(name)],
                              NEXT_RESULT_SIZE + nameSize / 2)
    requires st'.result == Splice(st.result, 0, reply.output)
    ensures ExchangeNext(st, nameSize, name, guid) == (st', FinishNext(reply, st'.result, nameSize, guid))
  {
    hide InvokeCommand, FinishNext, NextParam;
  }

  function FinishNext(reply: Reply, result: seq<u8>, nameSize: u32, guid: Guid): NextReturn
    requires |result| == BUFFER_SIZE
    requires reply.code == ShortBuffer ==> NEXT_RESULT_SIZE <= reply.resultSize < NEXT_RESULT_SIZE + 0x1_0000
  {
    var status := StatusOf(reply.code);
    var actual := U16(result, 4);
    if status == EfiBufferTooSmall then NextReturn(status, (reply.resultSize - NEXT_RESULT_SIZE) * 2, None, Some(guid))
    else if status != EfiSuccess then NextReturn(status, nameSize, None, Some(guid))
    else if actual > nameSize / 2 then NextReturn(EfiBadBufferSize, actual * 2, None, Some(guid))
    else NextReturn(status, actual * 2, Some(WidenAll(NarrowString(result[NAME_AT..]))), Some(ReadGuid(result, 8)))
  }

  function CursorOf(name: seq<u32>, guid: Guid): Cursor {
    if name == [] then Start else After(KeyOf(name, guid))
  }

  /** The bytes a name takes in the client's memory. */
  function WideSize(k: Key): nat { 4 * (|k.name| + 1) }

  /** GetNextVariableName on the map, with the size limits of the transport. */
  function MapNext(s: Store, nameSize: u32, name: seq<u32>, guid: Guid): NextReturn
    requires Valid(s)
  {
    var cursor := CursorOf(name, guid);
    if !NextFits(name, nameSize) then NextReturn(EfiBadBufferSize, nameSize, None, Some(guid))
    else if cursor.After? && cursor.key !in s.order then NextReturn(EfiProtocolError, nameSize, None, Some(guid))
    else
      match Next(s, cursor)
      case None => NextReturn(EfiNotFound, nameSize, None, Some(guid))
      case Some(k) =>
        assert k in s.vars;
        if WideSize(k) / 2 > nameSize / 2 then NextReturn(EfiBufferTooSmall, WideSize(k), None, Some(guid))
        else NextReturn(EfiSuccess, WideSize(k), Some(WidenAll(k.name)), Some(k.guid))
  }

  lemma ExchangeNextRefines(st: DriverState, nameSize: u32, name: seq<u32>, guid: Guid)
    requires ValidState(st) && NextFits(name, nameSize)
    ensures ExchangeNext(st, nameSize, name, guid).1 == MapNext(st.store, nameSize, name, guid)
    ensures ExchangeNext(st, nameSize, name, guid).0.store == st.store
  {
    hide VariableStore.Valid, FinishNext, RunNext, MapNext, FillNameParam, ParseNameRequest, KeyOf;
    var size := CursorSize(name);
    var q := NameRequest(size, if size == 0 then Key([], guid) else KeyOf(name, guid));
    ReadsNameRequest(st.param, size, guid, name, GET_PARAM_SIZE + size);
    assert InvokeCommand(st.store, VSGetNextVarOp, NextParam(st.param, name, guid)[..GET_PARAM_SIZE + size],
                         NEXT_RESULT_SIZE + nameSize / 2)
           == (st.store, RunNext(st.store, q, NEXT_RESULT_SIZE + nameSize / 2));
    NextReplyRefines(st.store, st.result, q, nameSize, name, guid);
  }

  lemma NextFound(b: seq<u8>, k: Key, size: u32, nameSize: u32, guid: Guid)
    requires |b| == BUFFER_SIZE && ValidName(k.name) && |NextResult(k)| <= |b| && WideSize(k) / 2 <= nameSize / 2
    ensures FinishNext(Reply(Success, size, NextResult(k)), Splice(b, 0, NextResult(k)), nameSize, guid)
            == NextReturn(EfiSuccess, WideSize(k), Some(WidenAll(k.name)), Some(k.guid))
  {
    ReadsNextResult(b, k);
    hide U16, NarrowString, ReadGuid, NextResult, WidenAll, ValidName;
  }

  lemma NextReplyRefines(s: Store, b: seq<u8>, q: NameRequest, nameSize: u32, name: seq<u32>, guid: Guid)
    requires Valid(s) && |b| == BUFFER_SIZE && NextFits(name, nameSize)
    requires q.nameSize == CursorSize(name) && (name != [] ==> q.key == KeyOf(name, guid))
    ensures var reply := RunNext(s, q, NEXT_RESULT_SIZE + nameSize / 2);
            FinishNext(reply, Splice(b, 0, reply.output), nameSize, guid) == MapNext(s, nameSize, name, guid)
  {
    hide FinishNext, VariableStore.Valid, NextResult, IndexOf, KeyOf;
    var reply := RunNext(s, q, NEXT_RESULT_SIZE + nameSize / 2);
    assert CursorOf(name, guid) == if q.nameSize == 0 then Start else After(q.key);
    if reply.code == Success {
      var k := Next(s, CursorOf(name, guid)).value;
      NextIsValid(s, CursorOf(name, guid));
      NextFound(b, k, reply.resultSize, nameSize, guid);
    } else {
      NextFails(reply, Splice(b, 0, reply.output), nameSize, guid);
    }
  }

  lemma NextIsValid(s: Store, cursor: Cursor)
    requires Valid(s) && (cursor.After? ==> cursor.key in s.order)
    ensures Next(s, cursor).Some? ==> ValidName(Next(s, cursor).value.name)
  {
    if Next(s, cursor).Some? {
      assert Next(s, cursor).value in s.vars;
    }
  }

  lemma NextFails(reply: Reply, result: seq<u8>, nameSize: u32, guid: Guid)
    requires |result| == BUFFER_SIZE && reply.code != Success
    requires reply.code == ShortBuffer ==> NEXT_RESULT_SIZE <= reply.resultSize < NEXT_RESULT_SIZE + 0x1_0000
    ensures FinishNext(reply, result, nameSize, guid)
            == NextReturn(StatusOf(reply.code),
                          if reply.code == ShortBuffer then (reply.resultSize - NEXT_RESULT_SIZE) * 2 else nameSize,
                          None, Some(guid))
  {}

  /** After a successful reply the result buffer holds a terminated 16-bit name that
      takes exactly the announced bytes. */
  ghost predicate HoldsString(reply: Reply, result: seq<u8>)
    requires |result| == BUFFER_SIZE
  {
    reply.code == Success ==>
      NarrowTerminated(result[NAME_AT..]) && U16(result, 4) == 2 * (|NarrowString(result[NAME_AT..])| + 1)
  }

  lemma NextReplyString(st: DriverState, nameSize: u32, name: seq<u32>, guid: Guid)
    requires ValidState(st) && NextFits(name, nameSize)
    ensures var request := NextParam(st.param, name, guid)[..GET_PARAM_SIZE + CursorSize(name)];
            var (_, reply) := InvokeCommand(st.store, VSGetNextVarOp, request, NEXT_RESULT_SIZE + nameSize / 2);
            HoldsString(reply, Splice(st.result, 0, reply.output))
  {
    var q := ParseNameRequest(NextParam(st.param, name, guid)[..GET_PARAM_SIZE + CursorSize(name)]);
    if q.Some? {
      NextResultString(st.store, q.value, st.result, NEXT_RESULT_SIZE + nameSize / 2);
    }
  }

  lemma NextResultString(s: Store, q: NameRequest, b: seq<u8>, room: nat)
    requires Valid(s) && room <= |b| == BUFFER_SIZE
    ensures HoldsString(RunNext(s, q, room), Splice(b, 0, RunNext(s, q, room).output))
  {
    hide IndexOf, U16, NarrowString, NextResult, ReadGuid, Splice;
    if q.nameSize == 0 || q.key in s.order {
      var next := Next(s, if q.nameSize == 0 then Start else After(q.key));
      if next.Some? && NEXT_RESULT_SIZE + 2 * (|next.value.name| + 1) <= room {
        assert next.value in s.vars;
        ReadsNextResult(b, next.value);
      }
    }
  }

  // ---- SetVariable ----

  predicate SetFits(name: seq<u32>, dataSize: nat) {
    SET_PARAM_SIZE + StrSize(name) + dataSize <= BUFFER_SIZE
  }

  function SetVariable(st: DriverState, name: Option<seq<u32>>, guid: Option<Guid>, attributes: u32, dataSize: u32,
                       data: Option<seq<u8>>)
    : (r: (DriverState, Status))
    requires ValidState(st) && (name.Some? ==> IsCString(name.value)) && (data.Some? ==> |data.value| == dataSize)
    ensures |r.0.param| == BUFFER_SIZE && |r.0.result| == BUFFER_SIZE
  {
    if name.None? || name.value == [] || guid.None? || (dataSize != 0 && data.None?) then
      (st, EfiInvalidParameter)
    else if !st.open then
      (st, EfiNotReady)
    else if IsHook(name.value, guid.value, dataSize) then
      (st.(sessionId := U32(data.value, 0)), EfiSuccess)
    else if !SetSizeFits(StrSize(name.value), dataSize) then
      (st, EfiBadBufferSize)
    else
      ExchangeSet(st, name.value, guid.value, attributes, if data.Some? then data.value else [])
  }

  function SetParam(name: seq<u32>, guid: Guid, attributes: u32, data: seq<u8>): (r: seq<u8>)
    requires SetFits(name, |data|)
    ensures |r| == BUFFER_SIZE
  {
    FillSetParam(ZEROED, StrSize(name), attributes, guid, name, data)
  }

  function ExchangeSet(st: DriverState, name: seq<u32>, guid: Guid, attributes: u32, data: seq<u8>)
    : (r: (DriverState, Status))
    requires ValidState(st) && SetFits(name, |data|)
    ensures |r.0.param| == BUFFER_SIZE && |r.0.result| == BUFFER_SIZE
  {
    var param := SetParam(name, guid, attributes, data);
    var (store, reply) := InvokeCommand(st.store, VSSetOp, param[..SET_PARAM_SIZE + StrSize(name) + |data|], 4);
    (st.(param := param, result := Splice(ZEROED, 0, reply.output), store := store), StatusOf(reply.code))
  }

  /** SetVariable on the map, with the size limit of the transport. */
  function MapSet(s: Store, name: seq<u32>, guid: Guid, attributes: u32, data: seq<u8>): (Store, Status)
    requires Valid(s)
  {
    if !SetFits(name, |data|) then (s, EfiBadBufferSize)
    else
      var (s', code) := Set(s, KeyOf(name, guid), attributes, data);
      (s', StatusOf(code))
  }

  /** No access attribute, or no data outside an append, asks for deletion. */
  predicate Deletes(attributes: u32, data: seq<u8>) {
    !Accessible(StoredAttributes(attributes)) || (data == [] && !HasBit(attributes, APPEND_WRITE))
  }

  /** What a Set of the modelled application does, by cases a caller can tell beforehand. A
      failed one changes nothing, and each failure has its exact condition; a successful
      one removes the variable, or leaves exactly its new contents and nothing else changed. */
  lemma SetEffect(s: Store, name: seq<u32>, guid: Guid, attributes: u32, data: seq<u8>)
    requires Valid(s)
    ensures var k := KeyOf(name, guid);
            var (t, status) := MapSet(s, name, guid, attributes, data);
            var fits := SetFits(name, |data|);
            var legal := k.name != [] && attributes <= KNOWN_ATTRIBUTES;
            var plain := fits && legal && !Authenticated(attributes);
            var differs := k in s.vars && s.vars[k].attributes != StoredAttributes(attributes);
            var append := HasBit(attributes, APPEND_WRITE);
            var kept := if append && k in s.vars then s.vars[k].data else [];
            && (status != EfiSuccess ==> t == s) && t.capacity == s.capacity
            && (status == EfiBadBufferSize <==> !fits)
            && (status == EfiSecurityViolation <==> fits && legal && Authenticated(attributes))
            && (status == EfiNotFound <==> plain && k !in s.vars && Deletes(attributes, data))
            && (status == EfiProtocolError <==> (fits && !legal) || (plain && !Deletes(attributes, data) && differs))
            && (status == EfiOutOfResources <==>
                  && plain && !Deletes(attributes, data) && !differs
                  && |data| > Remaining(s) + if append then 0 else SizeOf(s, k))
            && (status == EfiSuccess && Deletes(attributes, data) ==>
                k in s.vars && k !in t.vars && t.vars == s.vars - {k})
            && (status == EfiSuccess && !Deletes(attributes, data) && kept + data != [] ==>
                  && t.vars == s.vars[k := Entry(StoredAttributes(attributes), kept + data)]
                  && t.order == if k in s.vars then s.order else s.order + [k])
            && (status == EfiSuccess && !Deletes(attributes, data) && kept + data == [] ==> t == s)
            && status in {EfiSuccess, EfiBadBufferSize, EfiSecurityViolation, EfiNotFound, EfiProtocolError,
                          EfiOutOfResources}
  {
    hide VariableStore.Valid, KeyOf;
    var k := KeyOf(name, guid);
    assert [] + data == data;
    if k in s.vars {
      PutSame(s, k);
      assert data == [] ==> s.vars[k].data + data == s.vars[k].data;
    }
  }

  /** A write with an authentication bit is refused, garbage under 0x27 in particular. */
  lemma AuthenticatedIsRefused(s: Store, name: seq<u32>, guid: Guid, attributes: u32, data: seq<u8>)
    requires Valid(s) && SetFits(name, |data|) && KeyOf(name, guid).name != [] && attributes < 0x80
    ensures MapSet(s, name, guid, attributes, data).1 == EfiSecurityViolation <==> attributes / 16 % 4 != 0
    ensures MapSet(s, name, guid, 0x27, data) == (s, EfiSecurityViolation)
  {
    hide VariableStore.Valid, KeyOf, MapSet, Authenticated;
    AttributeNumbers(attributes);
    AttributeNumbers(0x27);
    SetEffect(s, name, guid, attributes, data);
    SetEffect(s, name, guid, 0x27, data);
  }

  lemma ExchangeSetRefines(st: DriverState, name: seq<u32>, guid: Guid, attributes: u32, data: seq<u8>)
    requires ValidState(st) && SetFits(name, |data|)
    ensures ExchangeSet(st, name, guid, attributes, data).1 == MapSet(st.store, name, guid, attributes, data).1
    ensures ExchangeSet(st, name, guid, attributes, data).0.store == MapSet(st.store, name, guid, attributes, data).0
  {
    ReadsSetRequest(ZEROED, StrSize(name), attributes, guid, name, data, SET_PARAM_SIZE + StrSize(name) + |data|);
  }

  // ---- QueryVariableInfo ----

  function QueryVariableInfo(st: DriverState, attributes: u32, hasOut: bool): (r: (DriverState, QueryReturn))
    requires ValidState(st)
    ensures |r.0.param| == BUFFER_SIZE && |r.0.result| == BUFFER_SIZE
  {
    if !hasOut || attributes == 0 then (st, QueryReturn(EfiInvalidParameter, None))
    else if !st.open then (st, QueryReturn(EfiNotReady, None))
    else
      var param := FillQueryParam(st.param, attributes);
      var (store, reply) := InvokeCommand(st.store, VSQueryInfoOp, param[..QUERY_PARAM_SIZE], QUERY_RESULT_SIZE);
      var result := Splice(st.result, 0, reply.output);
      var status := StatusOf(reply.code);
      (st.(param := param, result := result, store := store),
       QueryReturn(status,
                   if status != EfiSuccess then None
                   else Some((U64(result, 8), U64(result, 16), U64(result, 24)))))
  }

  function MapQuery(s: Store, attributes: u32): QueryReturn
    requires Valid(s)
  {
    if attributes == 0 then QueryReturn(EfiInvalidParameter, None)
    else
      LargestFits(s.order, s.vars);
      QueryReturn(EfiSuccess, Some((s.capacity, Remaining(s), Largest(s.order, s.vars))))
  }

  lemma QueryRefines(st: DriverState, attributes: u32)
    requires ValidState(st) && st.open
    ensures QueryVariableInfo(st, attributes, true).1 == MapQuery(st.store, attributes)
    ensures QueryVariableInfo(st, attributes, true).0.store == st.store
  {
    ReadsQueryRequest(st.param, attributes);
    LargestFits(st.store.order, st.store.vars);
    ReadsQueryResult(st.result, st.store.capacity, Remaining(st.store), Largest(st.store.order, st.store.vars));
  }

  // ---- calls and runs ----

  datatype Call =
    | GetCall(name: Option<seq<u32>>, guid: Option<Guid>, room: Option<u32>, hasData: bool)
    | SetCall(name: Option<seq<u32>>, guid: Option<Guid>, attributes: u32, dataSize: u32, data: Option<seq<u8>>)
    | NextCall(nameSize: u32, name: Option<seq<u32>>, guid: Option<Guid>)
    | QueryCall(attributes: u32, hasOut: bool)

  datatype Answer =
    | GetAnswer(get: GetReturn)
    | SetAnswer(status: Status)
    | NextAnswer(next: NextReturn)
    | QueryAnswer(query: QueryReturn)

  /** What C callers always provide: terminated strings, and data of the announced size. */
  predicate ValidCall(c: Call) {
    match c
    case GetCall(name, _, _, _) => name.Some? ==> IsCString(name.value)
    case SetCall(name, _, _, dataSize, data) =>
      (name.Some? ==> IsCString(name.value)) && (data.Some? ==> |data.value| == dataSize)
    case NextCall(_, name, _) => name.Some? ==> IsCString(name.value)
    case QueryCall(_, _) => true
  }

  predicate HookCall(c: Call) {
    match c
    case GetCall(name, guid, room, _) =>
      name.Some? && guid.Some? && room.Some? && IsHook(name.value, guid.value, room.value)
    case SetCall(name, guid, _, dataSize, _) => name.Some? && guid.Some? && IsHook(name.value, guid.value, dataSize)
    case _ => false
  }

  function DriverStep(st: DriverState, c: Call): (DriverState, Answer)
    requires ValidState(st) && ValidCall(c)
  {
    match c
    case GetCall(name, guid, room, hasData) =>
      var r := GetVariable(st, name, guid, room, hasData);
      (r.0, GetAnswer(r.1))
    case SetCall(name, guid, attributes, dataSize, data) =>
      var r := SetVariable(st, name, guid, attributes, dataSize, data);
      (r.0, SetAnswer(r.1))
    case NextCall(nameSize, name, guid) =>
      var r := GetNextVariableName(st, nameSize, name, guid);
      (r.0, NextAnswer(r.1))
    case QueryCall(attributes, hasOut) =>
      var r := QueryVariableInfo(st, attributes, hasOut);
      (r.0, QueryAnswer(r.1))
  }

  /** The same calls on the plain map: no bytes, no buffers, no session. */
  function MapStep(s: Store, c: Call): (Store, Answer)
    requires Valid(s) && ValidCall(c)
  {
    match c
    case GetCall(name, guid, room, hasData) =>
      if name.None? || guid.None? || room.None? || (room.value != 0 && !hasData)
      then (s, GetAnswer(GetReturn(EfiInvalidParameter, None, room, [])))
      else (s, GetAnswer(MapGet(s, name.value, guid.value, room.value)))
    case SetCall(name, guid, attributes, dataSize, data) =>
      if name.None? || name.value == [] || guid.None? || (dataSize != 0 && data.None?)
      then (s, SetAnswer(EfiInvalidParameter))
      else
        var r := MapSet(s, name.value, guid.value, attributes, if data.Some? then data.value else []);
        (r.0, SetAnswer(r.1))
    case NextCall(nameSize, name, guid) =>
      if name.None? || guid.None? then (s, NextAnswer(NextReturn(EfiInvalidParameter, nameSize, None, guid)))
      else (s, NextAnswer(MapNext(s, nameSize, name.value, guid.value)))
    case QueryCall(attributes, hasOut) =>
      if !hasOut then (s, QueryAnswer(QueryReturn(EfiInvalidParameter, None)))
      else (s, QueryAnswer(MapQuery(s, attributes)))
  }

  /** One call through bytes, buffers and the trusted application is one call on the map. */
  lemma StepRefines(st: DriverState, c: Call)
    requires ValidState(st) && st.open && ValidCall(c) && !HookCall(c)
    ensures DriverStep(st, c).1 == MapStep(st.store, c).1
    ensures DriverStep(st, c).0.store == MapStep(st.store, c).0
    ensures ValidState(DriverStep(st, c).0) && DriverStep(st, c).0.open
  {
    match c
    case GetCall(name, guid, room, hasData) => GetStepRefines(st, name, guid, room, hasData);
    case SetCall(name, guid, attributes, dataSize, data) => SetStepRefines(st, name, guid, attributes, dataSize, data);
    case NextCall(nameSize, name, guid) => NextStepRefines(st, nameSize, name, guid);
    case QueryCall(attributes, hasOut) =>
      if hasOut {
        QueryRefines(st, attributes);
      }
  }

  lemma GetStepRefines(st: DriverState, name: Option<seq<u32>>, guid: Option<Guid>, room: Option<u32>, hasData: bool)
    requires ValidState(st) && st.open
    requires ValidCall(GetCall(name, guid, room, hasData)) && !HookCall(GetCall(name, guid, room, hasData))
    ensures var (st', r) := GetVariable(st, name, guid, room, hasData);
            GetAnswer(r) == MapStep(st.store, GetCall(name, guid, room, hasData)).1 && st'.store == st.store && st'.open
  {
    if name.Some? && guid.Some? && room.Some? && GetFits(name.value, room.value) {
      ExchangeGetRefines(st, name.value, guid.value, room.value);
    }
  }

  lemma NextStepRefines(st: DriverState, nameSize: u32, name: Option<seq<u32>>, guid: Option<Guid>)
    requires ValidState(st) && st.open && ValidCall(NextCall(nameSize, name, guid))
    ensures var (st', r) := GetNextVariableName(st, nameSize, name, guid);
            NextAnswer(r) == MapStep(st.store, NextCall(nameSize, name, guid)).1 && st'.store == st.store && st'.open
  {
    if name.Some? && guid.Some? && NextFits(name.value, nameSize) {
      ExchangeNextRefines(st, nameSize, name.value, guid.value);
    }
  }

  lemma SetStepRefines(st: DriverState, name: Option<seq<u32>>, guid: Option<Guid>, attributes: u32, dataSize: u32,
                       data: Option<seq<u8>>)
    requires ValidState(st) && st.open
    requires ValidCall(SetCall(name, guid, attributes, dataSize, data))
    requires !HookCall(SetCall(name, guid, attributes, dataSize, data))
    ensures var (st', r) := SetVariable(st, name, guid, attributes, dataSize, data);
            var m := MapStep(st.store, SetCall(name, guid, attributes, dataSize, data));
            SetAnswer(r) == m.1 && st'.store == m.0 && st'.open && Valid(m.0)
  {
    if name.Some? && guid.Some? && SetFits(name.value, dataSize) && (data.Some? || dataSize == 0) {
      var bytes := if data.Some? then data.value else [];
      ExchangeSetRefines(st, name.value, guid.value, attributes, bytes);
      MapSetKeepsValid(st.store, name.value, guid.value, attributes, bytes);
    }
  }

  lemma MapSetKeepsValid(s: Store, name: seq<u32>, guid: Guid, attributes: u32, data: seq<u8>)
    requires Valid(s)
    ensures Valid(MapSet(s, name, guid, attributes, data).0)
  {
    if SetFits(name, |data|) {
      SetKeepsValid(s, KeyOf(name, guid), attributes, data);
    }
  }

  function RunDriver(st: DriverState, calls: seq<Call>): (DriverState, seq<Answer>)
    requires ValidState(st) && st.open && forall c <- calls :: ValidCall(c) && !HookCall(c)
    decreases |calls|
  {
    if calls == [] then (st, [])
    else
      StepRefines(st, calls[0]);
      var (st1, a) := DriverStep(st, calls[0]);
      var (st2, rest) := RunDriver(st1, calls[1..]);
      (st2, [a] + rest)
  }

  function RunMap(s: Store, calls: seq<Call>): (Store, seq<Answer>)
    requires Valid(s) && forall c <- calls :: ValidCall(c)
    decreases |calls|
  {
    if calls == [] then (s, [])
    else
      MapStepKeepsValid(s, calls[0]);
      var (s1, a) := MapStep(s, calls[0]);
      var (s2, rest) := RunMap(s1, calls[1..]);
      (s2, [a] + rest)
  }

  lemma MapStepKeepsValid(s: Store, c: Call)
    requires Valid(s) && ValidCall(c)
    ensures Valid(MapStep(s, c).0)
  {
    if c.SetCall? && c.name.Some? && c.guid.Some? && (c.data.Some? || c.dataSize == 0) {
      MapSetKeepsValid(s, c.name.value, c.guid.value, c.attributes, if c.data.Some? then c.data.value else []);
    }
  }

  lemma {:induction false} RunKeepsValid(s: Store, calls: seq<Call>)
    requires Valid(s) && forall c <- calls :: ValidCall(c)
    ensures Valid(RunMap(s, calls).0)
    decreases |calls|
  {
    if calls == [] {
    } else {
      MapStepKeepsValid(s, calls[0]);
      RunKeepsValid(MapStep(s, calls[0]).0, calls[1..]);
    }
  }

  /** A run of calls makes them all, in order, and collects their answers. */
  lemma {:induction false} RunDriverAppends(st: DriverState, calls: seq<Call>, c: Call)
    requires ValidState(st) && st.open && forall d <- calls + [c] :: ValidCall(d) && !HookCall(d)
    ensures forall d <- calls :: d in calls + [c]
    ensures var (st1, answers) := RunDriver(st, calls);
            && |answers| == |calls| && ValidState(st1) && st1.open && ValidCall(c)
            && var (st2, a) := DriverStep(st1, c);
               RunDriver(st, calls + [c]) == (st2, answers + [a])
    decreases |calls|
  {
    hide DriverStep, MapStep, VariableStore.Valid, HookCall, ValidCall;
    assert forall d <- calls :: d in calls + [c];
    assert c in calls + [c];
    if calls == [] {
      assert calls + [c] == [c] && RunDriver(st, []) == (st, []);
      assert [] + [DriverStep(st, c).1] == [DriverStep(st, c).1];
      StepRefines(st, c);
      RunDriverOne(st, c);
    } else {
      StepRefines(st, calls[0]);
      assert (calls + [c])[1..] == calls[1..] + [c];
      var (st1, a) := DriverStep(st, calls[0]);
      RunDriverAppends(st1, calls[1..], c);
      Associative([a], RunDriver(st1, calls[1..]).1, [DriverStep(RunDriver(st1, calls[1..]).0, c).1]);
      assert (calls + [c])[0] == calls[0];
    }
  }

  lemma RunDriverOne(st: DriverState, c: Call)
    requires ValidState(st) && st.open && ValidCall(c) && !HookCall(c)
    ensures RunDriver(st, [c]) == (DriverStep(st, c).0, [DriverStep(st, c).1])
  {
    hide DriverStep, MapStep, VariableStore.Valid, HookCall, ValidCall;
    StepRefines(st, c);
    var t := DriverStep(st, c).0;
    assert [c][1..] == [] && RunDriver(t, []) == (t, []);
    assert [DriverStep(st, c).1] + [] == [DriverStep(st, c).1];
  }

  lemma {:induction false} RunMapAppends(s: Store, calls: seq<Call>, c: Call)
    requires Valid(s) && forall d <- calls + [c] :: ValidCall(d)
    ensures forall d <- calls :: d in calls + [c]
    ensures var (s1, answers) := RunMap(s, calls);
            && |answers| == |calls| && Valid(s1) && ValidCall(c)
            && var (s2, a) := MapStep(s1, c);
               RunMap(s, calls + [c]) == (s2, answers + [a])
    decreases |calls|
  {
    hide MapStep, VariableStore.Valid, ValidCall;
    assert forall d <- calls :: d in calls + [c];
    assert c in calls + [c];
    if calls == [] {
      var (t, a) := MapStep(s, c);
      assert calls + [c] == [c] && [c][1..] == [] && [a] + [] == [] + [a] == [a];
      MapStepKeepsValid(s, c);
      assert RunMap(s, []) == (s, []) && RunMap(t, []) == (t, []);
    } else {
      MapStepKeepsValid(s, calls[0]);
      assert (calls + [c])[1..] == calls[1..] + [c];
      var (s1, a) := MapStep(s, calls[0]);
      RunMapAppends(s1, calls[1..], c);
      Associative([a], RunMap(s1, calls[1..]).1, [MapStep(RunMap(s1, calls[1..]).0, c).1]);
      assert (calls + [c])[0] == calls[0];
    }
  }

  /** Refinement: over every sequence of calls, from any store and any leftover buffer
      contents, the driver gives the answers of the plain map and leaves its store. */
  lemma {:induction false} DriverRefinesMap(st: DriverState, calls: seq<Call>)
    requires ValidState(st) && st.open && forall c <- calls :: ValidCall(c) && !HookCall(c)
    ensures RunDriver(st, calls).1 == RunMap(st.store, calls).1
    ensures RunDriver(st, calls).0.store == RunMap(st.store, calls).0
    decreases |calls|
  {
    if calls == [] {
    } else {
      StepRefines(st, calls[0]);
      MapStepKeepsValid(st.store, calls[0]);
      DriverRefinesMap(DriverStep(st, calls[0]).0, calls[1..]);
    }
  }

  /** Leftover buffer contents never show in an answer or in the store, although GetNext
      and Query clear nothing. */
  lemma StaleBuffersDoNotShow(st: DriverState, st': DriverState, calls: seq<Call>)
    requires ValidState(st) && ValidState(st') && st.open && st'.open && st.store == st'.store
    requires forall c <- calls :: ValidCall(c) && !HookCall(c)
    ensures RunDriver(st, calls).1 == RunDriver(st', calls).1
    ensures RunDriver(st, calls).0.store == RunDriver(st', calls).0.store
  {
    DriverRefinesMap(st, calls);
    DriverRefinesMap(st', calls);
  }

  // ---- calls that never reach the trusted application ----

  function StatusIn(a: Answer): Status {
    match a
    case GetAnswer(r) => r.status
    case SetAnswer(status) => status
    case NextAnswer(r) => r.status
    case QueryAnswer(r) => r.status
  }

  /** A pointer that must not be NULL is, a name is empty, or no attributes are given. */
  predicate BadArguments(c: Call) {
    match c
    case GetCall(name, guid, room, hasData) =>
      name.None? || guid.None? || room.None? || (room.value != 0 && !hasData)
    case SetCall(name, guid, _, dataSize, data) =>
      name.None? || name.value == [] || guid.None? || (dataSize != 0 && data.None?)
    case NextCall(_, name, guid) => name.None? || guid.None?
    case QueryCall(attributes, hasOut) => attributes == 0 || !hasOut
  }

  /** With or without a session, exactly the calls with bad arguments are refused as
      invalid, and they change nothing. */
  lemma RefusesArguments(st: DriverState, c: Call)
    requires ValidState(st) && ValidCall(c)
    ensures StatusIn(DriverStep(st, c).1) == EfiInvalidParameter <==> BadArguments(c)
    ensures BadArguments(c) ==> DriverStep(st, c).0 == st
  {
    hide ExchangeGet, ExchangeNext, ExchangeSet, VariableStore.Valid, VariableStore.Set;
    if st.open && !HookCall(c) {
      StepRefines(st, c);
    }
  }

  /** Without a session, a call is refused for bad arguments or else as not ready, and
      nothing changes. */
  lemma ClosedDriverRefuses(st: DriverState, c: Call)
    requires ValidState(st) && !st.open && ValidCall(c) && !HookCall(c)
    ensures DriverStep(st, c).0 == st
    ensures var status := StatusIn(DriverStep(st, c).1);
            status == if BadArguments(c) then EfiInvalidParameter else EfiNotReady
  {}

  /** The session id that the Set hook injects is the one the Get hook reports; neither
      touches the store or the buffers. The hook is met by a name that starts with
      character 1, under a GUID that starts with 1, with four bytes. */
  lemma HookCarriesSessionId(st: DriverState, name: seq<u32>, guid: Guid, attributes: u32, id: seq<u8>)
    requires ValidState(st) && st.open && IsCString(name) && |id| == 4
    requires name != [] && name[0] == 1 && guid.data1 == 1
    ensures var (st', status) := SetVariable(st, Some(name), Some(guid), attributes, 4, Some(id));
            && status == EfiSuccess && st' == st.(sessionId := st'.sessionId)
            && GetVariable(st', Some(name), Some(guid), Some(4), true)
               == (st', GetReturn(EfiSuccess, None, Some(4), id))
  {
    Le32Bytes(id);
    assert id[..4] == id;
  }

  /** Every other call reaches the map. */
  lemma OtherCallsReachTheMap(st: DriverState, name: seq<u32>, guid: Guid, attributes: u32, data: seq<u8>)
    requires ValidState(st) && st.open && IsCString(name) && name != [] && |data| < 0x1_0000_0000
    requires name[0] != 1 || guid.data1 != 1 || |data| != 4
    ensures var (st', r) := GetVariable(st, Some(name), Some(guid), Some(|data|), true);
            r == MapGet(st.store, name, guid, |data|) && st'.store == st.store
    ensures var (st', status) := SetVariable(st, Some(name), Some(guid), attributes, |data|, Some(data));
            (st'.store, status) == MapSet(st.store, name, guid, attributes, data)
  {
    GetStepRefines(st, Some(name), Some(guid), Some(|data|), true);
    SetStepRefines(st, Some(name), Some(guid), attributes, |data|, Some(data));
    hide VariableStore.Valid, VariableStore.Set, GetVariable, SetVariable;
  }

  /** What a caller learns from Get: the exact size from every room that is too small,
      attributes and data from every room that holds them and fits the transport. */
  lemma GetEffect(s: Store, name: seq<u32>, guid: Guid, room: u32)
    requires Valid(s)
    ensures var r, k := MapGet(s, name, guid, room), KeyOf(name, guid);
            var fits := 4 * (|name| + 1) <= 0x8010 && room <= 0x801C;
            && (r.status == EfiBadBufferSize <==> !fits)
            && (r.status == EfiNotFound <==> fits && k !in s.vars)
            && (r.status == EfiBufferTooSmall <==> fits && k in s.vars && room < |s.vars[k].data|)
            && (r.status == EfiSuccess <==> fits && k in s.vars && |s.vars[k].data| <= room)
            && (r.status == EfiBufferTooSmall ==> r.dataSize == Some(|s.vars[k].data|) && r.data == [])
            && (r.status == EfiSuccess ==>
                r.dataSize == Some(|r.data|) && Entry(r.attributes.value, r.data) == s.vars[k])
            && (r.status == EfiBadBufferSize || r.status == EfiNotFound ==> r.dataSize == Some(room) && r.data == [])
  {}

  /** A cursor that names no variable is reported as a protocol error and stays. */
  lemma UnknownCursor(s: Store, nameSize: u32, name: seq<u32>, guid: Guid)
    requires Valid(s) && name != [] && KeyOf(name, guid) !in s.vars && NextFits(name, nameSize)
    ensures MapNext(s, nameSize, name, guid) == NextReturn(EfiProtocolError, nameSize, None, Some(guid))
  {}

  /** The three numbers of a query, in this order: the capacity, what is left of it, and the
      size of the largest variable, which some variable has. */
  lemma QueryReports(st: DriverState, attributes: u32)
    requires ValidState(st) && st.open && attributes != 0
    ensures var r, s := QueryVariableInfo(st, attributes, true).1, st.store;
            && r.status == EfiSuccess && r.info.Some?
            && var (maximum, remaining, largest) := r.info.value;
               && maximum == s.capacity && remaining + Used(s.order, s.vars) == s.capacity
               && (forall k <- s.vars :: |s.vars[k].data| <= largest)
               && (if s.order == [] then largest == 0 else exists k :: k in s.order && |s.vars[k].data| == largest)
  {
    hide QueryVariableInfo;
    QueryRefines(st, attributes);
    LargestIs(st.store.order, st.store.vars);
  }

  // ---- the messages themselves ----

  /** Every Set call that passes the size tests sends a message that reads back as the
      call. No 32-bit sum wraps, the 16-bit name size does not truncate, the name slot and
      the data slot lie side by side inside the announced size, and the name is padded
      with zeros. */
  lemma SetMessage(name: seq<u32>, guid: Guid, attributes: u32, data: seq<u8>)
    requires IsCString(name) && |data| < 0x1_0000_0000 && SetSizeFits(StrSize(name), |data|)
    ensures var n, size := StrSize(name), Add32(Add32(SET_PARAM_SIZE, StrSize(name)), |data|);
            && size == SET_PARAM_SIZE + n + |data| && n < 0x1_0000
            && PAYLOAD_AT + n + |data| <= size <= BUFFER_SIZE
            && ParseSetRequest(SetParam(name, guid, attributes, data)[..size])
               == Some(SetRequest(KeyOf(name, guid), attributes, data))
            && forall i :: PAYLOAD_AT + 2 * (|name| + 1) <= i < PAYLOAD_AT + n ==>
               SetParam(name, guid, attributes, data)[i] == 0
  {
    hide ParseSetRequest, FillSetParam;
    var n := StrSize(name);
    ReadsSetRequest(ZEROED, n, attributes, guid, name, data, SET_PARAM_SIZE + n + |data|);
    forall i | PAYLOAD_AT + 2 * (|name| + 1) <= i < PAYLOAD_AT + n
      ensures SetParam(name, guid, attributes, data)[i] == 0
    {
      SetPaddingIsOldContents(ZEROED, n, attributes, guid, name, data, i);
    }
  }

  /** The same for Get, whose name slot is padded with zeros because the buffer is cleared. */
  lemma GetMessage(name: seq<u32>, guid: Guid)
    requires GetFits(name, 0)
    ensures var n := StrSize(name);
            && n < 0x1_0000
            && ParseNameRequest(GetParam(name, guid)[..GET_PARAM_SIZE + n]) == Some(NameRequest(n, KeyOf(name, guid)))
            && forall i :: NAME_AT + 2 * (|name| + 1) <= i < NAME_AT + n ==> GetParam(name, guid)[i] == 0
  {
    hide ParseNameRequest, FillNameParam;
    var n := StrSize(name);
    ReadsNameRequest(ZEROED, n, guid, name, GET_PARAM_SIZE + n);
    forall i | NAME_AT + 2 * (|name| + 1) <= i < NAME_AT + n
      ensures GetParam(name, guid)[i] == 0
    {
      NamePaddingIsOldContents(ZEROED, n, guid, name, i);
    }
  }

  /** GetNext clears nothing, yet its message reads the same over any old contents. */
  lemma NextMessage(b: seq<u8>, name: seq<u32>, guid: Guid)
    requires |b| == BUFFER_SIZE && NextFits(name, 0)
    ensures ParseNameRequest(NextParam(b, name, guid)[..GET_PARAM_SIZE + CursorSize(name)])
            == Some(NameRequest(CursorSize(name), if name == [] then Key([], guid) else KeyOf(name, guid)))
  {
    ReadsNameRequest(b, CursorSize(name), guid, name, GET_PARAM_SIZE + CursorSize(name));
  }
}
