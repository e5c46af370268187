/** The driver of authvars_test/host/edk2_driver/AuthVarsDxe.c: the entry points that
    flatten a variable service call into the two shared buffers, and back. */
module OpteeDriver {
  import opened Bytes
  import opened WideStrings
  import opened Guids
  import opened VariableStore
  import opened Messages
  import TrustedApp
  import Spec = DriverSpec

  /** A C string argument, as a value. */
  ghost function Argument(name: array?<u8>): Option<seq<u32>>
    reads name
  {
    if name == null then None else Some(WideString(name[..]))
  }

  class Driver {
    const mVariableParamMem: array<u8>
    const mVariableResultMem: array<u8>
    var mTeecSessionOpened: bool
    var sessionId: u32
    /** What the trusted application holds at the other end of the session. */
    var store: Store
    /** Every variable that GetNextVariableName has reported so far, as written to the
        caller's buffers. */
    ghost var reported: seq<Key>

    ghost predicate Valid()
      reads this
    {
      && mVariableParamMem.Length == BUFFER_SIZE && mVariableResultMem.Length == BUFFER_SIZE
      && mVariableParamMem != mVariableResultMem
      && VariableStore.Valid(store)
    }

    ghost function State(): Spec.DriverState
      reads this, mVariableParamMem, mVariableResultMem
    {
      Spec.DriverState(mVariableParamMem[..], mVariableResultMem[..], mTeecSessionOpened, sessionId, store)
    }

    /** TaOpenSession; accepted tells whether the trusted application granted the session,
        and id is then its number. Both buffers get the larger size limit plus the largest
        parameter structure. */
    constructor TaOpenSession(s: Store, id: u32, accepted: bool)
      requires VariableStore.Valid(s)
      ensures Valid() && mTeecSessionOpened == accepted && store == s && reported == []
      ensures sessionId == if accepted then id else 0
      ensures mVariableParamMem.Length == mVariableResultMem.Length == 0x802C
      ensures fresh(mVariableParamMem) && fresh(mVariableResultMem)
    {
      var maxVariableSize, maxHardwareErrorVariableSize := 0x2000, 0x8000;
      var size: nat :=
        (if maxVariableSize > maxHardwareErrorVariableSize then maxVariableSize else maxHardwareErrorVariableSize)
          + SET_PARAM_SIZE;
      mVariableParamMem := new u8[size];
      mVariableResultMem := new u8[size];
      mTeecSessionOpened := accepted;
      sessionId := if accepted then id else 0;
      store := s;
      reported := [];
    }

    /** OpteeRuntimeVariableInvokeCommand: the answer of the trusted application lands in
        the result buffer, its code becomes a status. Without a parameter or a result
        argument, four bytes of that buffer are announced. */
    method InvokeCommand(command: TrustedApp.Command, hasParam: bool, paramSize: nat, hasResult: bool, resultRoom: nat)
      returns (status: Spec.Status, resultSize: u32)
      requires Valid() && paramSize <= BUFFER_SIZE && resultRoom <= BUFFER_SIZE
      modifies this`store, mVariableResultMem
      ensures Valid()
      ensures var size, room := if hasParam then paramSize else 4, if hasResult then resultRoom else 4;
              var (store', reply) :=
                TrustedApp.InvokeCommand(old(store), command, old(mVariableParamMem[..size]), room);
              && store == store' && status == Spec.StatusOf(reply.code) && resultSize == reply.resultSize
              && mVariableResultMem[..] == Splice(old(mVariableResultMem[..]), 0, reply.output)
    {
      var size, room := if hasParam then paramSize else 4, if hasResult then resultRoom else 4;
      var (store', reply) := TrustedApp.InvokeCommand(store, command, mVariableParamMem[..size], room);
      TrustedApp.InvokeKeepsValid(store, command, mVariableParamMem[..size], room);
      CopyMem(mVariableResultMem, 0, reply.output);
      store := store';
      return Spec.StatusOf(reply.code), reply.resultSize;
    }

    /** OpteeRuntimeGetVariable. copied is what lands in Data; a None attributes result
        means that *Attributes is not written. */
    method GetVariable(name: array?<u8>, guid: Option<Guid>, dataSize: Option<u32>, data: array?<u8>)
      returns (status: Spec.Status, attributes: Option<u32>, newDataSize: Option<u32>, ghost copied: seq<u8>)
      requires Valid() && name != mVariableParamMem && name != mVariableResultMem
      requires name != null ==> WideTerminated(name[..]) && name.Length < 0x1_0000_0000
      requires data != null && dataSize.Some? ==> dataSize.value <= data.Length
      requires data != mVariableParamMem && data != mVariableResultMem
      modifies this, mVariableParamMem, mVariableResultMem, data
      ensures Valid() && reported == old(reported)
      ensures Spec.ValidCall(Spec.GetCall(old(Argument(name)), guid, dataSize, data != null))
      ensures (State(), Spec.GetReturn(status, attributes, newDataSize, copied))
              == Spec.GetVariable(old(State()), old(Argument(name)), guid, dataSize, data != null)
      ensures data == null ==> copied == []
      ensures data != null ==> |copied| <= data.Length && data[..] == Splice(old(data[..]), 0, copied)
    {
      hide Spec.ExchangeGet, VariableStore.Valid, WideString;
      if name == null || guid.None? || dataSize.None? {
        return Spec.EfiInvalidParameter, None, dataSize, [];
      }
      if dataSize.value != 0 && data == null {
        return Spec.EfiInvalidParameter, None, dataSize, [];
      }
      FirstUnit(name[..]);
      if Load32(name, 0) == 1 && guid.value.data1 == 1 && dataSize.value == 4 {
        Store32(data, 0, sessionId);
        return Spec.EfiSuccess, None, dataSize, Le32(sessionId);
      }
      if !mTeecSessionOpened {
        return Spec.EfiNotReady, None, dataSize, [];
      }
      var nameSize := MeasureString(name);
      if !Spec.SizesFit(GET_PARAM_SIZE, nameSize, GET_RESULT_SIZE, dataSize.value) {
        return Spec.EfiBadBufferSize, None, dataSize, [];
      }
      status, attributes, newDataSize, copied := ExchangeGet(name, nameSize, guid.value, dataSize.value, data);
    }

    /** The part of OpteeRuntimeGetVariable that uses the buffers. */
    method ExchangeGet(name: array<u8>, nameSize: nat, guid: Guid, dataSize: u32, data: array?<u8>)
      returns (status: Spec.Status, attributes: Option<u32>, newDataSize: Option<u32>, ghost copied: seq<u8>)
      requires Valid() && name != mVariableParamMem && name != mVariableResultMem
      requires WideTerminated(name[..]) && nameSize == StrSize(WideString(name[..]))
      requires Spec.GetFits(WideString(name[..]), dataSize)
      requires dataSize != 0 ==> data != null
      requires data != null ==> dataSize <= data.Length
      requires data != mVariableParamMem && data != mVariableResultMem
      modifies this`store, mVariableParamMem, mVariableResultMem, data
      ensures Valid()
      ensures (State(), Spec.GetReturn(status, attributes, newDataSize, copied))
              == Spec.ExchangeGet(old(State()), old(WideString(name[..])), guid, dataSize)
      ensures data == null ==> copied == []
      ensures data != null ==> |copied| <= data.Length && data[..] == Splice(old(data[..]), 0, copied)
    {
      hide TrustedApp.InvokeCommand, Spec.FinishGet, Spec.GetParam, WideString, VariableStore.Valid, Spec.ExchangeGet;
      ghost var s, before := WideString(name[..]), State();
      var paramSize, resultRoom := GET_PARAM_SIZE + nameSize, GET_RESULT_SIZE + dataSize;
      FillGetRequest(name, nameSize, guid);
      ghost var param := mVariableParamMem[..];
      assert mVariableParamMem[..paramSize] == param[..paramSize];
      ghost var reply := TrustedApp.InvokeCommand(store, TrustedApp.VSGetOp, param[..paramSize], resultRoom).1;
      var resultSize;
      status, resultSize := InvokeCommand(TrustedApp.VSGetOp, true, paramSize, true, resultRoom);
      ghost var result := mVariableResultMem[..];
      assert mVariableParamMem[..] == param && result == Splice(Spec.ZEROED, 0, reply.output);
      Spec.ExchangeGetIs(before, s, guid, dataSize, State(), reply);
      status, attributes, newDataSize, copied := FinishGet(status, resultSize, dataSize, data, reply);
      assert mVariableParamMem[..] == param && mVariableResultMem[..] == result;
    }

    /** The end of OpteeRuntimeGetVariable: the out-parameters. */
    method FinishGet(answer: Spec.Status, resultSize: u32, dataSize: u32, data: array?<u8>,
                     ghost reply: TrustedApp.Reply)
      returns (status: Spec.Status, attributes: Option<u32>, newDataSize: Option<u32>, ghost copied: seq<u8>)
      requires Valid() && data != mVariableResultMem
      requires GET_RESULT_SIZE + dataSize <= BUFFER_SIZE
      requires answer == Spec.StatusOf(reply.code) && resultSize == reply.resultSize
      requires reply.code == ShortBuffer ==> GET_RESULT_SIZE <= reply.resultSize
      requires dataSize != 0 ==> data != null
      requires data != null ==> dataSize <= data.Length
      modifies data
      ensures Spec.GetReturn(status, attributes, newDataSize, copied)
              == Spec.FinishGet(reply, mVariableResultMem[..], dataSize)
      ensures data == null ==> copied == []
      ensures data != null ==> |copied| <= data.Length && data[..] == Splice(old(data[..]), 0, copied)
    {
      status := answer;
      copied := [];
      attributes := Some(Load32(mVariableResultMem, 4));
      if status == Spec.EfiBufferTooSmall {
        assert resultSize >= GET_RESULT_SIZE;
        newDataSize := Some(resultSize - GET_RESULT_SIZE);
      } else if status == Spec.EfiSuccess {
        newDataSize := Some(Load32(mVariableResultMem, 8));
      } else {
        newDataSize := Some(dataSize);
      }
      if status != Spec.EfiSuccess {
        return;
      }
      var n := Load32(mVariableResultMem, 8);
      if n > dataSize {
        status := Spec.EfiBadBufferSize;
        return;
      }
      copied := mVariableResultMem[..][DATA_AT..DATA_AT + n];
      if data != null {
        CopyMem(data, 0, mVariableResultMem[..][DATA_AT..DATA_AT + n]);
      }
    }

    method FillGetRequest(name: array<u8>, nameSize: nat, guid: Guid)
      requires Valid() && name != mVariableParamMem && name != mVariableResultMem
      requires WideTerminated(name[..]) && nameSize == StrSize(WideString(name[..]))
      requires Spec.GetFits(WideString(name[..]), 0)
      modifies mVariableParamMem, mVariableResultMem
      ensures mVariableParamMem[..] == Spec.GetParam(old(WideString(name[..])), guid)
      ensures mVariableResultMem[..] == Spec.ZEROED
    {
      ZeroMem(mVariableParamMem, mVariableParamMem.Length);
      ZeroMem(mVariableResultMem, mVariableResultMem.Length);
      SpliceAll(old(mVariableParamMem[..]), Spec.ZEROED);
      SpliceAll(old(mVariableResultMem[..]), Spec.ZEROED);
      FillNameRequest(name, nameSize, guid);
    }

    /** The parameter fields of a GET or GETNEXT request. */
    method FillNameRequest(name: array<u8>, nameSize: nat, guid: Guid)
      requires Valid() && name != mVariableParamMem
      requires WideTerminated(name[..]) && NAME_AT + 2 * (|WideString(name[..])| + 1) <= BUFFER_SIZE
      requires nameSize < 0x1_0000
      modifies mVariableParamMem
      ensures mVariableParamMem[..]
              == FillNameParam(old(mVariableParamMem[..]), nameSize, guid, old(WideString(name[..])))
    {
      hide VariableStore.Valid, WideString, NarrowAll, Enc16, GuidBytes, Splice;
      Store32(mVariableParamMem, 0, GET_PARAM_SIZE);
      Store16(mVariableParamMem, 4, nameSize % 0x1_0000);
      CopyMem(mVariableParamMem, 8, GuidBytes(guid));
      assert name[0..] == name[..];
      FixWideString(name, 0, mVariableParamMem, NAME_AT);
    }

    /** OpteeRuntimeGetNextVariableName. On success the next name is written over the
        caller's string, without ever leaving the nameSize bytes the caller announced. */
    method GetNextVariableName(nameSize: u32, name: array?<u8>, guid: Option<Guid>)
      returns (status: Spec.Status, newNameSize: u32, newGuid: Option<Guid>)
      requires Valid() && name != mVariableParamMem && name != mVariableResultMem
      requires name != null ==> WideTerminated(name[..]) && nameSize <= name.Length < 0x1_0000_0000
      modifies this, mVariableParamMem, mVariableResultMem, name
      ensures Valid()
      ensures Spec.ValidCall(Spec.NextCall(nameSize, old(Argument(name)), guid))
      ensures var r := Spec.GetNextVariableName(old(State()), nameSize, old(Argument(name)), guid);
              && State() == r.0 && status == r.1.status && newNameSize == r.1.nameSize && newGuid == r.1.guid
              && (r.1.name.None? ==> name == null || name[..] == old(name[..]))
              && (r.1.name.Some? ==> name != null && 4 * (|r.1.name.value| + 1) <= nameSize
                                     && name[..] == Splice(old(name[..]), 0, Enc32(r.1.name.value + [0])))
      ensures status == Spec.EfiSuccess ==> name != null && newGuid.Some?
      ensures reported
              == old(reported) + if status == Spec.EfiSuccess then [KeyOf(WideString(name[..]), newGuid.value)] else []
    {
      hide Spec.ExchangeNext, VariableStore.Valid, WideString, KeyOf, Enc32;
      if name == null || guid.None? {
        return Spec.EfiInvalidParameter, nameSize, guid;
      }
      if !mTeecSessionOpened {
        return Spec.EfiNotReady, nameSize, guid;
      }
      var cursorSize := 0;
      FirstUnit(name[..]);
      if Load32(name, 0) != 0 {
        var size := MeasureString(name);
        cursorSize := size / 2;
      }
      if !Spec.SizesFit(GET_PARAM_SIZE, cursorSize, NEXT_RESULT_SIZE, nameSize / 2) {
        return Spec.EfiBadBufferSize, nameSize, guid;
      }
      var g;
      status, newNameSize, g := ExchangeNext(nameSize, cursorSize, name, guid.value);
      newGuid := Some(g);
      if status == Spec.EfiSuccess {
        reported := reported + [KeyOf(WideString(name[..]), g)];
      }
    }

    /** The part of OpteeRuntimeGetNextVariableName that uses the buffers. */
    method ExchangeNext(nameSize: u32, cursorSize: nat, name: array<u8>, guid: Guid)
      returns (status: Spec.Status, newNameSize: u32, newGuid: Guid)
      requires Valid() && name != mVariableParamMem && name != mVariableResultMem
      requires WideTerminated(name[..]) && nameSize <= name.Length
      requires cursorSize == Spec.CursorSize(WideString(name[..])) && Spec.NextFits(WideString(name[..]), nameSize)
      modifies this`store, mVariableParamMem, mVariableResultMem, name
      ensures Valid()
      ensures var r := Spec.ExchangeNext(old(State()), nameSize, old(WideString(name[..])), guid);
              && State() == r.0 && status == r.1.status && newNameSize == r.1.nameSize && Some(newGuid) == r.1.guid
              && (r.1.name.None? ==> name[..] == old(name[..]))
              && (r.1.name.Some? ==> 4 * (|r.1.name.value| + 1) <= nameSize
                                     && name[..] == Splice(old(name[..]), 0, Enc32(r.1.name.value + [0])))
    {
      hide TrustedApp.InvokeCommand, VariableStore.Valid, Spec.ExchangeNext, Spec.FinishNext;
      ghost var s, before := WideString(name[..]), State();
      var paramSize, resultRoom := GET_PARAM_SIZE + cursorSize, NEXT_RESULT_SIZE + nameSize / 2;
      SetMem(mVariableParamMem, mVariableParamMem.Length, 0);
      SetMem(mVariableResultMem, mVariableResultMem.Length, 0);
      FillNameRequest(name, cursorSize, guid);
      ghost var param := mVariableParamMem[..];
      assert param == Spec.NextParam(old(mVariableParamMem[..]), s, guid);
      assert mVariableParamMem[..paramSize] == param[..paramSize];
      ghost var reply := TrustedApp.InvokeCommand(store, TrustedApp.VSGetNextVarOp, param[..paramSize], resultRoom).1;
      Spec.NextReplyString(before, nameSize, s, guid);
      var resultSize;
      status, resultSize := InvokeCommand(TrustedApp.VSGetNextVarOp, true, paramSize, true, resultRoom);
      ghost var result := mVariableResultMem[..];
      assert mVariableParamMem[..] == param && result == Splice(before.result, 0, reply.output);
      Spec.ExchangeNextIs(before, nameSize, s, guid, State(), reply);
      status, newNameSize, newGuid := FinishNext(status, resultSize, nameSize, name, guid, reply);
      assert mVariableParamMem[..] == param && mVariableResultMem[..] == result;
    }

    /** The end of OpteeRuntimeGetNextVariableName: the out-parameters. */
    method FinishNext(answer: Spec.Status, resultSize: u32, nameSize: u32, name: array<u8>, guid: Guid,
                      ghost reply: TrustedApp.Reply)
      returns (status: Spec.Status, newNameSize: u32, newGuid: Guid)
      requires Valid() && name != mVariableResultMem && nameSize <= name.Length
      requires answer == Spec.StatusOf(reply.code) && resultSize == reply.resultSize
      requires reply.code == ShortBuffer ==> NEXT_RESULT_SIZE <= reply.resultSize < NEXT_RESULT_SIZE + 0x1_0000
      requires Spec.HoldsString(reply, mVariableResultMem[..])
      modifies name
      ensures var r := Spec.FinishNext(reply, mVariableResultMem[..], nameSize, guid);
              && status == r.status && newNameSize == r.nameSize && Some(newGuid) == r.guid
              && (r.name.None? ==> name[..] == old(name[..]))
              && (r.name.Some? ==> 4 * (|r.name.value| + 1) <= nameSize
                                   && name[..] == Splice(old(name[..]), 0, Enc32(r.name.value + [0])))
    {
      status, newNameSize, newGuid := answer, nameSize, guid;
      var actual := Load16(mVariableResultMem, 4);
      if status == Spec.EfiBufferTooSmall {
        assert resultSize >= NEXT_RESULT_SIZE;
        newNameSize := resultSize - NEXT_RESULT_SIZE;
        newNameSize := newNameSize * 2;
      } else if status == Spec.EfiSuccess {
        newNameSize := actual;
        newNameSize := newNameSize * 2;
      }
      if status != Spec.EfiSuccess {
        return;
      }
      if actual > nameSize / 2 {
        status := Spec.EfiBadBufferSize;
        return;
      }
      newGuid := ReadGuid(mVariableResultMem[..], 8);
      assert mVariableResultMem[NAME_AT..] == mVariableResultMem[..][NAME_AT..];
      RestoreWideString(mVariableResultMem, NAME_AT, name, 0);
    }

    /** OpteeRuntimeSetVariable. */
    method SetVariable(name: array?<u8>, guid: Option<Guid>, attributes: u32, dataSize: u32, data: array?<u8>)
      returns (status: Spec.Status)
      requires Valid() && name != mVariableParamMem && name != mVariableResultMem
      requires name != null ==> WideTerminated(name[..]) && name.Length < 0x1_0000_0000
      requires data != null ==> dataSize <= data.Length
      requires data != mVariableParamMem && data != mVariableResultMem
      modifies this, mVariableParamMem, mVariableResultMem
      ensures Valid() && reported == old(reported)
      ensures Spec.ValidCall(Spec.SetCall(old(Argument(name)), guid, attributes, dataSize,
                                          old(Contents(data, dataSize))))
      ensures (State(), status)
              == Spec.SetVariable(old(State()), old(Argument(name)), guid, attributes, dataSize,
                                  old(Contents(data, dataSize)))
    {
      hide Spec.ExchangeSet, VariableStore.Valid, WideString;
      if name != null {
        FirstUnit(name[..]);
      }
      if name == null || Load32(name, 0) == 0 || guid.None? {
        return Spec.EfiInvalidParameter;
      }
      if dataSize != 0 && data == null {
        return Spec.EfiInvalidParameter;
      }
      if !mTeecSessionOpened {
        return Spec.EfiNotReady;
      }
      if Load32(name, 0) == 1 && guid.value.data1 == 1 && dataSize == 4 {
        assert data[..dataSize][..4] == data[..4];
        sessionId := Load32(data, 0);
        return Spec.EfiSuccess;
      }
      var nameSize := MeasureString(name);
      if !Spec.SetSizeFits(nameSize, dataSize) {
        return Spec.EfiBadBufferSize;
      }
      status := ExchangeSet(name, nameSize, guid.value, attributes, if data != null then data[..dataSize] else []);
    }

    /** The part of OpteeRuntimeSetVariable that uses the buffers. */
    method ExchangeSet(name: array<u8>, nameSize: nat, guid: Guid, attributes: u32, data: seq<u8>)
      returns (status: Spec.Status)
      requires Valid() && name != mVariableParamMem && name != mVariableResultMem
      requires WideTerminated(name[..]) && nameSize == StrSize(WideString(name[..]))
      requires Spec.SetFits(WideString(name[..]), |data|)
      modifies this`store, mVariableParamMem, mVariableResultMem
      ensures Valid()
      ensures (State(), status) == Spec.ExchangeSet(old(State()), old(WideString(name[..])), guid, attributes, data)
    {
      hide TrustedApp.InvokeCommand, Spec.SetParam, VariableStore.Valid, WideString;
      FillSetRequest(name, nameSize, guid, attributes, data);
      var paramSize := SET_PARAM_SIZE + nameSize + |data|;
      ghost var param := mVariableParamMem[..];
      assert mVariableParamMem[..paramSize] == param[..paramSize];
      var resultSize;
      status, resultSize := InvokeCommand(TrustedApp.VSSetOp, true, paramSize, false, 0);
      assert mVariableParamMem[..] == param;
    }

    method FillSetRequest(name: array<u8>, nameSize: nat, guid: Guid, attributes: u32, data: seq<u8>)
      requires Valid() && name != mVariableParamMem && name != mVariableResultMem
      requires WideTerminated(name[..]) && nameSize == StrSize(WideString(name[..]))
      requires Spec.SetFits(WideString(name[..]), |data|)
      modifies mVariableParamMem, mVariableResultMem
      ensures mVariableParamMem[..] == Spec.SetParam(old(WideString(name[..])), guid, attributes, data)
      ensures mVariableResultMem[..] == Spec.ZEROED
    {
      ZeroMem(mVariableParamMem, mVariableParamMem.Length);
      ZeroMem(mVariableResultMem, mVariableResultMem.Length);
      SpliceAll(old(mVariableParamMem[..]), Spec.ZEROED);
      SpliceAll(old(mVariableResultMem[..]), Spec.ZEROED);
      FillSetHeader(nameSize, guid, attributes, |data|);
      assert name[0..] == name[..];
      FixWideString(name, 0, mVariableParamMem, PAYLOAD_AT);
      CopyMem(mVariableParamMem, PAYLOAD_AT + nameSize, data);
    }

    /** The fixed fields of a SET request. */
    method FillSetHeader(nameSize: u32, guid: Guid, attributes: u32, dataSize: u32)
      requires Valid() && nameSize < 0x1_0000
      modifies mVariableParamMem
      ensures mVariableParamMem[..] == SetHeader(old(mVariableParamMem[..]), nameSize, attributes, dataSize, guid)
    {
      hide VariableStore.Valid, GuidBytes, Splice;
      Store32(mVariableParamMem, 0, SET_PARAM_SIZE);
      Store16(mVariableParamMem, 4, nameSize % 0x1_0000);
      Store32(mVariableParamMem, 24, attributes);
      Store32(mVariableParamMem, 28, dataSize);
      Store32(mVariableParamMem, 32, 0);
      Store32(mVariableParamMem, 36, nameSize);
      CopyMem(mVariableParamMem, 8, GuidBytes(guid));
    }

    /** OpteeRuntimeQueryVariableInfo; hasOut tells whether all three out-pointers are given. */
    method QueryVariableInfo(attributes: u32, hasOut: bool) returns (r: Spec.QueryReturn)
      requires Valid()
      modifies this, mVariableParamMem, mVariableResultMem
      ensures Valid() && (State(), r) == Spec.QueryVariableInfo(old(State()), attributes, hasOut)
      ensures Spec.ValidCall(Spec.QueryCall(attributes, hasOut))
      ensures reported == old(reported)
    {
      if !hasOut || attributes == 0 {
        return Spec.QueryReturn(Spec.EfiInvalidParameter, None);
      }
      if !mTeecSessionOpened {
        return Spec.QueryReturn(Spec.EfiNotReady, None);
      }
      SetMem(mVariableParamMem, mVariableParamMem.Length, 0);
      SetMem(mVariableResultMem, mVariableResultMem.Length, 0);
      Store32(mVariableParamMem, 0, QUERY_PARAM_SIZE);
      Store32(mVariableParamMem, 4, attributes);
      ghost var param := mVariableParamMem[..];
      assert mVariableParamMem[..QUERY_PARAM_SIZE] == param[..QUERY_PARAM_SIZE];
      var status,
        resultSize := InvokeCommand(TrustedApp.VSQueryInfoOp, true, QUERY_PARAM_SIZE, true, QUERY_RESULT_SIZE);
      if status != Spec.EfiSuccess {
        return Spec.QueryReturn(status, None);
      }
      var result := mVariableResultMem[..];
      return Spec.QueryReturn(status, Some((U64(result, 8), U64(result, 16), U64(result, 24))));
    }
  }

  /** A data argument, as a value. */
  ghost function Contents(data: array?<u8>, size: nat): Option<seq<u8>>
    requires data != null ==> size <= data.Length
    reads data
  {
    if data == null then None else Some(data[..size])
  }
}
