/** The GET and GETNEXT commands of process_command (authvars_test/host/main.c:104-183):
    ask with a buffer that may be too small, then again with the reported size. */
module Commands {
  import opened Bytes
  import opened WideStrings
  import opened Guids
  import opened VariableStore
  import opened Messages
  import opened OpteeDriver
  import opened Spec = DriverSpec
  import Rt = RuntimeServices

  function Uninitialised(heap: nat -> u8, n: nat): (b: seq<u8>)
    ensures |b| == n && forall i :: 0 <= i < n ==> b[i] == heap(i)
  {
    seq(n, i requires 0 <= i < n => heap(i))
  }

  /** GET. attributes is the command's own variable, which the calls overwrite or not; heap
      gives the bytes that malloc leaves in a new buffer. shown is what is printed after a
      short-buffer reply. If the second call fails, because the data exceed the transport,
      that is the uninitialised buffer; under the name of the test hook, a variable of
      four bytes is shown as the session id. */
  method ProcessGet(d: Driver, name: seq<u32>, guid: Guid, attributes: u32, heap: nat -> u8)
    returns (res: Status, shown: Option<(u32, seq<u8>)>)
    requires Rt.Ready(d) && IsCString(name)
    modifies d, d.mVariableParamMem, d.mVariableResultMem
    ensures Rt.Ready(d) && d.store == old(d.store)
    ensures var s, k := d.store, KeyOf(name, guid);
            (res, shown) ==
            if !GetFits(name, 0) then (EfiBadBufferSize, None)
            else if k !in s.vars then (EfiNotFound, None)
            else if IsHook(name, guid, DataSize(s, k)) then (EfiSuccess, Some((0, Le32(d.sessionId))))
            else if GetFits(name, DataSize(s, k)) then (EfiSuccess, Some((s.vars[k].attributes, s.vars[k].data)))
            else (EfiBadBufferSize, Some((0, Uninitialised(heap, |s.vars[k].data|))))
  {
    hide MapGet, VariableStore.Valid, Rt.GetAnswerOf;
    GetAnswers(d, name, guid);
    var attribute, written, requiredSize := attributes, None, 0;
    res, written, requiredSize := Rt.CallGet(d, name, guid, requiredSize, null);
    attribute := if written.Some? then written.value else attribute;
    shown := None;
    if res == EfiBufferTooSmall {
      var data := new u8[requiredSize](i requires 0 <= i => heap(i));
      ghost var room, answer := requiredSize, Rt.GetAnswerOf(d.store, d.sessionId, name, guid, requiredSize);
      assert data[..] == Uninitialised(heap, room);
      res, written, requiredSize := Rt.CallGet(d, name, guid, requiredSize, data);
      attribute := if written.Some? then written.value else attribute;
      Overwritten(Uninitialised(heap, room), answer.data);
      assert requiredSize == room && data[..requiredSize] == data[..];
      shown := Some((attribute, data[..requiredSize]));
    }
  }

  /** The size of a variable's data, which fits 32 bits in every valid store. */
  function DataSize(s: Store, k: Key): (n: u32)
    requires VariableStore.Valid(s) && k in s.vars
    ensures n == |s.vars[k].data|
  {
    EntryFits(s.order, s.vars, k);
    |s.vars[k].data|
  }

  lemma Overwritten(b: seq<u8>, t: seq<u8>)
    requires |t| <= |b|
    ensures |t| == |b| ==> Splice(b, 0, t) == t
    ensures t == [] ==> Splice(b, 0, t) == b
  {
    SpliceIs(b, 0, t);
  }

  /** What the two calls of GET are answered. */
  lemma GetAnswers(d: Driver, name: seq<u32>, guid: Guid)
    requires Rt.Ready(d)
    ensures var s, k := d.store, KeyOf(name, guid);
            var first := Rt.GetAnswerOf(s, d.sessionId, name, guid, 0);
            if !GetFits(name, 0) then first == GetReturn(EfiBadBufferSize, None, Some(0), [])
            else if k !in s.vars then first == GetReturn(EfiNotFound, Some(0), Some(0), [])
            else
              var n, e := DataSize(s, k), s.vars[k];
              && first == GetReturn(EfiBufferTooSmall, Some(0), Some(n), [])
              && Rt.GetAnswerOf(s, d.sessionId, name, guid, n) ==
                 if IsHook(name, guid, n) then GetReturn(EfiSuccess, None, Some(n), Le32(d.sessionId))
                 else if GetFits(name, n) then GetReturn(EfiSuccess, Some(e.attributes), Some(n), e.data)
                 else GetReturn(EfiBadBufferSize, None, Some(n), [])
  {}

  /** What GETNEXT reports: the variable after the cursor, if the transport can carry it. */
  function NextResult(s: Store, name: seq<u32>, guid: Guid): NextReturn
    requires VariableStore.Valid(s) && IsCString(name)
  {
    var first := MapNext(s, StrSize(name), name, guid);
    if first.status == EfiBufferTooSmall then MapNext(s, first.nameSize, name, guid) else first
  }

  /** A short-buffer reply asks for strictly more than was offered, and a second call with
      the reported size is never short again: it succeeds or exceeds the transport. */
  lemma RetryConverges(s: Store, nameSize: u32, name: seq<u32>, guid: Guid)
    requires VariableStore.Valid(s) && MapNext(s, nameSize, name, guid).status == EfiBufferTooSmall
    ensures var need := MapNext(s, nameSize, name, guid).nameSize;
            && need > nameSize
            && MapNext(s, need, name, guid).status == (if NextFits(name, need) then EfiSuccess else EfiBadBufferSize)
  {}

  /** What GETNEXT reports from a cursor with i variables behind it: variable i in full, if
      its name can be received at all. */
  lemma NextResultAt(s: Store, name: seq<u32>, guid: Guid, i: nat)
    requires VariableStore.Valid(s) && IsCString(name) && Rt.AtPosition(s, name, guid, i)
    requires NextFits(name, StrSize(name))
    ensures NextResult(s, name, guid) ==
            if i == |s.order| then NextReturn(EfiNotFound, StrSize(name), None, Some(guid))
            else
              var k := s.order[i];
              if 2 * (|k.name| + 1) <= 0x8010
              then NextReturn(EfiSuccess, WideSize(k), Some(WidenAll(k.name)), Some(k.guid))
              else NextReturn(EfiBadBufferSize, WideSize(k), None, Some(guid))
  {
    hide MapNext, VariableStore.Valid;
    Rt.NextAtPosition(s, StrSize(name), name, guid, i);
    if i < |s.order| {
      NameIsShort(s, i);
      var need := WideSize(s.order[i]);
      if NextFits(name, need) {
        Rt.NextAtPosition(s, need, name, guid, i);
      } else {
        TooLongToReceive(s, need, name, guid);
      }
    }
  }

  lemma NameIsShort(s: Store, i: nat)
    requires VariableStore.Valid(s) && i < |s.order|
    ensures WideSize(s.order[i]) < 0x1_0000_0000
  {
    assert s.order[i] in s.vars;
  }

  lemma TooLongToReceive(s: Store, need: u32, name: seq<u32>, guid: Guid)
    requires VariableStore.Valid(s) && !NextFits(name, need)
    ensures MapNext(s, need, name, guid) == NextReturn(EfiBadBufferSize, need, None, Some(guid))
  {}

  lemma FirstAndLast(s: Store, name: seq<u32>, guid: Guid)
    requires VariableStore.Valid(s) && IsCString(name)
    ensures var first, last := MapNext(s, StrSize(name), name, guid), NextResult(s, name, guid);
            && last.status != EfiBufferTooSmall
            && (first.status != EfiBufferTooSmall ==> last == first)
            && (first.status == EfiBufferTooSmall ==>
                  && last == MapNext(s, first.nameSize, name, guid)
                  && first.name == None && first.guid == Some(guid) && first.nameSize > StrSize(name))
  {
    if MapNext(s, StrSize(name), name, guid).status == EfiBufferTooSmall {
      RetryConverges(s, StrSize(name), name, guid);
    }
  }

  /** One pass of the loop: realloc, then the call. */
  method Ask(d: Driver, tempName: array<u8>, nameBytes: u32, guid: Guid)
    returns (res: Status, newName: array<u8>, newBytes: u32, newGuid: Guid)
    requires Rt.Ready(d) && tempName != d.mVariableParamMem && tempName != d.mVariableResultMem
    requires WideTerminated(tempName[..]) && tempName.Length <= nameBytes
    modifies d, d.mVariableParamMem, d.mVariableResultMem
    ensures Rt.Ready(d) && d.store == old(d.store)
    ensures fresh(newName) && WideTerminated(newName[..]) && newName.Length == nameBytes
    ensures var given := old(WideString(tempName[..]));
            var r := MapNext(d.store, nameBytes, given, guid);
            && res == r.status && newBytes == r.nameSize && Some(newGuid) == r.guid
            && WideString(newName[..]) == if r.name.Some? then r.name.value else given
  {
    ghost var shorter := tempName[..];
    newName := ReallocatePool(nameBytes, tempName);
    assert shorter <= newName[..] by { assert newName[..][..|shorter|] == shorter; }
    WidePrefix(shorter, newName[..]);
    res, newBytes, newGuid := Rt.CallNext(d, nameBytes, newName, guid);
  }

  /** GETNEXT, with the do-while loop around realloc; calls counts the driver calls. */
  method ProcessGetNext(d: Driver, variableName: Option<seq<u32>>, guid: Option<Guid>)
    returns (res: Status, name: seq<u32>, newGuid: Guid, ghost calls: nat)
    requires Rt.Ready(d)
    requires variableName.Some? ==> IsCString(variableName.value)
    modifies d, d.mVariableParamMem, d.mVariableResultMem
    ensures Rt.Ready(d) && d.store == old(d.store)
    ensures calls <= 2 && res != EfiBufferTooSmall
    ensures var given := if variableName.Some? then variableName.value else [];
            var r := NextResult(d.store, given, if guid.Some? then guid.value else EMPTY_GUID);
            && res == r.status && Some(newGuid) == r.guid
            && name == if r.name.Some? then r.name.value else given
  {
    hide MapNext, NextResult, WideString, WideTerminated, VariableStore.Valid, Rt.Ready;
    Rt.ReadyIsValid(d);
    var given := if variableName.Some? then variableName.value else [];
    var tempName := Rt.AllocateString(given);
    var nameBytes: u32 := (|given| + 1) * 4;
    newGuid := if guid.Some? then guid.value else EMPTY_GUID;
    ghost var store := d.store;
    ghost var first := MapNext(store, nameBytes, given, newGuid);
    ghost var last := NextResult(store, given, newGuid);
    FirstAndLast(store, given, newGuid);
    res, tempName, nameBytes, newGuid := Ask(d, tempName, nameBytes, newGuid);
    calls := 1;
    while res == EfiBufferTooSmall
      invariant Rt.Ready(d) && d.store == store && 1 <= calls <= 2
      invariant fresh(tempName) && WideTerminated(tempName[..])
      invariant calls == 1 ==>
                  && res == first.status && nameBytes == first.nameSize && Some(newGuid) == first.guid
                  && WideString(tempName[..]) == (if first.name.Some? then first.name.value else given)
                  && (res == EfiBufferTooSmall ==> tempName.Length <= nameBytes)
      invariant calls == 2 ==>
                  && res == last.status && res != EfiBufferTooSmall && Some(newGuid) == last.guid
                  && WideString(tempName[..]) == if last.name.Some? then last.name.value else given
      decreases 2 - calls
    {
      res, tempName, nameBytes, newGuid := Ask(d, tempName, nameBytes, newGuid);
      calls := calls + 1;
    }
    name := WideString(tempName[..]);
  }
}
