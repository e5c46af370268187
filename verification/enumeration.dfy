/** VerifyVariableEnumerable of authvars_test/host/edk2_variable_test/AuthVarTest.c: the
    loop over GetNextVariableName that looks for a variable, on the byte-level driver. */
module Enumeration {
  import opened Bytes
  import opened WideStrings
  import opened Guids
  import opened VariableStore
  import opened Messages
  import opened OpteeDriver
  import opened Spec = DriverSpec
  import Rt = RuntimeServices

  /** The name can be received as a result, and then also be sent as a cursor. */
  predicate CanList(k: Key) { NEXT_RESULT_SIZE + 2 * (|k.name| + 1) <= BUFFER_SIZE }

  ghost predicate Listable(s: Store) {
    forall k {:trigger k in s.order} | k in s.order :: CanList(k)
  }

  predicate Matches(k: Key, name: seq<u32>, guid: Guid) {
    k.guid == guid && WidenAll(k.name) == name
  }

  /** Some variable is reported under this name and GUID. */
  ghost predicate Contains(s: Store, name: seq<u32>, guid: Guid) {
    exists k :: k in s.order && Matches(k, name, guid)
  }

  /** The index of the first match from i on, or the length of the list. */
  function FirstMatch(order: seq<Key>, i: nat, name: seq<u32>, guid: Guid): (r: nat)
    requires i <= |order|
    ensures i <= r <= |order|
    ensures r < |order| ==> Matches(order[r], name, guid)
    decreases |order| - i
  {
    if i == |order| || Matches(order[i], name, guid) then i else FirstMatch(order, i + 1, name, guid)
  }

  lemma {:induction false} NoneBeforeFirst(order: seq<Key>, i: nat, name: seq<u32>, guid: Guid)
    requires i <= |order|
    ensures forall j :: i <= j < FirstMatch(order, i, name, guid) ==> !Matches(order[j], name, guid)
    decreases |order| - i
  {
    if i == |order| || Matches(order[i], name, guid) {
    } else {
      NoneBeforeFirst(order, i + 1, name, guid);
    }
  }

  /** For names whose characters survive both conversions, being reported is the same as
      being the name of a stored variable. */
  lemma ContainsIsMembership(s: Store, name: seq<u32>, guid: Guid)
    requires VariableStore.Valid(s) && AllFit(name) && 0 !in name
    ensures Contains(s, name, guid) <==> KeyOf(name, guid) in s.vars
  {
    NoNulls(name);
    NarrowThenWidenAll(name);
    forall k | k in s.order && Matches(k, name, guid)
      ensures k == KeyOf(name, guid)
    {
      WidenThenNarrowAll(k.name);
    }
    if KeyOf(name, guid) in s.vars {
      assert Matches(KeyOf(name, guid), name, guid);
    }
  }

  /** A name that cannot be received stands at or before the first match. */
  ghost predicate StopsAtLongName(order: seq<Key>, name: seq<u32>, guid: Guid) {
    exists j :: 0 <= j < |order| && j <= FirstMatch(order, 0, name, guid) && !CanList(order[j])
  }

  lemma ListableNeverStops(s: Store, name: seq<u32>, guid: Guid)
    requires Listable(s)
    ensures !StopsAtLongName(s.order, name, guid)
  {
    assert forall j :: 0 <= j < |s.order| ==> s.order[j] in s.order;
  }

  /** What the variables reported so far tell. */
  lemma StopsOnlyThere(order: seq<Key>, visited: seq<Key>, name: seq<u32>, guid: Guid)
    requires visited <= order && forall j :: 0 <= j < |visited| ==> CanList(visited[j])
    ensures visited == order || FirstMatch(order, 0, name, guid) < |visited| ==> !StopsAtLongName(order, name, guid)
    ensures |visited| < |order| && |visited| <= FirstMatch(order, 0, name, guid) && !CanList(order[|visited|])
            ==> StopsAtLongName(order, name, guid)
  {
    assert forall j :: 0 <= j < |visited| ==> order[j] == visited[j];
  }

  lemma NamesAreShort(s: Store, i: nat)
    requires VariableStore.Valid(s)
    ensures i < |s.order| ==> WideSize(s.order[i]) < 0x2_0000
    ensures i < |s.order| ==> (CanList(s.order[i]) <==> NEXT_RESULT_SIZE + WideSize(s.order[i]) / 2 <= BUFFER_SIZE)
  {
    if i < |s.order| {
      assert s.order[i] in s.order && s.order[i] in s.vars;
    }
  }

  /** A cursor held in a buffer that can be announced for the reply can be sent too. */
  lemma CursorFits(name: seq<u8>, bufferSize: u32)
    requires WideTerminated(name) && bufferSize == |name|
    ensures NextFits(WideString(name), bufferSize) <==> NEXT_RESULT_SIZE + bufferSize / 2 <= BUFFER_SIZE
  {}

  /** One round of the loop: a call, and after a short-buffer reply a reallocation to the
      reported size and a second call. The cursor moves by one variable or not at all, and
      the round fails exactly at a variable whose name cannot be received. */
  method NextRound(d: Driver, name: array<u8>, bufferSize: u32, guid: Guid, ghost i: nat)
    returns (status: Status, newName: array<u8>, newBufferSize: u32, newGuid: Guid)
    requires Rt.Ready(d) && name != d.mVariableParamMem && name != d.mVariableResultMem
    requires bufferSize == name.Length && NEXT_RESULT_SIZE + bufferSize / 2 <= BUFFER_SIZE
    requires WideTerminated(name[..]) && Rt.AtPosition(d.store, WideString(name[..]), guid, i)
    modifies d, d.mVariableParamMem, d.mVariableResultMem, name
    ensures Rt.Ready(d) && d.store == old(d.store)
    ensures newName == name || fresh(newName)
    ensures newBufferSize == newName.Length && WideTerminated(newName[..])
    ensures status == if i == |d.store.order| then EfiNotFound
                      else if CanList(d.store.order[i]) then EfiSuccess
                      else EfiBadBufferSize
    ensures status == EfiSuccess ==>
              && NEXT_RESULT_SIZE + newBufferSize / 2 <= BUFFER_SIZE
              && newGuid == d.store.order[i].guid && WideString(newName[..]) == WidenAll(d.store.order[i].name)
              && Rt.AtPosition(d.store, WideString(newName[..]), newGuid, i + 1)
    ensures d.reported
            == old(d.reported) + if status == EfiSuccess then [KeyOf(WideString(newName[..]), newGuid)] else []
  {
    hide VariableStore.Valid, WideString, KeyOf, CanList, NextFits;
    var size;
    newName, newBufferSize := name, bufferSize;
    NamesAreShort(d.store, i);
    CursorFits(name[..], bufferSize);
    status, size, newGuid := Rt.GetNextVariableName(d, bufferSize, name, guid, i);
    if status == EfiBufferTooSmall {
      ghost var shorter := name[..];
      newName := ReallocatePool(size, name);
      assert shorter <= newName[..] by { assert newName[..][..|shorter|] == shorter; }
      WidePrefix(shorter, newName[..]);
      CursorFits(newName[..], size);
      newBufferSize := size;
      status, size, newGuid := Rt.GetNextVariableName(d, size, newName, newGuid, i);
    }
  }

  datatype Outcome = Found | Ended | Thrown

  /** What a successful call writes to the caller's buffers names the next variable. */
  lemma ReportedIsNext(s: Store, visited: seq<Key>, reported: seq<u32>, guid: Guid, target: seq<u32>, targetGuid: Guid)
    requires VariableStore.Valid(s) && visited <= s.order && |visited| < |s.order|
    requires guid == s.order[|visited|].guid && reported == WidenAll(s.order[|visited|].name)
    ensures visited + [KeyOf(reported, guid)] <= s.order
    ensures FirstMatch(s.order, |visited|, target, targetGuid)
            == if guid == targetGuid && reported == target then |visited|
               else FirstMatch(s.order, |visited| + 1, target, targetGuid)
  {
    var k := s.order[|visited|];
    assert k in s.vars;
    Rt.ReportedNameFindsKey(k);
    assert visited + [k] == s.order[..|visited| + 1];
  }

  /** The buffer of one zero character that the loop starts with. */
  lemma EmptyWide(b: seq<u8>)
    requires |b| == 4 && forall i :: 0 <= i < 4 ==> b[i] == 0
    ensures WideTerminated(b) && WideString(b) == []
  {}

  lemma StartsAtZero(s: Store, guid: Guid)
    ensures Rt.AtPosition(s, [], guid, 0) && NEXT_RESULT_SIZE + 4 / 2 <= BUFFER_SIZE
  {}

  /** The loop of VerifyVariableEnumerable. It stops at the first matching variable, at
      the end of the list, or where a VERIFY macro throws, which is at the first name that
      cannot be received if one stands no later than the match. visited collects what the calls
      reported, read back from the name buffer and the GUID after each of them; it is
      also what the driver recorded as reported. */
  method Walk(d: Driver, target: seq<u32>, targetGuid: Guid, garbage: Guid)
    returns (outcome: Outcome, ghost visited: seq<Key>)
    requires Rt.Ready(d)
    modifies d, d.mVariableParamMem, d.mVariableResultMem
    ensures Rt.Ready(d) && d.store == old(d.store)
    ensures d.reported == old(d.reported) + visited
    ensures visited <= d.store.order
    ensures var first := FirstMatch(d.store.order, 0, target, targetGuid);
            && (outcome == Found ==> first < |d.store.order| && |visited| == first + 1)
            && (outcome == Ended ==> first == |d.store.order| && visited == d.store.order)
            && (outcome == Thrown <==> StopsAtLongName(d.store.order, target, targetGuid))
            && (outcome == Thrown ==>
                |visited| <= first && |visited| < |d.store.order| && !CanList(d.store.order[|visited|]))
    ensures forall j :: 0 <= j < |visited| ==> CanList(visited[j])
  {
    hide *;
    var bufferSize: u32 := 4;
    var name := new u8[bufferSize](_ => 0);
    var guid := garbage;
    visited := [];
    ghost var order := d.store.order;
    EmptyWide(name[..]);
    ghost var before := d.reported;
    Rt.ReadyIsValid(d);
    StartsAtZero(d.store, guid);
    while true
      invariant Rt.Ready(d) && d.store == old(d.store) && visited <= order
      invariant d.reported == before + visited
      invariant fresh(name) && bufferSize == name.Length && NEXT_RESULT_SIZE + bufferSize / 2 <= BUFFER_SIZE
      invariant WideTerminated(name[..]) && Rt.AtPosition(d.store, WideString(name[..]), guid, |visited|)
      invariant forall j :: 0 <= j < |visited| ==> CanList(visited[j])
      invariant FirstMatch(order, |visited|, target, targetGuid) == FirstMatch(order, 0, target, targetGuid)
      decreases |order| - |visited|
    {
      var status;
      Rt.ReadyIsValid(d);
      status, name, bufferSize, guid := NextRound(d, name, bufferSize, guid, |visited|);
      StopsOnlyThere(order, visited, target, targetGuid);
      if status == EfiNotFound {
        return Ended, visited;
      }
      if status != EfiSuccess {
        return Thrown, visited;
      }
      var reported := WideString(name[..]);
      ReportedIsNext(d.store, visited, reported, guid, target, targetGuid);
      Associative(before, visited, [KeyOf(reported, guid)]);
      visited := visited + [KeyOf(reported, guid)];
      if guid == targetGuid && reported == target {
        StopsOnlyThere(order, visited, target, targetGuid);
        return Found, visited;
      }
    }
  }

  /** VerifyVariableEnumerable; passed is false where a VERIFY macro throws. visited lists
      what the calls reported; garbage is the uninitialised VendorGuid. */
  method VerifyVariableEnumerable(d: Driver, target: seq<u32>, targetGuid: Guid, expectedFound: bool, garbage: Guid)
    returns (passed: bool, ghost visited: seq<Key>)
    requires Rt.Ready(d)
    modifies d, d.mVariableParamMem, d.mVariableResultMem
    ensures Rt.Ready(d) && d.store == old(d.store)
    ensures d.reported == old(d.reported) + visited
    ensures visited <= d.store.order && Distinct(visited)
    ensures forall i :: 0 <= i < |visited| - 1 ==> !Matches(visited[i], target, targetGuid)
    ensures passed && expectedFound ==> visited != [] && Matches(visited[|visited| - 1], target, targetGuid)
    ensures passed <==>
              && !StopsAtLongName(d.store.order, target, targetGuid)
              && (expectedFound <==> Contains(d.store, target, targetGuid))
    ensures !StopsAtLongName(d.store.order, target, targetGuid) && !Contains(d.store, target, targetGuid) ==>
              visited == d.store.order
  {
    var outcome;
    outcome, visited := Walk(d, target, targetGuid, garbage);
    passed := outcome != Thrown && expectedFound == (outcome == Found);
    NoneBeforeFirst(d.store.order, 0, target, targetGuid);
  }
}
