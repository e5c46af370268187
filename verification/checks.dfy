/** The checked store updates of authvars_test/host/edk2_variable_test/AuthVarTest.c,
    as steps on the map and as methods on the driver. A step passes unless one of its
    VERIFY macros throws. */
module Checks {
  import opened Bytes
  import opened WideStrings
  import opened Guids
  import opened VariableStore
  import opened OpteeDriver
  import opened Spec = DriverSpec
  import opened VarNames
  import opened Enumeration
  import opened Capacity
  import Rt = RuntimeServices

  /** NON_VOLATILE, RUNTIME_ACCESS and BOOTSERVICE_ACCESS. */
  const BASE_ATTRIBUTES: u32 := 0x07

  datatype Step =
    | Write(v: VarName, extra: u32, add: seq<u8>, check: seq<u8>) // SetAndCheckVariable
    | Erase(v: VarName)                                           // DeleteAndCheckVariable
    | Expect(v: VarName, room: nat, check: seq<u8>)               // a checked GetVariable
    | Raise(v: VarName, add: seq<u8>)                             // a checked SetVariable

  predicate ValidStep(step: Step) {
    && Plain(step.v)
    && (step.Write? ==>
        (step.extra == 0 || step.extra == APPEND_WRITE) && |step.add| < 0x1_0000 && |step.check| < 0x1_0000)
    && (step.Expect? ==> step.room < 0x1_0000)
    && (step.Raise? ==> |step.add| < 0x1_0000)
  }

  /** Did a GetVariable with this much room return exactly these bytes with the base attributes? */
  predicate Reads(s: Store, v: VarName, room: u32, check: seq<u8>)
    requires Valid(s)
  {
    var r := MapGet(s, v.name, v.guid, room);
    r.status == EfiSuccess && r.attributes == Some(BASE_ATTRIBUTES) && r.dataSize == Some(|check|) && r.data == check
  }

  /** One step on the map: the new store, and whether every check passed. */
  function Exec(s: Store, step: Step): (r: (Store, bool))
    requires Valid(s) && ValidStep(step)
    ensures Valid(r.0)
  {
    match step
    case Write(v, extra, add, check) =>
      MapSetKeepsValid(s, v.name, v.guid, BASE_ATTRIBUTES + extra, add);
      var (s', status) := MapSet(s, v.name, v.guid, BASE_ATTRIBUTES + extra, add);
      (s', status == EfiSuccess && Reads(s', v, |check|, check) && v.Key() in s'.vars)
    case Erase(v) =>
      MapSetKeepsValid(s, v.name, v.guid, BASE_ATTRIBUTES, []);
      var (s', status) := MapSet(s, v.name, v.guid, BASE_ATTRIBUTES, []);
      (s', status == EfiSuccess && MapGet(s', v.name, v.guid, 0).status == EfiNotFound && v.Key() !in s'.vars)
    case Expect(v, room, check) =>
      (s, Reads(s, v, room, check))
    case Raise(v, add) =>
      MapSetKeepsValid(s, v.name, v.guid, BASE_ATTRIBUTES, add);
      var (s', status) := MapSet(s, v.name, v.guid, BASE_ATTRIBUTES, add);
      (s', status == EfiSuccess)
  }

  // ---- what a step tells and keeps ----

  ghost predicate BaseOrAbsent(s: Store, k: Key) {
    k in s.vars ==> s.vars[k].attributes == BASE_ATTRIBUTES
  }

  lemma MapSetFrame(s: Store, v: VarName, attributes: u32, data: seq<u8>)
    requires Valid(s) && Plain(v)
    ensures SameExcept(s, MapSet(s, v.name, v.guid, attributes, data).0, {v.Key()})
  {
    PlainKeys(v, v);
    SetKeepsValid(s, v.Key(), attributes, data);
  }

  /** A step never touches another variable. */
  lemma StepFrame(s: Store, step: Step)
    requires Valid(s) && ValidStep(step)
    ensures SameExcept(s, Exec(s, step).0, {step.v.Key()})
  {
    match step
    case Write(v, extra, add, check) => MapSetFrame(s, v, BASE_ATTRIBUTES + extra, add);
    case Erase(v) => MapSetFrame(s, v, BASE_ATTRIBUTES, []);
    case Expect(v, room, check) =>
    case Raise(v, add) => MapSetFrame(s, v, BASE_ATTRIBUTES, add);
  }

  ghost predicate SameAt(s: Store, t: Store, k: Key) {
    (k in t.vars <==> k in s.vars) && (k in s.vars ==> t.vars[k] == s.vars[k])
  }

  lemma StepKeeps(s: Store, step: Step, k: Key)
    requires Valid(s) && ValidStep(step) && k != step.v.Key()
    ensures SameAt(s, Exec(s, step).0, k)
  {
    StepFrame(s, step);
  }

  /** A passed step leaves its variable as it was checked, whatever the store did before. */
  lemma StepChecked(s: Store, step: Step)
    requires Valid(s) && ValidStep(step) && Exec(s, step).1 && !step.Raise?
    ensures var t, k := Exec(s, step).0, step.v.Key();
            if step.Erase? then k !in t.vars else k in t.vars && t.vars[k] == Entry(BASE_ATTRIBUTES, step.check)
  {}

  /** Erasing a variable that exists always passes. */
  lemma EraseExisting(s: Store, v: VarName)
    requires Valid(s) && Plain(v) && v.Key() in s.vars
    ensures Exec(s, Erase(v)) == (Remove(s, v.Key()), true)
  {
    BaseAttributes();
    RemoveKeeps(s, v.Key());
  }

  /** Expecting bytes changes nothing, and passes exactly if they are there. */
  lemma ExpectExactly(s: Store, v: VarName, room: u32, check: seq<u8>)
    requires Valid(s) && ValidStep(Expect(v, room, check)) && |check| <= room <= 0x200
    ensures Exec(s, Expect(v, room, check))
            == (s, v.Key() in s.vars && s.vars[v.Key()] == Entry(BASE_ATTRIBUTES, check))
  {
    ReadsHeld(s, v, room, check);
  }

  /** A write to a variable with the base attributes, or to a new one, stores its bytes
      if there is room, and gains or gives back the difference; any other is refused. */
  lemma StoresBytes(s: Store, v: VarName, extra: u32, add: seq<u8>)
    requires Valid(s) && Plain(v) && (extra == 0 || extra == APPEND_WRITE) && add != [] && |add| <= 0x200
    ensures var k := v.Key();
            var kept := if extra != 0 && k in s.vars then s.vars[k].data else [];
            var fits := BaseOrAbsent(s, k) && |kept + add| <= Remaining(s) + SizeOf(s, k);
            var t := Put(s, k, Entry(BASE_ATTRIBUTES, kept + add));
            var r := MapSet(s, v.name, v.guid, BASE_ATTRIBUTES + extra, add);
            && r.0 == (if fits then t else s) && (r.1 == EfiSuccess <==> fits)
            && (fits ==> Valid(t) && Remaining(t) == Remaining(s) + SizeOf(s, k) - |kept + add|)
  {
    hide VariableStore.Valid, MapSet, HasBit, Remaining, StoredAttributes, Authenticated, Accessible, AllFit;
    BaseAttributes();
    StoredBase();
    PlainKeys(v, v);
    SetEffect(s, v.name, v.guid, BASE_ATTRIBUTES + extra, add);
    var k := v.Key();
    var kept := if extra != 0 && k in s.vars then s.vars[k].data else [];
    assert [] + add == add;
    if |kept + add| <= Remaining(s) + SizeOf(s, k) {
      RoomIsRemaining(s);
      PutKeeps(s, k, Entry(BASE_ATTRIBUTES, kept + add));
    }
  }

  lemma RoomIsRemaining(s: Store)
    requires Valid(s)
    ensures Remaining(s) == s.capacity - Used(s.order, s.vars)
  {}

  lemma StoredBase()
    ensures StoredAttributes(BASE_ATTRIBUTES) == StoredAttributes(BASE_ATTRIBUTES + APPEND_WRITE) == BASE_ATTRIBUTES
    ensures Accessible(BASE_ATTRIBUTES)
    ensures HasBit(BASE_ATTRIBUTES + APPEND_WRITE, APPEND_WRITE) && !HasBit(BASE_ATTRIBUTES, APPEND_WRITE)
  {}

  /** Raising a flag stores its bytes under the same condition, and then passes. */
  lemma RaisePasses(s: Store, v: VarName, add: seq<u8>)
    requires Valid(s) && ValidStep(Raise(v, add)) && 0 < |add| <= 0x200
    ensures var k := v.Key();
            var fits := BaseOrAbsent(s, k) && |add| <= Remaining(s) + SizeOf(s, k);
            Exec(s, Raise(v, add)) == (if fits then Put(s, k, Entry(BASE_ATTRIBUTES, add)) else s, fits)
  {
    hide VariableStore.Valid, AllFit, Used, MapSet, Remaining, HasBit, VarName.Key, Put;
    assert [] + add == add;
    StoresBytes(s, v, 0, add);
  }

  /** A checked write stores its bytes exactly if an existing variable has the base attributes
      and there is room, and changes nothing otherwise; it passes exactly if it has stored
      the bytes checked. */
  lemma WritePasses(s: Store, v: VarName, extra: u32, add: seq<u8>, check: seq<u8>)
    requires Valid(s) && ValidStep(Write(v, extra, add, check)) && add != [] && |add| <= 0x200 && |check| <= 0x200
    ensures var k := v.Key();
            var kept := if extra != 0 && k in s.vars then s.vars[k].data else [];
            var fits := BaseOrAbsent(s, k) && |kept + add| <= Remaining(s) + SizeOf(s, k);
            Exec(s, Write(v, extra, add, check))
            == (if fits then Put(s, k, Entry(BASE_ATTRIBUTES, kept + add)) else s, fits && check == kept + add)
  {
    hide VariableStore.Valid, Exec, Remaining, VarName.Key, Plain, MapSet, SizeOf, BaseOrAbsent;
    var k := v.Key();
    var kept := if extra != 0 && k in s.vars then s.vars[k].data else [];
    var (t, status) := MapSet(s, v.name, v.guid, BASE_ATTRIBUTES + extra, add);
    assert [] + add == add;
    StoresBytes(s, v, extra, add);
    ReadsBack(s, v, extra, add, check);
  }

  /** What a write reports and what it finds afterwards. */
  lemma ReadsBack(s: Store, v: VarName, extra: u32, add: seq<u8>, check: seq<u8>)
    requires Valid(s) && ValidStep(Write(v, extra, add, check)) && |check| <= 0x200
    ensures var (t, status) := MapSet(s, v.name, v.guid, BASE_ATTRIBUTES + extra, add);
            Exec(s, Write(v, extra, add, check)) ==
            (t, status == EfiSuccess && v.Key() in t.vars && t.vars[v.Key()] == Entry(BASE_ATTRIBUTES, check))
  {
    hide MapSet;
    MapSetKeepsValid(s, v.name, v.guid, BASE_ATTRIBUTES + extra, add);
    var t := MapSet(s, v.name, v.guid, BASE_ATTRIBUTES + extra, add).0;
    ReadsHeld(t, v, |check|, check);
  }

  /** A variable reads as these bytes exactly if it holds them with the base attributes. */
  lemma ReadsHeld(s: Store, v: VarName, room: u32, check: seq<u8>)
    requires Valid(s) && Plain(v) && |check| <= room <= 0x200
    ensures Reads(s, v, room, check) <==> v.Key() in s.vars && s.vars[v.Key()] == Entry(BASE_ATTRIBUTES, check)
  {}

  /** The store without a variable. */
  function Cleaned(s: Store, k: Key): Store { if k in s.vars then Remove(s, k) else s }

  /** Erasing passes exactly if there is something to erase. */
  lemma EraseOutcome(s: Store, v: VarName)
    requires Valid(s) && Plain(v)
    ensures Exec(s, Erase(v)) == (Cleaned(s, v.Key()), v.Key() in s.vars)
  {
    BaseAttributes();
    PlainKeys(v, v);
    if v.Key() in s.vars {
      EraseExisting(s, v);
    }
    hide VariableStore.Valid, Remove;
  }

  lemma BaseAttributes()
    ensures !HasBit(BASE_ATTRIBUTES, APPEND_WRITE) && !Authenticated(BASE_ATTRIBUTES) && Accessible(BASE_ATTRIBUTES)
    ensures HasBit(BASE_ATTRIBUTES, NON_VOLATILE)
    ensures HasBit(BASE_ATTRIBUTES + APPEND_WRITE, APPEND_WRITE) && !Authenticated(BASE_ATTRIBUTES + APPEND_WRITE)
  {}

  // ---- the methods ----

  /** VerifyVariableEnumerable for a plain name: it tells whether the variable exists. */
  method VerifyListed(d: Driver, v: VarName, expected: bool, garbage: Guid) returns (passed: bool)
    requires Rt.Ready(d) && Listable(d.store) && Plain(v)
    modifies d, d.mVariableParamMem, d.mVariableResultMem
    ensures Rt.Ready(d) && d.store == old(d.store)
    ensures passed <==> (expected <==> v.Key() in d.store.vars)
  {
    ghost var visited;
    ContainsIsMembership(d.store, v.name, v.guid);
    ListableNeverStops(d.store, v.name, v.guid);
    passed, visited := VerifyVariableEnumerable(d, v.name, v.guid, expected, garbage);
  }

  /** A SetVariable under a plain name. */
  method SetPlain(d: Driver, v: VarName, attributes: u32, data: seq<u8>) returns (status: Status)
    requires Rt.Ready(d) && Listable(d.store) && Plain(v) && |data| < 0x1_0000_0000
    modifies d, d.mVariableParamMem, d.mVariableResultMem
    ensures Rt.Ready(d) && Listable(d.store)
    ensures (d.store, status) == MapSet(old(d.store), v.name, v.guid, attributes, data)
  {
    SetKeepsListable(d.store, v.name, v.guid, attributes, data);
    hide MapSet, VariableStore.Valid;
    status := Rt.SetVariable(d, v.name, v.guid, attributes, data);
  }

  /** A GetVariable whose result, attributes, size and bytes are all checked. */
  method ExpectVariable(d: Driver, v: VarName, room: u32, check: seq<u8>) returns (passed: bool)
    requires Rt.Ready(d) && Plain(v)
    modifies d, d.mVariableParamMem, d.mVariableResultMem
    ensures Rt.Ready(d) && d.store == old(d.store)
    ensures passed == Reads(d.store, v, room, check)
  {
    var r := Rt.GetVariable(d, v.name, v.guid, room);
    passed := r.status == EfiSuccess && r.attributes == Some(BASE_ATTRIBUTES) && r.dataSize == Some(|check|)
              && r.data == check;
  }

  /** SetAndCheckVariable. */
  method SetAndCheckVariable(d: Driver, v: VarName, extra: u32, add: seq<u8>, check: seq<u8>, garbage: Guid)
    returns (passed: bool)
    requires Rt.Ready(d) && Listable(d.store) && ValidStep(Write(v, extra, add, check))
    modifies d, d.mVariableParamMem, d.mVariableResultMem
    ensures Rt.Ready(d) && Listable(d.store)
    ensures (d.store, passed) == Exec(old(d.store), Write(v, extra, add, check))
  {
    hide MapSet, Reads, VariableStore.Valid;
    var status := SetPlain(d, v, BASE_ATTRIBUTES + extra, add);
    if status != EfiSuccess {
      return false;
    }
    passed := ExpectVariable(d, v, |check|, check);
    if !passed {
      return;
    }
    passed := VerifyListed(d, v, true, garbage);
  }

  /** DeleteAndCheckVariable. */
  method DeleteAndCheckVariable(d: Driver, v: VarName, garbage: Guid) returns (passed: bool)
    requires Rt.Ready(d) && Listable(d.store) && Plain(v)
    modifies d, d.mVariableParamMem, d.mVariableResultMem
    ensures Rt.Ready(d) && Listable(d.store)
    ensures (d.store, passed) == Exec(old(d.store), Erase(v))
  {
    hide MapSet, VariableStore.Valid;
    var status := SetPlain(d, v, BASE_ATTRIBUTES, []);
    if status != EfiSuccess {
      return false;
    }
    var r := Rt.GetVariable(d, v.name, v.guid, 0);
    if r.status != EfiNotFound {
      return false;
    }
    passed := VerifyListed(d, v, false, garbage);
  }
}
