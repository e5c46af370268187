/** InitSecureBootVariables (authvars_test/host/edk2_driver/AuthVarsDxe.c:1060-1226) and
    what it guarantees over power cycles; see section 3.3 of the UEFI Specification 2.8. */
module SecureBoot {
  import opened Bytes
  import opened Guids
  import opened VariableStore
  import opened OpteeDriver
  import opened Spec = DriverSpec
  import opened VarNames
  import Messages
  import Rt = RuntimeServices

  const GLOBAL_GUID: Guid := GuidFields(0x8BE4DF61, 0x93CA, 0x11D2, [0xAA, 0x0D, 0x00, 0xE0, 0x98, 0x03, 0x2B, 0x8C])
  const ENABLE_GUID: Guid := GuidFields(0xF0A30BC7, 0xAF08, 0x4556, [0x99, 0xC4, 0x00, 0x10, 0x09, 0xC9, 0x3A, 0x44])
  const CUSTOM_GUID: Guid := GuidFields(0xC076EC0C, 0x7028, 0x4399, [0xA0, 0x72, 0x71, 0xEE, 0x5C, 0x44, 0x8B, 0x9F])

  const VOLATILE_ATTRIBUTES: u32 := 0x06
  const PERSISTENT_ATTRIBUTES: u32 := 0x03

  const IN_USER_MODE: u8 := 0
  const IN_SETUP_MODE: u8 := 1
  const ENABLED: u8 := 1
  const DISABLED: u8 := 0
  const STANDARD: u8 := 0

  // ---- names ----

  datatype Names = Names(pk: VarName, setupMode: VarName, enable: VarName, mode: VarName, customMode: VarName)

  const SECURE_BOOT_NAMES: Names := Names(
    VarName(Literal("PK"), GLOBAL_GUID),
    VarName(Literal("SetupMode"), GLOBAL_GUID),
    VarName(Literal("SecureBootEnable"), ENABLE_GUID),
    VarName(Literal("SecureBoot"), GLOBAL_GUID),
    VarName(Literal("CustomMode"), CUSTOM_GUID))

  /** Plain names of five different variables. */
  ghost predicate Good(n: Names) {
    && Plain(n.pk) && Plain(n.setupMode) && Plain(n.enable) && Plain(n.mode) && Plain(n.customMode)
    && n.pk.Key() != n.setupMode.Key() && n.pk.Key() != n.enable.Key() && n.pk.Key() != n.mode.Key()
    && n.pk.Key() != n.customMode.Key()
    && n.setupMode.Key() != n.enable.Key() && n.setupMode.Key() != n.mode.Key()
    && n.setupMode.Key() != n.customMode.Key()
    && n.enable.Key() != n.mode.Key() && n.enable.Key() != n.customMode.Key()
    && n.mode.Key() != n.customMode.Key()
  }

  lemma SecureBootNamesAreGood()
    ensures Good(SECURE_BOOT_NAMES)
  {
    var n := SECURE_BOOT_NAMES;
    PlainLiteral("PK", GLOBAL_GUID);
    PlainLiteral("SetupMode", GLOBAL_GUID);
    PlainLiteral("SecureBootEnable", ENABLE_GUID);
    PlainLiteral("SecureBoot", GLOBAL_GUID);
    PlainLiteral("CustomMode", CUSTOM_GUID);
    assert |n.pk.name| == 2 && |n.setupMode.name| == 9 && |n.enable.name| == 16 && |n.mode.name| == 10
           && |n.customMode.name| == 10;
    DifferentNamesAreGood(n);
  }

  lemma DifferentNamesAreGood(n: Names)
    requires Plain(n.pk) && Plain(n.setupMode) && Plain(n.enable) && Plain(n.mode) && Plain(n.customMode)
    requires |n.pk.name| == 2 && |n.setupMode.name| == 9 && |n.enable.name| == 16 && |n.mode.name| == 10
    requires |n.customMode.name| == 10
    requires n.mode.guid != n.customMode.guid
    ensures Good(n)
  {
    PlainKeys(n.pk, n.setupMode);
    PlainKeys(n.pk, n.enable);
    PlainKeys(n.pk, n.mode);
    PlainKeys(n.pk, n.customMode);
    PlainKeys(n.setupMode, n.enable);
    PlainKeys(n.setupMode, n.mode);
    PlainKeys(n.setupMode, n.customMode);
    PlainKeys(n.enable, n.mode);
    PlainKeys(n.enable, n.customMode);
    PlainKeys(n.mode, n.customMode);
  }

  // ---- the initialisation on the map ----

  function Init(n: Names, s: Store, pcdEnable: bool): (Store, Status)
    requires Valid(s)
  {
    var pk := MapGet(s, n.pk.name, n.pk.guid, 1);
    var setupMode := if pk.status == EfiBufferTooSmall then IN_USER_MODE else IN_SETUP_MODE;
    var (s1, status1) := WriteByte(s, n.setupMode, VOLATILE_ATTRIBUTES, setupMode);
    if status1 != EfiSuccess then (s1, status1) else InitFrom(n, s1, setupMode, pcdEnable)
  }

  /** The part after SetupMode is written. */
  function InitFrom(n: Names, s: Store, setupMode: u8, pcdEnable: bool): (Store, Status)
    requires Valid(s)
  {
    var (s2, status2, enable) := InitEnable(n.enable, s, setupMode, pcdEnable);
    if status2 != EfiSuccess then (s2, status2)
    else
      var mode := if enable == ENABLED && setupMode == IN_USER_MODE then ENABLED else DISABLED;
      var (s3, status3) := WriteByte(s2, n.mode, VOLATILE_ATTRIBUTES, mode);
      if status3 != EfiSuccess then (s3, status3)
      else WriteByte(s3, n.customMode, PERSISTENT_ATTRIBUTES, STANDARD)
  }

  /** The middle part: the effective SecureBootEnable, created in user mode if missing. */
  function InitEnable(v: VarName, s: Store, setupMode: u8, pcdEnable: bool): (r: (Store, Status, u8))
    requires Valid(s)
    ensures Valid(r.0)
  {
    var r := MapGet(s, v.name, v.guid, 1);
    if r.status == EfiSuccess then
      (s, EfiSuccess, if setupMode == IN_USER_MODE && r.data != [] then r.data[0] else DISABLED)
    else if setupMode == IN_USER_MODE then
      var enable := if pcdEnable then ENABLED else DISABLED;
      var (s', status) := WriteByte(s, v, PERSISTENT_ATTRIBUTES, enable);
      (s', status, enable)
    else (s, EfiSuccess, DISABLED)
  }

  function WriteByte(s: Store, v: VarName, attributes: u32, b: u8): (r: (Store, Status))
    requires Valid(s)
    ensures Valid(r.0)
  {
    MapSetKeepsValid(s, v.name, v.guid, attributes, [b]);
    MapSet(s, v.name, v.guid, attributes, [b])
  }

  /** Bytes that writing one byte to a variable gives back, or takes. */
  ghost function Gain(s: Store, k: Key): int { SizeOf(s, k) - 1 }

  lemma SetByteIs(s: Store, k: Key, attributes: u32, b: u8)
    requires Valid(s) && ValidName(k.name)
    requires attributes == VOLATILE_ATTRIBUTES || attributes == PERSISTENT_ATTRIBUTES
    ensures var (s', code) := Set(s, k, attributes, [b]);
            && (code == Success <==> CanHold(s, k, attributes) && Remaining(s) + Gain(s, k) >= 0)
            && (code != Success ==> s' == s)
            && (code == Success ==> s' == Put(s, k, Entry(attributes, [b])) && SameExcept(s, s', {k})
                                    && Valid(s') && Remaining(s') == Remaining(s) + Gain(s, k))
  {
    hide Distinct, Put, HasBit, Authenticated, Accessible, StoredAttributes, Used, SameExcept;
    ByteAttributes(attributes);
    if Used(s.order, s.vars) - SizeOf(s, k) + 1 <= s.capacity {
      PutKeeps(s, k, Entry(attributes, [b]));
    }
  }

  lemma ByteAttributes(attributes: u32)
    requires attributes == VOLATILE_ATTRIBUTES || attributes == PERSISTENT_ATTRIBUTES
    ensures !HasBit(attributes, APPEND_WRITE) && !Authenticated(attributes) && Accessible(attributes)
    ensures StoredAttributes(attributes) == attributes
  {}

  ghost predicate CanHold(s: Store, k: Key, attributes: u32) {
    k in s.vars ==> s.vars[k].attributes == attributes
  }

  /** Writing one byte succeeds exactly if the variable is new or has these attributes
      already, and there is room. */
  lemma WriteByteIs(s: Store, v: VarName, attributes: u32, b: u8)
    requires Valid(s) && Plain(v)
    requires attributes == VOLATILE_ATTRIBUTES || attributes == PERSISTENT_ATTRIBUTES
    ensures var k := v.Key();
            var (s', status) := WriteByte(s, v, attributes, b);
            && (status == EfiSuccess <==> CanHold(s, k, attributes) && Remaining(s) + Gain(s, k) >= 0)
            && (status != EfiSuccess ==> s' == s)
            && (status == EfiSuccess ==>
                  s' == Put(s, k, Entry(attributes, [b])) && SameExcept(s, s', {k})
                    && Remaining(s') == Remaining(s) + Gain(s, k))
  {
    hide VariableStore.Valid, VariableStore.Set, Put;
    PlainKeys(v, v);
    SetByteIs(s, v.Key(), attributes, b);
  }

  /** The one-byte read: short exactly if the variable is larger than one byte. */
  lemma ReadByteIs(s: Store, v: VarName)
    requires Valid(s) && Plain(v)
    ensures var k := v.Key();
            var r := MapGet(s, v.name, v.guid, 1);
            && (r.status == EfiBufferTooSmall <==> Large(s, k))
            && (r.status == EfiSuccess <==> HasByte(s, k))
            && (r.status == EfiSuccess ==> r.data == s.vars[k].data)
  {}

  // ---- what an initialisation establishes ----

  ghost predicate Large(s: Store, k: Key) { k in s.vars && |s.vars[k].data| > 1 }

  ghost predicate HasByte(s: Store, k: Key) { k in s.vars && |s.vars[k].data| == 1 }

  ghost predicate Holds(s: Store, k: Key, attributes: u32, b: u8) {
    k in s.vars && s.vars[k] == Entry(attributes, [b])
  }

  /** The state of the secure boot variables after a successful initialisation: SetupMode
      tells whether PK is present, SecureBoot is on exactly in user mode with
      SecureBootEnable set, and CustomMode is STANDARD. */
  ghost predicate Agree(s: Store, pk: Key, setupMode: Key, enable: Key, mode: Key, customMode: Key) {
    var user := Large(s, pk);
    && Holds(s, setupMode, VOLATILE_ATTRIBUTES, if user then IN_USER_MODE else IN_SETUP_MODE)
    && (user ==> HasByte(s, enable))
    && Holds(s, mode, VOLATILE_ATTRIBUTES, if user && s.vars[enable].data == [ENABLED] then ENABLED else DISABLED)
    && Holds(s, customMode, PERSISTENT_ATTRIBUTES, STANDARD)
  }

  ghost predicate Initialised(n: Names, s: Store) {
    Agree(s, n.pk.Key(), n.setupMode.Key(), n.enable.Key(), n.mode.Key(), n.customMode.Key())
  }

  /** A successful initialisation as a chain of one-byte writes to the map. */
  ghost function Chain(s: Store, pk: Key, setupMode: Key, enable: Key, mode: Key, customMode: Key, pcdEnable: bool)
    : Store
  {
    var user := Large(s, pk);
    var s1 := Put(s, setupMode, Entry(VOLATILE_ATTRIBUTES, [if user then IN_USER_MODE else IN_SETUP_MODE]));
    var s2 := if !user || HasByte(s1, enable) then s1
              else Put(s1, enable, Entry(PERSISTENT_ATTRIBUTES, [if pcdEnable then ENABLED else DISABLED]));
    var on := user && s2.vars[enable].data == [ENABLED];
    var s3 := Put(s2, mode, Entry(VOLATILE_ATTRIBUTES, [if on then ENABLED else DISABLED]));
    Put(s3, customMode, Entry(PERSISTENT_ATTRIBUTES, [STANDARD]))
  }

  lemma InitIsChain(n: Names, s: Store, pcdEnable: bool)
    requires Valid(s) && Good(n) && Init(n, s, pcdEnable).1 == EfiSuccess
    ensures Init(n, s, pcdEnable).0
            == Chain(s, n.pk.Key(), n.setupMode.Key(), n.enable.Key(), n.mode.Key(), n.customMode.Key(), pcdEnable)
  {
    ReadByteIs(s, n.pk);
    var setupMode := if Large(s, n.pk.Key()) then IN_USER_MODE else IN_SETUP_MODE;
    WriteByteIs(s, n.setupMode, VOLATILE_ATTRIBUTES, setupMode);
    var s1 := WriteByte(s, n.setupMode, VOLATILE_ATTRIBUTES, setupMode).0;
    InitFromIsChain(n, s, s1, setupMode, pcdEnable);
    hide VariableStore.Valid, WriteByte, InitFrom, MapGet, Chain;
  }

  lemma InitFromIsChain(n: Names, s: Store, s1: Store, setupMode: u8, pcdEnable: bool)
    requires Valid(s1) && Good(n) && InitFrom(n, s1, setupMode, pcdEnable).1 == EfiSuccess
    requires setupMode == (if Large(s, n.pk.Key()) then IN_USER_MODE else IN_SETUP_MODE)
    requires s1 == Put(s, n.setupMode.Key(), Entry(VOLATILE_ATTRIBUTES, [setupMode]))
    ensures InitFrom(n, s1, setupMode, pcdEnable).0
            == Chain(s, n.pk.Key(), n.setupMode.Key(), n.enable.Key(), n.mode.Key(), n.customMode.Key(), pcdEnable)
  {
    hide VariableStore.Valid, WriteByte, InitEnable;
    InitEnableIs(n.enable, s1, setupMode, pcdEnable);
    var (s2, _, enable) := InitEnable(n.enable, s1, setupMode, pcdEnable);
    var mode := if enable == ENABLED && setupMode == IN_USER_MODE then ENABLED else DISABLED;
    WriteByteIs(s2, n.mode, VOLATILE_ATTRIBUTES, mode);
    var s3 := WriteByte(s2, n.mode, VOLATILE_ATTRIBUTES, mode).0;
    WriteByteIs(s3, n.customMode, PERSISTENT_ATTRIBUTES, STANDARD);
  }

  /** The middle part succeeds exactly if nothing must be written, or the write can. */
  lemma InitEnableIs(v: VarName, s: Store, setupMode: u8, pcdEnable: bool)
    requires Valid(s) && Plain(v)
    ensures var kept := setupMode != IN_USER_MODE || HasByte(s, v.Key());
            var k := v.Key();
            var (s', status, enable) := InitEnable(v, s, setupMode, pcdEnable);
            && (status == EfiSuccess
                <==> kept || (CanHold(s, k, PERSISTENT_ATTRIBUTES) && Remaining(s) + Gain(s, k) >= 0))
            && (status != EfiSuccess ==> s' == s)
            && (status == EfiSuccess ==>
                  s' == (if kept then s
                         else Put(s, k, Entry(PERSISTENT_ATTRIBUTES, [if pcdEnable then ENABLED else DISABLED]))))
            && (status == EfiSuccess && setupMode == IN_USER_MODE ==> k in s'.vars && s'.vars[k].data == [enable])
            && (status == EfiSuccess ==>
                Remaining(s') == Remaining(s) + (if kept then 0 else Gain(s, k)) && SameExcept(s, s', {k}))
  {
    ReadByteIs(s, v);
    WriteByteIs(s, v, PERSISTENT_ATTRIBUTES, if pcdEnable then ENABLED else DISABLED);
  }

  /** No secure boot variable is in the way with attributes of its own. */
  ghost predicate Compatible(n: Names, s: Store) {
    && CanHold(s, n.setupMode.Key(), VOLATILE_ATTRIBUTES)
    && (WritesEnable(s, n.pk.Key(), n.enable.Key()) ==> CanHold(s, n.enable.Key(), PERSISTENT_ATTRIBUTES))
    && CanHold(s, n.mode.Key(), VOLATILE_ATTRIBUTES)
    && CanHold(s, n.customMode.Key(), PERSISTENT_ATTRIBUTES)
  }

  /** Is SecureBootEnable written? */
  ghost predicate WritesEnable(s: Store, pk: Key, enable: Key) { Large(s, pk) && !HasByte(s, enable) }

  /** The bytes free before the last two writes, when before are free ahead of the second. */
  ghost function RoomForModes(n: Names, s: Store, before: int): int {
    before + if WritesEnable(s, n.pk.Key(), n.enable.Key()) then Gain(s, n.enable.Key()) else 0
  }

  ghost predicate RoomFrom(n: Names, s: Store, before: int) {
    var room := RoomForModes(n, s, before);
    room >= 0 && room + Gain(s, n.mode.Key()) >= 0 && room + Gain(s, n.mode.Key()) + Gain(s, n.customMode.Key()) >= 0
  }

  /** No write takes more than is free by then; what an oversized old value gives back
      counts from its write on. */
  ghost predicate RoomAlong(n: Names, s: Store)
    requires Valid(s)
  {
    var before := Remaining(s) + Gain(s, n.setupMode.Key());
    before >= 0 && RoomFrom(n, s, before)
  }

  /** Initialisation succeeds exactly if no existing variable has other attributes and
      there is room along all its writes. */
  lemma InitSucceeds(n: Names, s: Store, pcdEnable: bool)
    requires Valid(s) && Good(n)
    ensures Init(n, s, pcdEnable).1 == EfiSuccess <==> Compatible(n, s) && RoomAlong(n, s)
  {
    hide VariableStore.Valid, WriteByte, InitFrom, MapGet, Put, Remaining, SameExcept;
    hide Plain, Large, HasByte, CanHold, Gain, RoomFrom, VarName.Key;
    ReadByteIs(s, n.pk);
    var setupMode := if Large(s, n.pk.Key()) then IN_USER_MODE else IN_SETUP_MODE;
    WriteByteIs(s, n.setupMode, VOLATILE_ATTRIBUTES, setupMode);
    var (s1, status1) := WriteByte(s, n.setupMode, VOLATILE_ATTRIBUTES, setupMode);
    if status1 == EfiSuccess {
      InitSucceedsFrom(n, s, s1, setupMode, pcdEnable);
    }
  }

  lemma InitSucceedsFrom(n: Names, s: Store, s1: Store, setupMode: u8, pcdEnable: bool)
    requires Valid(s1) && Good(n)
    requires setupMode == if Large(s, n.pk.Key()) then IN_USER_MODE else IN_SETUP_MODE
    requires SameExcept(s, s1, {n.setupMode.Key()})
    requires CanHold(s, n.setupMode.Key(), VOLATILE_ATTRIBUTES)
    ensures InitFrom(n, s1, setupMode, pcdEnable).1 == EfiSuccess <==> Compatible(n, s) && RoomFrom(n, s, Remaining(s1))
  {
    hide VariableStore.Valid, WriteByte, InitEnable, Put, Remaining, SameExcept, HasByte, CanHold, Gain, Large, Plain,
         VarName.Key;
    InitEnableIs(n.enable, s1, setupMode, pcdEnable);
    var (s2, status2, enable) := InitEnable(n.enable, s1, setupMode, pcdEnable);
    SameView(s, s1, n.enable.Key(), n.setupMode.Key());
    if status2 == EfiSuccess {
      var mode := if enable == ENABLED && setupMode == IN_USER_MODE then ENABLED else DISABLED;
      SameView(s, s1, n.mode.Key(), n.setupMode.Key());
      SameView(s, s1, n.customMode.Key(), n.setupMode.Key());
      SameView(s1, s2, n.mode.Key(), n.enable.Key());
      SameView(s1, s2, n.customMode.Key(), n.enable.Key());
      InitModesSucceed(n, s2, mode);
    }
  }

  /** A write to another variable does not change what the tests on k see. */
  lemma SameView(s: Store, t: Store, k: Key, written: Key)
    requires SameExcept(s, t, {written}) && k != written
    ensures HasByte(s, k) == HasByte(t, k) && Gain(s, k) == Gain(t, k)
    ensures CanHold(s, k, VOLATILE_ATTRIBUTES) == CanHold(t, k, VOLATILE_ATTRIBUTES)
    ensures CanHold(s, k, PERSISTENT_ATTRIBUTES) == CanHold(t, k, PERSISTENT_ATTRIBUTES)
  {}

  lemma InitModesSucceed(n: Names, s: Store, mode: u8)
    requires Valid(s) && Good(n)
    ensures var (s3, status3) := WriteByte(s, n.mode, VOLATILE_ATTRIBUTES, mode);
            && (status3 == EfiSuccess
                <==> CanHold(s, n.mode.Key(), VOLATILE_ATTRIBUTES) && Remaining(s) + Gain(s, n.mode.Key()) >= 0)
            && (status3 == EfiSuccess ==>
                  (WriteByte(s3, n.customMode, PERSISTENT_ATTRIBUTES, STANDARD).1 == EfiSuccess
                   <==> CanHold(s, n.customMode.Key(), PERSISTENT_ATTRIBUTES)
                        && Remaining(s) + Gain(s, n.mode.Key()) + Gain(s, n.customMode.Key()) >= 0))
  {
    hide VariableStore.Valid, WriteByte, Put, Remaining, SameExcept, CanHold, Gain, Plain, VarName.Key;
    WriteByteIs(s, n.mode, VOLATILE_ATTRIBUTES, mode);
    var s3 := WriteByte(s, n.mode, VOLATILE_ATTRIBUTES, mode).0;
    if WriteByte(s, n.mode, VOLATILE_ATTRIBUTES, mode).1 == EfiSuccess {
      SameView(s, s3, n.customMode.Key(), n.mode.Key());
    }
    WriteByteIs(s3, n.customMode, PERSISTENT_ATTRIBUTES, STANDARD);
  }

  lemma ChainAgrees(s: Store, pk: Key, setupMode: Key, enable: Key, mode: Key, customMode: Key, pcdEnable: bool)
    requires pk != setupMode && pk != enable && pk != mode && pk != customMode
    requires setupMode != enable && setupMode != mode && setupMode != customMode
    requires enable != mode && enable != customMode && mode != customMode
    ensures var t := Chain(s, pk, setupMode, enable, mode, customMode, pcdEnable);
            && Agree(t, pk, setupMode, enable, mode, customMode)
            && (Large(t, pk) <==> Large(s, pk))
            && (HasByte(s, enable) ==> HasByte(t, enable) && t.vars[enable] == s.vars[enable])
            && (!HasByte(s, enable) && Large(s, pk) ==>
                Holds(t, enable, PERSISTENT_ATTRIBUTES, if pcdEnable then ENABLED else DISABLED))
            && SameExcept(s, t, {setupMode, enable, mode, customMode})
  {}

  ghost function Written(n: Names): set<Key> {
    {n.setupMode.Key(), n.enable.Key(), n.mode.Key(), n.customMode.Key()}
  }

  // ---- every outcome, in numbers ----

  /** One byte can be written to the variable, under these attributes. */
  ghost predicate CanWrite(s: Store, k: Key, attributes: u32) {
    CanHold(s, k, attributes) && Valid(s) && Remaining(s) + Gain(s, k) >= 0
  }

  /** SetupMode is written: 0 is user mode, 1 is setup mode. */
  ghost function Stage1(n: Names, s: Store): Store {
    Put(s, n.setupMode.Key(), Entry(6, [if Large(s, n.pk.Key()) then 0 else 1]))
  }

  /** SecureBootEnable is created in user mode, if it is not one byte already. */
  ghost function Stage2(n: Names, s: Store, pcdEnable: bool): Store {
    if WritesEnable(s, n.pk.Key(), n.enable.Key())
    then Put(Stage1(n, s), n.enable.Key(), Entry(3, [if pcdEnable then 1 else 0]))
    else Stage1(n, s)
  }

  /** SecureBoot is on in user mode if SecureBootEnable is 1. */
  ghost function Stage3(n: Names, s: Store, pcdEnable: bool): Store {
    var s2 := Stage2(n, s, pcdEnable);
    var on := Large(s, n.pk.Key()) && n.enable.Key() in s2.vars && s2.vars[n.enable.Key()].data == [1];
    Put(s2, n.mode.Key(), Entry(6, [if on then 1 else 0]))
  }

  /** CustomMode is standard. */
  ghost function Stage4(n: Names, s: Store, pcdEnable: bool): Store {
    Put(Stage3(n, s, pcdEnable), n.customMode.Key(), Entry(3, [0]))
  }

  /** Every initialisation, failed or not: it makes the writes one by one up to the first that
      cannot be made, leaves what the writes before it left, and succeeds if there is none. */
  lemma InitExactly(n: Names, s: Store, pcdEnable: bool)
    requires Valid(s) && Good(n)
    ensures var s1, s2, s3 := Stage1(n, s), Stage2(n, s, pcdEnable), Stage3(n, s, pcdEnable);
            var can1 := CanWrite(s, n.setupMode.Key(), 6);
            var can2 := !WritesEnable(s, n.pk.Key(), n.enable.Key()) || CanWrite(s1, n.enable.Key(), 3);
            var can3, can4 := CanWrite(s2, n.mode.Key(), 6), CanWrite(s3, n.customMode.Key(), 3);
            var (t, status) := Init(n, s, pcdEnable);
            && t == (if !can1 then s else if !can2 then s1 else if !can3 then s2 else if !can4 then s3
                     else Stage4(n, s, pcdEnable))
            && (status == EfiSuccess <==> can1 && can2 && can3 && can4)
  {
    hide VariableStore.Valid, WriteByte, InitFrom, MapGet, Put, Plain, VarName.Key, Stage2, Stage3, Stage4, Remaining;
    ReadByteIs(s, n.pk);
    var setupMode := if Large(s, n.pk.Key()) then IN_USER_MODE else IN_SETUP_MODE;
    WriteByteIs(s, n.setupMode, 6, setupMode);
    var (s1, status1) := WriteByte(s, n.setupMode, 6, setupMode);
    if status1 == EfiSuccess {
      InitFromExactly(n, s, s1, setupMode, pcdEnable);
    }
  }

  lemma InitFromExactly(n: Names, s: Store, s1: Store, setupMode: u8, pcdEnable: bool)
    requires Valid(s1) && Good(n) && s1 == Stage1(n, s) && SameExcept(s, s1, {n.setupMode.Key()})
    requires setupMode == if Large(s, n.pk.Key()) then IN_USER_MODE else IN_SETUP_MODE
    ensures var s2, s3 := Stage2(n, s, pcdEnable), Stage3(n, s, pcdEnable);
            var can2 := !WritesEnable(s, n.pk.Key(), n.enable.Key()) || CanWrite(s1, n.enable.Key(), 3);
            var can3, can4 := CanWrite(s2, n.mode.Key(), 6), CanWrite(s3, n.customMode.Key(), 3);
            var (t, status) := InitFrom(n, s1, setupMode, pcdEnable);
            && t == (if !can2 then s1 else if !can3 then s2 else if !can4 then s3 else Stage4(n, s, pcdEnable))
            && (status == EfiSuccess <==> can2 && can3 && can4)
  {
    hide VariableStore.Valid, WriteByte, InitEnable, Put, Plain, VarName.Key, Remaining, Stage1, SameExcept;
    var enableKey := n.enable.Key();
    InitEnableIs(n.enable, s1, setupMode, pcdEnable);
    SameView(s, s1, enableKey, n.setupMode.Key());
    var (s2, status2, enable) := InitEnable(n.enable, s1, setupMode, pcdEnable);
    if status2 == EfiSuccess {
      assert s2 == Stage2(n, s, pcdEnable);
      var mode := if enable == ENABLED && setupMode == IN_USER_MODE then ENABLED else DISABLED;
      WriteByteIs(s2, n.mode, 6, mode);
      var (s3, status3) := WriteByte(s2, n.mode, 6, mode);
      if status3 == EfiSuccess {
        assert s3 == Stage3(n, s, pcdEnable);
        WriteByteIs(s3, n.customMode, 3, STANDARD);
      }
    }
  }

  /** After every successful initialisation the secure boot variables agree with each
      other and with PK: SetupMode is 0 if PK has more than one byte and else 1, SecureBoot is
      1 if moreover SecureBootEnable is 1 and else 0, CustomMode is 0. An existing one-byte
      SecureBootEnable and all other variables are untouched; a missing one is created from
      the configured default in user mode. */
  lemma InitEstablishes(n: Names, s: Store, pcdEnable: bool)
    requires Valid(s) && Good(n) && Init(n, s, pcdEnable).1 == EfiSuccess
    ensures var t := Init(n, s, pcdEnable).0;
            var enable := n.enable.Key();
            && Valid(t) && Initialised(n, t) && (Large(t, n.pk.Key()) <==> Large(s, n.pk.Key()))
            && (HasByte(s, enable) ==> HasByte(t, enable) && t.vars[enable] == s.vars[enable])
            && (!HasByte(s, enable) && Large(s, n.pk.Key()) ==> Holds(t, enable, 3, if pcdEnable then 1 else 0))
            && Holds(t, n.setupMode.Key(), 6, if Large(s, n.pk.Key()) then 0 else 1)
            && Holds(t, n.mode.Key(), 6,
                     if Large(s, n.pk.Key()) && enable in t.vars && t.vars[enable].data == [1] then 1 else 0)
            && Holds(t, n.customMode.Key(), 3, 0)
            && SameExcept(s, t, Written(n))
  {
    hide VariableStore.Valid, Init, Chain, Plain, VarName.Key, SameExcept, Large, HasByte;
    InitIsValid(n, s, pcdEnable);
    InitIsChain(n, s, pcdEnable);
    ChainAgrees(s, n.pk.Key(), n.setupMode.Key(), n.enable.Key(), n.mode.Key(), n.customMode.Key(), pcdEnable);
  }

  lemma InitIsValid(n: Names, s: Store, pcdEnable: bool)
    requires Valid(s)
    ensures Valid(Init(n, s, pcdEnable).0)
  {
    hide VariableStore.Valid, WriteByte, InitEnable, MapGet;
  }

  /** Initialising again changes nothing, whatever the configured default is by then. */
  lemma InitIsIdempotent(n: Names, s: Store, pcdEnable: bool)
    requires Valid(s) && Good(n) && Initialised(n, s)
    ensures Init(n, s, pcdEnable) == (s, EfiSuccess)
  {
    ReadByteIs(s, n.pk);
    var setupMode := s.vars[n.setupMode.Key()].data[0];
    RewriteByte(s, n.setupMode, VOLATILE_ATTRIBUTES, setupMode);
    InitEnableIs(n.enable, s, setupMode, pcdEnable);
    var mode := s.vars[n.mode.Key()].data[0];
    RewriteByte(s, n.mode, VOLATILE_ATTRIBUTES, mode);
    RewriteByte(s, n.customMode, PERSISTENT_ATTRIBUTES, STANDARD);
  }

  lemma RewriteByte(s: Store, v: VarName, attributes: u32, b: u8)
    requires Valid(s) && Plain(v) && Holds(s, v.Key(), attributes, b)
    requires attributes == VOLATILE_ATTRIBUTES || attributes == PERSISTENT_ATTRIBUTES
    ensures WriteByte(s, v, attributes, b) == (s, EfiSuccess)
  {
    WriteByteIs(s, v, attributes, b);
    PutSame(s, v.Key());
  }

  // ---- power cycles ----

  /** A boot: volatile variables are gone, then the variables are initialised. */
  function Boot(n: Names, s: Store, pcdEnable: bool): (Store, Status)
    requires Valid(s)
  {
    RebootKeepsValid(s);
    Init(n, Reboot(s), pcdEnable)
  }

  /** The store just after a successful boot: apart from SetupMode and SecureBoot,
      everything in it is non-volatile. */
  ghost predicate Booted(n: Names, s: Store) {
    Valid(s) && Initialised(n, s) && NonVolatileExcept(s, n.setupMode.Key(), n.mode.Key())
  }

  lemma BootEstablishes(n: Names, s: Store, pcdEnable: bool)
    requires Valid(s) && Good(n) && Boot(n, s, pcdEnable).1 == EfiSuccess
    ensures Booted(n, Boot(n, s, pcdEnable).0)
  {
    RebootKeepsValid(s);
    InitEstablishes(n, Reboot(s), pcdEnable);
    InitIsChain(n, Reboot(s), pcdEnable);
    ChainStaysNonVolatile(Reboot(s), n.pk.Key(), n.setupMode.Key(), n.enable.Key(), n.mode.Key(), n.customMode.Key(),
                          pcdEnable);
  }

  ghost predicate NonVolatileExcept(s: Store, j: Key, k: Key) {
    forall i <- s.vars :: HasBit(s.vars[i].attributes, NON_VOLATILE) || i == j || i == k
  }

  lemma ChainStaysNonVolatile(s: Store, pk: Key, setupMode: Key, enable: Key, mode: Key, customMode: Key,
                              pcdEnable: bool)
    requires NonVolatileExcept(s, setupMode, mode)
    ensures NonVolatileExcept(Chain(s, pk, setupMode, enable, mode, customMode, pcdEnable), setupMode, mode)
  {
    assert HasBit(PERSISTENT_ATTRIBUTES, NON_VOLATILE);
  }

  /** The initialisation after a reboot puts back what the reboot dropped. */
  lemma ChainRebuilds(s: Store, pk: Key, setupMode: Key, enable: Key, mode: Key, customMode: Key, pcdEnable: bool)
    requires Valid(s) && Agree(s, pk, setupMode, enable, mode, customMode) && NonVolatileExcept(s, setupMode, mode)
    requires pk != setupMode && pk != mode && enable != setupMode && enable != mode
    requires setupMode != mode && customMode != setupMode && customMode != mode
    ensures Chain(Reboot(s), pk, setupMode, enable, mode, customMode, pcdEnable).vars == s.vars
  {
    hide VariableStore.Valid, NonVolatile;
    var r := Reboot(s);
    assert !HasBit(VOLATILE_ATTRIBUTES, NON_VOLATILE) && HasBit(PERSISTENT_ATTRIBUTES, NON_VOLATILE);
    assert Large(r, pk) == Large(s, pk);
    assert Large(s, pk) ==> HasByte(r, enable) && r.vars[enable] == s.vars[enable];
    assert Holds(r, customMode, PERSISTENT_ATTRIBUTES, STANDARD);
    assert s.vars == r.vars[setupMode := s.vars[setupMode]][mode := s.vars[mode]];
  }

  lemma RebootCanInit(s: Store, pk: Key, setupMode: Key, enable: Key, mode: Key, customMode: Key)
    requires Valid(s) && Agree(s, pk, setupMode, enable, mode, customMode)
    requires NonVolatileExcept(s, setupMode, mode) && enable != setupMode && enable != mode
    ensures var r := Reboot(s);
            && setupMode !in r.vars && mode !in r.vars && SizeOf(r, customMode) == 1
            && CanHold(r, customMode, PERSISTENT_ATTRIBUTES) && !WritesEnable(r, pk, enable)
    ensures setupMode in s.vars && !HasBit(s.vars[setupMode].attributes, NON_VOLATILE) && SizeOf(s, setupMode) == 1
    ensures mode in s.vars && !HasBit(s.vars[mode].attributes, NON_VOLATILE) && SizeOf(s, mode) == 1
  {
    assert !HasBit(VOLATILE_ATTRIBUTES, NON_VOLATILE) && HasBit(PERSISTENT_ATTRIBUTES, NON_VOLATILE);
  }

  /** Two volatile variables give back their bytes: remove one, then reboot. */
  lemma RebootFreesTwo(s: Store, j: Key, k: Key)
    requires Valid(s) && j in s.vars && k in s.vars && j != k
    requires !HasBit(s.vars[j].attributes, NON_VOLATILE) && !HasBit(s.vars[k].attributes, NON_VOLATILE)
    ensures Valid(Reboot(s)) && Remaining(Reboot(s)) >= Remaining(s) + SizeOf(s, j) + SizeOf(s, k)
  {
    RemoveKeeps(s, j);
    WithoutIs(s.order, j);
    RebootAfterRemove(s, j);
    RebootFrees(Remove(s, j), k);
  }

  lemma RebootAfterRemove(s: Store, j: Key)
    requires Valid(s) && Valid(Remove(s, j)) && j in s.vars && !HasBit(s.vars[j].attributes, NON_VOLATILE)
    ensures Reboot(Remove(s, j)) == Reboot(s)
  {
    hide NonVolatile, Without, Used, HasBit;
    WithoutVolatile(s.order, s.vars, j);
    assert NonVolatileVars(s.vars - {j}) == NonVolatileVars(s.vars);
  }

  /** Dropping a volatile variable first does not change what a reboot keeps. */
  lemma {:induction false} WithoutVolatile(order: seq<Key>, vars: map<Key, Entry>, k: Key)
    requires Distinct(order) && k in vars && (forall i <- order :: i in vars)
    requires !HasBit(vars[k].attributes, NON_VOLATILE)
    ensures forall i <- Without(order, k) :: i in vars - {k}
    ensures NonVolatile(Without(order, k), vars - {k}) == NonVolatile(order, vars)
  {
    WithoutIs(order, k);
    if order == [] {
    } else {
      WithoutIs(order[1..], k);
      if order[0] == k {
        SameNonVolatile(order[1..], vars, vars - {k});
      } else {
        WithoutVolatile(order[1..], vars, k);
      }
    }
  }

  lemma {:induction false} SameNonVolatile(order: seq<Key>, vars: map<Key, Entry>, vars': map<Key, Entry>)
    requires forall k <- order :: k in vars && k in vars' && vars[k] == vars'[k]
    ensures NonVolatile(order, vars) == NonVolatile(order, vars')
  {
    if order == [] {
    } else {
      SameNonVolatile(order[1..], vars, vars');
    }
  }

  /** A power cycle of a booted machine frees what the next initialisation takes. */
  lemma RebootHasRoom(n: Names, s: Store)
    requires Good(n) && Booted(n, s)
    ensures Valid(Reboot(s)) && Compatible(n, Reboot(s)) && RoomAlong(n, Reboot(s))
  {
    hide VariableStore.Valid, Plain, VarName.Key, Reboot, Remaining;
    var setupMode, mode := n.setupMode.Key(), n.mode.Key();
    RebootCanInit(s, n.pk.Key(), setupMode, n.enable.Key(), mode, n.customMode.Key());
    RebootFreesTwo(s, setupMode, mode);
    hide Agree, NonVolatileExcept;
  }

  /** The next boot succeeds and rebuilds the same variables. */
  lemma BootAgain(n: Names, s: Store, pcdEnable: bool)
    requires Good(n) && Booted(n, s)
    ensures Boot(n, s, pcdEnable).1 == EfiSuccess
    ensures Boot(n, s, pcdEnable).0.vars == s.vars && Booted(n, Boot(n, s, pcdEnable).0)
  {
    var r := Reboot(s);
    RebootHasRoom(n, s);
    hide VariableStore.Valid, Init, Compatible, RoomAlong, Agree, Chain, Plain, VarName.Key, NonVolatileExcept, Reboot;
    InitSucceeds(n, r, pcdEnable);
    InitIsChain(n, r, pcdEnable);
    ChainRebuilds(s, n.pk.Key(), n.setupMode.Key(), n.enable.Key(), n.mode.Key(), n.customMode.Key(), pcdEnable);
    BootEstablishes(n, s, pcdEnable);
  }

  /** Any number of further boots. */
  function Boots(n: Names, s: Store, pcds: seq<bool>): (Store, Status)
    requires Valid(s) && Good(n)
    decreases |pcds|
  {
    if pcds == [] then (s, EfiSuccess)
    else
      var (t, status) := Boot(n, s, pcds[0]);
      if status != EfiSuccess then (t, status)
      else
        BootEstablishes(n, s, pcds[0]);
        Boots(n, t, pcds[1..])
  }

  /** Once a boot has succeeded, every later one does, and the variables stay as they are:
      the invariant holds after every boot of every run of power cycles. */
  lemma {:induction false} EveryBootAgrees(n: Names, s: Store, pcds: seq<bool>)
    requires Good(n) && Booted(n, s)
    ensures Boots(n, s, pcds).1 == EfiSuccess
    ensures Booted(n, Boots(n, s, pcds).0) && Boots(n, s, pcds).0.vars == s.vars
    decreases |pcds|
  {
    if pcds == [] {
    } else {
      BootAgain(n, s, pcds[0]);
      EveryBootAgrees(n, Boot(n, s, pcds[0]).0, pcds[1..]);
    }
  }

  /** The variables of a machine that has no PK: setup mode, secure boot off, standard. */
  ghost function SetupVars(n: Names): map<Key, Entry> {
    map[n.setupMode.Key() := Entry(6, [1]), n.mode.Key() := Entry(6, [0]), n.customMode.Key() := Entry(3, [0])]
  }

  lemma SecureBootKeys()
    ensures var global := GuidFields(0x8BE4DF61, 0x93CA, 0x11D2, [0xAA, 0x0D, 0x00, 0xE0, 0x98, 0x03, 0x2B, 0x8C]);
            && SECURE_BOOT_NAMES.pk.Key() == Messages.KeyOf(Literal("PK"), global)
            && SECURE_BOOT_NAMES.setupMode.Key() == Messages.KeyOf(Literal("SetupMode"), global)
            && SECURE_BOOT_NAMES.mode.Key() == Messages.KeyOf(Literal("SecureBoot"), global)
    ensures SECURE_BOOT_NAMES.enable.Key()
            == Messages.KeyOf(Literal("SecureBootEnable"),
                              GuidFields(0xF0A30BC7, 0xAF08, 0x4556, [0x99, 0xC4, 0x00, 0x10, 0x09, 0xC9, 0x3A, 0x44]))
    ensures SECURE_BOOT_NAMES.customMode.Key()
            == Messages.KeyOf(Literal("CustomMode"),
                              GuidFields(0xC076EC0C, 0x7028, 0x4399, [0xA0, 0x72, 0x71, 0xEE, 0x5C, 0x44, 0x8B, 0x9F]))
  {}

  /** The program's own variables, on a machine that starts with an empty store of at least
      three bytes: every boot succeeds, and after each of them the store holds exactly
      SetupMode 1, SecureBoot 0 and CustomMode 0. */
  lemma FromEmptyStore(capacity: nat, pcds: seq<bool>)
    requires 3 <= capacity <= 0x7FFF_FFFF && pcds != []
    ensures Good(SECURE_BOOT_NAMES) && Valid(EmptyStore(capacity))
    ensures var (t, status) := Boots(SECURE_BOOT_NAMES, EmptyStore(capacity), pcds);
            status == EfiSuccess && Booted(SECURE_BOOT_NAMES, t) && t.vars == SetupVars(SECURE_BOOT_NAMES)
  {
    SecureBootNamesAreGood();
    EmptyStoreIsValid(capacity);
    hide *;
    FirstBoot(SECURE_BOOT_NAMES, capacity, pcds);
  }

  lemma EmptyHasRoom(n: Names, capacity: nat)
    requires Good(n) && 3 <= capacity <= 0x7FFF_FFFF
    ensures Valid(EmptyStore(capacity)) && Reboot(EmptyStore(capacity)) == EmptyStore(capacity)
    ensures Compatible(n, EmptyStore(capacity)) && RoomAlong(n, EmptyStore(capacity))
            && !Large(EmptyStore(capacity), n.pk.Key())
  {
    EmptyStoreIsValid(capacity);
    assert Reboot(EmptyStore(capacity)).vars == map[];
    hide VariableStore.Valid, Remaining, Plain, VarName.Key;
  }

  lemma EmptyChain(n: Names, capacity: nat, pcdEnable: bool)
    requires Good(n)
    ensures Chain(EmptyStore(capacity), n.pk.Key(), n.setupMode.Key(), n.enable.Key(), n.mode.Key(),
                  n.customMode.Key(), pcdEnable).vars
            == SetupVars(n)
  {
    hide Plain, VarName.Key;
  }

  lemma FirstBoot(n: Names, capacity: nat, pcds: seq<bool>)
    requires Good(n) && Valid(EmptyStore(capacity)) && 3 <= capacity <= 0x7FFF_FFFF && pcds != []
    ensures var (t, status) := Boots(n, EmptyStore(capacity), pcds);
            status == EfiSuccess && Booted(n, t) && t.vars == SetupVars(n)
  {
    hide VariableStore.Valid, Init, Compatible, RoomAlong, Good, Reboot, EmptyStore, VarName.Key, Large,
         NonVolatileExcept;
    var s := EmptyStore(capacity);
    EmptyHasRoom(n, capacity);
    InitSucceeds(n, s, pcds[0]);
    BootEstablishes(n, s, pcds[0]);
    InitIsChain(n, s, pcds[0]);
    EmptyChain(n, capacity, pcds[0]);
    EveryBootAgrees(n, Boot(n, s, pcds[0]).0, pcds[1..]);
  }

  // ---- a machine that is used between its boots ----

  /** A boot, followed by any client calls. */
  datatype Epoch = Epoch(pcdEnable: bool, calls: seq<Call>)

  /** The store after the last epoch, and the stores right after each boot. */
  function Life(n: Names, s: Store, epochs: seq<Epoch>): (r: (Store, seq<(Store, Status)>))
    requires Valid(s) && Good(n) && forall e <- epochs :: forall c <- e.calls :: ValidCall(c)
    decreases |epochs|
  {
    if epochs == [] then (s, [])
    else
      var (t, status) := Boot(n, s, epochs[0].pcdEnable);
      InitKeepsValid(n, s, epochs[0].pcdEnable);
      RunKeepsValid(t, epochs[0].calls);
      var (last, boots) := Life(n, RunMap(t, epochs[0].calls).0, epochs[1..]);
      (last, [(t, status)] + boots)
  }

  /** A life has a boot for every epoch, each from what the calls of the epoch before left. */
  lemma {:induction false} LifeIs(n: Names, s: Store, epochs: seq<Epoch>, i: nat)
    requires Valid(s) && Good(n) && (forall e <- epochs :: forall c <- e.calls :: ValidCall(c)) && i < |epochs|
    ensures var boots := Life(n, s, epochs).1;
            && |boots| == |epochs|
            && (i == 0 ==> boots[0] == Boot(n, s, epochs[0].pcdEnable))
            && (i > 0 ==>
                  && Valid(boots[i - 1].0) && (forall c <- epochs[i - 1].calls :: ValidCall(c))
                  && var t := RunMap(boots[i - 1].0, epochs[i - 1].calls).0;
                     Valid(t) && boots[i] == Boot(n, t, epochs[i].pcdEnable))
    decreases |epochs|
  {
    hide VariableStore.Valid, Good, Boot, RunMap, ValidCall;
    var t := Boot(n, s, epochs[0].pcdEnable).0;
    InitKeepsValid(n, s, epochs[0].pcdEnable);
    RunKeepsValid(t, epochs[0].calls);
    var u, rest := RunMap(t, epochs[0].calls).0, epochs[1..];
    if rest == [] {
      assert Life(n, u, rest).1 == [];
    } else {
      LifeIs(n, u, rest, if i > 0 then i - 1 else 0);
      LifeIs(n, u, rest, 0);
    }
  }

  lemma InitKeepsValid(n: Names, s: Store, pcdEnable: bool)
    requires Valid(s)
    ensures Valid(Boot(n, s, pcdEnable).0)
  {
    RebootKeepsValid(s);
  }

  /** Whatever clients write between boots, every boot that succeeds leaves the secure
      boot variables in agreement. */
  lemma {:induction false} AgreesThroughLife(n: Names, s: Store, epochs: seq<Epoch>)
    requires Valid(s) && Good(n) && forall e <- epochs :: forall c <- e.calls :: ValidCall(c)
    ensures forall b <- Life(n, s, epochs).1 :: b.1 == EfiSuccess ==> Booted(n, b.0)
    decreases |epochs|
  {
    hide VariableStore.Valid, Good, Boot, Booted, RunMap, ValidCall;
    if epochs == [] {
    } else {
      var (t, status) := Boot(n, s, epochs[0].pcdEnable);
      if status == EfiSuccess {
        BootEstablishes(n, s, epochs[0].pcdEnable);
      }
      InitKeepsValid(n, s, epochs[0].pcdEnable);
      RunKeepsValid(t, epochs[0].calls);
      AgreesThroughLife(n, RunMap(t, epochs[0].calls).0, epochs[1..]);
    }
  }

  // ---- the method ----

  /** InitSecureBootVariables, on the byte-level driver. */
  method InitSecureBootVariables(d: Driver, pcdEnable: bool) returns (status: Status)
    requires Rt.Ready(d)
    modifies d, d.mVariableParamMem, d.mVariableResultMem
    ensures Rt.Ready(d)
    ensures (d.store, status) == Init(SECURE_BOOT_NAMES, old(d.store), pcdEnable)
  {
    SecureBootNamesAreGood();
    status := InitVariables(d, SECURE_BOOT_NAMES, pcdEnable);
  }

  /** The initialisation, for any names. */
  method InitVariables(d: Driver, n: Names, pcdEnable: bool) returns (status: Status)
    requires Rt.Ready(d) && Good(n)
    modifies d, d.mVariableParamMem, d.mVariableResultMem
    ensures Rt.Ready(d)
    ensures (d.store, status) == Init(n, old(d.store), pcdEnable)
  {
    hide VariableStore.Valid, MapGet, MapSet, VarName.Key;
    var pk, setup, enableName, mode, custom := n.pk, n.setupMode, n.enable, n.mode, n.customMode;
    var r := Rt.GetVariable(d, pk.name, pk.guid, 1);
    var setupMode := if r.status == EfiBufferTooSmall then IN_USER_MODE else IN_SETUP_MODE;
    status := Rt.SetVariable(d, setup.name, setup.guid, VOLATILE_ATTRIBUTES, [setupMode]);
    if status != EfiSuccess {
      return;
    }
    var enable := DISABLED;
    r := Rt.GetVariable(d, enableName.name, enableName.guid, 1);
    if r.status == EfiSuccess {
      if setupMode == IN_USER_MODE && r.data != [] {
        enable := r.data[0];
      }
    } else if setupMode == IN_USER_MODE {
      enable := if pcdEnable then ENABLED else DISABLED;
      status := Rt.SetVariable(d, enableName.name, enableName.guid, PERSISTENT_ATTRIBUTES, [enable]);
      if status != EfiSuccess {
        return;
      }
    }
    var secureBootMode := if enable == ENABLED && setupMode == IN_USER_MODE then ENABLED else DISABLED;
    status := Rt.SetVariable(d, mode.name, mode.guid, VOLATILE_ATTRIBUTES, [secureBootMode]);
    if status != EfiSuccess {
      return;
    }
    status := Rt.SetVariable(d, custom.name, custom.guid, PERSISTENT_ATTRIBUTES, [STANDARD]);
  }
}
