/** The variable store behind the trusted application: an ordered finite map from
    (name, GUID) to attributes and data, with the rules of section 8.2 of the UEFI
    Specification 2.8 for unauthenticated variables. */
module VariableStore {
  import opened Bytes
  import opened Guids

  datatype Key = Key(name: seq<u16>, guid: Guid)
  datatype Entry = Entry(attributes: u32, data: seq<u8>)

  /** order lists the keys of vars as GetNextVariableName visits them;
      capacity bounds the data bytes that all variables hold together. */
  datatype Store = Store(order: seq<Key>, vars: map<Key, Entry>, capacity: nat)

  /** The results of a command that the driver distinguishes, and one that it does not. */
  datatype TeecResult = Success | ItemNotFound | ShortBuffer | OutOfMemory | AccessDenied | BadParameters

  // ---- attributes (authvars_test/host/edk2_driver/UEFIVarServices.h:106-120) ----

  const NON_VOLATILE: u32 := 0x01
  const BOOTSERVICE_ACCESS: u32 := 0x02
  const RUNTIME_ACCESS: u32 := 0x04
  const AUTHENTICATED_WRITE: u32 := 0x10
  const TIME_BASED_WRITE: u32 := 0x20
  const APPEND_WRITE: u32 := 0x40
  const KNOWN_ATTRIBUTES: u32 := 0x7F

  predicate HasBit(attributes: u32, bit: u32)
    requires bit != 0
  {
    attributes / bit % 2 == 1
  }

  /** The attributes a variable is stored with: the append bit only tells how to write. */
  function StoredAttributes(attributes: u32): u32 {
    if HasBit(attributes, APPEND_WRITE) then attributes - APPEND_WRITE else attributes
  }

  predicate Accessible(attributes: u32) {
    HasBit(attributes, BOOTSERVICE_ACCESS) || HasBit(attributes, RUNTIME_ACCESS)
  }

  predicate Authenticated(attributes: u32) {
    HasBit(attributes, AUTHENTICATED_WRITE) || HasBit(attributes, TIME_BASED_WRITE)
  }

  // ---- the ordered map ----

  ghost predicate Distinct(order: seq<Key>) {
    forall i, j :: 0 <= i < j < |order| ==> order[i] != order[j]
  }

  /** Data bytes held by the listed variables. */
  function Used(order: seq<Key>, vars: map<Key, Entry>): nat
    requires forall k <- order :: k in vars
  {
    if order == [] then 0 else |vars[order[0]].data| + Used(order[1..], vars)
  }

  ghost predicate ValidName(name: seq<u16>) {
    name != [] && 0 !in name && |name| <= 0x7FFE
  }

  ghost predicate Valid(s: Store) {
    && Distinct(s.order)
    && (forall k :: k in s.order <==> k in s.vars)
    && (forall k {:trigger k in s.vars} | k in s.vars :: ValidName(k.name) && s.vars[k].data != [])
    && Used(s.order, s.vars) <= s.capacity <= 0x7FFF_FFFF
  }

  function Remaining(s: Store): nat
    requires Valid(s)
  {
    s.capacity - Used(s.order, s.vars)
  }

  function Largest(order: seq<Key>, vars: map<Key, Entry>): nat
    requires forall k <- order :: k in vars
  {
    if order == [] then 0
    else
      var rest := Largest(order[1..], vars);
      if |vars[order[0]].data| > rest then |vars[order[0]].data| else rest
  }

  function Put(s: Store, k: Key, e: Entry): Store {
    s.(order := if k in s.vars then s.order else s.order + [k], vars := s.vars[k := e])
  }

  function Without(order: seq<Key>, k: Key): seq<Key> {
    if order == [] then []
    else if order[0] == k then order[1..]
    else [order[0]] + Without(order[1..], k)
  }

  function Remove(s: Store, k: Key): Store {
    s.(order := Without(s.order, k), vars := s.vars - {k})
  }

  function SizeOf(s: Store, k: Key): nat {
    if k in s.vars then |s.vars[k].data| else 0
  }

  function Write(s: Store, k: Key, e: Entry): (Store, TeecResult)
    requires Valid(s)
  {
    if Used(s.order, s.vars) - SizeOf(s, k) + |e.data| > s.capacity then (s, OutOfMemory)
    else (Put(s, k, e), Success)
  }

  /** SetVariable. No access attribute, or no data without the append bit, deletes. */
  function Set(s: Store, k: Key, attributes: u32, data: seq<u8>): (r: (Store, TeecResult))
    requires Valid(s)
  {
    var append := HasBit(attributes, APPEND_WRITE);
    var stored := StoredAttributes(attributes);
    if k.name == [] || attributes > KNOWN_ATTRIBUTES then (s, BadParameters)
    else if Authenticated(attributes) then (s, AccessDenied)
    else if k in s.vars then
      if !Accessible(stored) || (data == [] && !append) then (Remove(s, k), Success)
      else if stored != s.vars[k].attributes then (s, BadParameters)
      else Write(s, k, Entry(stored, if append then s.vars[k].data + data else data))
    else if !Accessible(stored) then (s, ItemNotFound)
    else if data == [] then (s, if append then Success else ItemNotFound)
    else Write(s, k, Entry(stored, data))
  }

  datatype Cursor = Start | After(key: Key)

  function IndexOf(order: seq<Key>, k: Key): (i: nat)
    requires k in order
    ensures i < |order| && order[i] == k && k !in order[..i]
  {
    if order[0] == k then 0 else 1 + IndexOf(order[1..], k)
  }

  /** GetNextVariableName: the key that follows the cursor. */
  function Next(s: Store, cursor: Cursor): Option<Key>
    requires cursor.After? ==> cursor.key in s.order
  {
    var i := if cursor.Start? then 0 else IndexOf(s.order, cursor.key) + 1;
    if i < |s.order| then Some(s.order[i]) else None
  }

  function EmptyStore(capacity: nat): Store { Store([], map[], capacity) }

  lemma EmptyStoreIsValid(capacity: nat)
    requires capacity <= 0x7FFF_FFFF
    ensures Valid(EmptyStore(capacity)) && Remaining(EmptyStore(capacity)) == capacity
  {}

  // ---- what the operations keep ----

  /** Every variable but those in ks is the same in both stores. */
  ghost predicate SameExcept(s: Store, t: Store, ks: set<Key>) {
    && (forall k :: k !in ks ==> (k in t.vars <==> k in s.vars))
    && (forall k :: k !in ks && k in s.vars ==> t.vars[k] == s.vars[k])
  }

  lemma {:induction false} UsedFrame(order: seq<Key>, vars: map<Key, Entry>, vars': map<Key, Entry>)
    requires forall k <- order :: k in vars && k in vars' && vars[k] == vars'[k]
    ensures Used(order, vars) == Used(order, vars')
  {
    if order == [] {
    } else {
      UsedFrame(order[1..], vars, vars');
    }
  }

  lemma {:induction false} UsedAppend(order: seq<Key>, k: Key, vars: map<Key, Entry>)
    requires k in vars && forall j <- order :: j in vars
    ensures Used(order + [k], vars) == Used(order, vars) + |vars[k].data|
  {
    if order == [] {
      assert order + [k] == [k];
    } else {
      assert (order + [k])[1..] == order[1..] + [k];
      UsedAppend(order[1..], k, vars);
    }
  }

  lemma DistinctCons(k: Key, order: seq<Key>)
    requires Distinct(order) && k !in order
    ensures Distinct([k] + order)
  {}

  lemma DistinctTail(order: seq<Key>)
    requires Distinct(order) && order != []
    ensures Distinct(order[1..]) && order[0] !in order[1..]
    ensures forall k :: k in order <==> k == order[0] || k in order[1..]
  {}

  lemma {:induction false} WithoutIs(order: seq<Key>, k: Key)
    requires Distinct(order)
    ensures Distinct(Without(order, k))
    ensures forall j :: j in Without(order, k) <==> j in order && j != k
    ensures k !in order ==> Without(order, k) == order
  {
    if order == [] {
    } else {
      WithoutIs(order[1..], k);
      if order[0] == k {
      } else {
        assert order[0] !in order[1..];
        assert order[0] !in Without(order[1..], k);
        DistinctCons(order[0], Without(order[1..], k));
      }
    }
  }

  lemma {:induction false} UsedWithout(order: seq<Key>, k: Key, vars: map<Key, Entry>)
    requires Distinct(order) && k in order && forall j <- order :: j in vars
    requires forall j <- Without(order, k) :: j in vars
    ensures Used(order, vars) == Used(Without(order, k), vars) + |vars[k].data|
  {
    if order[0] == k {
    } else {
      WithoutIs(order[1..], k);
      UsedWithout(order[1..], k, vars);
      assert Without(order, k)[1..] == Without(order[1..], k);
    }
  }

  lemma {:induction false} UsedUpdate(order: seq<Key>, vars: map<Key, Entry>, k: Key, e: Entry)
    requires Distinct(order) && k in order && forall j <- order :: j in vars
    ensures Used(order, vars[k := e]) == Used(order, vars) - |vars[k].data| + |e.data|
  {
    if order[0] == k {
      assert forall j <- order[1..] :: j != k;
      UsedFrame(order[1..], vars, vars[k := e]);
    } else {
      UsedUpdate(order[1..], vars, k, e);
    }
  }

  /** Storing accounts for exactly the bytes gained, and keeps the store valid. */
  lemma PutKeeps(s: Store, k: Key, e: Entry)
    requires Valid(s) && ValidName(k.name) && e.data != []
    requires Used(s.order, s.vars) - SizeOf(s, k) + |e.data| <= s.capacity
    ensures Valid(Put(s, k, e))
    ensures Remaining(Put(s, k, e)) == Remaining(s) + SizeOf(s, k) - |e.data|
    ensures k in Put(s, k, e).vars && Put(s, k, e).vars[k] == e && SameExcept(s, Put(s, k, e), {k})
  {
    hide Used;
    var t := Put(s, k, e);
    if k in s.vars {
      UsedUpdate(s.order, s.vars, k, e);
    } else {
      UsedFrame(s.order, s.vars, t.vars);
      UsedAppend(s.order, k, t.vars);
    }
  }

  /** Deleting gives back exactly the bytes of the variable, and keeps the store valid. */
  lemma RemoveKeeps(s: Store, k: Key)
    requires Valid(s) && k in s.vars
    ensures Valid(Remove(s, k)) && k !in Remove(s, k).vars
    ensures Remaining(Remove(s, k)) == Remaining(s) + SizeOf(s, k)
    ensures SizeOf(Remove(s, k), k) == 0 && SameExcept(s, Remove(s, k), {k})
  {
    var t := Remove(s, k);
    WithoutIs(s.order, k);
    UsedWithout(s.order, k, s.vars);
    UsedFrame(t.order, s.vars, t.vars);
  }

  lemma SetKeepsValid(s: Store, k: Key, attributes: u32, data: seq<u8>)
    requires Valid(s) && (k.name != [] ==> ValidName(k.name))
    ensures Valid(Set(s, k, attributes, data).0)
    ensures Set(s, k, attributes, data).1 != Success ==> Set(s, k, attributes, data).0 == s
    ensures SameExcept(s, Set(s, k, attributes, data).0, {k})
  {
    var t := Set(s, k, attributes, data).0;
    if t != s {
      if k in t.vars {
        PutKeeps(s, k, t.vars[k]);
      } else {
        RemoveKeeps(s, k);
      }
    }
  }

  lemma {:induction false} WithoutLast(order: seq<Key>, k: Key)
    requires k !in order
    ensures Without(order + [k], k) == order
  {
    if order == [] {
      assert order + [k] == [k];
    } else {
      assert (order + [k])[1..] == order[1..] + [k];
      WithoutLast(order[1..], k);
    }
  }

  /** Creating a variable and deleting it again restores the store, order included. */
  lemma PutThenRemove(s: Store, k: Key, e: Entry)
    requires Valid(s) && k !in s.vars
    ensures Remove(Put(s, k, e), k) == s
  {
    WithoutLast(s.order, k);
    assert s.vars[k := e] - {k} == s.vars;
  }

  /** Overwriting with what is stored already changes nothing. */
  lemma PutSame(s: Store, k: Key)
    requires k in s.vars
    ensures Put(s, k, s.vars[k]) == s
  {}

  lemma {:induction false} EntryFits(order: seq<Key>, vars: map<Key, Entry>, k: Key)
    requires k in order && forall j <- order :: j in vars
    ensures |vars[k].data| <= Used(order, vars)
    ensures |vars[k].data| <= Largest(order, vars) <= Used(order, vars)
  {
    LargestFits(order, vars);
    if order[0] == k {
    } else {
      EntryFits(order[1..], vars, k);
    }
  }

  lemma {:induction false} LargestFits(order: seq<Key>, vars: map<Key, Entry>)
    requires forall j <- order :: j in vars
    ensures Largest(order, vars) <= Used(order, vars)
  {
    if order == [] {
    } else {
      LargestFits(order[1..], vars);
    }
  }

  /** The largest size is that of some variable, and no variable is larger. */
  lemma {:induction false} LargestIs(order: seq<Key>, vars: map<Key, Entry>)
    requires forall j <- order :: j in vars
    ensures forall j <- order :: |vars[j].data| <= Largest(order, vars)
    ensures if order == [] then Largest(order, vars) == 0
            else exists j :: j in order && |vars[j].data| == Largest(order, vars)
  {
    if order == [] {
    } else {
      LargestIs(order[1..], vars);
      if order[1..] != [] {
        var j :| j in order[1..] && |vars[j].data| == Largest(order[1..], vars);
        assert j in order;
      }
      assert order[0] in order;
    }
  }

  /** The attribute tests in numbers: bits 1 and 2 give access, bits 4 and 5 ask for
      authentication, bit 6 for an append, and bit 0 keeps a variable over power cycles. */
  lemma AttributeNumbers(attributes: u32)
    ensures Accessible(attributes) <==> attributes % 8 >= 2
    ensures Authenticated(attributes) <==> attributes / 16 % 4 != 0
    ensures HasBit(attributes, APPEND_WRITE) <==> attributes / 64 % 2 == 1
    ensures HasBit(attributes, NON_VOLATILE) <==> attributes % 2 == 1
    ensures StoredAttributes(attributes) / 64 % 2 == 0
    ensures StoredAttributes(attributes) == attributes || StoredAttributes(attributes) == attributes - 64
    ensures KNOWN_ATTRIBUTES == 127
  {
    hide Accessible, Authenticated, StoredAttributes;
    LowBits(attributes);
    UpperBits(attributes);
    AppendBit(attributes);
  }

  lemma LowBits(attributes: u32)
    ensures Accessible(attributes) <==> attributes % 8 >= 2
  {
    var r := attributes % 8;
    assert attributes == attributes / 8 * 8 + r;
    assert attributes / 2 == attributes / 8 * 4 + r / 2;
    assert attributes / 4 == attributes / 8 * 2 + r / 4;
  }

  lemma UpperBits(attributes: u32)
    ensures Authenticated(attributes) <==> attributes / 16 % 4 != 0
  {
    var q := attributes / 16;
    assert attributes / 32 == q / 2;
  }

  lemma AppendBit(attributes: u32)
    ensures StoredAttributes(attributes) / 64 % 2 == 0
    ensures StoredAttributes(attributes) == attributes || StoredAttributes(attributes) == attributes - 64
  {}

  // ---- power cycles ----

  function NonVolatile(order: seq<Key>, vars: map<Key, Entry>): seq<Key>
    requires forall k <- order :: k in vars
  {
    if order == [] then []
    else (if HasBit(vars[order[0]].attributes, NON_VOLATILE) then [order[0]] else []) + NonVolatile(order[1..], vars)
  }

  function NonVolatileVars(vars: map<Key, Entry>): map<Key, Entry> {
    map k | k in vars && HasBit(vars[k].attributes, NON_VOLATILE) :: vars[k]
  }

  /** A reboot drops the volatile variables and keeps the others, in order. */
  function Reboot(s: Store): Store
    requires Valid(s)
  {
    s.(order := NonVolatile(s.order, s.vars), vars := NonVolatileVars(s.vars))
  }

  lemma {:induction false} NonVolatileIs(order: seq<Key>, vars: map<Key, Entry>)
    requires Distinct(order) && forall k <- order :: k in vars
    ensures Distinct(NonVolatile(order, vars))
    ensures forall k :: k in NonVolatile(order, vars) <==> k in order && HasBit(vars[k].attributes, NON_VOLATILE)
    ensures Used(NonVolatile(order, vars), vars) <= Used(order, vars)
  {
    hide HasBit;
    if order == [] {
    } else {
      var k, rest := order[0], NonVolatile(order[1..], vars);
      DistinctTail(order);
      hide Distinct;
      NonVolatileIs(order[1..], vars);
      DistinctCons(k, rest);
      assert NonVolatile(order, vars) == if HasBit(vars[k].attributes, NON_VOLATILE) then [k] + rest else rest by {
        assert [] + rest == rest;
      }
      assert ([k] + rest)[1..] == rest;
    }
  }

  /** A power cycle keeps exactly the variables with an odd attribute number. */
  lemma RebootIs(s: Store, k: Key)
    requires Valid(s)
    ensures k in Reboot(s).vars <==> k in s.vars && s.vars[k].attributes % 2 == 1
    ensures k in Reboot(s).vars ==> Reboot(s).vars[k] == s.vars[k]
    ensures Reboot(s).capacity == s.capacity
  {
    if k in s.vars {
      AttributeNumbers(s.vars[k].attributes);
    }
  }

  lemma RebootKeepsValid(s: Store)
    requires Valid(s)
    ensures Valid(Reboot(s)) && Reboot(Reboot(s)) == Reboot(s)
  {
    hide HasBit, NonVolatile;
    var t := Reboot(s);
    NonVolatileIs(s.order, s.vars);
    UsedFrame(t.order, s.vars, t.vars);
    NonVolatileAll(t.order, t.vars);
    assert Reboot(t).vars == t.vars;
  }

  lemma {:induction false} NonVolatileAll(order: seq<Key>, vars: map<Key, Entry>)
    requires forall k <- order :: k in vars && HasBit(vars[k].attributes, NON_VOLATILE)
    ensures NonVolatile(order, vars) == order
  {
    if order == [] {
    } else {
      NonVolatileAll(order[1..], vars);
    }
  }

  ghost function VolatileBytes(order: seq<Key>, vars: map<Key, Entry>, k: Key): nat {
    if k in order && k in vars && !HasBit(vars[k].attributes, NON_VOLATILE) then |vars[k].data| else 0
  }

  lemma {:induction false} VolatileFreed(order: seq<Key>, vars: map<Key, Entry>, k: Key)
    requires Distinct(order) && forall i <- order :: i in vars
    ensures forall i <- NonVolatile(order, vars) :: i in vars
    ensures Used(NonVolatile(order, vars), vars) + VolatileBytes(order, vars, k) <= Used(order, vars)
  {
    hide HasBit;
    if order == [] {
    } else {
      var rest := NonVolatile(order[1..], vars);
      DistinctTail(order);
      hide Distinct;
      VolatileFreed(order[1..], vars, k);
      assert ([order[0]] + rest)[1..] == rest && [] + rest == rest;
    }
  }

  /** A reboot frees the bytes of a volatile variable. */
  lemma RebootFrees(s: Store, k: Key)
    requires Valid(s)
    ensures Valid(Reboot(s)) && Remaining(Reboot(s)) >= Remaining(s) + VolatileBytes(s.order, s.vars, k)
  {
    RebootKeepsValid(s);
    VolatileFreed(s.order, s.vars, k);
    UsedFrame(Reboot(s).order, s.vars, Reboot(s).vars);
  }
}
