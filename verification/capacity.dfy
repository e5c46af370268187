/** What fits through the transport buffers: every variable stored by one Set can be
    fetched and listed; a variable grown by appends may outgrow the result buffer. */
module Capacity {
  import opened Bytes
  import opened WideStrings
  import opened Guids
  import opened VariableStore
  import opened Messages
  import opened Spec = DriverSpec
  import opened Enumeration

  /** The bounds behind the size tests, as totals of name and data bytes. */
  lemma Bounds(name: seq<u32>, dataSize: nat)
    ensures SetFits(name, dataSize) <==> StrSize(name) + dataSize <= 0x8000
    ensures GetFits(name, dataSize) <==> StrSize(name) <= 0x8010 && dataSize <= 0x801C
    ensures NextFits(name, dataSize) <==> CursorSize(name) <= 0x8010 && dataSize / 2 <= 0x8010
    ensures SetFits(name, dataSize) ==> GetFits(name, dataSize) && NextFits(name, StrSize(name))
  {}

  /** Some Get can return the variable's data. */
  ghost predicate Fetchable(s: Store, name: seq<u32>, guid: Guid)
    requires Valid(s)
  {
    exists room: u32 :: MapGet(s, name, guid, room).status == EfiSuccess
  }

  /** Exactly the variables up to 0x801C bytes under names up to 0x8010 bytes are fetchable,
      and asking with the exact size is enough. */
  lemma FetchableExactly(s: Store, name: seq<u32>, guid: Guid)
    requires Valid(s) && KeyOf(name, guid) in s.vars
    ensures var e := s.vars[KeyOf(name, guid)];
            && (Fetchable(s, name, guid) <==> StrSize(name) <= 0x8010 && |e.data| <= 0x801C)
            && (Fetchable(s, name, guid) ==>
                  |e.data| < 0x1_0000
                    && MapGet(s, name, guid, |e.data|)
                       == GetReturn(EfiSuccess, Some(e.attributes), Some(|e.data|), e.data))
  {
    var e := s.vars[KeyOf(name, guid)];
    Bounds(name, |e.data|);
    if StrSize(name) <= 0x8010 && |e.data| <= 0x801C {
      assert MapGet(s, name, guid, |e.data|).status == EfiSuccess;
    }
  }

  /** Whatever one non-append Set has stored can be fetched with its exact size, and
      listed with the exact size of its name. */
  lemma StoredIsFetchable(s: Store, name: seq<u32>, guid: Guid, attributes: u32, data: seq<u8>)
    requires Valid(s) && !HasBit(attributes, APPEND_WRITE) && Accessible(attributes) && data != []
    requires MapSet(s, name, guid, attributes, data).1 == EfiSuccess
    ensures var t, k := MapSet(s, name, guid, attributes, data).0, KeyOf(name, guid);
            && Valid(t) && StrSize(name) + |data| <= 0x8000
            && MapGet(t, name, guid, |data|) == GetReturn(EfiSuccess, Some(attributes), Some(|data|), data)
            && k in t.order && NEXT_RESULT_SIZE + WideSize(k) / 2 <= BUFFER_SIZE
            && NextFits(WidenAll(k.name), WideSize(k))
  {
    hide VariableStore.Valid, MapSet, KeyOf, HasBit;
    var t, k := MapSet(s, name, guid, attributes, data).0, KeyOf(name, guid);
    Bounds(name, |data|);
    KeyIsShort(name, guid);
    MapSetKeepsValid(s, name, guid, attributes, data);
    SetEffect(s, name, guid, attributes, data);
    assert [] + data == data && t.vars[k] == Entry(attributes, data);
    KeyIsListed(t, k);
  }

  lemma KeyIsShort(name: seq<u32>, guid: Guid)
    ensures |KeyOf(name, guid).name| <= |name|
  {}

  lemma KeyIsListed(s: Store, k: Key)
    requires Valid(s) && k in s.vars
    ensures k in s.order
  {}

  /** Every variable that the driver stores can be listed, so lists stay walkable. */
  lemma SetKeepsListable(s: Store, name: seq<u32>, guid: Guid, attributes: u32, data: seq<u8>)
    requires Valid(s) && Listable(s)
    ensures Listable(MapSet(s, name, guid, attributes, data).0)
  {
    var t, k := MapSet(s, name, guid, attributes, data).0, KeyOf(name, guid);
    MapSetKeepsValid(s, name, guid, attributes, data);
    if SetFits(name, |data|) {
      VariableStore.SetKeepsValid(s, k, attributes, data);
      assert |k.name| <= |name|;
      forall j | j in t.order
        ensures CanList(j)
      {
        assert j in t.vars;
        assert j == k || j in s.order;
      }
    }
  }

  /** In every run of calls from a listable store, the store stays listable. */
  lemma {:induction false} RunKeepsListable(s: Store, calls: seq<Call>)
    requires Valid(s) && Listable(s) && forall c <- calls :: ValidCall(c)
    ensures Listable(RunMap(s, calls).0)
    decreases |calls|
  {
    if calls == [] {
    } else {
      var c := calls[0];
      MapStepKeepsValid(s, c);
      if c.SetCall? && c.name.Some? && c.guid.Some? && (c.data.Some? || c.dataSize == 0) {
        SetKeepsListable(s, c.name.value, c.guid.value, c.attributes, if c.data.Some? then c.data.value else []);
      }
      RunKeepsListable(MapStep(s, c).0, calls[1..]);
    }
  }

  /** Every variable can be fetched, under the name it is reported by. */
  ghost predicate AllFetchable(s: Store)
    requires Valid(s)
  {
    forall k <- s.vars :: Fetchable(s, WidenAll(k.name), k.guid)
  }

  /** A variable is fetchable by its sizes alone. */
  predicate Carries(k: Key, e: Entry) {
    4 * (|k.name| + 1) <= 0x8010 && |e.data| <= 0x801C
  }

  lemma FetchableIsCarried(s: Store)
    requires Valid(s)
    ensures AllFetchable(s) <==> forall k <- s.vars :: Carries(k, s.vars[k])
  {
    forall k <- s.vars
      ensures Fetchable(s, WidenAll(k.name), k.guid) <==> Carries(k, s.vars[k])
    {
      WidenThenNarrowAll(k.name);
      assert KeyOf(WidenAll(k.name), k.guid) == k;
      FetchableExactly(s, WidenAll(k.name), k.guid);
    }
  }

  /** An append that is accepted and grows its variable beyond what Get carries. */
  predicate Outgrows(s: Store, name: seq<u32>, guid: Guid, attributes: u32, data: seq<u8>)
    requires Valid(s)
  {
    var k := KeyOf(name, guid);
    && SetFits(name, |data|)
    && attributes <= KNOWN_ATTRIBUTES && !Authenticated(attributes)
    && HasBit(attributes, APPEND_WRITE) && Accessible(StoredAttributes(attributes))
    && k in s.vars && s.vars[k].attributes == StoredAttributes(attributes)
    && |data| <= Remaining(s) && |s.vars[k].data| + |data| > 0x801C
  }

  /** Of the Sets on a fetchable store, exactly the accepted appends beyond 0x801C bytes make
      it unfetchable. */
  lemma SetKeepsFetchable(s: Store, name: seq<u32>, guid: Guid, attributes: u32, data: seq<u8>)
    requires Valid(s) && AllFetchable(s)
    ensures var t := MapSet(s, name, guid, attributes, data).0;
            Valid(t) && (AllFetchable(t) <==> !Outgrows(s, name, guid, attributes, data))
  {
    hide VariableStore.Valid, MapSet, AllFetchable, KeyOf, HasBit, Remaining;
    var (t, status) := MapSet(s, name, guid, attributes, data);
    var k := KeyOf(name, guid);
    MapSetKeepsValid(s, name, guid, attributes, data);
    FetchableIsCarried(s);
    FetchableIsCarried(t);
    SetEffect(s, name, guid, attributes, data);
    if SetFits(name, |data|) {
      Bounds(name, |data|);
      KeyIsShort(name, guid);
      if k in s.vars {
        NamedIfStored(s, k);
      }
      if status == EfiSuccess && !Deletes(attributes, data) {
        CarriedAfter(s, t, k);
      }
    }
  }

  lemma NamedIfStored(s: Store, k: Key)
    requires Valid(s) && k in s.vars
    ensures k.name != []
  {}

  /** Only the variable written decides whether the store is still carried. */
  lemma CarriedAfter(s: Store, t: Store, k: Key)
    requires forall j <- s.vars :: Carries(j, s.vars[j])
    requires t == s || (k in t.vars && t.vars == s.vars[k := t.vars[k]])
    ensures (forall j <- t.vars :: Carries(j, t.vars[j])) <==> (k in t.vars ==> Carries(k, t.vars[k]))
  {}

  predicate AppendCall(c: Call) { c.SetCall? && HasBit(c.attributes, APPEND_WRITE) }

  lemma StepKeepsFetchable(s: Store, c: Call)
    requires Valid(s) && AllFetchable(s) && ValidCall(c) && !AppendCall(c)
    ensures Valid(MapStep(s, c).0) && AllFetchable(MapStep(s, c).0)
  {
    MapStepKeepsValid(s, c);
    if c.SetCall? && c.name.Some? && c.guid.Some? && (c.data.Some? || c.dataSize == 0) {
      SetKeepsFetchable(s, c.name.value, c.guid.value, c.attributes, if c.data.Some? then c.data.value else []);
    }
    hide VariableStore.Valid, MapSet, MapGet, MapNext, MapQuery, AllFetchable;
  }

  /** Without appends, every run of calls from a fetchable store ends in one. */
  lemma {:induction false} RunKeepsFetchable(s: Store, calls: seq<Call>)
    requires Valid(s) && AllFetchable(s) && forall c <- calls :: ValidCall(c) && !AppendCall(c)
    ensures Valid(RunMap(s, calls).0) && AllFetchable(RunMap(s, calls).0)
    decreases |calls|
  {
    hide VariableStore.Valid, MapStep, AllFetchable;
    if calls == [] {
    } else {
      StepKeepsFetchable(s, calls[0]);
      RunKeepsFetchable(MapStep(s, calls[0]).0, calls[1..]);
    }
  }

  /** Appends each within the transport can build a variable that no Get returns. */
  lemma AppendsCanOutgrow(name: seq<u32>, guid: Guid)
    requires name == [0x41]
    ensures var s0, chunk := Store([], map[], 0x1_0000), Fill(0x7000, 1);
            && Valid(s0)
            && MapSet(s0, name, guid, 0x47, chunk).1 == EfiSuccess && Valid(MapSet(s0, name, guid, 0x47, chunk).0)
            && MapSet(MapSet(s0, name, guid, 0x47, chunk).0, name, guid, 0x47, chunk).1 == EfiSuccess
            && Valid(MapSet(MapSet(s0, name, guid, 0x47, chunk).0, name, guid, 0x47, chunk).0)
            && !Fetchable(MapSet(MapSet(s0, name, guid, 0x47, chunk).0, name, guid, 0x47, chunk).0, name, guid)
  {
    var s0, chunk, k := Store([], map[], 0x1_0000), Fill(0x7000, 1), KeyOf(name, guid);
    assert Cut(NarrowAll(name)) == NarrowAll(name) == [0x41];
    MapSetKeepsValid(s0, name, guid, 0x47, chunk);
    var s1 := MapSet(s0, name, guid, 0x47, chunk).0;
    assert HasBit(0x47, APPEND_WRITE) && StoredAttributes(0x47) == 7 && !Authenticated(0x47) && Accessible(7);
    assert s1 == Put(s0, k, Entry(7, chunk));
    assert s1.order == [k] && Used(s1.order, s1.vars) == |chunk|;
    MapSetKeepsValid(s1, name, guid, 0x47, chunk);
    var s2 := MapSet(s1, name, guid, 0x47, chunk).0;
    assert s2 == Put(s1, k, Entry(7, chunk + chunk));
    FetchableExactly(s2, name, guid);
  }
}
