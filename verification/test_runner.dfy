/** The test runner of authvars_test/host/edk2_test_harness/EdkTest.h and the three
    buffers that the tests of AuthVarTest.c keep in globals for TestCleanup to free. */
module TestRunner {

  // ---- the tracked buffers ----

  /** mImageData, mActualImageData and mEnumVariableName. */
  datatype Slot = ImageData | ActualImageData | EnumVariableName

  /** The heap as far as these globals are concerned: allocations are numbered, live are
      those not yet freed, frees counts how often each was freed. */
  datatype Pool = Pool(next: nat, live: set<nat>, frees: multiset<nat>, slots: map<Slot, nat>)

  /** What a test does with a global. Replace is ReallocatePool. */
  datatype Action = Allocate(slot: Slot) | Release(slot: Slot) | Replace(slot: Slot)

  /** FreePool and the assignment of NULL; freeing NULL does nothing. */
  function Free(p: Pool, slot: Slot): Pool {
    if slot !in p.slots then p
    else
      var id := p.slots[slot];
      p.(live := p.live - {id}, frees := p.frees + multiset{id}, slots := p.slots - {slot})
  }

  function Alloc(p: Pool, slot: Slot): Pool {
    p.(next := p.next + 1, live := p.live + {p.next}, slots := p.slots[slot := p.next])
  }

  function Perform(p: Pool, a: Action): Pool {
    match a
    case Allocate(slot) => Alloc(p, slot)
    case Release(slot) => Free(p, slot)
    case Replace(slot) => Alloc(Free(p, slot), slot)
  }

  function PerformAll(p: Pool, actions: seq<Action>): Pool
    decreases |actions|
  {
    if actions == [] then p else PerformAll(Perform(p, actions[0]), actions[1..])
  }

  /** How many buffers the actions allocate. */
  function Allocations(actions: seq<Action>): nat {
    if actions == [] then 0 else Allocations(actions[1..]) + if actions[0].Release? then 0 else 1
  }

  /** TestCleanup: every global that is not NULL is freed and cleared. */
  function Cleanup(p: Pool): Pool {
    Free(Free(Free(p, ImageData), ActualImageData), EnumVariableName)
  }

  /** The live allocations are exactly those a global points to, each by one global;
      every other one so far was freed exactly once. */
  ghost predicate Owned(p: Pool) {
    && (forall id :: id in p.live <==> exists slot :: slot in p.slots && p.slots[slot] == id)
    && (forall s, t :: s in p.slots && t in p.slots && s != t ==> p.slots[s] != p.slots[t])
    && (forall id :: id in p.live ==> id < p.next)
    && (forall id: nat :: p.frees[id] == if id < p.next && id !in p.live then 1 else 0)
  }

  ghost predicate Clean(p: Pool) {
    Owned(p) && p.slots == map[] && p.live == {}
  }

  lemma FreeKeepsOwned(p: Pool, slot: Slot)
    requires Owned(p)
    ensures Owned(Free(p, slot)) && Free(p, slot).slots.Keys == p.slots.Keys - {slot}
  {
    var q := Free(p, slot);
    if slot in p.slots {
      var freed := p.slots[slot];
      assert freed in p.live;
      forall id
        ensures id in q.live <==> exists s :: s in q.slots && q.slots[s] == id
      {
        if id in q.live {
          var s :| s in p.slots && p.slots[s] == id;
          assert s in q.slots && q.slots[s] == id;
        }
      }
      forall id: nat
        ensures q.frees[id] == if id < q.next && id !in q.live then 1 else 0
      {
        if id == freed {
          assert p.frees[id] == 0 && q.frees[id] == 1;
        } else {
          assert q.frees[id] == p.frees[id] && (id in q.live <==> id in p.live);
        }
      }
    }
  }

  lemma AllocKeepsOwned(p: Pool, slot: Slot)
    requires Owned(p) && slot !in p.slots
    ensures Owned(Alloc(p, slot)) && Alloc(p, slot).slots.Keys == p.slots.Keys + {slot}
  {
    var q := Alloc(p, slot);
    forall id | id in q.live
      ensures exists s :: s in q.slots && q.slots[s] == id
    {
      if id == p.next {
        assert q.slots[slot] == id;
      } else {
        var s :| s in p.slots && p.slots[s] == id;
        assert s in q.slots && q.slots[s] == id;
      }
    }
  }

  /** Cleanup frees what is left, each buffer once, and leaves the three globals NULL. */
  lemma CleanupCleans(p: Pool)
    requires Owned(p)
    ensures Clean(Cleanup(p))
  {
    var p1 := Free(p, ImageData);
    var p2 := Free(p1, ActualImageData);
    FreeKeepsOwned(p, ImageData);
    FreeKeepsOwned(p1, ActualImageData);
    FreeKeepsOwned(p2, EnumVariableName);
    var q := Cleanup(p);
    assert q.slots.Keys == {} by {
      forall s: Slot ensures s !in q.slots.Keys {
        match s case ImageData => case ActualImageData => case EnumVariableName =>
      }
    }
    assert q.slots == map[];
  }

  // ---- disciplined tests ----

  /** The globals that are not NULL after the actions, or nothing if one of them
      overwrites a pointer that is not NULL. */
  datatype Holding = Leak | Held(slots: set<Slot>)

  function HeldAfter(actions: seq<Action>, held: set<Slot>): Holding {
    if actions == [] then Held(held)
    else
      match actions[0]
      case Allocate(slot) => if slot in held then Leak else HeldAfter(actions[1..], held + {slot})
      case Release(slot) => HeldAfter(actions[1..], held - {slot})
      case Replace(slot) => HeldAfter(actions[1..], held + {slot})
  }

  predicate Disciplined(actions: seq<Action>) { HeldAfter(actions, {}).Held? }

  lemma {:induction false} HeldAppend(a: seq<Action>, b: seq<Action>, held: set<Slot>)
    ensures HeldAfter(a + b, held) == (var h := HeldAfter(a, held); if h.Leak? then Leak else HeldAfter(b, h.slots))
  {
    if a == [] {
      assert a + b == b;
    } else {
      assert (a + b)[1..] == a[1..] + b;
      match a[0]
      case Allocate(slot) => if slot !in held { HeldAppend(a[1..], b, held + {slot}); }
      case Release(slot) => HeldAppend(a[1..], b, held - {slot});
      case Replace(slot) => HeldAppend(a[1..], b, held + {slot});
    }
  }

  lemma {:induction false} AllocationsAppend(a: seq<Action>, b: seq<Action>)
    ensures Allocations(a + b) == Allocations(a) + Allocations(b)
  {
    if a == [] {
      assert a + b == b;
    } else {
      assert (a + b)[1..] == a[1..] + b;
      AllocationsAppend(a[1..], b);
    }
  }

  /** Actions allocate as many buffers as there are allocations and reallocations in them. */
  lemma {:induction false} AllocatesAll(p: Pool, actions: seq<Action>)
    ensures PerformAll(p, actions).next == p.next + Allocations(actions)
    decreases |actions|
  {
    if actions == [] {
    } else {
      AllocatesAll(Perform(p, actions[0]), actions[1..]);
    }
  }

  /** The globals that are not NULL after the actions are those that the actions leave so. */
  lemma {:induction false} LeavesHeld(p: Pool, actions: seq<Action>)
    requires HeldAfter(actions, p.slots.Keys).Held?
    ensures PerformAll(p, actions).slots.Keys == HeldAfter(actions, p.slots.Keys).slots
    decreases |actions|
  {
    if actions == [] {
    } else {
      var q := Perform(p, actions[0]);
      match actions[0] {
        case Allocate(slot) => assert q.slots.Keys == p.slots.Keys + {slot};
        case Release(slot) => assert q.slots.Keys == p.slots.Keys - {slot};
        case Replace(slot) => assert q.slots.Keys == p.slots.Keys + {slot};
      }
      LeavesHeld(q, actions[1..]);
    }
  }

  /** Wherever a disciplined test stops, the pool is still owned: every buffer allocated so
      far is either held by the one global that the actions left it in, or freed once. */
  lemma {:induction false} StoppedAnywhere(p: Pool, actions: seq<Action>, n: nat)
    requires Owned(p) && n <= |actions| && HeldAfter(actions, p.slots.Keys).Held?
    ensures var q := PerformAll(p, actions[..n]);
            && Owned(q) && q.next == p.next + Allocations(actions[..n])
            && HeldAfter(actions[..n], p.slots.Keys) == Held(q.slots.Keys)
    decreases n
  {
    hide Owned, Allocations, Free, Alloc;
    AllocatesAll(p, actions[..n]);
    if n == 0 {
    } else {
      var a := actions[0];
      assert actions[..n][1..] == actions[1..][..n - 1];
      match a {
        case Allocate(slot) => AllocKeepsOwned(p, slot);
        case Release(slot) => FreeKeepsOwned(p, slot);
        case Replace(slot) =>
          FreeKeepsOwned(p, slot);
          AllocKeepsOwned(Free(p, slot), slot);
          assert p.slots.Keys - {slot} + {slot} == p.slots.Keys + {slot};
      }
      StoppedAnywhere(Perform(p, a), actions[1..], n - 1);
    }
  }

  // ---- the tests of the module ----

  /** VerifyVariableEnumerable, with any number of reallocations. */
  function Enumerate(grows: nat): seq<Action> {
    [Allocate(EnumVariableName)] + seq(grows, _ => Replace(EnumVariableName)) + [Release(EnumVariableName)]
  }

  function Enumerates(grows: seq<nat>): seq<Action> {
    if grows == [] then [] else Enumerate(grows[0]) + Enumerates(grows[1..])
  }

  /** VerifyValidVarWriteReadEnumDel. */
  function WriteReadEnumDel(grows: (nat, nat)): seq<Action> {
    Enumerate(grows.0) + [Allocate(ActualImageData), Release(ActualImageData)] + Enumerate(grows.1)
  }

  /** TestValidNonVolatileVars and TestValidAuthVars: one image per variable. */
  function PerVariable(grows: seq<(nat, nat)>): seq<Action> {
    if grows == [] then []
    else [Allocate(ImageData)] + WriteReadEnumDel(grows[0]) + [Release(ImageData)] + PerVariable(grows[1..])
  }

  /** VerifyAppendShrinkReplacePersist. */
  function Persist(grows: seq<nat>): seq<Action> {
    [Allocate(ImageData), Allocate(ActualImageData)] + Enumerates(grows) + [Release(ImageData)]
  }

  /** The loop of VerifyNameHandling: a new image for every name. */
  function PerName(grows: seq<seq<nat>>): seq<Action> {
    if grows == [] then []
    else [Release(ImageData), Allocate(ImageData)] + Enumerates(grows[0]) + PerName(grows[1..])
  }

  function NameHandling(before: seq<nat>, names: seq<seq<nat>>, after: seq<nat>): seq<Action> {
    [Allocate(ImageData), Allocate(ActualImageData)] + Enumerates(before) + PerName(names) + Enumerates(after)
  }

  /** VerifyQuery: both images for every kind of attributes. */
  function Query(grows: seq<seq<nat>>): seq<Action> {
    if grows == [] then []
    else
      [Allocate(ImageData), Allocate(ActualImageData)] + Enumerates(grows[0])
      + [Release(ImageData), Release(ActualImageData)] + Query(grows[1..])
  }

  /** VerifyOverflow; with no enumeration, TestInvalidAuthVars. */
  function Overflow(grows: seq<nat>): seq<Action> {
    [Allocate(ImageData)] + Enumerates(grows)
  }

  /** The actions of one of the module's tests, for some outcome of its enumerations. */
  ghost predicate IsModuleTest(actions: seq<Action>) {
    || (exists g :: actions == PerVariable(g))
    || (exists g :: actions == Persist(g))
    || (exists b, n, a :: actions == NameHandling(b, n, a))
    || (exists g :: actions == Query(g))
    || (exists g :: actions == Overflow(g))
  }

  lemma {:induction false} GrowsKeepHeld(n: nat, held: set<Slot>)
    requires EnumVariableName in held
    ensures HeldAfter(seq(n, _ => Replace(EnumVariableName)), held) == Held(held)
  {
    if n == 0 {
    } else {
      var s := seq(n, _ => Replace(EnumVariableName));
      assert s[1..] == seq(n - 1, _ => Replace(EnumVariableName));
      assert held + {EnumVariableName} == held;
      GrowsKeepHeld(n - 1, held);
    }
  }

  lemma EnumerateHeld(grows: nat, held: set<Slot>)
    requires EnumVariableName !in held
    ensures HeldAfter(Enumerate(grows), held) == Held(held)
  {
    var a, b, c := [Allocate(EnumVariableName)], seq(grows, _ => Replace(EnumVariableName)),
      [Release(EnumVariableName)];
    var h := held + {EnumVariableName};
    GrowsKeepHeld(grows, h);
    HeldAppend(a + b, c, held);
    HeldAppend(a, b, held);
    assert HeldAfter(a, held) == Held(h);
    assert h - {EnumVariableName} == held;
    assert HeldAfter(c, h) == Held(held);
  }

  lemma {:induction false} EnumeratesHeld(grows: seq<nat>, held: set<Slot>)
    requires EnumVariableName !in held
    ensures HeldAfter(Enumerates(grows), held) == Held(held)
  {
    if grows == [] {
    } else {
      EnumerateHeld(grows[0], held);
      HeldAppend(Enumerate(grows[0]), Enumerates(grows[1..]), held);
      EnumeratesHeld(grows[1..], held);
    }
  }

  lemma WriteReadEnumDelHeld(grows: (nat, nat), held: set<Slot>)
    requires EnumVariableName !in held && ActualImageData !in held
    ensures HeldAfter(WriteReadEnumDel(grows), held) == Held(held)
  {
    var m := [Allocate(ActualImageData), Release(ActualImageData)];
    EnumerateHeld(grows.0, held);
    EnumerateHeld(grows.1, held);
    HeldAppend(Enumerate(grows.0) + m, Enumerate(grows.1), held);
    HeldAppend(Enumerate(grows.0), m, held);
    TwoSteps(m, held);
    assert held + {ActualImageData} - {ActualImageData} == held;
  }

  lemma TwoSteps(m: seq<Action>, held: set<Slot>)
    requires |m| == 2
    ensures HeldAfter(m, held)
            == (var h := HeldAfter([m[0]], held); if h.Leak? then Leak else HeldAfter([m[1]], h.slots))
  {
    assert m == [m[0]] + [m[1]];
    HeldAppend([m[0]], [m[1]], held);
  }

  lemma {:induction false} PerVariableHeld(grows: seq<(nat, nat)>)
    ensures HeldAfter(PerVariable(grows), {}) == Held({})
  {
    if grows == [] {
    } else {
      var a, b, c, rest := [Allocate(ImageData)], WriteReadEnumDel(grows[0]), [Release(ImageData)],
        PerVariable(grows[1..]);
      WriteReadEnumDelHeld(grows[0], {ImageData});
      HeldAppend(a + b + c, rest, {});
      HeldAppend(a + b, c, {});
      HeldAppend(a, b, {});
      assert HeldAfter(a, {}) == Held({ImageData}) && HeldAfter(c, {ImageData}) == Held({});
      PerVariableHeld(grows[1..]);
    }
  }

  lemma BothImages(held: set<Slot>)
    requires ImageData !in held && ActualImageData !in held
    ensures HeldAfter([Allocate(ImageData), Allocate(ActualImageData)], held)
            == Held(held + {ImageData} + {ActualImageData})
    ensures HeldAfter([Release(ImageData), Release(ActualImageData)], held + {ImageData} + {ActualImageData})
            == Held(held)
  {
    TwoSteps([Allocate(ImageData), Allocate(ActualImageData)], held);
    TwoSteps([Release(ImageData), Release(ActualImageData)], held + {ImageData} + {ActualImageData});
    assert held + {ImageData} + {ActualImageData} - {ImageData} - {ActualImageData} == held;
  }

  lemma PersistHeld(grows: seq<nat>)
    ensures HeldAfter(Persist(grows), {}) == Held({ActualImageData})
  {
    var a, b, c := [Allocate(ImageData), Allocate(ActualImageData)], Enumerates(grows), [Release(ImageData)];
    BothImages({});
    EnumeratesHeld(grows, {} + {ImageData} + {ActualImageData});
    HeldAppend(a + b, c, {});
    HeldAppend(a, b, {});
  }

  lemma {:induction false} PerNameHeld(grows: seq<seq<nat>>, held: set<Slot>)
    requires ImageData in held && EnumVariableName !in held
    ensures HeldAfter(PerName(grows), held) == Held(held)
  {
    if grows == [] {
    } else {
      var a := [Release(ImageData), Allocate(ImageData)];
      TwoSteps(a, held);
      assert held - {ImageData} + {ImageData} == held;
      assert HeldAfter(a, held) == Held(held);
      EnumeratesHeld(grows[0], held);
      HeldAppend(a + Enumerates(grows[0]), PerName(grows[1..]), held);
      HeldAppend(a, Enumerates(grows[0]), held);
      PerNameHeld(grows[1..], held);
    }
  }

  lemma NameHandlingHeld(before: seq<nat>, names: seq<seq<nat>>, after: seq<nat>)
    ensures HeldAfter(NameHandling(before, names, after), {}) == Held({ImageData, ActualImageData})
  {
    var a, held := [Allocate(ImageData), Allocate(ActualImageData)], {} + {ImageData} + {ActualImageData};
    BothImages({});
    EnumeratesHeld(before, held);
    PerNameHeld(names, held);
    EnumeratesHeld(after, held);
    HeldAppend(a + Enumerates(before) + PerName(names), Enumerates(after), {});
    HeldAppend(a + Enumerates(before), PerName(names), {});
    HeldAppend(a, Enumerates(before), {});
  }

  lemma {:induction false} QueryHeld(grows: seq<seq<nat>>)
    ensures HeldAfter(Query(grows), {}) == Held({})
  {
    if grows == [] {
    } else {
      var a, b := [Allocate(ImageData), Allocate(ActualImageData)], Enumerates(grows[0]);
      var c, rest := [Release(ImageData), Release(ActualImageData)], Query(grows[1..]);
      BothImages({});
      EnumeratesHeld(grows[0], {} + {ImageData} + {ActualImageData});
      HeldAppend(a + b + c, rest, {});
      HeldAppend(a + b, c, {});
      HeldAppend(a, b, {});
      QueryHeld(grows[1..]);
    }
  }

  lemma OverflowHeld(grows: seq<nat>)
    ensures HeldAfter(Overflow(grows), {}) == Held({ImageData})
  {
    EnumeratesHeld(grows, {ImageData});
    HeldAppend([Allocate(ImageData)], Enumerates(grows), {});
    assert {} + {ImageData} == {ImageData};
    assert HeldAfter([Allocate(ImageData)], {}) == Held({ImageData});
  }

  function Sum(grows: seq<nat>): nat { if grows == [] then 0 else grows[0] + Sum(grows[1..]) }

  lemma {:induction false} GrowsAllocate(n: nat)
    ensures Allocations(seq(n, _ => Replace(EnumVariableName))) == n
  {
    if n == 0 {
    } else {
      var s := seq(n, _ => Replace(EnumVariableName));
      assert s[1..] == seq(n - 1, _ => Replace(EnumVariableName));
      GrowsAllocate(n - 1);
    }
  }

  /** An enumeration allocates its first buffer and one for each time that grows. */
  lemma EnumerateAllocates(grows: nat)
    ensures Allocations(Enumerate(grows)) == 1 + grows
  {
    var a, b, c := [Allocate(EnumVariableName)], seq(grows, _ => Replace(EnumVariableName)),
      [Release(EnumVariableName)];
    GrowsAllocate(grows);
    AllocationsAppend(a + b, c);
    AllocationsAppend(a, b);
    assert Allocations(a) == 1 && Allocations(c) == 0;
  }

  lemma {:induction false} EnumeratesAllocate(grows: seq<nat>)
    ensures Allocations(Enumerates(grows)) == |grows| + Sum(grows)
  {
    if grows == [] {
    } else {
      EnumerateAllocates(grows[0]);
      AllocationsAppend(Enumerate(grows[0]), Enumerates(grows[1..]));
      EnumeratesAllocate(grows[1..]);
    }
  }

  /** The buffers of several rounds of enumerations. */
  function Rounds(grows: seq<seq<nat>>): nat {
    if grows == [] then 0 else |grows[0]| + Sum(grows[0]) + Rounds(grows[1..])
  }

  function Pairs(grows: seq<(nat, nat)>): nat {
    if grows == [] then 0 else grows[0].0 + grows[0].1 + Pairs(grows[1..])
  }

  lemma WriteReadEnumDelAllocates(grows: (nat, nat))
    ensures Allocations(WriteReadEnumDel(grows)) == 3 + grows.0 + grows.1
  {
    var m := [Allocate(ActualImageData), Release(ActualImageData)];
    EnumerateAllocates(grows.0);
    EnumerateAllocates(grows.1);
    AllocationsAppend(Enumerate(grows.0) + m, Enumerate(grows.1));
    AllocationsAppend(Enumerate(grows.0), m);
    assert Allocations(m) == 1;
  }

  lemma {:induction false} PerVariableAllocates(grows: seq<(nat, nat)>)
    ensures Allocations(PerVariable(grows)) == 4 * |grows| + Pairs(grows)
  {
    if grows == [] {
    } else {
      var a, b, c := [Allocate(ImageData)], WriteReadEnumDel(grows[0]), [Release(ImageData)];
      WriteReadEnumDelAllocates(grows[0]);
      AllocationsAppend(a + b + c, PerVariable(grows[1..]));
      AllocationsAppend(a + b, c);
      AllocationsAppend(a, b);
      assert Allocations(a) == 1 && Allocations(c) == 0;
      PerVariableAllocates(grows[1..]);
    }
  }

  lemma {:induction false} PerNameAllocates(grows: seq<seq<nat>>)
    ensures Allocations(PerName(grows)) == |grows| + Rounds(grows)
  {
    if grows == [] {
    } else {
      var a := [Release(ImageData), Allocate(ImageData)];
      EnumeratesAllocate(grows[0]);
      AllocationsAppend(a + Enumerates(grows[0]), PerName(grows[1..]));
      AllocationsAppend(a, Enumerates(grows[0]));
      assert Allocations(a) == 1;
      PerNameAllocates(grows[1..]);
    }
  }

  lemma {:induction false} QueryAllocates(grows: seq<seq<nat>>)
    ensures Allocations(Query(grows)) == 2 * |grows| + Rounds(grows)
  {
    if grows == [] {
    } else {
      var a, c := [Allocate(ImageData), Allocate(ActualImageData)], [Release(ImageData), Release(ActualImageData)];
      EnumeratesAllocate(grows[0]);
      AllocationsAppend(a + Enumerates(grows[0]) + c, Query(grows[1..]));
      AllocationsAppend(a + Enumerates(grows[0]), c);
      AllocationsAppend(a, Enumerates(grows[0]));
      assert Allocations(a) == 2 && Allocations(c) == 0;
      QueryAllocates(grows[1..]);
    }
  }

  /** How many buffers each of the other tests allocates. */
  lemma TestsAllocate(before: seq<nat>, names: seq<seq<nat>>, after: seq<nat>)
    ensures Allocations(Persist(before)) == 2 + |before| + Sum(before)
    ensures Allocations(Overflow(before)) == 1 + |before| + Sum(before)
    ensures Allocations(NameHandling(before, names, after))
            == 2 + |before| + Sum(before) + |names| + Rounds(names) + |after| + Sum(after)
  {
    var both := [Allocate(ImageData), Allocate(ActualImageData)];
    EnumeratesAllocate(before);
    EnumeratesAllocate(after);
    PerNameAllocates(names);
    AllocationsAppend(both + Enumerates(before) + PerName(names), Enumerates(after));
    AllocationsAppend(both + Enumerates(before), PerName(names));
    AllocationsAppend(both + Enumerates(before), [Release(ImageData)]);
    AllocationsAppend(both, Enumerates(before));
    AllocationsAppend([Allocate(ImageData)], Enumerates(before));
    assert Allocations(both) == 2 && Allocations([Allocate(ImageData)]) == 1 && Allocations([Release(ImageData)]) == 0;
  }

  /** No test of the module ever overwrites a pointer it still owns. */
  lemma ModuleTestsAreDisciplined(actions: seq<Action>)
    requires IsModuleTest(actions)
    ensures Disciplined(actions)
  {
    if g :| actions == PerVariable(g) { PerVariableHeld(g); }
    else if g :| actions == Persist(g) { PersistHeld(g); }
    else if b, n, a :| actions == NameHandling(b, n, a) { NameHandlingHeld(b, n, a); }
    else if g :| actions == Query(g) { QueryHeld(g); }
    else { var g :| actions == Overflow(g); OverflowHeld(g); }
  }

  /** A disciplined test that starts on NULL globals, thrown out of at any point, leaves
      after cleanup NULL globals; each of the buffers that it has allocated by then, as many
      as its actions say, is freed exactly once. */
  lemma ThrownTestIsCleaned(p: Pool, actions: seq<Action>, n: nat)
    requires Clean(p) && Disciplined(actions) && n <= |actions|
    ensures var q := Cleanup(PerformAll(p, actions[..n]));
            && Clean(q) && q.next == p.next + Allocations(actions[..n])
            && forall id: nat :: q.frees[id] == if id < p.next + Allocations(actions[..n]) then 1 else 0
  {
    AllocatesAll(p, actions[..n]);
    assert p.slots.Keys == {};
    StoppedAnywhere(p, actions, n);
    CleanupCleans(PerformAll(p, actions[..n]));
  }

  // ---- the runner ----

  const TEST_METADATA_MAX: nat := 32

  datatype TestMetadata = TestMetadata(name: string, actions: seq<Action>)

  /** What happens in one run of a test: whether its setup passes, and after how many of
      its actions a VERIFY macro throws (none, if the test is no longer than that). */
  datatype Chance = Chance(setupPasses: bool, throwAt: nat)

  predicate Throws(test: TestMetadata, c: Chance) { c.throwAt < |test.actions| }

  predicate Skips(test: TestMetadata, c: Chance) { !c.setupPasses }

  predicate Fails(test: TestMetadata, c: Chance) { c.setupPasses && Throws(test, c) }

  predicate Passes(test: TestMetadata, c: Chance) { c.setupPasses && !Throws(test, c) }

  /** What a test gets to do: nothing if it is skipped, and up to where it throws. */
  function Done(test: TestMetadata, c: Chance): seq<Action> {
    if !c.setupPasses then [] else if Throws(test, c) then test.actions[..c.throwAt] else test.actions
  }

  /** The pool after one test. A test that is skipped runs no cleanup. */
  function AfterTest(p: Pool, test: TestMetadata, c: Chance): Pool {
    if !c.setupPasses then p else Cleanup(PerformAll(p, Done(test, c)))
  }

  /** The buffers that the first n tests allocate. */
  function AllocatedBy(tests: seq<TestMetadata>, cs: seq<Chance>, n: nat): nat
    requires n <= |tests| && n <= |cs|
  {
    if n == 0 then 0 else AllocatedBy(tests, cs, n - 1) + Allocations(Done(tests[n - 1], cs[n - 1]))
  }

  lemma AfterTestAllocates(p: Pool, test: TestMetadata, c: Chance)
    ensures AfterTest(p, test, c).next == p.next + Allocations(Done(test, c))
    ensures if c.setupPasses then AfterTest(p, test, c).slots == map[] else AfterTest(p, test, c) == p
  {
    AllocatesAll(p, Done(test, c));
    CleanupClears(PerformAll(p, Done(test, c)));
  }

  /** Cleanup leaves the three globals NULL, whatever they were. */
  lemma CleanupClears(p: Pool)
    ensures Cleanup(p).slots == map[] && Cleanup(p).next == p.next
  {
    forall s: Slot
      ensures s !in Cleanup(p).slots
    {
      match s case ImageData => case ActualImageData => case EnumVariableName =>
    }
  }

  /** How many of the first n tests pass, throw, or are skipped. */
  function Count(tests: seq<TestMetadata>, cs: seq<Chance>, n: nat, what: (TestMetadata, Chance) -> bool): nat
    requires n <= |tests| && n <= |cs|
  {
    if n == 0 then 0 else Count(tests, cs, n - 1, what) + if what(tests[n - 1], cs[n - 1]) then 1 else 0
  }

  /** Every test is counted once. */
  lemma {:induction false} CountsAddUp(tests: seq<TestMetadata>, cs: seq<Chance>, n: nat)
    requires n <= |tests| && n <= |cs|
    ensures Count(tests, cs, n, Skips) + Count(tests, cs, n, Fails) + Count(tests, cs, n, Passes) == n
  {
    if n > 0 {
      CountsAddUp(tests, cs, n - 1);
    }
  }

  lemma CountNone(tests: seq<TestMetadata>, cs: seq<Chance>)
    ensures Count(tests, cs, 0, Skips) == Count(tests, cs, 0, Fails) == Count(tests, cs, 0, Passes) == 0
    ensures AllocatedBy(tests, cs, 0) == 0
  {}

  lemma CountNext(tests: seq<TestMetadata>, cs: seq<Chance>, n: nat)
    requires n < |tests| && n < |cs|
    ensures Count(tests, cs, n + 1, Skips) == Count(tests, cs, n, Skips) + if Skips(tests[n], cs[n]) then 1 else 0
    ensures Count(tests, cs, n + 1, Fails) == Count(tests, cs, n, Fails) + if Fails(tests[n], cs[n]) then 1 else 0
    ensures Count(tests, cs, n + 1, Passes) == Count(tests, cs, n, Passes) + if Passes(tests[n], cs[n]) then 1 else 0
    ensures AllocatedBy(tests, cs, n + 1) == AllocatedBy(tests, cs, n) + Allocations(Done(tests[n], cs[n]))
  {}

  class Module {
    const testMetadata: array<TestMetadata>
    var testMetadataCount: nat
    var testPassedCount: nat
    var testFailedCount: nat
    var testSkippedCount: nat
    /** The heap behind the globals of the tests. */
    var pool: Pool

    ghost predicate Valid()
      reads this
    {
      testMetadata.Length == TEST_METADATA_MAX && testMetadataCount <= TEST_METADATA_MAX
    }

    ghost function Tests(): seq<TestMetadata>
      reads this, testMetadata
      requires Valid()
    {
      testMetadata[..testMetadataCount]
    }

    constructor ()
      ensures Valid() && Tests() == [] && Clean(pool)
      ensures testPassedCount == testFailedCount == testSkippedCount == 0
      ensures fresh(testMetadata)
    {
      testMetadata := new TestMetadata[TEST_METADATA_MAX](_ => TestMetadata("", []));
      testMetadataCount, testPassedCount, testFailedCount, testSkippedCount := 0, 0, 0, 0;
      pool := Pool(0, {}, multiset{}, map[]);
    }

    /** RegisterTestFunc_: the test is appended, unless the table is full. */
    method RegisterTestFunc(test: TestMetadata)
      requires Valid()
      modifies this`testMetadataCount, testMetadata
      ensures Valid()
      ensures Tests() == if |old(Tests())| < 32 then old(Tests()) + [test] else old(Tests())
    {
      var currentIdx := testMetadataCount;
      if currentIdx >= TEST_METADATA_MAX {
        return;
      }
      testMetadata[currentIdx] := test;
      testMetadataCount := testMetadataCount + 1;
    }

    /** RunTestFunc_: setup, the test inside the try block, cleanup. */
    method RunTestFunc(test: TestMetadata, c: Chance)
      requires Valid()
      modifies this`testPassedCount, this`testFailedCount, this`testSkippedCount, this`pool
      ensures pool == AfterTest(old(pool), test, c)
      ensures pool.next == old(pool.next) + Allocations(Done(test, c))
      ensures if c.setupPasses then pool.slots == map[] else pool == old(pool)
      ensures testSkippedCount == old(testSkippedCount) + if Skips(test, c) then 1 else 0
      ensures testFailedCount == old(testFailedCount) + if Fails(test, c) then 1 else 0
      ensures testPassedCount == old(testPassedCount) + if Passes(test, c) then 1 else 0
    {
      AfterTestAllocates(pool, test, c);
      if !c.setupPasses {
        testSkippedCount := testSkippedCount + 1;
        return;
      }
      if c.throwAt < |test.actions| {
        pool := PerformAll(pool, test.actions[..c.throwAt]);
        testFailedCount := testFailedCount + 1;
      } else {
        pool := PerformAll(pool, test.actions);
        testPassedCount := testPassedCount + 1;
      }
      pool := Cleanup(pool);
    }

    /** RunModule_: with fewer tests than the table holds and a passed module setup, every
        test adds one to exactly one counter, and disciplined tests leave a clean pool:
        all buffers that they have allocated, as many as their actions say, are freed. A
        table filled to the last place registers but does not run. */
    method RunModule(moduleSetupPasses: bool, cs: seq<Chance>) returns (ran: bool)
      requires Valid() && |cs| == testMetadataCount
      modifies this`testPassedCount, this`testFailedCount, this`testSkippedCount, this`pool
      ensures Valid() && ran == (|Tests()| < 32 && moduleSetupPasses)
      ensures !ran ==> testPassedCount == old(testPassedCount) && testFailedCount == old(testFailedCount)
                       && testSkippedCount == old(testSkippedCount) && pool == old(pool)
      ensures ran ==>
                && testSkippedCount == old(testSkippedCount) + Count(Tests(), cs, |cs|, Skips)
                && testFailedCount == old(testFailedCount) + Count(Tests(), cs, |cs|, Fails)
                && testPassedCount == old(testPassedCount) + Count(Tests(), cs, |cs|, Passes)
      ensures ran ==> testPassedCount + testFailedCount + testSkippedCount
                      == old(testPassedCount + testFailedCount + testSkippedCount) + |Tests()|
      ensures ran ==> pool.next == old(pool.next) + AllocatedBy(Tests(), cs, |cs|)
      ensures ran && old(Clean(pool)) && (forall i :: 0 <= i < |Tests()| ==> Disciplined(Tests()[i].actions)) ==>
              Clean(pool)
    {
      hide AfterTest, Cleanup, PerformAll, Clean, Disciplined, Done, Allocations, HeldAfter, Count, AllocatedBy;
      if testMetadataCount >= TEST_METADATA_MAX {
        return false;
      }
      if !moduleSetupPasses {
        return false;
      }
      ghost var tests := Tests();
      ghost var disciplined := old(Clean(pool)) && forall i :: 0 <= i < |tests| ==> Disciplined(tests[i].actions);
      var testIdx := 0;
      CountNone(tests, cs);
      while testIdx < testMetadataCount
        invariant 0 <= testIdx <= testMetadataCount == |tests|
        invariant testSkippedCount == old(testSkippedCount) + Count(tests, cs, testIdx, Skips)
        invariant testFailedCount == old(testFailedCount) + Count(tests, cs, testIdx, Fails)
        invariant testPassedCount == old(testPassedCount) + Count(tests, cs, testIdx, Passes)
        invariant disciplined ==> Clean(pool)
        invariant pool.next == old(pool.next) + AllocatedBy(tests, cs, testIdx)
      {
        var test := testMetadata[testIdx];
        assert test == tests[testIdx];
        CountNext(tests, cs, testIdx);
        if disciplined {
          AfterTestIsClean(pool, test, cs[testIdx]);
        }
        RunTestFunc(test, cs[testIdx]);
        testIdx := testIdx + 1;
      }
      CountsAddUp(tests, cs, testIdx);
      ran := true;
    }
  }

  lemma AfterTestIsClean(p: Pool, test: TestMetadata, c: Chance)
    requires Clean(p) && Disciplined(test.actions)
    ensures Clean(AfterTest(p, test, c))
  {
    if c.setupPasses {
      ThrownTestIsCleaned(p, test.actions, if Throws(test, c) then c.throwAt else |test.actions|);
      assert test.actions[..|test.actions|] == test.actions;
    }
  }
}
