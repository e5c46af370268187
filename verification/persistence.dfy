/** VerifyAppendShrinkReplacePersist (authvars_test/host/edk2_variable_test/
    AuthVarTest.c:423-652): a script of interleaved writes whose last step raises a
    flag, and whose next run trusts the flag. The machine may stop after any step. */
module Persistence {
  import opened Bytes
  import opened Guids
  import opened VariableStore
  import opened Messages
  import opened OpteeDriver
  import opened Spec = DriverSpec
  import opened VarNames
  import opened Checks
  import Enumeration
  import Rt = RuntimeServices

  const CHUNK: nat := 0x10
  const BUFFER_BYTES: nat := 0x10 * 10 * 3

  /** The four variables and the three buffers of the script. */
  datatype Fixture = Fixture(flag: VarName, v1: VarName, v2: VarName, v3: VarName, b1: seq<u8>, b2: seq<u8>,
                             b3: seq<u8>)

  ghost predicate Good(f: Fixture) {
    && Plain(f.flag) && Plain(f.v1) && Plain(f.v2) && Plain(f.v3)
    && f.flag.Key() != f.v1.Key() && f.flag.Key() != f.v2.Key() && f.flag.Key() != f.v3.Key()
    && f.v1.Key() != f.v2.Key() && f.v1.Key() != f.v3.Key() && f.v2.Key() != f.v3.Key()
    && |f.b1| == |f.b2| == |f.b3| == 10 * CHUNK
  }

  ghost predicate ValidSteps(steps: seq<Step>) { forall i :: 0 <= i < |steps| ==> ValidStep(steps[i]) }

  /** The checks of a run that finds the flag. */
  function Opening(f: Fixture): (steps: seq<Step>)
    requires Good(f)
    ensures |steps| == 4 && ValidSteps(steps)
  {
    hide Plain, VarName.Key;
    [Erase(f.flag),
     Expect(f.v1, BUFFER_BYTES, f.b1[..CHUNK * 4]),
     Expect(f.v2, BUFFER_BYTES, f.b2[..CHUNK]),
     Expect(f.v3, BUFFER_BYTES, f.b3[..CHUNK])]
  }

  /** The writes of every run. */
  function Writes(f: Fixture): (steps: seq<Step>)
    requires Good(f)
    ensures |steps| == 10 && ValidSteps(steps)
  {
    hide Plain, VarName.Key;
    [Write(f.v1, 0, f.b1[..CHUNK], f.b1[..CHUNK]),
     Write(f.v1, APPEND_WRITE, f.b1[CHUNK..CHUNK * 2], f.b1[..CHUNK * 2]),
     Write(f.v2, 0, f.b2[..CHUNK], f.b2[..CHUNK]),
     Write(f.v1, APPEND_WRITE, f.b1[CHUNK * 2..CHUNK * 4], f.b1[..CHUNK * 4]),
     Write(f.v1, 0, f.b1[..CHUNK * 3], f.b1[..CHUNK * 3]),
     Erase(f.v2),
     Write(f.v3, 0, f.b3[..CHUNK], f.b3[..CHUNK]),
     Write(f.v1, APPEND_WRITE, f.b1[CHUNK * 3..CHUNK * 4], f.b1[..CHUNK * 4]),
     Write(f.v2, 0, f.b2[..CHUNK], f.b2[..CHUNK]),
     Raise(f.flag, [1])]
  }

  // ---- runs that stop anywhere ----

  /** Steps i to n - 1, up to the first that throws. */
  ghost function RunFrom(s: Store, steps: seq<Step>, i: nat, n: nat): (r: (Store, bool))
    requires Valid(s) && ValidSteps(steps) && i <= n <= |steps|
    ensures Valid(r.0)
    decreases n - i
  {
    if i == n then (s, true)
    else
      var (t, passed) := Exec(s, steps[i]);
      if !passed then (t, false) else RunFrom(t, steps, i + 1, n)
  }

  lemma {:induction false} RunSplit(s: Store, steps: seq<Step>, i: nat, m: nat, n: nat)
    requires Valid(s) && ValidSteps(steps) && i <= m <= n <= |steps|
    ensures var (t, passed) := RunFrom(s, steps, i, m);
            RunFrom(s, steps, i, n) == if passed then RunFrom(t, steps, m, n) else (t, false)
    decreases m - i
  {
    hide Exec, ValidStep, VariableStore.Valid;
    if i == m {
    } else {
      var (t, passed) := Exec(s, steps[i]);
      if passed {
        RunSplit(t, steps, i + 1, m, n);
      }
    }
  }

  /** Variables that no step names are the same at the end. */
  lemma {:induction false} RunFrame(s: Store, steps: seq<Step>, i: nat, n: nat, k: Key)
    requires Valid(s) && ValidSteps(steps) && i <= n <= |steps|
    requires forall j :: i <= j < n ==> steps[j].v.Key() != k
    ensures SameAt(s, RunFrom(s, steps, i, n).0, k)
    decreases n - i
  {
    hide Exec, ValidStep, VariableStore.Valid;
    if i == n {
    } else {
      StepKeeps(s, steps[i], k);
      var (t, passed) := Exec(s, steps[i]);
      if passed {
        RunFrame(t, steps, i + 1, n, k);
      }
    }
  }

  /** In a run that passed, a variable is as its last check left it. */
  lemma {:induction false} LastCheck(s: Store, steps: seq<Step>, i: nat, n: nat, j: nat)
    requires Valid(s) && ValidSteps(steps) && i <= j < n <= |steps|
    requires RunFrom(s, steps, i, n).1 && !steps[j].Raise?
    requires forall l :: j < l < n ==> steps[l].v.Key() != steps[j].v.Key()
    ensures var t, k := RunFrom(s, steps, i, n).0, steps[j].v.Key();
            if steps[j].Erase? then k !in t.vars
            else k in t.vars && t.vars[k] == Entry(BASE_ATTRIBUTES, steps[j].check)
    decreases n - i
  {
    hide Exec, ValidStep, VariableStore.Valid;
    var t := Exec(s, steps[i]).0;
    if i < j {
      LastCheck(t, steps, i + 1, n, j);
    } else {
      StepChecked(s, steps[i]);
      RunFrame(t, steps, i + 1, n, steps[j].v.Key());
    }
  }

  // ---- the invariant ----

  ghost predicate HoldsBytes(s: Store, v: VarName, data: seq<u8>) {
    v.Key() in s.vars && s.vars[v.Key()] == Entry(BASE_ATTRIBUTES, data)
  }

  /** The three variables hold four, one and one chunks of their buffers. */
  ghost predicate Settled(f: Fixture, s: Store)
    requires Good(f)
  {
    HoldsBytes(s, f.v1, f.b1[..CHUNK * 4]) && HoldsBytes(s, f.v2, f.b2[..CHUNK]) && HoldsBytes(s, f.v3, f.b3[..CHUNK])
  }

  /** If the flag exists, it tells the truth. */
  ghost predicate CrashSafe(f: Fixture, s: Store)
    requires Good(f)
  {
    f.flag.Key() in s.vars ==> Settled(f, s)
  }

  lemma WritesAre(f: Fixture)
    requires Good(f)
    ensures var b1, w := f.b1, Writes(f);
            && w[0] == Write(f.v1, 0, b1[..CHUNK], b1[..CHUNK])
            && w[1] == Write(f.v1, APPEND_WRITE, b1[CHUNK..CHUNK * 2], b1[..CHUNK * 2])
            && w[2] == Write(f.v2, 0, f.b2[..CHUNK], f.b2[..CHUNK])
            && w[3] == Write(f.v1, APPEND_WRITE, b1[CHUNK * 2..CHUNK * 4], b1[..CHUNK * 4])
            && w[4] == Write(f.v1, 0, b1[..CHUNK * 3], b1[..CHUNK * 3])
            && w[5] == Erase(f.v2)
            && w[6] == Write(f.v3, 0, f.b3[..CHUNK], f.b3[..CHUNK])
            && w[7] == Write(f.v1, APPEND_WRITE, b1[CHUNK * 3..CHUNK * 4], b1[..CHUNK * 4])
            && w[8] == Write(f.v2, 0, f.b2[..CHUNK], f.b2[..CHUNK])
            && w[9] == Raise(f.flag, [1])
  {
    hide Plain, VarName.Key;
  }

  /** Which variable each write names. */
  lemma WritesName(f: Fixture)
    requires Good(f)
    ensures forall j :: 0 <= j < 9 ==> Writes(f)[j].v.Key() != f.flag.Key()
    ensures forall j :: 7 < j < 9 ==> Writes(f)[j].v.Key() != f.v1.Key()
    ensures forall j :: 6 < j < 9 ==> Writes(f)[j].v.Key() != f.v3.Key()
  {
    WritesAre(f);
    hide Writes;
    forall j | 0 <= j < 9
      ensures Writes(f)[j].v == f.v1 || Writes(f)[j].v == f.v2 || Writes(f)[j].v == f.v3
    {
      if j == 0 || j == 1 || j == 3 || j == 4 || j == 7 {
      } else if j == 2 || j == 5 || j == 8 {
      } else {
        assert j == 6;
      }
    }
  }

  /** If all nine writes passed, their last checks fix the three variables. */
  lemma WritesSettle(f: Fixture, s: Store)
    requires Good(f) && Valid(s) && RunFrom(s, Writes(f), 0, 9).1
    ensures Settled(f, RunFrom(s, Writes(f), 0, 9).0)
  {
    hide Exec, RunFrom, Writes, ValidStep, VariableStore.Valid;
    WritesName(f);
    WritesAre(f);
    LastCheck(s, Writes(f), 0, 9, 7);
    LastCheck(s, Writes(f), 0, 9, 8);
    LastCheck(s, Writes(f), 0, 9, 6);
  }

  lemma WritesAreCrashSafe(f: Fixture, s: Store, n: nat)
    requires Good(f) && Valid(s) && f.flag.Key() !in s.vars && n <= 10
    ensures CrashSafe(f, RunFrom(s, Writes(f), 0, n).0)
  {
    hide Exec, ValidStep, VariableStore.Valid;
    var m := if n < 10 then n else 9;
    WritesName(f);
    RunFrame(s, Writes(f), 0, m, f.flag.Key());
    if n == 10 {
      RunSplit(s, Writes(f), 0, 9, 10);
      var (t, passed) := RunFrom(s, Writes(f), 0, 9);
      if passed {
        WritesSettle(f, s);
        LastWriteKeeps(f, t);
      }
    }
  }

  /** Raising the flag leaves the three variables alone. */
  lemma LastWriteKeeps(f: Fixture, t: Store)
    requires Good(f) && Valid(t) && Settled(f, t)
    ensures Settled(f, RunFrom(t, Writes(f), 9, 10).0)
  {
    hide Exec, ValidStep, VariableStore.Valid;
    assert Writes(f)[9].v == f.flag;
    RunFrame(t, Writes(f), 9, 10, f.v1.Key());
    RunFrame(t, Writes(f), 9, 10, f.v2.Key());
    RunFrame(t, Writes(f), 9, 10, f.v3.Key());
  }

  lemma {:induction false} OpeningIsCrashSafe(f: Fixture, s: Store, n: nat)
    requires Good(f) && Valid(s) && CrashSafe(f, s) && f.flag.Key() in s.vars && n <= 4
    ensures CrashSafe(f, RunFrom(s, Opening(f), 0, n).0)
    ensures n > 0 ==> f.flag.Key() !in RunFrom(s, Opening(f), 0, n).0.vars
  {
    hide Exec, ValidStep, VariableStore.Valid;
    if n == 0 {
    } else {
      EraseExisting(s, f.flag);
      StepChecked(s, Erase(f.flag));
      assert Opening(f)[0] == Erase(f.flag);
      RunFrame(Exec(s, Erase(f.flag)).0, Opening(f), 1, n, f.flag.Key());
    }
  }

  /** A run of the script that is stopped after at most n steps. */
  ghost function Run(f: Fixture, s: Store, n: nat): (r: (Store, bool))
    requires Good(f) && Valid(s)
    ensures Valid(r.0)
  {
    var n1 := if f.flag.Key() !in s.vars then 0 else if n < 4 then n else 4;
    var n2 := if n - n1 < 10 then n - n1 else 10;
    var (t, passed) := RunFrom(s, Opening(f), 0, n1);
    if !passed || (f.flag.Key() in s.vars && n1 < 4) then (t, passed) else RunFrom(t, Writes(f), 0, n2)
  }

  lemma RunIsCrashSafe(f: Fixture, s: Store, n: nat)
    requires Good(f) && Valid(s) && CrashSafe(f, s)
    ensures CrashSafe(f, Run(f, s, n).0)
  {
    hide Exec, Writes, Opening, ValidStep, VariableStore.Valid;
    if f.flag.Key() in s.vars {
      OpeningIsCrashSafe(f, s, if n < 4 then n else 4);
      if n >= 4 && RunFrom(s, Opening(f), 0, 4).1 {
        WritesAreCrashSafe(f, RunFrom(s, Opening(f), 0, 4).0, if n - 4 < 10 then n - 4 else 10);
      }
    } else {
      WritesAreCrashSafe(f, s, if n < 10 then n else 10);
    }
  }

  /** What can happen to the machine: a run, stopped or not, a power cycle, or calls of
      other clients. */
  datatype Event = RunUntil(steps: nat) | PowerCycle | Others(calls: seq<Call>)

  /** A call that is none of the script's business. */
  ghost predicate Foreign(f: Fixture, c: Call) {
    && !HookCall(c)
    && (c.SetCall? && c.name.Some? && c.guid.Some? ==>
          KeyOf(c.name.value, c.guid.value) !in {f.flag.Key(), f.v1.Key(), f.v2.Key(), f.v3.Key()})
  }

  ghost predicate ValidEvent(f: Fixture, e: Event) {
    e.Others? ==> forall c <- e.calls :: ValidCall(c) && Foreign(f, c)
  }

  ghost function AfterOne(f: Fixture, s: Store, e: Event): (t: Store)
    requires Good(f) && Valid(s) && ValidEvent(f, e)
    ensures Valid(t)
  {
    match e
    case RunUntil(n) => Run(f, s, n).0
    case PowerCycle => RebootKeepsValid(s); Reboot(s)
    case Others(calls) => RunKeepsValid(s, calls); RunMap(s, calls).0
  }

  ghost function After(f: Fixture, s: Store, events: seq<Event>): (t: Store)
    requires Good(f) && Valid(s) && forall e <- events :: ValidEvent(f, e)
    ensures Valid(t)
    decreases |events|
  {
    if events == [] then s else After(f, AfterOne(f, s, events[0]), events[1..])
  }

  /** A history of two parts is the second after the first; a single event is what happens. */
  lemma {:induction false} AfterAppends(f: Fixture, s: Store, past: seq<Event>, e: Event)
    requires Good(f) && Valid(s) && forall d <- past + [e] :: ValidEvent(f, d)
    ensures forall d <- past :: d in past + [e]
    ensures ValidEvent(f, e) && After(f, s, past + [e]) == AfterOne(f, After(f, s, past), e)
    ensures var t := After(f, s, past);
            match e
            case RunUntil(n) => After(f, s, past + [e]) == Run(f, t, n).0
            case PowerCycle => After(f, s, past + [e]) == Reboot(t)
            case Others(calls) => After(f, s, past + [e]) == RunMap(t, calls).0
    decreases |past|
  {
    hide VariableStore.Valid, Good, ValidEvent, Run, RunMap, Reboot;
    assert forall d <- past :: d in past + [e];
    assert e in past + [e];
    if past == [] {
      assert past + [e] == [e];
      assert After(f, AfterOne(f, s, e), []) == AfterOne(f, s, e);
    } else {
      assert (past + [e])[1..] == past[1..] + [e];
      AfterAppends(f, AfterOne(f, s, past[0]), past[1..], e);
    }
  }

  lemma CallFrame(s: Store, c: Call, k: Key)
    requires Valid(s) && ValidCall(c)
    requires c.SetCall? && c.name.Some? && c.guid.Some? ==> KeyOf(c.name.value, c.guid.value) != k
    ensures Valid(MapStep(s, c).0) && SameAt(s, MapStep(s, c).0, k)
  {
    hide VariableStore.Valid, VariableStore.Set, MapGet, MapNext, MapQuery;
    MapStepKeepsValid(s, c);
    if c.SetCall? && c.name.Some? && c.guid.Some? && (c.data.Some? || c.dataSize == 0) {
      var data := if c.data.Some? then c.data.value else [];
      if SetFits(c.name.value, |data|) {
        SetKeepsValid(s, KeyOf(c.name.value, c.guid.value), c.attributes, data);
      }
    }
  }

  /** Calls of other clients leave the four variables alone. */
  lemma {:induction false} OthersFrame(f: Fixture, s: Store, calls: seq<Call>, k: Key)
    requires Valid(s) && forall c <- calls :: ValidCall(c) && Foreign(f, c)
    requires k == f.flag.Key() || k == f.v1.Key() || k == f.v2.Key() || k == f.v3.Key()
    ensures SameAt(s, RunMap(s, calls).0, k)
    decreases |calls|
  {
    if calls == [] {
    } else {
      CallFrame(s, calls[0], k);
      hide VariableStore.Valid, MapStep, Foreign;
      OthersFrame(f, MapStep(s, calls[0]).0, calls[1..], k);
    }
  }

  /** All four variables are the same in both stores. */
  ghost predicate SameScript(f: Fixture, s: Store, t: Store) {
    SameAt(s, t, f.flag.Key()) && SameAt(s, t, f.v1.Key()) && SameAt(s, t, f.v2.Key()) && SameAt(s, t, f.v3.Key())
  }

  lemma OthersKeepScript(f: Fixture, s: Store, calls: seq<Call>)
    requires Valid(s) && forall c <- calls :: ValidCall(c) && Foreign(f, c)
    ensures Valid(RunMap(s, calls).0) && SameScript(f, s, RunMap(s, calls).0)
  {
    RunKeepsValid(s, calls);
    hide VariableStore.Valid, RunMap, Foreign, SameAt;
    OthersFrame(f, s, calls, f.flag.Key());
    OthersFrame(f, s, calls, f.v1.Key());
    OthersFrame(f, s, calls, f.v2.Key());
    OthersFrame(f, s, calls, f.v3.Key());
  }

  lemma EventIsCrashSafe(f: Fixture, s: Store, e: Event)
    requires Good(f) && Valid(s) && CrashSafe(f, s) && ValidEvent(f, e)
    ensures CrashSafe(f, AfterOne(f, s, e))
  {
    hide VariableStore.Valid, RunMap, Foreign;
    match e
    case RunUntil(n) =>
      RunIsCrashSafe(f, s, n);
    case PowerCycle =>
      BaseAttributes();
    case Others(calls) =>
      OthersKeepScript(f, s, calls);
  }

  /** Crash consistency: after any history of runs, each stopped anywhere, power cycles
      and calls of other clients, the flag is only there if the three variables are as the
      script left them. */
  lemma {:induction false} CrashConsistency(f: Fixture, s: Store, events: seq<Event>)
    requires Good(f) && Valid(s) && CrashSafe(f, s) && forall e <- events :: ValidEvent(f, e)
    ensures CrashSafe(f, After(f, s, events))
    decreases |events|
  {
    hide VariableStore.Valid, Good, CrashSafe, ValidEvent, AfterOne;
    if events == [] {
    } else {
      EventIsCrashSafe(f, s, events[0]);
      CrashConsistency(f, AfterOne(f, s, events[0]), events[1..]);
    }
  }

  // ---- what the opening checks ----

  /** The variables that the first n opening steps look at are as the script leaves them. */
  ghost predicate Persisted(f: Fixture, s: Store, n: nat)
    requires Good(f)
  {
    && (n >= 2 ==> HoldsBytes(s, f.v1, f.b1[..CHUNK * 4]))
    && (n >= 3 ==> HoldsBytes(s, f.v2, f.b2[..CHUNK]))
    && (n >= 4 ==> HoldsBytes(s, f.v3, f.b3[..CHUNK]))
  }

  /** On every store, the opening takes the flag down, changes nothing else, and passes
      exactly if each variable it looks at is as the script left it. */
  lemma OpeningIs(f: Fixture, s: Store, n: nat)
    requires Good(f) && Valid(s) && f.flag.Key() in s.vars && 1 <= n <= 4
    ensures RunFrom(s, Opening(f), 0, n) == (Remove(s, f.flag.Key()), Persisted(f, s, n))
  {
    hide Exec, ValidStep, VariableStore.Valid, Plain, VarName.Key, RunFrom, Remove, HoldsBytes;
    var t := Remove(s, f.flag.Key());
    EraseExisting(s, f.flag);
    RemoveKeeps(s, f.flag.Key());
    HoldsStill(f, s);
    OpeningLooks(f, t);
    RunUnfold(s, Opening(f), 0, n);
    Looks(t, Opening(f), 1, n);
  }

  /** Taking the flag down does not touch the three variables. */
  lemma HoldsStill(f: Fixture, s: Store)
    requires Good(f) && Valid(s) && f.flag.Key() in s.vars
    ensures forall n: nat :: Persisted(f, Remove(s, f.flag.Key()), n) <==> Persisted(f, s, n)
  {
    hide VariableStore.Valid, Remove, Plain, VarName.Key, Used;
    RemoveKeeps(s, f.flag.Key());
  }

  lemma OpeningLooks(f: Fixture, s: Store)
    requires Good(f) && Valid(s)
    ensures Opening(f)[0] == Erase(f.flag)
    ensures Exec(s, Opening(f)[1]) == (s, HoldsBytes(s, f.v1, f.b1[..CHUNK * 4]))
    ensures Exec(s, Opening(f)[2]) == (s, HoldsBytes(s, f.v2, f.b2[..CHUNK]))
    ensures Exec(s, Opening(f)[3]) == (s, HoldsBytes(s, f.v3, f.b3[..CHUNK]))
  {
    hide VariableStore.Valid, Plain, Exec, VarName.Key;
    ExpectExactly(s, f.v1, BUFFER_BYTES, f.b1[..CHUNK * 4]);
    ExpectExactly(s, f.v2, BUFFER_BYTES, f.b2[..CHUNK]);
    ExpectExactly(s, f.v3, BUFFER_BYTES, f.b3[..CHUNK]);
  }

  /** Steps that change nothing pass together exactly if each of them does. */
  lemma {:induction false} Looks(s: Store, steps: seq<Step>, i: nat, n: nat)
    requires Valid(s) && ValidSteps(steps) && i <= n <= |steps|
    requires forall j :: i <= j < n ==> Exec(s, steps[j]).0 == s
    ensures RunFrom(s, steps, i, n) == (s, forall j :: i <= j < n ==> Exec(s, steps[j]).1)
    decreases n - i
  {
    hide Exec, ValidStep, VariableStore.Valid;
    if i == n {
    } else {
      Looks(s, steps, i + 1, n);
    }
  }

  /** Hence after any history a run that finds the flag passes all its opening checks. */
  lemma OpeningPasses(f: Fixture, s: Store, n: nat)
    requires Good(f) && Valid(s) && CrashSafe(f, s) && f.flag.Key() in s.vars && n <= 4
    ensures RunFrom(s, Opening(f), 0, n) == (if n == 0 then s else Remove(s, f.flag.Key()), true)
  {
    hide RunFrom, Opening, VariableStore.Valid, Remove, Good, HoldsBytes;
    if n == 0 {
      NoOpening(f, s);
    } else {
      OpeningIs(f, s, n);
    }
  }

  lemma RunEnd(s: Store, steps: seq<Step>, n: nat)
    requires Valid(s) && ValidSteps(steps) && n <= |steps|
    ensures RunFrom(s, steps, n, n) == (s, true)
  {}

  // ---- exactly when a run passes ----

  /** What the script sees of a store with the flag down: the bytes that are free, the sizes
      of its three variables, and whether each of them is new or has the base attributes. */
  datatype Share = Share(free: int, a1: nat, a2: nat, a3: nat, base1: bool, base2: bool, base3: bool)

  ghost function ShareOn(s: Store, k1: Key, k2: Key, k3: Key): Share
    requires Valid(s)
  {
    Share(Remaining(s), SizeOf(s, k1), SizeOf(s, k2), SizeOf(s, k3),
          BaseOrAbsent(s, k1), BaseOrAbsent(s, k2), BaseOrAbsent(s, k3))
  }

  ghost function ShareOf(f: Fixture, s: Store): Share
    requires Valid(s)
  {
    ShareOn(s, f.v1.Key(), f.v2.Key(), f.v3.Key())
  }

  /** Which variable a write is about; Drop is the deletion of variable 2. */
  datatype Target = One | Two | Three | Drop | Flag

  function TargetOf(i: nat): Target {
    if i == 2 || i == 8 then Two else if i == 5 then Drop else if i == 6 then Three else if i == 9 then Flag else One
  }

  /** The bytes that write i leaves in its variable. */
  function SizeAfter(i: nat): nat {
    if i == 1 then CHUNK * 2 else if i == 3 || i == 7 then CHUNK * 4 else if i == 4 then CHUNK * 3 else CHUNK
  }

  /** Write i passes, as far as sizes and attributes tell. */
  predicate Fits(a: Share, i: nat) {
    match TargetOf(i)
    case One => a.base1 && SizeAfter(i) <= a.free + a.a1
    case Two => a.base2 && SizeAfter(i) <= a.free + a.a2
    case Three => a.base3 && SizeAfter(i) <= a.free + a.a3
    case Drop => a.a2 > 0
    case Flag => 1 <= a.free
  }

  function Spend(a: Share, i: nat): Share {
    match TargetOf(i)
    case One => a.(free := a.free + a.a1 - SizeAfter(i), a1 := SizeAfter(i), base1 := true)
    case Two => a.(free := a.free + a.a2 - SizeAfter(i), a2 := SizeAfter(i), base2 := true)
    case Three => a.(free := a.free + a.a3 - SizeAfter(i), a3 := SizeAfter(i), base3 := true)
    case Drop => a.(free := a.free + a.a2, a2 := 0, base2 := true)
    case Flag => a.(free := a.free - 1)
  }

  /** What variable 1 holds before write i, as far as the script has fixed it. */
  function Known(f: Fixture, i: nat): Option<seq<u8>>
    requires Good(f)
  {
    if i == 0 then None
    else if i == 1 then Some(f.b1[..CHUNK])
    else if i <= 3 then Some(f.b1[..CHUNK * 2])
    else if i == 4 || i > 7 then Some(f.b1[..CHUNK * 4])
    else Some(f.b1[..CHUNK * 3])
  }

  ghost predicate MayHold(s: Store, k: Key, data: Option<seq<u8>>) {
    data.Some? ==> k in s.vars && s.vars[k] == Entry(BASE_ATTRIBUTES, data.value)
  }

  predicate AllDifferent(flag: Key, k1: Key, k2: Key, k3: Key) {
    flag != k1 && flag != k2 && flag != k3 && k1 != k2 && k1 != k3 && k2 != k3
  }

  /** The keys of a good fixture. */
  lemma GoodKeys(f: Fixture)
    requires Good(f)
    ensures AllDifferent(f.flag.Key(), f.v1.Key(), f.v2.Key(), f.v3.Key())
    ensures ValidName(f.v1.Key().name) && ValidName(f.v2.Key().name) && ValidName(f.v3.Key().name)
    ensures ValidName(f.flag.Key().name)
  {
    PlainKeys(f.flag, f.flag);
    PlainKeys(f.v1, f.v1);
    PlainKeys(f.v2, f.v2);
    PlainKeys(f.v3, f.v3);
  }

  /** Storing to one variable takes its bytes from the free ones and leaves the others. */
  lemma PutSpends(s: Store, flag: Key, k1: Key, k2: Key, k3: Key, k: Key, data: seq<u8>, d1: Option<seq<u8>>)
    requires Valid(s) && AllDifferent(flag, k1, k2, k3) && ValidName(k.name) && data != []
    requires |data| <= Remaining(s) + SizeOf(s, k) && MayHold(s, k1, d1)
    ensures var t, a := Put(s, k, Entry(BASE_ATTRIBUTES, data)), ShareOn(s, k1, k2, k3);
            && Valid(t)
            && (k == k1 ==> MayHold(t, k1, Some(data))
                            && ShareOn(t, k1, k2, k3)
                               == a.(free := a.free + a.a1 - |data|, a1 := |data|, base1 := true))
            && (k == k2 ==> ShareOn(t, k1, k2, k3) == a.(free := a.free + a.a2 - |data|, a2 := |data|, base2 := true))
            && (k == k3 ==> ShareOn(t, k1, k2, k3) == a.(free := a.free + a.a3 - |data|, a3 := |data|, base3 := true))
            && (k == flag && flag !in s.vars ==> ShareOn(t, k1, k2, k3) == a.(free := a.free - |data|))
            && (k != k1 ==> MayHold(t, k1, d1))
            && (flag in t.vars <==> k == flag || flag in s.vars)
  {
    hide VariableStore.Valid, Put, SameExcept, BaseOrAbsent, SizeOf, MayHold;
    var t := Put(s, k, Entry(BASE_ATTRIBUTES, data));
    PutKeeps(s, k, Entry(BASE_ATTRIBUTES, data));
    Written(t, k, data);
    if flag !in s.vars {
      Absent(s, flag);
    }
    Untouched(s, t, k, flag, None);
    Untouched(s, t, k, k1, d1);
    Untouched(s, t, k, k2, None);
    Untouched(s, t, k, k3, None);
  }

  lemma Written(s: Store, k: Key, data: seq<u8>)
    requires k in s.vars && s.vars[k] == Entry(BASE_ATTRIBUTES, data)
    ensures SizeOf(s, k) == |data| && BaseOrAbsent(s, k) && MayHold(s, k, Some(data))
  {}

  lemma Absent(s: Store, k: Key)
    requires k !in s.vars
    ensures SizeOf(s, k) == 0
  {}

  lemma Untouched(s: Store, t: Store, k: Key, j: Key, d: Option<seq<u8>>)
    requires SameExcept(s, t, {k})
    ensures j != k ==> SizeOf(t, j) == SizeOf(s, j) && (BaseOrAbsent(t, j) <==> BaseOrAbsent(s, j))
    ensures j != k ==> (MayHold(t, j, d) <==> MayHold(s, j, d)) && (j in t.vars <==> j in s.vars)
  {}

  lemma RemoveSpends(s: Store, flag: Key, k1: Key, k2: Key, k3: Key, d1: Option<seq<u8>>)
    requires Valid(s) && AllDifferent(flag, k1, k2, k3) && k2 in s.vars && MayHold(s, k1, d1)
    ensures var t, a := Remove(s, k2), ShareOn(s, k1, k2, k3);
            && Valid(t) && ShareOn(t, k1, k2, k3) == a.(free := a.free + a.a2, a2 := 0, base2 := true)
            && MayHold(t, k1, d1) && (flag in t.vars <==> flag in s.vars)
  {
    hide VariableStore.Valid, Remove, Remaining;
    RemoveKeeps(s, k2);
  }

  /** Write i on the store is write i on the share. */
  ghost predicate Matches(f: Fixture, s: Store, i: nat)
    requires Good(f) && Valid(s) && i < 10
  {
    var (t, passed) := Exec(s, Writes(f)[i]);
    && (passed <==> Fits(ShareOf(f, s), i))
    && (passed ==> ShareOf(f, t) == Spend(ShareOf(f, s), i) && MayHold(t, f.v1.Key(), Known(f, i + 1))
                   && (f.flag.Key() in t.vars <==> i == 9))
    && (!passed ==> t == s)
  }

  /** The state in which write i is made. */
  ghost predicate Before(f: Fixture, s: Store, i: nat)
    requires Good(f)
  {
    Valid(s) && f.flag.Key() !in s.vars && MayHold(s, f.v1.Key(), Known(f, i))
  }

  lemma Write1Matches(f: Fixture, s: Store, i: nat, extra: u32, add: seq<u8>, check: seq<u8>)
    requires Good(f) && i < 10 && TargetOf(i) == One && Before(f, s, i)
    requires Writes(f)[i] == Write(f.v1, extra, add, check) && |check| == SizeAfter(i) && add != []
    requires Known(f, i + 1) == Some(check) && ValidStep(Write(f.v1, extra, add, check))
    requires if extra == 0 then check == add else Known(f, i).Some? && check == Known(f, i).value + add
    ensures Matches(f, s, i)
  {
    hide Writes, VariableStore.Valid, Exec, Put, Plain, VarName.Key, Remaining, Known, ValidStep;
    var k1 := f.v1.Key();
    GoodKeys(f);
    WritePasses(s, f.v1, extra, add, check);
    assert [] + add == add;
    if |check| <= Remaining(s) + SizeOf(s, k1) {
      PutSpends(s, f.flag.Key(), k1, f.v2.Key(), f.v3.Key(), k1, check, Known(f, i));
    }
  }

  lemma Write2Matches(f: Fixture, s: Store, i: nat, add: seq<u8>)
    requires Good(f) && i < 10 && TargetOf(i) == Two && Before(f, s, i)
    requires Writes(f)[i] == Write(f.v2, 0, add, add) && |add| == SizeAfter(i) && ValidStep(Write(f.v2, 0, add, add))
    requires Known(f, i + 1) == Known(f, i)
    ensures Matches(f, s, i)
  {
    hide Writes, VariableStore.Valid, Exec, Put, Plain, VarName.Key, Remaining, Known, ValidStep;
    var k2 := f.v2.Key();
    GoodKeys(f);
    WritePasses(s, f.v2, 0, add, add);
    assert [] + add == add;
    if |add| <= Remaining(s) + SizeOf(s, k2) {
      PutSpends(s, f.flag.Key(), f.v1.Key(), k2, f.v3.Key(), k2, add, Known(f, i));
    }
  }

  lemma Write3Matches(f: Fixture, s: Store, i: nat, add: seq<u8>)
    requires Good(f) && i < 10 && TargetOf(i) == Three && Before(f, s, i)
    requires Writes(f)[i] == Write(f.v3, 0, add, add) && |add| == SizeAfter(i) && ValidStep(Write(f.v3, 0, add, add))
    requires Known(f, i + 1) == Known(f, i)
    ensures Matches(f, s, i)
  {
    hide Writes, VariableStore.Valid, Exec, Put, Plain, VarName.Key, Remaining, Known, ValidStep;
    var k3 := f.v3.Key();
    GoodKeys(f);
    WritePasses(s, f.v3, 0, add, add);
    assert [] + add == add;
    if |add| <= Remaining(s) + SizeOf(s, k3) {
      PutSpends(s, f.flag.Key(), f.v1.Key(), f.v2.Key(), k3, k3, add, Known(f, i));
    }
  }

  lemma DropMatches(f: Fixture, s: Store)
    requires Good(f) && Before(f, s, 5) && Writes(f)[5] == Erase(f.v2) && Known(f, 6) == Known(f, 5)
    ensures Matches(f, s, 5)
  {
    hide Writes, VariableStore.Valid, Exec, Remove, Plain, VarName.Key, Remaining, Known;
    GoodKeys(f);
    EraseOutcome(s, f.v2);
    HasBytes(s, f.v2.Key());
    if f.v2.Key() in s.vars {
      RemoveSpends(s, f.flag.Key(), f.v1.Key(), f.v2.Key(), f.v3.Key(), Known(f, 5));
    }
  }

  /** No variable is empty. */
  lemma HasBytes(s: Store, k: Key)
    requires Valid(s)
    ensures SizeOf(s, k) > 0 <==> k in s.vars
  {}

  lemma FlagMatches(f: Fixture, s: Store)
    requires Good(f) && Before(f, s, 9) && Writes(f)[9] == Raise(f.flag, [1]) && ValidStep(Raise(f.flag, [1]))
    requires Known(f, 10) == Known(f, 9)
    ensures Matches(f, s, 9)
  {
    hide Writes, VariableStore.Valid, Exec, Put, Plain, VarName.Key, Remaining, Known, ValidStep;
    GoodKeys(f);
    RaisePasses(s, f.flag, [1]);
    if 1 <= Remaining(s) {
      PutSpends(s, f.flag.Key(), f.v1.Key(), f.v2.Key(), f.v3.Key(), f.flag.Key(), [1], Known(f, 9));
    }
  }

  /** The pieces that the script writes to variable 1 add up. */
  lemma ChunksAppend(b: seq<u8>)
    requires |b| == 10 * CHUNK
    ensures b[..CHUNK * 2] == b[..CHUNK] + b[CHUNK..CHUNK * 2]
    ensures b[..CHUNK * 4] == b[..CHUNK * 2] + b[CHUNK * 2..CHUNK * 4]
    ensures b[..CHUNK * 4] == b[..CHUNK * 3] + b[CHUNK * 3..CHUNK * 4]
  {}

  lemma WriteMatches(f: Fixture, s: Store, i: nat)
    requires Good(f) && i < 10 && Before(f, s, i)
    ensures Matches(f, s, i)
  {
    hide Writes, VariableStore.Valid, Plain, VarName.Key, Matches, ValidStep, MayHold;
    var b1, e2, e3 := f.b1, f.b2[..CHUNK], f.b3[..CHUNK];
    WritesAre(f);
    ChunksAppend(b1);
    if i == 0 {
      Write1Matches(f, s, 0, 0, b1[..CHUNK], b1[..CHUNK]);
    } else if i == 1 {
      Write1Matches(f, s, 1, APPEND_WRITE, b1[CHUNK..CHUNK * 2], b1[..CHUNK * 2]);
    } else if i == 2 {
      Write2Matches(f, s, 2, e2);
    } else if i == 3 {
      Write1Matches(f, s, 3, APPEND_WRITE, b1[CHUNK * 2..CHUNK * 4], b1[..CHUNK * 4]);
    } else if i == 4 {
      Write1Matches(f, s, 4, 0, b1[..CHUNK * 3], b1[..CHUNK * 3]);
    } else if i == 5 {
      DropMatches(f, s);
    } else if i == 6 {
      Write3Matches(f, s, 6, e3);
    } else if i == 7 {
      Write1Matches(f, s, 7, APPEND_WRITE, b1[CHUNK * 3..CHUNK * 4], b1[..CHUNK * 4]);
    } else if i == 8 {
      Write2Matches(f, s, 8, e2);
    } else {
      FlagMatches(f, s);
    }
  }

  // ---- the condition ----

  /** What the first n writes need: every variable new or with the base attributes when it
      is first written, and room at each new height. */
  predicate Enough(a: Share, n: nat) {
    && (n >= 1 ==> a.base1 && a.free + a.a1 >= CHUNK)
    && (n >= 2 ==> a.free + a.a1 >= CHUNK * 2)
    && (n >= 3 ==> a.base2 && a.free + a.a1 + a.a2 >= CHUNK * 3)
    && (n >= 4 ==> a.free + a.a1 + a.a2 >= CHUNK * 5)
    && (n >= 7 ==> a.base3 && a.free + a.a1 + a.a2 + a.a3 >= CHUNK * 4)
    && (n >= 8 ==> a.free + a.a1 + a.a2 + a.a3 >= CHUNK * 5)
    && (n >= 9 ==> a.free + a.a1 + a.a2 + a.a3 >= CHUNK * 6)
    && (n >= 10 ==> a.free + a.a1 + a.a2 + a.a3 >= SCRIPT_ROOM)
  }

  /** What the script holds at its fullest: four, one and one chunks, and the flag. */
  const SCRIPT_ROOM: nat := CHUNK * 6 + 1

  /** What all ten writes need. */
  predicate HasRoom(a: Share) {
    && a.base1 && a.base2 && a.base3
    && a.free + a.a1 >= CHUNK * 2
    && a.free + a.a1 + a.a2 >= CHUNK * 5
    && a.free + a.a1 + a.a2 + a.a3 >= SCRIPT_ROOM
  }

  /** The share after i writes. */
  function AfterWrites(a: Share, i: nat): Share {
    var n1 := if i == 0 then a.a1 else if i == 1 then CHUNK else if i <= 3 then CHUNK * 2
              else if 5 <= i <= 7 then CHUNK * 3 else CHUNK * 4;
    var n2 := if i <= 2 then a.a2 else if 6 <= i <= 8 then 0 else CHUNK;
    var n3 := if i <= 6 then a.a3 else CHUNK;
    var flag := if i >= 10 then 1 else 0;
    var free := a.free + a.a1 + a.a2 + a.a3 - n1 - n2 - n3 - flag;
    Share(free, n1, n2, n3, a.base1 || i > 0, a.base2 || i > 2, a.base3 || i > 6)
  }

  /** Adding up: after i writes that had enough, the next one fits exactly if there is
      enough for it, too. */
  lemma NextWrite(a: Share, i: nat)
    requires i < 10 && Enough(a, i)
    ensures Fits(AfterWrites(a, i), i) <==> Enough(a, i + 1)
    ensures Spend(AfterWrites(a, i), i) == AfterWrites(a, i + 1)
  {}

  /** Writes i to n - 1 pass on a store exactly if its share has enough for them. */
  lemma {:induction false} WritesPass(f: Fixture, s: Store, a: Share, i: nat, n: nat)
    requires Good(f) && i <= n <= 10 && Before(f, s, i) && ShareOf(f, s) == AfterWrites(a, i) && Enough(a, i)
    ensures var (t, passed) := RunFrom(s, Writes(f), i, n);
            && (passed <==> Enough(a, n))
            && (passed ==> ShareOf(f, t) == AfterWrites(a, n) && (f.flag.Key() in t.vars <==> i < n == 10))
            && (passed && n < 10 ==> Before(f, t, n))
    decreases n - i
  {
    hide Exec, VariableStore.Valid, Writes, Plain, VarName.Key, Fits, Spend, ShareOn, Known, ValidStep, MayHold;
    hide AfterWrites, Enough;
    if i == n {
      RunEnd(s, Writes(f), n);
    } else {
      WriteMatches(f, s, i);
      NextWrite(a, i);
      RunUnfold(s, Writes(f), i, n);
      var (t, passed) := Exec(s, Writes(f)[i]);
      if !passed {
        EnoughIsMonotone(a, i + 1, n);
      } else if i + 1 == n {
        RunEnd(t, Writes(f), n);
      } else {
        WritesPass(f, t, a, i + 1, n);
      }
    }
  }

  lemma EnoughIsMonotone(a: Share, m: nat, n: nat)
    requires m <= n
    ensures Enough(a, n) ==> Enough(a, m)
  {}

  /** The next run of the script will pass. */
  ghost predicate Ready(f: Fixture, s: Store)
    requires Valid(s)
  {
    f.flag.Key() in s.vars || HasRoom(ShareOf(f, s))
  }

  lemma StartsBefore(f: Fixture, s: Store)
    requires Good(f) && Valid(s) && f.flag.Key() !in s.vars
    ensures Before(f, s, 0) && AfterWrites(ShareOf(f, s), 0) == ShareOf(f, s) && Enough(ShareOf(f, s), 0)
  {}

  /** Without the flag, the first n writes pass exactly if the store has enough for them;
      if it had enough for all, it still has when they are stopped. */
  lemma WritesFromStart(f: Fixture, s: Store, n: nat)
    requires Good(f) && Valid(s) && f.flag.Key() !in s.vars && n <= 10
    ensures var (t, passed) := RunFrom(s, Writes(f), 0, n);
            && (passed <==> Enough(ShareOf(f, s), n))
            && (HasRoom(ShareOf(f, s)) ==> Ready(f, t))
  {
    hide VariableStore.Valid, RunFrom, Writes, Good, VarName.Key, ShareOf, Enough, HasRoom, AfterWrites;
    StartsBefore(f, s);
    WritesPass(f, s, ShareOf(f, s), 0, n);
    RoomStays(ShareOf(f, s), n);
  }

  lemma RoomStays(a: Share, n: nat)
    requires n <= 10
    ensures HasRoom(a) <==> Enough(a, 10)
    ensures HasRoom(a) ==> Enough(a, n)
    ensures HasRoom(a) && n < 10 ==> HasRoom(AfterWrites(a, n))
  {}

  /** Over settled variables, taking the flag down leaves room for the whole script. */
  lemma LoweredHasRoom(f: Fixture, s: Store)
    requires Good(f) && Valid(s) && CrashSafe(f, s) && f.flag.Key() in s.vars
    ensures var t := Remove(s, f.flag.Key());
            Valid(t) && f.flag.Key() !in t.vars && HasRoom(ShareOf(f, t))
  {
    hide VariableStore.Valid, Remove, Plain, VarName.Key;
    RemoveKeeps(s, f.flag.Key());
    HasBytes(s, f.flag.Key());
  }

  /** A run that fails on a store without the flag stops at the first write for which there
      is not enough, and leaves what the writes before it left. */
  lemma FailedWrites(f: Fixture, s: Store, n: nat)
    requires Good(f) && Valid(s) && f.flag.Key() !in s.vars && n <= 10 && !RunFrom(s, Writes(f), 0, n).1
    ensures exists m: nat :: m < n && Enough(ShareOf(f, s), m) && !Enough(ShareOf(f, s), m + 1)
                             && RunFrom(s, Writes(f), 0, n).0 == RunFrom(s, Writes(f), 0, m).0
  {
    hide VariableStore.Valid, RunFrom, Writes, Good, VarName.Key, ShareOf, Enough, HasRoom, AfterWrites, Fits, Before,
         Exec;
    var a := ShareOf(f, s);
    StartsBefore(f, s);
    WritesFromStart(f, s, n);
    var m := FirstShort(a, n);
    WritesPass(f, s, a, 0, m);
    var t := RunFrom(s, Writes(f), 0, m).0;
    WriteMatches(f, t, m);
    NextWrite(a, m);
    RunSplit(s, Writes(f), 0, m, n);
    RunUnfold(t, Writes(f), m, n);
  }

  /** The first write for which there is not enough. */
  lemma {:induction false} FirstShort(a: Share, n: nat) returns (m: nat)
    requires Enough(a, 0) && !Enough(a, n)
    ensures m < n && Enough(a, m) && !Enough(a, m + 1)
    decreases n
  {
    hide Enough;
    if Enough(a, n - 1) {
      m := n - 1;
    } else {
      m := FirstShort(a, n - 1);
    }
  }

  // ---- what the writes leave ----

  /** Which variable each write names. */
  ghost predicate Names(f: Fixture, i: nat)
    requires Good(f) && i < 10
  {
    match TargetOf(i)
    case One => Writes(f)[i].v == f.v1
    case Two => Writes(f)[i].v == f.v2
    case Three => Writes(f)[i].v == f.v3
    case Drop => Writes(f)[i].v == f.v2
    case Flag => Writes(f)[i].v == f.flag
  }

  lemma AllNames(f: Fixture)
    requires Good(f)
    ensures forall i :: 0 <= i < 10 ==> Names(f, i)
  {
    WritesAre(f);
    hide Writes;
    forall i | 0 <= i < 10
      ensures Names(f, i)
    {
      if i == 0 {
      } else if i == 1 {
      } else if i == 2 {
      } else if i == 3 {
      } else if i == 4 {
      } else if i == 5 {
      } else if i == 6 {
      } else if i == 7 {
      } else if i == 8 {
      } else {
      }
    }
  }

  /** Writes between i and n - 1 that name other variables leave k alone. */
  lemma NotNamed(f: Fixture, k: Key, i: nat, n: nat, targets: set<Target>)
    requires Good(f) && i <= n <= 10 && forall j: nat :: i <= j < n ==> TargetOf(j) in targets
    requires (One in targets ==> f.v1.Key() != k) && (Three in targets ==> f.v3.Key() != k)
    requires (Two in targets || Drop in targets ==> f.v2.Key() != k) && (Flag in targets ==> f.flag.Key() != k)
    ensures forall j :: i <= j < n ==> Writes(f)[j].v.Key() != k
  {
    hide Writes, VarName.Key, Plain;
    AllNames(f);
    forall j | i <= j < n
      ensures Writes(f)[j].v.Key() != k
    {
      assert Names(f, j);
    }
  }
  /** Variable 1 holds one, two, two, four, three, three, three, four, four, four chunks. */
  lemma WritesLeave1(f: Fixture, s: Store, n: nat)
    requires Good(f) && Valid(s) && 1 <= n <= 10 && RunFrom(s, Writes(f), 0, n).1
    ensures var chunks := if n == 1 then 1 else if n <= 3 then 2 else if 5 <= n <= 7 then 3 else 4;
            HoldsBytes(RunFrom(s, Writes(f), 0, n).0, f.v1, f.b1[..CHUNK * chunks])
  {
    hide Exec, RunFrom, Writes, ValidStep, VariableStore.Valid, VarName.Key, Plain;
    WritesAre(f);
    if n <= 2 {
      LastCheck(s, Writes(f), 0, n, n - 1);
    } else if n <= 4 {
      NotNamed(f, f.v1.Key(), 2, 3, {Two});
      LastCheck(s, Writes(f), 0, n, if n == 3 then 1 else 3);
    } else if n <= 7 {
      NotNamed(f, f.v1.Key(), 5, n, {Drop, Three});
      LastCheck(s, Writes(f), 0, n, 4);
    } else {
      NotNamed(f, f.v1.Key(), 8, n, {Two, Flag});
      LastCheck(s, Writes(f), 0, n, 7);
    }
  }

  /** Variable 2 is untouched by two writes, then there, gone, and there again. */
  lemma WritesLeave2(f: Fixture, s: Store, n: nat)
    requires Good(f) && Valid(s) && n <= 10 && RunFrom(s, Writes(f), 0, n).1
    ensures var t := RunFrom(s, Writes(f), 0, n).0;
            if n <= 2 then SameAt(s, t, f.v2.Key())
            else if 6 <= n <= 8 then f.v2.Key() !in t.vars
            else HoldsBytes(t, f.v2, f.b2[..CHUNK])
  {
    hide Exec, RunFrom, Writes, ValidStep, VariableStore.Valid, VarName.Key, Plain;
    WritesAre(f);
    var k := f.v2.Key();
    if n <= 2 {
      NotNamed(f, k, 0, n, {One});
      RunFrame(s, Writes(f), 0, n, k);
    } else if n <= 5 {
      NotNamed(f, k, 3, n, {One});
      LastCheck(s, Writes(f), 0, n, 2);
    } else if n <= 8 {
      NotNamed(f, k, 6, n, {Three, One});
      LastCheck(s, Writes(f), 0, n, 5);
    } else {
      NotNamed(f, k, 9, n, {Flag});
      LastCheck(s, Writes(f), 0, n, 8);
    }
  }

  /** Variable 3 is untouched by six writes, then there. */
  lemma WritesLeave3(f: Fixture, s: Store, n: nat)
    requires Good(f) && Valid(s) && n <= 10 && RunFrom(s, Writes(f), 0, n).1
    ensures var t := RunFrom(s, Writes(f), 0, n).0;
            if n <= 6 then SameAt(s, t, f.v3.Key()) else HoldsBytes(t, f.v3, f.b3[..CHUNK])
  {
    hide Exec, RunFrom, Writes, ValidStep, VariableStore.Valid, VarName.Key, Plain;
    WritesAre(f);
    var k := f.v3.Key();
    if n <= 6 {
      NotNamed(f, k, 0, n, {One, Two, Drop});
      RunFrame(s, Writes(f), 0, n, k);
    } else {
      NotNamed(f, k, 7, n, {One, Two, Flag});
      LastCheck(s, Writes(f), 0, n, 6);
    }
  }

  /** The flag is raised by the last write, and every other variable is untouched. */
  lemma WritesLeaveOthers(f: Fixture, s: Store, n: nat, k: Key)
    requires Good(f) && Valid(s) && n <= 10 && RunFrom(s, Writes(f), 0, n).1 && f.flag.Key() !in s.vars
    requires k !in {f.v1.Key(), f.v2.Key(), f.v3.Key()}
    ensures var t := RunFrom(s, Writes(f), 0, n).0;
            if n == 10 && k == f.flag.Key() then HoldsBytes(t, f.flag, [1]) else SameAt(s, t, k)
  {
    hide Exec, RunFrom, Writes, ValidStep, VariableStore.Valid, VarName.Key, Plain, Put;
    var m := if n == 10 && k == f.flag.Key() then 9 else n;
    NotNamed(f, k, 0, m, if k == f.flag.Key() then {One, Two, Drop, Three} else {One, Two, Drop, Three, Flag});
    RunFrame(s, Writes(f), 0, m, k);
    if n == 10 && k == f.flag.Key() {
      var t := RunFrom(s, Writes(f), 0, 9).0;
      RunSplit(s, Writes(f), 0, 9, 10);
      RunUnfold(t, Writes(f), 9, 10);
      RunEnd(Exec(t, Writes(f)[9]).0, Writes(f), 10);
      WritesAre(f);
      FlagIsOne(f, t);
    }
  }

  lemma FlagIsOne(f: Fixture, t: Store)
    requires Good(f) && Valid(t) && Exec(t, Raise(f.flag, [1])).1
    ensures HoldsBytes(Exec(t, Raise(f.flag, [1])).0, f.flag, [1])
  {
    hide Exec, VariableStore.Valid, VarName.Key;
    RaisePasses(t, f.flag, [1]);
  }

  // ---- whole runs ----

  /** On every store, a run stopped after n steps passes as far as it gets exactly if, with
      the flag up, what the opening looks at is as the script left it, or, with the flag
      down, there is enough for the writes it makes. A crash-safe store that is ready for a
      run stays ready, wherever the run is stopped. */
  lemma RunPasses(f: Fixture, s: Store, n: nat)
    requires Good(f) && Valid(s)
    ensures Run(f, s, n).1 <==>
              if f.flag.Key() in s.vars then Persisted(f, s, n) else Enough(ShareOf(f, s), if n < 10 then n else 10)
    ensures CrashSafe(f, s) && Ready(f, s) ==> Ready(f, Run(f, s, n).0)
  {
    hide VariableStore.Valid, RunFrom, Writes, Opening, Good, VarName.Key, ShareOf, Enough, HasRoom, Remove, HoldsBytes;
    NoOpening(f, s);
    if f.flag.Key() in s.vars {
      if n > 0 {
        OpeningIs(f, s, if n < 4 then n else 4);
      }
      if Settled(f, s) {
        var t := Remove(s, f.flag.Key());
        LoweredHasRoom(f, s);
        if n >= 4 {
          RoomStays(ShareOf(f, t), if n - 4 < 10 then n - 4 else 10);
          WritesFromStart(f, t, if n - 4 < 10 then n - 4 else 10);
        }
      }
    } else {
      WritesFromStart(f, s, if n < 10 then n else 10);
    }
  }

  /** What a run without the flag holds when it is stopped after n writes that passed: one,
      two, two, four, three, three, three, four, four, four chunks of variable 1; variable 2
      from the third write on, but not from the sixth to the eighth; variable 3 from the
      seventh on; the flag after the tenth. Everything else is as it was. */
  lemma StoppedRunLeaves(f: Fixture, s: Store, n: nat, k: Key)
    requires Good(f) && Valid(s) && f.flag.Key() !in s.vars && n <= 10 && Run(f, s, n).1
    ensures var t := Run(f, s, n).0;
            && (if n == 0 then SameAt(s, t, f.v1.Key())
                else
                  var chunks := if n == 1 then 1 else if n <= 3 then 2 else if 5 <= n <= 7 then 3 else 4;
                  HoldsBytes(t, f.v1, f.b1[..16 * chunks]))
            && (if n <= 2 then SameAt(s, t, f.v2.Key())
                else if 6 <= n <= 8 then f.v2.Key() !in t.vars else HoldsBytes(t, f.v2, f.b2[..16]))
            && (if n <= 6 then SameAt(s, t, f.v3.Key()) else HoldsBytes(t, f.v3, f.b3[..16]))
            && (if n <= 9 then f.flag.Key() !in t.vars else HoldsBytes(t, f.flag, [1]))
            && (k !in {f.flag.Key(), f.v1.Key(), f.v2.Key(), f.v3.Key()} ==> SameAt(s, t, k))
  {
    hide VariableStore.Valid, RunFrom, Writes, Opening, VarName.Key, Plain, HoldsBytes;
    NoOpening(f, s);
    RunIsWrites(f, s, n);
    if n == 0 {
      RunEnd(s, Writes(f), 0);
    } else {
      WritesLeave1(f, s, n);
    }
    WritesLeave2(f, s, n);
    WritesLeave3(f, s, n);
    WritesLeaveOthers(f, s, n, f.flag.Key());
    if k !in {f.flag.Key(), f.v1.Key(), f.v2.Key(), f.v3.Key()} {
      WritesLeaveOthers(f, s, n, k);
    }
  }

  lemma RunIsWrites(f: Fixture, s: Store, n: nat)
    requires Good(f) && Valid(s) && f.flag.Key() !in s.vars && n <= 10
    ensures Run(f, s, n) == RunFrom(s, Writes(f), 0, n)
  {
    hide VariableStore.Valid, RunFrom, Writes, Opening, VarName.Key, Plain;
    NoOpening(f, s);
  }

  /** A run that fails without the flag stops at the first write for which there is not
      enough, and leaves what a run stopped before that write leaves. */
  lemma FailedRunLeaves(f: Fixture, s: Store, n: nat)
    requires Good(f) && Valid(s) && f.flag.Key() !in s.vars && n <= 10 && !Run(f, s, n).1
    ensures exists m: nat :: m < n && Run(f, s, m).1 && !Run(f, s, m + 1).1 && Run(f, s, n).0 == Run(f, s, m).0
  {
    hide VariableStore.Valid, Run, RunFrom, Writes, Good, VarName.Key, ShareOf, Enough, HasRoom;
    RunIsWrites(f, s, n);
    FailedWrites(f, s, n);
    var m: nat :| m < n && Enough(ShareOf(f, s), m) && !Enough(ShareOf(f, s), m + 1)
                  && RunFrom(s, Writes(f), 0, n).0 == RunFrom(s, Writes(f), 0, m).0;
    RunIsWrites(f, s, m);
    RunPasses(f, s, m);
    RunPasses(f, s, m + 1);
  }

  /** The point of the flag: a complete run that finds it passes exactly if the three
      variables are as the script left them; otherwise it takes the flag down and leaves
      everything else. */
  lemma FlagIsChecked(f: Fixture, s: Store)
    requires Good(f) && Valid(s) && f.flag.Key() in s.vars
    ensures Run(f, s, 14).1 <==> Settled(f, s)
    ensures !Settled(f, s) ==> Run(f, s, 14).0 == Remove(s, f.flag.Key())
  {
    hide VariableStore.Valid, RunFrom, Writes, Opening, Good, VarName.Key, Remove, HoldsBytes, Ready;
    RunPasses(f, s, 14);
    OpeningIs(f, s, 4);
  }

  /** A complete run that passed leaves four, one and one chunks, the flag with the byte 1,
      and everything else as it was. */
  lemma RunLeaves(f: Fixture, s: Store, k: Key)
    requires Good(f) && Valid(s) && Run(f, s, 14).1
    ensures var t := Run(f, s, 14).0;
            && Settled(f, t) && HoldsBytes(t, f.flag, [1])
            && (k !in {f.flag.Key(), f.v1.Key(), f.v2.Key(), f.v3.Key()} ==> SameAt(s, t, k))
  {
    hide VariableStore.Valid, RunFrom, Writes, Opening, VarName.Key, Plain, Remove, HoldsBytes;
    NoOpening(f, s);
    if f.flag.Key() in s.vars {
      OpeningIs(f, s, 4);
      RemoveKeeps(s, f.flag.Key());
    }
    var r := Cleaned(s, f.flag.Key());
    WritesLeave1(f, r, 10);
    WritesLeave2(f, r, 10);
    WritesLeave3(f, r, 10);
    WritesLeaveOthers(f, r, 10, f.flag.Key());
    if k !in {f.flag.Key(), f.v1.Key(), f.v2.Key(), f.v3.Key()} {
      WritesLeaveOthers(f, r, 10, k);
    }
  }

  lemma NoOpening(f: Fixture, s: Store)
    requires Good(f) && Valid(s)
    ensures RunFrom(s, Opening(f), 0, 0) == (s, true)
  {}

  /** On every store, a complete run passes exactly if, with the flag up, the three variables
      are as the script left them, or, with the flag down, there is room; on a crash-safe
      store that means that it is ready. */
  lemma CompleteRunPasses(f: Fixture, s: Store)
    requires Good(f) && Valid(s)
    ensures Run(f, s, 14).1 <==> if f.flag.Key() in s.vars then Settled(f, s) else HasRoom(ShareOf(f, s))
    ensures CrashSafe(f, s) ==> (Run(f, s, 14).1 <==> Ready(f, s))
  {
    hide VariableStore.Valid, Run, Good, VarName.Key, ShareOf, Enough, HasRoom, AfterWrites, HoldsBytes;
    RunPasses(f, s, 14);
    RoomStays(ShareOf(f, s), 10);
  }

  /** A power cycle takes no room away from the script. */
  lemma RebootStaysReady(f: Fixture, s: Store)
    requires Good(f) && Valid(s) && CrashSafe(f, s) && Ready(f, s)
    ensures Valid(Reboot(s)) && Ready(f, Reboot(s))
  {
    hide VariableStore.Valid, Plain, VarName.Key, NonVolatile, Used;
    BaseAttributes();
    RebootFrees(s, f.flag.Key());
    HasBytes(s, f.flag.Key());
    RebootKeepsOrder(s, f.flag.Key());
  }

  lemma RebootKeepsOrder(s: Store, k: Key)
    requires Valid(s)
    ensures VolatileBytes(s.order, s.vars, k)
            == if k in s.vars && !HasBit(s.vars[k].attributes, NON_VOLATILE) then SizeOf(s, k) else 0
  {}

  /** The theorem: after any history of runs, each stopped anywhere, power cycles and calls of
      other clients, the next complete run passes exactly if the flag is up, or no variable
      is in the way and the store has room at each height the script reaches. */
  lemma CompleteRunsPass(f: Fixture, s: Store, events: seq<Event>)
    requires Good(f) && Valid(s) && CrashSafe(f, s) && forall e <- events :: ValidEvent(f, e)
    ensures var t := After(f, s, events);
            var k1, k2, k3 := f.v1.Key(), f.v2.Key(), f.v3.Key();
            var r, a1, a2, a3 := Remaining(t), SizeOf(t, k1), SizeOf(t, k2), SizeOf(t, k3);
            Run(f, t, 14).1 <==>
              || f.flag.Key() in t.vars
              || (&& BaseOrAbsent(t, k1) && BaseOrAbsent(t, k2) && BaseOrAbsent(t, k3)
                  && r + a1 >= CHUNK * 2 && r + a1 + a2 >= CHUNK * 5 && r + a1 + a2 + a3 >= SCRIPT_ROOM)
  {
    hide VariableStore.Valid, Run, CrashSafe, Good, VarName.Key, After, ValidEvent, BaseOrAbsent, SizeOf, Remaining;
    CrashConsistency(f, s, events);
    CompleteRunPasses(f, After(f, s, events));
  }

  /** Once a store is ready, no run of the script and no power cycle makes it unready. */
  lemma {:induction false} StaysReady(f: Fixture, s: Store, events: seq<Event>)
    requires Good(f) && Valid(s) && CrashSafe(f, s) && Ready(f, s) && forall e <- events :: !e.Others?
    ensures forall e <- events :: ValidEvent(f, e)
    ensures Ready(f, After(f, s, events)) && Run(f, After(f, s, events), 14).1
    decreases |events|
  {
    hide VariableStore.Valid, Run, CrashSafe, Good, VarName.Key, Ready, Reboot;
    if events == [] {
      CompleteRunPasses(f, s);
    } else {
      var t := AfterOne(f, s, events[0]);
      EventIsCrashSafe(f, s, events[0]);
      match events[0] {
        case RunUntil(n) => RunPasses(f, s, n);
        case PowerCycle => RebootStaysReady(f, s);
      }
      StaysReady(f, t, events[1..]);
    }
  }

  // ---- the method ----

  /** The deterministic contents of the image buffer. */
  function Pattern(n: nat): (b: seq<u8>)
    ensures |b| == n
  {
    seq(n, i requires 0 <= i < n => i % 0x100)
  }

  const FIXTURE: Fixture := Fixture(
    VarName(Literal("PersistanceTestFlag"), TEST_GUID),
    VarName(Literal("InterleaveTestVar1"), TEST_GUID),
    VarName(Literal("InterleaveTestVar2"), TEST_GUID),
    VarName(Literal("InterleaveTestVar3"), TEST_GUID),
    Pattern(BUFFER_BYTES)[..CHUNK * 10], Pattern(BUFFER_BYTES)[CHUNK * 10..CHUNK * 20],
    Pattern(BUFFER_BYTES)[CHUNK * 20..])

  lemma DifferentNamesAreGood(f: Fixture)
    requires Plain(f.flag) && Plain(f.v1) && Plain(f.v2) && Plain(f.v3)
    requires |f.flag.name| == 19 && |f.v1.name| == |f.v2.name| == |f.v3.name| == 18
    requires f.v1.name[17] == '1' as int && f.v2.name[17] == '2' as int && f.v3.name[17] == '3' as int
    requires |f.b1| == |f.b2| == |f.b3| == 10 * CHUNK
    ensures Good(f)
  {
    hide Plain, VarName.Key;
    PlainKeys(f.flag, f.v1);
    PlainKeys(f.flag, f.v2);
    PlainKeys(f.flag, f.v3);
    PlainKeys(f.v1, f.v2);
    PlainKeys(f.v1, f.v3);
    PlainKeys(f.v2, f.v3);
  }

  lemma FixtureIsGood()
    ensures Good(FIXTURE)
  {
    PlainLiteral("PersistanceTestFlag", TEST_GUID);
    PlainLiteral("InterleaveTestVar1", TEST_GUID);
    PlainLiteral("InterleaveTestVar2", TEST_GUID);
    PlainLiteral("InterleaveTestVar3", TEST_GUID);
    DifferentNamesAreGood(FIXTURE);
  }

  /** The program's own script on a machine that starts with an empty store: the flag is
      always truthful, the next complete run passes exactly if the store is ready, and with
      room for the script only other clients can make it unready. */
  lemma FromEmptyStore(capacity: nat, events: seq<Event>)
    requires capacity <= 0x7FFF_FFFF && forall e <- events :: ValidEvent(FIXTURE, e)
    ensures Good(FIXTURE) && Valid(EmptyStore(capacity))
    ensures var t := After(FIXTURE, EmptyStore(capacity), events);
            && CrashSafe(FIXTURE, t) && (Run(FIXTURE, t, 14).1 <==> Ready(FIXTURE, t))
            && (capacity >= SCRIPT_ROOM && (forall e <- events :: !e.Others?) ==> Run(FIXTURE, t, 14).1)
  {
    hide VariableStore.Valid, Good, CrashSafe, Run, After, EmptyStore, ValidEvent, Ready;
    FixtureIsGood();
    EmptyStoreIsValid(capacity);
    EmptyStoreIsReady(FIXTURE, capacity);
    CrashConsistency(FIXTURE, EmptyStore(capacity), events);
    CompleteRunPasses(FIXTURE, After(FIXTURE, EmptyStore(capacity), events));
    if capacity >= SCRIPT_ROOM && forall e <- events :: !e.Others? {
      StaysReady(FIXTURE, EmptyStore(capacity), events);
    }
  }

  /** What the program leaves for its next run, in bytes. */
  ghost predicate ProgramData(t: Store) {
    var guid := GuidFields(0x1FE7ACE3, 0xC36D, 0x4CA7, [0xB4, 0xEA, 0x70, 0xFF, 0x5A, 0xDF, 0x97, 0xDC]);
    && Stores(t, KeyOf(Literal("InterleaveTestVar1"), guid), 7, seq(64, i requires 0 <= i < 64 => i))
    && Stores(t, KeyOf(Literal("InterleaveTestVar2"), guid), 7, seq(16, i requires 0 <= i < 16 => 160 + i))
    && Stores(t, KeyOf(Literal("InterleaveTestVar3"), guid), 7, seq(16, i requires 0 <= i < 16 => 64 + i))
    && Stores(t, KeyOf(Literal("PersistanceTestFlag"), guid), 7, [1])
  }

  ghost predicate Stores(s: Store, k: Key, attributes: u32, data: seq<u8>) {
    k in s.vars && s.vars[k] == Entry(attributes, data)
  }

  lemma ScriptStores(s: Store)
    requires Valid(s) && Good(FIXTURE) && Run(FIXTURE, s, 14).1
    ensures ProgramData(Run(FIXTURE, s, 14).0)
  {
    hide *;
    RunLeaves(FIXTURE, s, FIXTURE.flag.Key());
    SettledStores(FIXTURE, Run(FIXTURE, s, 14).0);
    SettledIsProgramData(Run(FIXTURE, s, 14).0);
  }

  lemma SettledIsProgramData(t: Store)
    requires Stores(t, FIXTURE.v1.Key(), 7, FIXTURE.b1[..64]) && Stores(t, FIXTURE.v2.Key(), 7, FIXTURE.b2[..16])
    requires Stores(t, FIXTURE.v3.Key(), 7, FIXTURE.b3[..16]) && Stores(t, FIXTURE.flag.Key(), 7, [1])
    ensures ProgramData(t)
  {
    hide VarName.Key, FIXTURE, Stores;
    PatternBytes();
    FixtureKeys();
  }

  lemma SettledStores(f: Fixture, t: Store)
    requires Good(f) && Settled(f, t) && HoldsBytes(t, f.flag, [1])
    ensures Stores(t, f.v1.Key(), 7, f.b1[..64]) && Stores(t, f.v2.Key(), 7, f.b2[..16])
    ensures Stores(t, f.v3.Key(), 7, f.b3[..16]) && Stores(t, f.flag.Key(), 7, [1])
  {
    hide VarName.Key, Plain;
  }

  lemma FixtureKeys()
    ensures var guid := GuidFields(0x1FE7ACE3, 0xC36D, 0x4CA7, [0xB4, 0xEA, 0x70, 0xFF, 0x5A, 0xDF, 0x97, 0xDC]);
            && FIXTURE.flag.Key() == KeyOf(Literal("PersistanceTestFlag"), guid)
            && FIXTURE.v1.Key() == KeyOf(Literal("InterleaveTestVar1"), guid)
            && FIXTURE.v2.Key() == KeyOf(Literal("InterleaveTestVar2"), guid)
            && FIXTURE.v3.Key() == KeyOf(Literal("InterleaveTestVar3"), guid)
  {}

  lemma PatternBytes()
    ensures |FIXTURE.b1| == |FIXTURE.b2| == |FIXTURE.b3| == 160
    ensures FIXTURE.b1[..64] == seq(64, i requires 0 <= i < 64 => i)
    ensures FIXTURE.b2[..16] == seq(16, i requires 0 <= i < 16 => 160 + i)
    ensures FIXTURE.b3[..16] == seq(16, i requires 0 <= i < 16 => 64 + i)
  {}

  /** On an empty store, readiness is a matter of 97 bytes. */
  lemma EmptyStoreIsReady(f: Fixture, capacity: nat)
    requires Good(f) && Valid(EmptyStore(capacity))
    ensures CrashSafe(f, EmptyStore(capacity)) && (Ready(f, EmptyStore(capacity)) <==> capacity >= SCRIPT_ROOM)
  {}

  /** Where it fails: on an empty store that is one byte short. */
  lemma OneByteShort()
    ensures Good(FIXTURE) && Valid(EmptyStore(96)) && Valid(EmptyStore(97))
    ensures !Run(FIXTURE, EmptyStore(96), 14).1 && Run(FIXTURE, EmptyStore(97), 14).1
  {
    hide VariableStore.Valid, Good, CrashSafe, Run, EmptyStore, Ready;
    FixtureIsGood();
    EmptyStoreIsValid(96);
    EmptyStoreIsValid(97);
    EmptyStoreIsReady(FIXTURE, 96);
    EmptyStoreIsReady(FIXTURE, 97);
    CompleteRunPasses(FIXTURE, EmptyStore(96));
    CompleteRunPasses(FIXTURE, EmptyStore(97));
  }

  /** And on a larger one of which another client has taken all but 96 bytes. */
  lemma TakenRoom(f: Fixture, w: VarName, data: seq<u8>)
    requires Good(f) && Plain(w) && w.Key() !in {f.flag.Key(), f.v1.Key(), f.v2.Key(), f.v3.Key()}
    requires 0 < |data| <= 0x200
    ensures var taken := Others([SetCall(Some(w.name), Some(w.guid), BASE_ATTRIBUTES, |data|, Some(data))]);
            && ValidEvent(f, taken) && Valid(EmptyStore(96 + |data|))
            && !Run(f, After(f, EmptyStore(96 + |data|), [taken]), 14).1
  {
    hide *;
    var s, call := EmptyStore(96 + |data|), SetCall(Some(w.name), Some(w.guid), BASE_ATTRIBUTES, |data|, Some(data));
    EmptyStoreIsValid(96 + |data|);
    EmptyStoreIsReady(f, 96 + |data|);
    PlainIsForeign(f, w, data);
    TakesRoom(w, data);
    AfterOneCall(f, s, call);
    FilledIsNotReady(f, MapStep(s, call).0, w.Key());
    EventIsCrashSafe(f, s, Others([call]));
    CompleteRunPasses(f, MapStep(s, call).0);
  }

  lemma PlainIsForeign(f: Fixture, w: VarName, data: seq<u8>)
    requires Plain(w) && w.Key() !in {f.flag.Key(), f.v1.Key(), f.v2.Key(), f.v3.Key()} && |data| <= 0x200
    ensures var call := SetCall(Some(w.name), Some(w.guid), BASE_ATTRIBUTES, |data|, Some(data));
            ValidCall(call) && Foreign(f, call)
  {}

  lemma TakesRoom(w: VarName, data: seq<u8>)
    requires Plain(w) && 0 < |data| <= 0x200 && Valid(EmptyStore(96 + |data|))
    ensures var call := SetCall(Some(w.name), Some(w.guid), BASE_ATTRIBUTES, |data|, Some(data));
            && ValidCall(call)
            && var t := MapStep(EmptyStore(96 + |data|), call).0;
               Valid(t) && Remaining(t) == 96 && t.vars.Keys == {w.Key()}
  {
    hide VariableStore.Valid, Put, MapSet;
    var s := EmptyStore(96 + |data|);
    EmptyStoreIsValid(96 + |data|);
    NothingStored(96 + |data|, w.Key());
    PlainKeys(w, w);
    PutKeeps(s, w.Key(), Entry(BASE_ATTRIBUTES, data));
    assert [] + data == data;
    StoresBytes(s, w, 0, data);
  }

  lemma NothingStored(capacity: nat, k: Key)
    ensures EmptyStore(capacity).vars == map[] && SizeOf(EmptyStore(capacity), k) == 0
    ensures forall e: Entry :: Put(EmptyStore(capacity), k, e).vars.Keys == {k}
  {}

  lemma AfterOneCall(f: Fixture, s: Store, c: Call)
    requires Good(f) && Valid(s) && ValidCall(c) && Foreign(f, c)
    ensures ValidEvent(f, Others([c])) && Valid(MapStep(s, c).0)
    ensures After(f, s, [Others([c])]) == AfterOne(f, s, Others([c])) == MapStep(s, c).0
  {
    hide VariableStore.Valid, Good, MapStep, Foreign;
    MapStepKeepsValid(s, c);
    var t := MapStep(s, c).0;
    assert RunMap(t, []).0 == t;
    assert RunMap(s, [c]).0 == t;
    assert After(f, t, []) == t;
  }

  lemma FilledIsNotReady(f: Fixture, t: Store, k: Key)
    requires Good(f) && Valid(t) && Remaining(t) == 96 && t.vars.Keys == {k}
    requires k !in {f.flag.Key(), f.v1.Key(), f.v2.Key(), f.v3.Key()}
    ensures !Ready(f, t)
  {}

  /** The image buffer is filled with its pattern and split into three parts. */
  method BuildFixture() returns (f: Fixture)
    ensures f == FIXTURE
  {
    var imageData := new u8[BUFFER_BYTES];
    var idx := 0;
    while idx < BUFFER_BYTES
      invariant 0 <= idx <= BUFFER_BYTES
      invariant forall j :: 0 <= j < idx ==> imageData[j] == j % 0x100
    {
      imageData[idx] := idx % 0x100;
      idx := idx + 1;
    }
    assert imageData[..] == Pattern(BUFFER_BYTES);
    var image := imageData[..];
    f := FIXTURE.(b1 := image[..CHUNK * 10], b2 := image[CHUNK * 10..CHUNK * 20], b3 := image[CHUNK * 20..]);
  }

  /** VerifyAppendShrinkReplacePersist, on the byte-level driver; passed is false where a
      VERIFY macro throws. */
  method VerifyAppendShrinkReplacePersist(d: Driver, garbage: Guid) returns (passed: bool)
    requires Rt.Ready(d) && Enumeration.Listable(d.store)
    modifies d, d.mVariableParamMem, d.mVariableResultMem
    ensures Rt.Ready(d) && Enumeration.Listable(d.store) && Good(FIXTURE)
    ensures (d.store, passed) == Run(FIXTURE, old(d.store), 14)
    ensures FIXTURE.flag.Key() in old(d.store).vars ==> (passed <==> Settled(FIXTURE, old(d.store)))
    ensures passed ==> ProgramData(d.store)
  {
    hide Run, VariableStore.Valid, FIXTURE, ProgramData, VarName.Key, Settled;
    FixtureIsGood();
    ghost var s := d.store;
    Rt.ReadyIsValid(d);
    if FIXTURE.flag.Key() in s.vars {
      FlagIsChecked(FIXTURE, s);
    }
    if Run(FIXTURE, s, 14).1 {
      ScriptStores(s);
    }
    var f := BuildFixture();
    passed := RunScript(d, f, garbage);
  }

  method RunScript(d: Driver, f: Fixture, garbage: Guid) returns (passed: bool)
    requires Good(f) && Rt.Ready(d) && Enumeration.Listable(d.store)
    modifies d, d.mVariableParamMem, d.mVariableResultMem
    ensures Rt.Ready(d) && Enumeration.Listable(d.store)
    ensures (d.store, passed) == Run(f, old(d.store), 14)
  {
    FlagSeen(f, d.store);
    NoOpening(f, d.store);
    hide Exec, RunFrom, Writes, Opening, VariableStore.Valid;
    var r := Rt.GetVariable(d, f.flag.name, f.flag.guid, 0);
    if r.status != EfiNotFound {
      if r.status != EfiBufferTooSmall {
        return false;
      }
      passed := RunOpening(d, f, garbage);
      if !passed {
        return;
      }
    }
    passed := RunWrites(d, f, garbage);
  }

  /** The query of the flag with an empty buffer tells whether it exists. */
  lemma FlagSeen(f: Fixture, s: Store)
    requires Good(f) && Valid(s)
    ensures MapGet(s, f.flag.name, f.flag.guid, 0).status
            == if f.flag.Key() in s.vars then EfiBufferTooSmall else EfiNotFound
  {}

  /** The checks made when the flag is found. */
  method RunOpening(d: Driver, f: Fixture, garbage: Guid) returns (passed: bool)
    requires Good(f) && Rt.Ready(d) && Enumeration.Listable(d.store)
    modifies d, d.mVariableParamMem, d.mVariableResultMem
    ensures Rt.Ready(d) && Enumeration.Listable(d.store)
    ensures (d.store, passed) == RunFrom(old(d.store), Opening(f), 0, 4)
  {
    hide VariableStore.Set, VariableStore.Valid, Reads, MapSet, MapGet;
    passed := DeleteAndCheckVariable(d, f.flag, garbage);
    if !passed {
      return;
    }
    passed := ExpectVariable(d, f.v1, BUFFER_BYTES, f.b1[..CHUNK * 4]);
    if !passed {
      return;
    }
    passed := ExpectVariable(d, f.v2, BUFFER_BYTES, f.b2[..CHUNK]);
    if !passed {
      return;
    }
    passed := ExpectVariable(d, f.v3, BUFFER_BYTES, f.b3[..CHUNK]);
  }

  lemma RunUnfold(s: Store, steps: seq<Step>, i: nat, n: nat)
    requires Valid(s) && ValidSteps(steps) && i < n <= |steps|
    ensures var (t, passed) := Exec(s, steps[i]);
            RunFrom(s, steps, i, n) == if passed then RunFrom(t, steps, i + 1, n) else (t, false)
  {}

  /** The writes made in every run, up to the trim of variable 1. */
  method RunFirstWrites(d: Driver, f: Fixture, garbage: Guid) returns (passed: bool)
    requires Good(f) && Rt.Ready(d) && Enumeration.Listable(d.store)
    modifies d, d.mVariableParamMem, d.mVariableResultMem
    ensures Rt.Ready(d) && Enumeration.Listable(d.store)
    ensures (d.store, passed) == RunFrom(old(d.store), Writes(f), 0, 5)
  {
    WritesAre(f);
    hide Exec, Writes, RunFrom, VariableStore.Valid;
    RunUnfold(d.store, Writes(f), 0, 5);
    passed := SetAndCheckVariable(d, f.v1, 0, f.b1[..CHUNK], f.b1[..CHUNK], garbage);
    if !passed {
      return;
    }
    RunUnfold(d.store, Writes(f), 1, 5);
    passed := SetAndCheckVariable(d, f.v1, APPEND_WRITE, f.b1[CHUNK..CHUNK * 2], f.b1[..CHUNK * 2], garbage);
    if !passed {
      return;
    }
    RunUnfold(d.store, Writes(f), 2, 5);
    passed := SetAndCheckVariable(d, f.v2, 0, f.b2[..CHUNK], f.b2[..CHUNK], garbage);
    if !passed {
      return;
    }
    RunUnfold(d.store, Writes(f), 3, 5);
    passed := SetAndCheckVariable(d, f.v1, APPEND_WRITE, f.b1[CHUNK * 2..CHUNK * 4], f.b1[..CHUNK * 4], garbage);
    if !passed {
      return;
    }
    RunUnfold(d.store, Writes(f), 4, 5);
    passed := SetAndCheckVariable(d, f.v1, 0, f.b1[..CHUNK * 3], f.b1[..CHUNK * 3], garbage);
    RunEnd(d.store, Writes(f), 5);
  }

  /** The remaining writes, and the flag. */
  method RunLastWrites(d: Driver, f: Fixture, garbage: Guid) returns (passed: bool)
    requires Good(f) && Rt.Ready(d) && Enumeration.Listable(d.store)
    modifies d, d.mVariableParamMem, d.mVariableResultMem
    ensures Rt.Ready(d) && Enumeration.Listable(d.store)
    ensures (d.store, passed) == RunFrom(old(d.store), Writes(f), 5, 10)
  {
    WritesAre(f);
    hide Writes, RunFrom, VariableStore.Valid, VariableStore.Set, Reads;
    RunUnfold(d.store, Writes(f), 5, 10);
    passed := DeleteAndCheckVariable(d, f.v2, garbage);
    if !passed {
      return;
    }
    RunUnfold(d.store, Writes(f), 6, 10);
    passed := SetAndCheckVariable(d, f.v3, 0, f.b3[..CHUNK], f.b3[..CHUNK], garbage);
    if !passed {
      return;
    }
    RunUnfold(d.store, Writes(f), 7, 10);
    passed := SetAndCheckVariable(d, f.v1, APPEND_WRITE, f.b1[CHUNK * 3..CHUNK * 4], f.b1[..CHUNK * 4], garbage);
    if !passed {
      return;
    }
    RunUnfold(d.store, Writes(f), 8, 10);
    passed := SetAndCheckVariable(d, f.v2, 0, f.b2[..CHUNK], f.b2[..CHUNK], garbage);
    if !passed {
      return;
    }
    RunUnfold(d.store, Writes(f), 9, 10);
    passed := RaiseFlag(d, f.flag);
    RunEnd(d.store, Writes(f), 10);
  }

  method RaiseFlag(d: Driver, flag: VarName) returns (passed: bool)
    requires Rt.Ready(d) && Enumeration.Listable(d.store) && Plain(flag)
    modifies d, d.mVariableParamMem, d.mVariableResultMem
    ensures Rt.Ready(d) && Enumeration.Listable(d.store)
    ensures (d.store, passed) == Exec(old(d.store), Raise(flag, [1]))
  {
    var status := SetPlain(d, flag, BASE_ATTRIBUTES, [1]);
    passed := status == EfiSuccess;
  }

  /** The writes made in every run. */
  method RunWrites(d: Driver, f: Fixture, garbage: Guid) returns (passed: bool)
    requires Good(f) && Rt.Ready(d) && Enumeration.Listable(d.store)
    modifies d, d.mVariableParamMem, d.mVariableResultMem
    ensures Rt.Ready(d) && Enumeration.Listable(d.store)
    ensures (d.store, passed) == RunFrom(old(d.store), Writes(f), 0, 10)
  {
    hide Exec, Writes, RunFrom, VariableStore.Valid;
    RunSplit(d.store, Writes(f), 0, 5, 10);
    passed := RunFirstWrites(d, f, garbage);
    if passed {
      passed := RunLastWrites(d, f, garbage);
    }
  }
}
