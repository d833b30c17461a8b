/** Many clients on Windows that each hold a shared lock and wait for its upgrade, on ranges that may
overlap in any way.

The asynchronous request machine is put on top of the kernel's lock table. The worker of a request
first gives up the shared lock and then waits for the exclusive one; the file is closed once the
callback has run.
*/
module UpgradeWaiters {
  import opened Basics
  import opened RwLock
  import opened WaiterWork
  import A = AsyncLock
  import W = WindowsLocks

  /** Request `q` upgrades the lock on its own range through its own handle `q`; `unlocked` names the
      requests whose worker has given up the shared lock. */
  datatype State = State(
    native: A.State, kernel: W.State, ranges: nat -> W.Range, todo: nat, unlocked: set<nat>, closed: set<nat>)

  datatype Label = Native(l: A.Label) | GiveUp(q: nat) | CloseFile(q: nat)

  function KeyOf(s: State, q: nat): W.Key {
    W.Key(q, s.ranges(q))
  }

  /** The handles below `n`, and no others, hold one shared lock each. */
  predicate AllShare(clients: map<W.Key, W.Phase>, ranges: nat -> W.Range, n: nat) {
    && (forall k :: k in clients ==> k.h < n && k == W.Key(k.h, ranges(k.h)) && clients[k] == W.Held(Shared))
    && (forall q: nat :: q < n ==> W.Key(q, ranges(q)) in clients)
  }

  /** The kernel is in any state it can be in when exactly these clients hold a shared lock each. */
  ghost predicate Init(s: State, n: nat) {
    && s.native == A.INIT && s.todo == n && s.unlocked == {} && s.closed == {}
    && W.Inv(s.kernel) && AllShare(s.kernel.clients, s.ranges, n)
  }

  /** In a state where all clients hold a shared lock, one more can have one on any range. */
  lemma OneMoreShared(k: W.State, c: W.Key, ranges: nat -> W.Range)
    requires W.Inv(k) && AllShare(k.clients, ranges, c.h) && c.r == ranges(c.h)
    ensures W.Enabled(k, W.TryLock(c, Shared))
    ensures AllShare(W.Step(k, W.TryLock(c, Shared)).clients, ranges, c.h + 1)
  {
    forall e | e in k.table ensures e.m != Exclusive {
      assert k.table[e] > 0;
    }
  }

  lemma RunAndStep(ks: seq<W.State>, ls: seq<W.Label>, l: W.Label)
    requires W.Run(ks, ls) && W.Enabled(ks[|ls|], l)
    ensures W.Run(ks + [W.Step(ks[|ls|], l)], ls + [l])
  {
    hide W.Step, W.Enabled;
  }

  /** Any number of clients on any ranges come to such a state by taking their shared locks. */
  lemma {:induction false} SomeRunStarts(ranges: nat -> W.Range, n: nat) returns (ks: seq<W.State>, ls: seq<W.Label>)
    ensures W.Run(ks, ls) && W.Inv(ks[|ls|]) && AllShare(ks[|ls|].clients, ranges, n)
    ensures Init(State(A.INIT, ks[|ls|], ranges, n, {}, {}), n)
  {
    if n == 0 {
      ks, ls := [W.State(multiset{}, map[])], [];
    } else {
      ks, ls := SomeRunStarts(ranges, n - 1);
      assert |ks| == |ls| + 1;
      hide W.Inv, W.Step, W.Enabled, W.Run, AllShare;
      var k, c := ks[|ls|], W.Key(n - 1, ranges(n - 1));
      OneMoreShared(k, c, ranges);
      RunAndStep(ks, ls, W.TryLock(c, Shared));
      W.StepKeepsInv(k, W.TryLock(c, Shared));
      ks, ls := ks + [W.Step(k, W.TryLock(c, Shared))], ls + [W.TryLock(c, Shared)];
    }
  }

  /** What a step does in the kernel, if anything. */
  function Kernel(s: State, l: Label): Option<W.Label> {
    match l
    case GiveUp(q) => Some(W.UpgradeUnlock(KeyOf(s, q), true))
    case CloseFile(q) => Some(W.Close(q))
    case Native(m) => if m.LockReturns? then Some(W.UpgradeLock(KeyOf(s, m.q))) else None
  }

  /** The environment is not torn down, and lock calls do not fail. */
  predicate Enabled(s: State, l: Label) {
    && (Kernel(s, l).Some? ==> W.Enabled(s.kernel, Kernel(s, l).value))
    && match l
       case Native(m) =>
         && A.Enabled(s.native, m) && !m.Teardown?
         && (m.Call? ==> s.todo > 0)
         && (m.LockReturns? ==> m.value == 0 && m.q in s.unlocked)
       case GiveUp(q) => q < |s.native.reqs| && s.native.reqs[q].worker == A.Blocked && q !in s.unlocked
       case CloseFile(q) =>
         s.native.stack == [] && q < |s.native.reqs| && s.native.reqs[q].jsCalls == 1 && q !in s.closed
  }

  ghost function Step(s: State, l: Label): State
    requires Enabled(s, l)
  {
    var kernel := if Kernel(s, l).Some? then W.Step(s.kernel, Kernel(s, l).value) else s.kernel;
    match l
    case Native(m) =>
      s.(native := A.Step(s.native, m), kernel := kernel, todo := if m.Call? then s.todo - 1 else s.todo)
    case GiveUp(q) => s.(kernel := kernel, unlocked := s.unlocked + {q})
    case CloseFile(q) => s.(kernel := kernel, closed := s.closed + {q})
  }

  predicate Upgraded(s: State, q: nat) {
    q < |s.native.reqs| && s.native.reqs[q].returned.Some? && q !in s.closed
  }

  /** Where the kernel's client of request `q` stands: gone, or holding or waiting as the request says. */
  predicate KernelAgrees(s: State, q: nat) {
    var k := KeyOf(s, q);
    && (k in s.kernel.clients <==> q < s.todo + |s.native.reqs| && q !in s.closed)
    && (k in s.kernel.clients ==>
          s.kernel.clients[k] ==
            if Upgraded(s, q) then W.Held(Exclusive) else if q in s.unlocked then W.Upgrading(true) else W.Held(Shared))
  }

  /** A request that has not been torn down, whose worker has given up the shared lock before its lock
      call returned, with success, and whose file is closed only after its callback. */
  predicate ClientInv(s: State, q: nat) {
    && (q in s.closed ==> q < |s.native.reqs| && s.native.reqs[q].jsCalls == 1)
    && (q in s.unlocked ==> q < |s.native.reqs|)
    && (q < |s.native.reqs| ==>
          && !s.native.reqs[q].flagged
          && (s.native.reqs[q].returned.Some? ==> s.native.reqs[q].returned.value == 0 && q in s.unlocked))
  }

  ghost predicate Inv(s: State) {
    && A.Inv(s.native) && W.Inv(s.kernel)
    && (forall k :: k in s.kernel.clients ==> k == KeyOf(s, k.h))
    && forall q :: KernelAgrees(s, q) && ClientInv(s, q)
  }

  /** What a native step changes for the clients. */
  lemma NativeRequest(s: State, m: A.Label, q: nat)
    requires Inv(s) && Enabled(s, Native(m)) && q < |A.Step(s.native, m).reqs|
    ensures var r := A.Step(s.native, m).reqs[q];
      && !r.flagged && r.jsCalls <= 1
      && if q < |s.native.reqs| then
           && r.jsCalls >= s.native.reqs[q].jsCalls
           && r.returned == (if m.LockReturns? && m.q == q then Some(0) else s.native.reqs[q].returned)
         else r.returned == None
  {
    hide A.Step, A.Inv, A.Enabled, KernelAgrees, W.Inv, Kernel, W.Enabled;
    assert q < |s.native.reqs| ==> ClientInv(s, q);
    NativeFrame(s.native, m, q);
    A.StepKeepsInv(s.native, m);
    CalledAtMostOnce(A.Step(s.native, m), q);
  }

  /** What a kernel step does to the clients. */
  lemma KernelEffect(k: W.State, c: W.Key)
    ensures W.Enabled(k, W.UpgradeUnlock(c, true)) ==>
      W.Step(k, W.UpgradeUnlock(c, true)).clients == k.clients[c := W.Upgrading(true)]
    ensures W.Enabled(k, W.UpgradeLock(c)) && k.clients[c] == W.Upgrading(true) ==>
      W.Step(k, W.UpgradeLock(c)).clients == k.clients[c := W.Held(Exclusive)]
    ensures W.Enabled(k, W.Close(c.h)) ==>
      W.Step(k, W.Close(c.h)).clients == map d | d in k.clients && d.h != c.h :: k.clients[d]
  {
    hide W.Denied, W.Unlocked, W.Dropped, W.Locked;
  }

  lemma NativeKeepsInv(s: State, m: A.Label)
    requires Inv(s) && Enabled(s, Native(m))
    ensures Inv(Step(s, Native(m)))
  {
    hide A.Step, A.Inv, A.Enabled, W.Step, W.Enabled, W.Inv;
    var t := Step(s, Native(m));
    A.StepKeepsInv(s.native, m);
    NativeSize(s.native, m);
    if m.LockReturns? {
      W.StepKeepsInv(s.kernel, W.UpgradeLock(KeyOf(s, m.q)));
      assert KernelAgrees(s, m.q) && ClientInv(s, m.q);
      CalledAtMostOnce(s.native, m.q);
      KernelEffect(s.kernel, KeyOf(s, m.q));
    }
    forall q: nat ensures KernelAgrees(t, q) && ClientInv(t, q) {
      assert KernelAgrees(s, q) && ClientInv(s, q);
      if q < |t.native.reqs| { NativeRequest(s, m, q); }
    }
  }

  lemma KernelKeepsInv(s: State, l: Label)
    requires Inv(s) && Enabled(s, l) && !l.Native?
    ensures Inv(Step(s, l))
  {
    hide A.Step, A.Inv, A.Enabled, W.Step, W.Enabled, W.Inv;
    var t := Step(s, l);
    W.StepKeepsInv(s.kernel, Kernel(s, l).value);
    KernelEffect(s.kernel, KeyOf(s, l.q));
    assert KernelAgrees(s, l.q) && ClientInv(s, l.q);
    if l.GiveUp? { CalledAtMostOnce(s.native, l.q); }
    forall q: nat ensures KernelAgrees(t, q) && ClientInv(t, q) {
      assert KernelAgrees(s, q) && ClientInv(s, q);
    }
  }

  lemma StepKeepsInv(s: State, l: Label)
    requires Inv(s) && Enabled(s, l)
    ensures Inv(Step(s, l))
  {
    hide *;
    if l.Native? { NativeKeepsInv(s, l.l); } else { KernelKeepsInv(s, l); }
  }

  // ---- Every step brings the end closer ----

  const WORK_PER_REQUEST := 48

  /** Giving up the shared lock is one more step, and closing the file another. */
  function OwnSteps(unlocked: set<nat>, closed: set<nat>): nat -> nat {
    (q: nat) => (if q in unlocked then 0 else 1) + if q in closed then 0 else 1
  }

  function Measure(s: State): nat {
    s.todo * WORK_PER_REQUEST + TotalWork(s.native.reqs, OwnSteps(s.unlocked, s.closed), |s.native.reqs|)
  }

  lemma NativeShrinksMeasure(s: State, m: A.Label)
    requires Inv(s) && Enabled(s, Native(m)) && !m.Call?
    ensures Measure(Step(s, Native(m))) < Measure(s)
  {
    hide A.Step, A.Inv, A.Enabled, KernelAgrees, W.Inv, WorkerWork, LoopWork, Kernel, W.Step, W.Enabled;
    var t, extra := Step(s, Native(m)), OwnSteps(s.unlocked, s.closed);
    NativeStepWorks(s.native, m);
    WorkChange(s.native.reqs, extra, t.native.reqs, extra, |s.native.reqs|, m.q);
  }

  lemma CallShrinksMeasure(s: State, m: A.Label)
    requires Inv(s) && Enabled(s, Native(m)) && m.Call?
    ensures Measure(Step(s, Native(m))) < Measure(s)
  {
    hide A.Inv, A.Enabled, KernelAgrees, W.Inv, Kernel, W.Step, W.Enabled;
    var t, n, extra := Step(s, Native(m)), |s.native.reqs|, OwnSteps(s.unlocked, s.closed);
    WorkChange(s.native.reqs, extra, t.native.reqs, extra, n, n);
    assert Work(t.native.reqs[n], extra(n)) <= 47;
  }

  lemma OwnStepShrinksMeasure(s: State, l: Label)
    requires Inv(s) && Enabled(s, l) && !l.Native?
    ensures Measure(Step(s, l)) < Measure(s)
  {
    hide A.Inv, KernelAgrees, W.Inv, WorkerWork, LoopWork, W.Step, W.Enabled;
    var t := Step(s, l);
    WorkChange(s.native.reqs, OwnSteps(s.unlocked, s.closed), s.native.reqs, OwnSteps(t.unlocked, t.closed),
               |s.native.reqs|, l.q);
  }

  lemma StepShrinksMeasure(s: State, l: Label)
    requires Inv(s) && Enabled(s, l)
    ensures Measure(Step(s, l)) < Measure(s)
  {
    hide *;
    if !l.Native? { OwnStepShrinksMeasure(s, l); }
    else if l.l.Call? { CallShrinksMeasure(s, l.l); }
    else { NativeShrinksMeasure(s, l.l); }
  }

  // ---- Something can always be done until everyone has been served ----

  ghost predicate Served(s: State) {
    && s.todo == 0 && s.native.stack == []
    && forall q :: 0 <= q < |s.native.reqs| ==> q in s.closed
  }

  /** A client with its exclusive lock can always go on. */
  lemma UpgradedCanStep(s: State, q: nat) returns (l: Label)
    requires Inv(s) && s.native.stack == [] && Upgraded(s, q)
    ensures Enabled(s, l)
  {
    hide A.Inv, A.Enabled, W.Inv;
    assert ClientInv(s, q) && KernelAgrees(s, q);
    ParkedRequest(s.native, q);
    if s.native.reqs[q].calls == 0 {
      var m := ReturnedCanStep(s.native, q);
      l := Native(m);
    } else {
      l := CloseFile(q);
    }
  }

  /** A client that still has its shared lock can give it up. */
  lemma SharedCanStep(s: State, q: nat) returns (l: Label)
    requires Inv(s) && s.native.stack == [] && q < |s.native.reqs|
    requires s.native.reqs[q].returned == None && q !in s.unlocked
    ensures Enabled(s, l)
  {
    hide A.Inv, W.Inv;
    assert ClientInv(s, q) && KernelAgrees(s, q);
    ParkedRequest(s.native, q);
    W.HeldIsLocked(s.kernel, KeyOf(s, q));
    l := GiveUp(q);
  }

  /** A refused upgrade is refused because of a client that has not given up its shared lock or has its
      exclusive one. */
  lemma BlockerCanStep(s: State, q: nat) returns (l: Label)
    requires Inv(s) && s.native.stack == [] && s.todo == 0
    requires W.Denied(s.kernel.table, q, s.ranges(q), Exclusive)
    ensures Enabled(s, l)
  {
    var k := W.BlockerIsNotWaiting(s.kernel, q, s.ranges(q), Exclusive);
    hide A.Inv, W.Inv, Enabled, W.Enabled;
    assert k == KeyOf(s, k.h) && KernelAgrees(s, k.h) && ClientInv(s, k.h);
    if Upgraded(s, k.h) {
      l := UpgradedCanStep(s, k.h);
    } else {
      l := SharedCanStep(s, k.h);
    }
  }

  lemma UnservedCanStep(s: State, q: nat) returns (l: Label)
    requires Inv(s) && s.native.stack == [] && s.todo == 0 && q < |s.native.reqs| && q !in s.closed
    ensures Enabled(s, l)
  {
    hide A.Inv, W.Inv, W.Denied;
    assert ClientInv(s, q) && KernelAgrees(s, q);
    if s.native.reqs[q].returned.Some? {
      l := UpgradedCanStep(s, q);
    } else if q !in s.unlocked {
      l := SharedCanStep(s, q);
    } else if W.Denied(s.kernel.table, q, s.ranges(q), Exclusive) {
      l := BlockerCanStep(s, q);
    } else {
      ParkedRequest(s.native, q);
      l := Native(A.LockReturns(q, 0));
    }
  }

  lemma SomeoneCanStep(s: State) returns (l: Label)
    requires Inv(s) && !Served(s)
    ensures Enabled(s, l)
  {
    if s.native.stack != [] {
      var m := TopCanStep(s.native);
      l := Native(m);
    } else if s.todo > 0 {
      l := Native(A.Call(0, false));
    } else {
      var q :| 0 <= q < |s.native.reqs| && q !in s.closed;
      l := UnservedCanStep(s, q);
    }
  }

  ghost predicate Run(ss: seq<State>, ls: seq<Label>, n: nat) {
    && |ss| == |ls| + 1
    && Init(ss[0], n)
    && forall i :: 0 <= i < |ls| ==> Enabled(ss[i], ls[i]) && ss[i + 1] == Step(ss[i], ls[i])
  }

  lemma InitInv(s: State, n: nat)
    requires Init(s, n)
    ensures Inv(s) && Measure(s) == n * WORK_PER_REQUEST && s.todo + |s.native.reqs| == n
  {
    hide W.Inv;
  }

  lemma StepCounts(s: State, l: Label)
    requires Enabled(s, l)
    ensures Step(s, l).todo + |Step(s, l).native.reqs| == s.todo + |s.native.reqs|
  {
    hide A.Step, A.Enabled, W.Step, W.Enabled;
    if l.Native? { NativeSize(s.native, l.l); }
  }

  lemma {:induction false} RunKeepsInv(ss: seq<State>, ls: seq<Label>, n: nat, i: nat)
    requires Run(ss, ls, n) && i < |ss|
    ensures Inv(ss[i])
    ensures i + Measure(ss[i]) <= n * WORK_PER_REQUEST
    ensures ss[i].todo + |ss[i].native.reqs| == n
  {
    hide Inv, Step, Enabled, Init, Measure;
    if i == 0 {
      InitInv(ss[0], n);
    } else {
      RunKeepsInv(ss, ls, n, i - 1);
      StepKeepsInv(ss[i - 1], ls[i - 1]);
      StepShrinksMeasure(ss[i - 1], ls[i - 1]);
      StepCounts(ss[i - 1], ls[i - 1]);
    }
  }

  /** While a client has its exclusive lock, no other client has one on a range that overlaps. */
  lemma UpgradedAreApart(ss: seq<State>, ls: seq<Label>, n: nat, i: nat, o: nat, p: nat)
    requires Run(ss, ls, n) && i < |ss| && o != p && Upgraded(ss[i], o) && Upgraded(ss[i], p)
    ensures !W.Overlap(ss[i].ranges(o), ss[i].ranges(p))
  {
    RunKeepsInv(ss, ls, n, i);
    hide A.Inv, W.Inv, Run;
    var s := ss[i];
    assert KernelAgrees(s, o) && KernelAgrees(s, p);
    W.ExclusivesAreApart(s.kernel, KeyOf(s, o), KeyOf(s, p));
  }

  /** JavaScript has been told once that the upgrade succeeded. */
  predicate ToldOnce(r: A.Req) {
    r.calls == 1 && r.jsCalls == 1 && r.delivered == Some(0)
  }

  lemma ServedClient(s: State, q: nat)
    requires Inv(s) && Served(s)
    ensures q < |s.native.reqs| ==> ToldOnce(s.native.reqs[q])
    ensures KeyOf(s, q) !in s.kernel.clients
  {
    hide W.Inv, A.StackInv;
    assert ClientInv(s, q) && KernelAgrees(s, q);
    if q < |s.native.reqs| {
      CalledAtMostOnce(s.native, q);
      assert A.ReqInv(s.native.reqs[q]);
    }
  }

  lemma NoClientsNoLocks(k: W.State)
    requires W.Inv(k) && forall c :: c !in k.clients
    ensures k.table == multiset{}
  {
    assert forall e :: k.table[e] == 0;
  }

  lemma ServedLeavesNothing(s: State)
    requires Inv(s) && Served(s)
    ensures s.todo == 0 && s.kernel.table == multiset{}
    ensures forall q :: 0 <= q < |s.native.reqs| ==> ToldOnce(s.native.reqs[q])
  {
    forall c ensures c !in s.kernel.clients {
      ServedClient(s, c.h);
    }
    NoClientsNoLocks(s.kernel);
    assert s.todo == 0;
    hide Inv, ToldOnce;
    forall q | 0 <= q < |s.native.reqs| ensures ToldOnce(s.native.reqs[q]) {
      ServedClient(s, q);
    }
  }

  /** However the ranges of `n` shared holders overlap, no run of their upgrades is longer than 48 steps
      a client, and a run that cannot be continued has told every client exactly once that it has its
      exclusive lock, and left no lock. */
  lemma EveryUpgradeIsServed(ss: seq<State>, ls: seq<Label>, n: nat)
    requires Run(ss, ls, n)
    ensures |ls| <= 48 * n
    ensures (forall l :: !Enabled(ss[|ls|], l)) ==>
      var t := ss[|ls|];
      |t.native.reqs| == n && t.kernel.table == multiset{} && forall q :: 0 <= q < n ==> ToldOnce(t.native.reqs[q])
  {
    RunKeepsInv(ss, ls, n, |ls|);
    assert Measure(ss[|ls|]) >= 0;
    hide Inv, Enabled, Step, Measure, Served, ToldOnce;
    if Served(ss[|ls|]) {
      ServedLeavesNothing(ss[|ls|]);
    } else {
      var l := SomeoneCanStep(ss[|ls|]);
    }
  }
}
