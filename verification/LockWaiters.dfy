/** Many clients on Linux, each waiting for an exclusive lock and closing its file once its callback has
run.

The asynchronous request machine is put on top of the kernel's lock table: a worker that starts
waits in the kernel, its lock call returns when the kernel grants the request, and closing the file
drops the lock. Ranges may overlap in any way; in the repository's own test they are all the same.
*/
module LockWaiters {
  import opened Basics
  import opened RwLock
  import opened WaiterWork
  import A = AsyncLock
  import O = OfdLocks

  /** `todo` requests are still to be made; request `q` locks its own range through its own handle `q`;
      `closed` names the files that have been closed. */
  datatype State = State(native: A.State, kernel: O.State, ranges: nat -> O.Range, todo: nat, closed: set<nat>)

  datatype Label = Native(l: A.Label) | CloseFile(q: nat)

  ghost predicate Init(s: State, n: nat) {
    && s.native == A.INIT && s.todo == n && s.closed == {}
    && s.kernel.waiting == map[] && forall o, b :: s.kernel.table(o, b) == Free
  }

  function RequestOf(s: State, q: nat): O.Request {
    O.Request(q, s.ranges(q), Exclusive)
  }

  /** What a step does in the kernel, if anything. */
  function Kernel(s: State, l: Label): Option<O.Label> {
    match l
    case CloseFile(q) => Some(O.Close(q))
    case Native(m) =>
      if m.LockReturns? then Some(O.Grant(m.q))
      else if m.Loop? && Starts(s.native, m, m.q) then Some(O.WaitForLock(m.q, RequestOf(s, m.q)))
      else None
  }

  /** The environment is not torn down, and lock calls do not fail. */
  ghost predicate Enabled(s: State, l: Label) {
    && (Kernel(s, l).Some? ==> O.Enabled(s.kernel, Kernel(s, l).value))
    && match l
       case Native(m) =>
         && A.Enabled(s.native, m) && !m.Teardown?
         && (m.Call? ==> s.todo > 0)
         && (m.LockReturns? ==> m.value == 0)
       case CloseFile(q) =>
         s.native.stack == [] && q < |s.native.reqs| && s.native.reqs[q].jsCalls == 1 && q !in s.closed
  }

  ghost function Step(s: State, l: Label): State
    requires Enabled(s, l)
  {
    var kernel := if Kernel(s, l).Some? then O.Step(s.kernel, Kernel(s, l).value) else s.kernel;
    match l
    case Native(m) =>
      s.(native := A.Step(s.native, m), kernel := kernel, todo := if m.Call? then s.todo - 1 else s.todo)
    case CloseFile(q) => s.(kernel := kernel, closed := s.closed + {q})
  }

  predicate Holder(s: State, q: nat) {
    q < |s.native.reqs| && s.native.reqs[q].returned.Some? && q !in s.closed
  }

  /** The kernel's view and the request's view of whether `q` waits and what it holds are the same. */
  ghost predicate KernelAgrees(s: State, q: nat) {
    && (q in s.kernel.waiting <==> q < |s.native.reqs| && s.native.reqs[q].worker == A.Blocked)
    && (q in s.kernel.waiting ==> s.kernel.waiting[q] == RequestOf(s, q))
    && HoldsExactly(s.kernel, q, if Holder(s, q) then Some(s.ranges(q)) else None)
  }

  /** The handle holds exactly this range, exclusively, or nothing. */
  ghost predicate HoldsExactly(k: O.State, h: nat, r: Option<O.Range>) {
    forall b :: k.table(h, b) == if r.Some? && O.Covers(r.value, b) then Exclusive else Free
  }

  ghost predicate KernelSafe(k: O.State) {
    forall b :: Safe(O.HoldersAt(k.table, b))
  }

  /** A request that has not been torn down, whose lock call has not failed, and whose file is closed
      only after its callback. */
  predicate ClientInv(s: State, q: nat) {
    && (q in s.closed ==> q < |s.native.reqs| && s.native.reqs[q].jsCalls == 1)
    && (q < |s.native.reqs| ==>
          !s.native.reqs[q].flagged && (s.native.reqs[q].returned.Some? ==> s.native.reqs[q].returned.value == 0))
  }

  ghost predicate Inv(s: State) {
    A.Inv(s.native) && KernelSafe(s.kernel) && forall q :: KernelAgrees(s, q) && ClientInv(s, q)
  }

  lemma KernelStepKeepsSafe(k: O.State, l: O.Label)
    requires O.Enabled(k, l) && KernelSafe(k)
    ensures KernelSafe(O.Step(k, l))
  {
    hide O.Step, O.Enabled, Safe, Does, O.OpAt;
    forall b: nat ensures Safe(O.HoldersAt(O.Step(k, l).table, b)) {
      O.StepRefines(k, l, b);
      DoesKeepsSafe(O.HoldersAt(k.table, b), O.Handle(k, l), O.OpAt(k, l, b), O.HoldersAt(O.Step(k, l).table, b));
    }
  }

  /** What a native step changes for the clients. */
  lemma NativeRequest(s: State, m: A.Label, q: nat)
    requires Inv(s) && Enabled(s, Native(m)) && q < |A.Step(s.native, m).reqs|
    ensures var r := A.Step(s.native, m).reqs[q];
      && !r.flagged && r.jsCalls <= 1 && (r.jsCalls == 1 ==> r.returned.Some?)
      && if q < |s.native.reqs| then
           && r.jsCalls >= s.native.reqs[q].jsCalls
           && r.returned == (if m.LockReturns? && m.q == q then Some(0) else s.native.reqs[q].returned)
           && (r.worker == A.Blocked <==>
                 Starts(s.native, m, q) || (s.native.reqs[q].worker == A.Blocked && !(m.LockReturns? && m.q == q)))
         else r.returned == None && r.worker != A.Blocked
  {
    hide A.Step, A.Inv, A.Enabled, KernelAgrees, KernelSafe, Kernel;
    assert q < |s.native.reqs| ==> ClientInv(s, q);
    NativeFrame(s.native, m, q);
    A.StepKeepsInv(s.native, m);
    CalledAtMostOnce(A.Step(s.native, m), q);
  }

  /** What the two kernel steps of a request change. */
  lemma WaitEffect(k: O.State, q: nat, req: O.Request)
    requires O.Enabled(k, O.WaitForLock(q, req))
    ensures var t := O.Step(k, O.WaitForLock(q, req)); t.table == k.table && t.waiting == k.waiting[q := req]
  {
  }

  lemma GrantEffect(k: O.State, q: nat, r: O.Range)
    requires O.Enabled(k, O.Grant(q)) && k.waiting[q] == O.Request(q, r, Exclusive) && HoldsExactly(k, q, None)
    ensures var t := O.Step(k, O.Grant(q)); HoldsExactly(t, q, Some(r)) && t.waiting == k.waiting - {q}
  {
    hide O.Covers, O.Grantable;
  }

  lemma CloseEffect(k: O.State, q: nat)
    requires O.Enabled(k, O.Close(q))
    ensures var t := O.Step(k, O.Close(q)); HoldsExactly(t, q, None) && t.waiting == k.waiting
  {
    assert forall b :: O.Covers(O.Range(0, 0), b);
  }

  /** A kernel step of another handle is nothing to a client. */
  lemma OtherEffect(k: O.State, l: O.Label, q: nat, r: Option<O.Range>)
    requires O.Enabled(k, l) && O.Handle(k, l) != q && l != O.Grant(q) && HoldsExactly(k, q, r)
    ensures HoldsExactly(O.Step(k, l), q, r)
  {
    O.StepFrame(k, l, q, q);
    hide O.Step, O.Enabled, O.Handle, O.Covers;
  }

  lemma NativeKeepsAgreement(s: State, m: A.Label, q: nat)
    requires Inv(s) && Enabled(s, Native(m))
    ensures KernelAgrees(Step(s, Native(m)), q)
  {
    hide A.Step, A.Inv, A.Enabled, KernelSafe, O.Step, O.Enabled, HoldsExactly;
    var t, k := Step(s, Native(m)), s.kernel;
    assert KernelAgrees(s, q) && ClientInv(s, q);
    NativeSize(s.native, m);
    if q < |t.native.reqs| { NativeRequest(s, m, q); }
    if m.LockReturns? {
      assert KernelAgrees(s, m.q) && ClientInv(s, m.q);
      CalledAtMostOnce(s.native, m.q);
      GrantEffect(k, m.q, s.ranges(m.q));
      if q != m.q { OtherEffect(k, O.Grant(m.q), q, if Holder(s, q) then Some(s.ranges(q)) else None); }
    } else if m.Loop? && Starts(s.native, m, m.q) {
      assert KernelAgrees(s, m.q);
      WaitEffect(k, m.q, RequestOf(s, m.q));
      HoldsByTable(k, t.kernel, q, if Holder(s, q) then Some(s.ranges(q)) else None);
    }
  }

  lemma HoldsByTable(k: O.State, t: O.State, q: nat, r: Option<O.Range>)
    requires t.table == k.table && HoldsExactly(k, q, r)
    ensures HoldsExactly(t, q, r)
  {
  }

  lemma NativeKeepsInv(s: State, m: A.Label)
    requires Inv(s) && Enabled(s, Native(m))
    ensures Inv(Step(s, Native(m)))
  {
    hide A.Step, A.Inv, A.Enabled, KernelSafe, O.Step, O.Enabled, KernelAgrees;
    var t := Step(s, Native(m));
    A.StepKeepsInv(s.native, m);
    NativeSize(s.native, m);
    if Kernel(s, Native(m)).Some? { KernelStepKeepsSafe(s.kernel, Kernel(s, Native(m)).value); }
    forall q: nat ensures KernelAgrees(t, q) && ClientInv(t, q) {
      NativeKeepsAgreement(s, m, q);
      assert ClientInv(s, q);
      if q < |t.native.reqs| { NativeRequest(s, m, q); }
    }
  }

  lemma CloseKeepsInv(s: State, q: nat)
    requires Inv(s) && Enabled(s, CloseFile(q))
    ensures Inv(Step(s, CloseFile(q)))
  {
    hide A.Step, A.Inv, A.Enabled, KernelSafe, O.Step, O.Enabled, HoldsExactly;
    var t := Step(s, CloseFile(q));
    KernelStepKeepsSafe(s.kernel, O.Close(q));
    CloseEffect(s.kernel, q);
    forall p: nat ensures KernelAgrees(t, p) && ClientInv(t, p) {
      assert KernelAgrees(s, p) && ClientInv(s, p);
      if p != q { OtherEffect(s.kernel, O.Close(q), p, if Holder(s, p) then Some(s.ranges(p)) else None); }
    }
  }

  lemma StepKeepsInv(s: State, l: Label)
    requires Inv(s) && Enabled(s, l)
    ensures Inv(Step(s, l))
  {
    hide *;
    match l
    case Native(m) => NativeKeepsInv(s, m);
    case CloseFile(q) => CloseKeepsInv(s, q);
  }

  // ---- Every step brings the end closer ----

  const WORK_PER_REQUEST := 47

  /** Closing the file is one more step. */
  function ToClose(closed: set<nat>): nat -> nat {
    (q: nat) => if q in closed then 0 else 1
  }

  function Measure(s: State): nat {
    s.todo * WORK_PER_REQUEST + TotalWork(s.native.reqs, ToClose(s.closed), |s.native.reqs|)
  }

  lemma NativeShrinksMeasure(s: State, m: A.Label)
    requires Inv(s) && Enabled(s, Native(m)) && !m.Call?
    ensures Measure(Step(s, Native(m))) < Measure(s)
  {
    hide A.Step, A.Inv, A.Enabled, KernelAgrees, WorkerWork, LoopWork, Kernel, O.Step, O.Enabled;
    var t := Step(s, Native(m));
    NativeStepWorks(s.native, m);
    WorkChange(s.native.reqs, ToClose(s.closed), t.native.reqs, ToClose(t.closed), |s.native.reqs|, m.q);
  }

  lemma CallShrinksMeasure(s: State, m: A.Label)
    requires Inv(s) && Enabled(s, Native(m)) && m.Call?
    ensures Measure(Step(s, Native(m))) < Measure(s)
  {
    hide A.Inv, A.Enabled, KernelAgrees, Kernel, O.Step, O.Enabled;
    var t, n := Step(s, Native(m)), |s.native.reqs|;
    WorkChange(s.native.reqs, ToClose(s.closed), t.native.reqs, ToClose(t.closed), n, n);
    assert Work(t.native.reqs[n], ToClose(t.closed)(n)) <= 46;
  }

  lemma CloseShrinksMeasure(s: State, q: nat)
    requires Inv(s) && Enabled(s, CloseFile(q))
    ensures Measure(Step(s, CloseFile(q))) < Measure(s)
  {
    hide A.Inv, KernelAgrees, WorkerWork, LoopWork, O.Step, O.Enabled;
    WorkChange(s.native.reqs, ToClose(s.closed), s.native.reqs, ToClose(s.closed + {q}), |s.native.reqs|, q);
  }

  lemma StepShrinksMeasure(s: State, l: Label)
    requires Inv(s) && Enabled(s, l)
    ensures Measure(Step(s, l)) < Measure(s)
  {
    hide *;
    match l
    case CloseFile(q) => CloseShrinksMeasure(s, q);
    case Native(m) => if m.Call? { CallShrinksMeasure(s, m); } else { NativeShrinksMeasure(s, m); }
  }

  // ---- Something can always be done until everyone has been served ----

  ghost predicate Served(s: State) {
    && s.todo == 0 && s.native.stack == []
    && forall q :: 0 <= q < |s.native.reqs| ==> q in s.closed
  }

  /** A client that holds its lock can always go on. */
  lemma HolderCanStep(s: State, q: nat) returns (l: Label)
    requires Inv(s) && s.native.stack == [] && Holder(s, q)
    ensures Enabled(s, l)
  {
    hide A.Inv, A.Enabled, KernelSafe, HoldsExactly;
    assert ClientInv(s, q) && KernelAgrees(s, q);
    ParkedRequest(s.native, q);
    if s.native.reqs[q].calls == 0 {
      var m := ReturnedCanStep(s.native, q);
      l := Native(m);
    } else {
      l := CloseFile(q);
      forall id | id in s.kernel.waiting ensures s.kernel.waiting[id].h != q {
        assert KernelAgrees(s, id);
      }
    }
  }

  lemma BusyCanStep(s: State) returns (l: Label)
    requires Inv(s) && s.native.stack != []
    ensures Enabled(s, l)
  {
    var m := TopCanStep(s.native);
    hide A.Inv, A.Enabled, KernelSafe, HoldsExactly;
    l := Native(m);
    if m.Loop? && Starts(s.native, m, m.q) {
      CalledAtMostOnce(s.native, m.q);
      assert KernelAgrees(s, m.q);
    }
  }

  /** A request that the kernel does not grant is refused because of a client that holds its lock. */
  lemma BlockerHolds(s: State, q: nat) returns (o: nat)
    requires Inv(s) && q in s.kernel.waiting && !O.Grantable(s.kernel, s.kernel.waiting[q])
    ensures Holder(s, o)
  {
    hide A.Inv, KernelSafe, O.Covers;
    var req := s.kernel.waiting[q];
    var b: nat;
    o, b :| o != req.h && O.Covers(req.r, b) && !Compatible(s.kernel.table(o, b), req.m);
    assert KernelAgrees(s, o);
  }

  lemma UnservedCanStep(s: State, q: nat) returns (l: Label)
    requires Inv(s) && s.native.stack == [] && q < |s.native.reqs| && q !in s.closed
    ensures Enabled(s, l)
  {
    hide A.Inv, KernelSafe, HoldsExactly, O.Grantable;
    assert ClientInv(s, q) && KernelAgrees(s, q);
    if s.native.reqs[q].returned.Some? {
      l := HolderCanStep(s, q);
    } else {
      ParkedRequest(s.native, q);
      if O.Grantable(s.kernel, s.kernel.waiting[q]) {
        l := Native(A.LockReturns(q, 0));
      } else {
        var o := BlockerHolds(s, q);
        l := HolderCanStep(s, o);
      }
    }
  }

  lemma SomeoneCanStep(s: State) returns (l: Label)
    requires Inv(s) && !Served(s)
    ensures Enabled(s, l)
  {
    if s.native.stack != [] {
      l := BusyCanStep(s);
    } else if s.todo > 0 {
      l := Native(A.Call(0, false));
    } else {
      var q :| 0 <= q < |s.native.reqs| && q !in s.closed;
      l := UnservedCanStep(s, q);
    }
  }

  lemma InitInv(s: State, n: nat)
    requires Init(s, n)
    ensures Inv(s) && Measure(s) == n * WORK_PER_REQUEST && |s.native.reqs| == 0
  {
  }

  lemma StepCounts(s: State, l: Label)
    requires Enabled(s, l)
    ensures Step(s, l).todo + |Step(s, l).native.reqs| == s.todo + |s.native.reqs|
  {
    hide A.Step, A.Enabled, O.Step, O.Enabled;
    if l.Native? { NativeSize(s.native, l.l); }
  }

  lemma {:induction false} RunKeepsInv(ss: seq<State>, ls: seq<Label>, n: nat, i: nat)
    requires Run(ss, ls, n) && i < |ss|
    ensures Inv(ss[i])
    ensures i + Measure(ss[i]) <= n * WORK_PER_REQUEST
    ensures ss[i].todo + |ss[i].native.reqs| == n
  {
    hide Inv, Step, Enabled, Init, Measure;
    if i == 0 {
      InitInv(ss[0], n);
      InitCounts(ss[0], n);
    } else {
      RunKeepsInv(ss, ls, n, i - 1);
      StepKeepsInv(ss[i - 1], ls[i - 1]);
      StepShrinksMeasure(ss[i - 1], ls[i - 1]);
      StepCounts(ss[i - 1], ls[i - 1]);
    }
  }

  lemma InitCounts(s: State, n: nat)
    requires Init(s, n)
    ensures s.todo + |s.native.reqs| == n
  {
  }

  ghost predicate Run(ss: seq<State>, ls: seq<Label>, n: nat) {
    && |ss| == |ls| + 1
    && Init(ss[0], n)
    && forall i :: 0 <= i < |ls| ==> Enabled(ss[i], ls[i]) && ss[i + 1] == Step(ss[i], ls[i])
  }

  /** No two clients ever hold a byte together. */
  lemma NeverTwoHolders(ss: seq<State>, ls: seq<Label>, n: nat, i: nat, o: nat, p: nat, b: nat)
    requires Run(ss, ls, n) && i < |ss| && o != p
    ensures ss[i].kernel.table(o, b) == Free || ss[i].kernel.table(p, b) == Free
  {
    RunKeepsInv(ss, ls, n, i);
    hide A.Inv;
    var k := ss[i].kernel;
    assert KernelAgrees(ss[i], o) && KernelAgrees(ss[i], p);
    assert Safe(O.HoldersAt(k.table, b));
    assert Compatible(O.HoldersAt(k.table, b)(o), O.HoldersAt(k.table, b)(p));
  }

  /** What the end of a run looks like for one client. */
  lemma ServedClient(s: State, q: nat)
    requires Inv(s) && Served(s)
    ensures q < |s.native.reqs| ==>
      s.native.reqs[q].calls == 1 && s.native.reqs[q].jsCalls == 1 && s.native.reqs[q].delivered == Some(0)
    ensures q !in s.kernel.waiting && forall b :: s.kernel.table(q, b) == Free
  {
    hide KernelSafe, A.StackInv, O.Covers;
    assert ClientInv(s, q) && KernelAgrees(s, q);
    if q < |s.native.reqs| {
      CalledAtMostOnce(s.native, q);
      assert A.ReqInv(s.native.reqs[q]);
    }
  }

  /** Everyone has been called back, once and with success, and the file is unlocked. */
  ghost predicate AllServed(s: State, n: nat) {
    && |s.native.reqs| == n
    && (forall q :: 0 <= q < n ==>
          s.native.reqs[q].calls == 1 && s.native.reqs[q].jsCalls == 1 && s.native.reqs[q].delivered == Some(0))
    && (forall q :: q !in s.kernel.waiting)
    && forall o, b :: s.kernel.table(o, b) == Free
  }

  lemma ServedIsAllServed(s: State, n: nat)
    requires Inv(s) && Served(s) && s.todo + |s.native.reqs| == n
    ensures AllServed(s, n)
  {
    assert s.todo == 0;
    hide Inv;
    forall q: nat
      ensures q < |s.native.reqs| ==>
        s.native.reqs[q].calls == 1 && s.native.reqs[q].jsCalls == 1 && s.native.reqs[q].delivered == Some(0)
      ensures q !in s.kernel.waiting
    {
      ServedClient(s, q);
    }
    forall o: nat, b: nat ensures s.kernel.table(o, b) == Free {
      ServedClient(s, o);
    }
  }

  /** With `n` waiters no run is longer than 47 steps a waiter, and a run that cannot be continued has
      called back every waiter exactly once, with success, and left the file unlocked. */
  lemma EveryWaiterIsServed(ss: seq<State>, ls: seq<Label>, n: nat)
    requires Run(ss, ls, n)
    ensures |ls| <= 47 * n
    ensures (forall l :: !Enabled(ss[|ls|], l)) ==> AllServed(ss[|ls|], n)
  {
    RunKeepsInv(ss, ls, n, |ls|);
    assert Measure(ss[|ls|]) >= 0;
    hide Inv, Enabled, Step, Measure, Served, AllServed;
    if Served(ss[|ls|]) {
      ServedIsAllServed(ss[|ls|], n);
    } else {
      var l := SomeoneCanStep(ss[|ls|]);
    }
  }
}
