/** What asynchronous lock requests still have to do: a measure of the remaining steps, what a request does
while no function of the module is on the loop thread's stack for it, and what has been released when
nothing is left to do, with teardowns at any time. */
module WaiterWork {
  import opened Basics
  import A = AsyncLock

  /** Whether this step starts the worker of request `q`, which then blocks in the lock call. */
  predicate Starts(s: A.State, m: A.Label, q: nat) {
    m == A.Loop(q) && q < |s.reqs| && s.reqs[q].pc == A.CreateThread
  }

  /** What a native step leaves alone: only a lock call returning makes `returned` appear, only the
      start of a worker blocks one, callbacks already made stay made, and without a teardown nothing
      is flagged. */
  lemma NativeFrame(s: A.State, m: A.Label, q: nat)
    requires A.Enabled(s, m) && !m.Teardown? && q < |A.Step(s, m).reqs|
    ensures var r := A.Step(s, m).reqs[q];
      if q < |s.reqs| then
        && r.flagged == s.reqs[q].flagged
        && r.jsCalls >= s.reqs[q].jsCalls
        && r.returned == (if m.LockReturns? && m.q == q then Some(m.value) else s.reqs[q].returned)
        && (r.worker == A.Blocked <==> Starts(s, m, q) || (s.reqs[q].worker == A.Blocked && !(m.LockReturns? && m.q == q)))
      else r == A.NewReq(m.garbageResult, m.garbageExiting)
  {
    hide A.LoopStep;
    if m.Loop? { A.LoopStepFrame(s.reqs[m.q]); }
  }

  lemma NativeSize(s: A.State, m: A.Label)
    requires A.Enabled(s, m)
    ensures |A.Step(s, m).reqs| == |s.reqs| + (if m.Call? then 1 else 0)
    ensures m.LockReturns? ==> m.q < |s.reqs| && s.reqs[m.q].worker == A.Blocked
  {
  }

  lemma CalledAtMostOnce(s: A.State, q: nat)
    requires A.Inv(s) && q < |s.reqs|
    ensures s.reqs[q].jsCalls <= 1
    ensures s.reqs[q].jsCalls == 1 ==> s.reqs[q].returned.Some?
    ensures s.reqs[q].worker == A.Blocked || s.reqs[q].pc == A.CreateThread ==> s.reqs[q].returned == None
    ensures s.reqs[q].pc == A.CreateThread ==> s.reqs[q].worker == A.NotStarted
  {
    assert A.ReqInv(s.reqs[q]);
  }

  // ---- Every step brings the end closer ----

  function WorkerWork(w: A.Worker): nat {
    match w
    case NotStarted => 5
    case Blocked => 4
    case Returned(_) => 3
    case Stored => 2
    case Sent => 1
    case Ended => 0
  }

  function LoopWork(r: A.Req): nat {
    if r.pc == A.Parked then
      if r.signal == A.Open then 30 else if r.signal == A.Closing then 25 else 0
    else if A.Order(r.pc) < 7 then 40 - A.Order(r.pc)
    else if A.Order(r.pc) < 10 then 37 - A.Order(r.pc)
    else 34 - A.Order(r.pc)
  }

  /** The steps one request still has to take, with `extra` ones that its owner adds. */
  function Work(r: A.Req, extra: nat): nat {
    WorkerWork(r.worker) + LoopWork(r) + extra
  }

  /** The steps that the first `n` requests still have to take. */
  function TotalWork(reqs: seq<A.Req>, extra: nat -> nat, n: nat): nat
    requires n <= |reqs|
  {
    if n == 0 then 0 else TotalWork(reqs, extra, n - 1) + Work(reqs[n - 1], extra(n - 1))
  }

  lemma {:induction false} WorkChange(reqs: seq<A.Req>, extra: nat -> nat, reqs': seq<A.Req>, extra': nat -> nat, n: nat, q: nat)
    requires n <= |reqs| && n <= |reqs'|
    requires forall i :: 0 <= i < n && i != q ==> reqs'[i] == reqs[i] && extra'(i) == extra(i)
    ensures TotalWork(reqs', extra', n) == TotalWork(reqs, extra, n)
      + if q < n then Work(reqs'[q], extra'(q)) - Work(reqs[q], extra(q)) else 0
  {
    hide WorkerWork, LoopWork;
    if n > 0 {
      WorkChange(reqs, extra, reqs', extra', n - 1, q);
    }
  }
  lemma SubmitStepWorks(r: A.Req)
    requires A.SubmitInv(r) && A.ThreadInv(r) && A.Order(r.pc) < 7
    ensures LoopWork(A.SubmitStep(r)) + WorkerWork(A.SubmitStep(r).worker) < LoopWork(r) + WorkerWork(r.worker)
  {
    match r.pc
    case SetFields => assert A.SubmitStep(r).pc == A.InitSignal;
    case InitSignal => assert A.SubmitStep(r).pc == A.CreateThread;
    case CreateThread => assert A.SubmitStep(r).pc == A.SetEnv;
    case SetEnv => assert A.SubmitStep(r).pc == A.RefCtx;
    case RefCtx => assert A.SubmitStep(r).pc == A.RefCb;
    case RefCb => assert A.SubmitStep(r).pc == A.AddTeardown;
    case AddTeardown => assert A.SubmitStep(r).pc == A.Parked;
  }

  /** The order of the callback's steps. */
  lemma CallbackGoesOn(r: A.Req)
    ensures r.pc == A.ReadRequest ==> A.OnLockStep(r).pc == A.DeleteCb
    ensures r.pc == A.DeleteCb ==> A.OnLockStep(r).pc == A.DeleteCtx
    ensures r.pc == A.DeleteCtx ==> A.OnLockStep(r).pc == A.BuildArgs
    ensures r.pc == A.BuildArgs ==> A.OnLockStep(r).pc == A.CheckExiting
    ensures r.pc == A.CheckExiting ==> A.OnLockStep(r).pc in {A.InJs, A.CloseScope}
    ensures r.pc == A.InJs ==> A.OnLockStep(r).pc == A.CloseScope
    ensures r.pc == A.CloseScope ==> A.OnLockStep(r).pc == A.FinishTeardown
    ensures r.pc == A.FinishTeardown ==> A.OnLockStep(r).pc == A.Parked
    ensures A.OnLockStep(r).signal == r.signal
  {
  }

  lemma CallbackStepWorks(r: A.Req)
    requires A.Order(r.pc) >= 10 && r.signal == A.Closed
    ensures LoopWork(A.OnLockStep(r)) < LoopWork(r)
  {
    hide A.OnLockStep;
    CallbackGoesOn(r);
  }

  lemma LoopStepWorks(r: A.Req)
    requires A.ReqInv(r) && A.OnLoop(r.pc)
    ensures LoopWork(A.LoopStep(r)) + WorkerWork(A.LoopStep(r).worker) < LoopWork(r) + WorkerWork(r.worker)
  {
    if A.Order(r.pc) < 7 {
      SubmitStepWorks(r);
    } else if A.Order(r.pc) >= 10 {
      CallbackStepWorks(r);
    }
  }

  /** A step of the loop thread for one request leaves it less to do. */
  lemma TopStepWorks(s: A.State, q: nat)
    requires A.Inv(s) && A.Enabled(s, A.Loop(q))
    ensures var r, r' := s.reqs[q], A.LoopStep(s.reqs[q]);
      Work(r', 0) < Work(r, 0)
  {
    hide A.ReqInv, A.LoopStep;
    assert s.stack[|s.stack| - 1] in s.stack;
    LoopStepWorks(s.reqs[q]);
  }

  lemma WorkerStepsWork(r: A.Req, v: int)
    ensures r.worker == A.Blocked ==> Work(r.(worker := A.Returned(v), returned := Some(v)), 0) < Work(r, 0)
    ensures r.worker.Returned? ==> Work(r.(worker := A.Stored, result := r.worker.value), 0) < Work(r, 0)
    ensures r.worker == A.Stored ==> Work(r.(worker := A.Sent, pending := true), 0) < Work(r, 0)
    ensures r.worker == A.Sent ==> Work(r.(worker := A.Ended), 0) < Work(r, 0)
  {
    hide A.Order;
  }

  lemma DispatchStepsWork(r: A.Req)
    requires r.pc == A.Parked
    ensures r.signal == A.Open ==> Work(r.(pending := false, pc := A.Join), 0) < Work(r, 0)
    ensures r.signal == A.Closing ==> Work(r.(signal := A.Closed, calls := r.calls + 1, pc := A.ReadRequest), 0) < Work(r, 0)
  {
  }

  /** Every native step but a call and a teardown changes one request, and leaves it less to do. */
  lemma NativeStepWorks(s: A.State, m: A.Label)
    requires A.Inv(s) && A.Enabled(s, m) && !m.Call? && !m.Teardown?
    ensures var t := A.Step(s, m);
      && m.q < |s.reqs| == |t.reqs|
      && t.reqs == s.reqs[m.q := t.reqs[m.q]]
      && Work(t.reqs[m.q], 0) < Work(s.reqs[m.q], 0)
  {
    if m.Loop? { TopStepWorks(s, m.q); }
    if m.DispatchSignal? || m.DispatchClose? {
      OffStackIsParked(s, m.q);
      DispatchStepsWork(s.reqs[m.q]);
    }
    WorkerStepsWork(s.reqs[m.q], if m.LockReturns? then m.value else 0);
    assert A.ReqInv(s.reqs[m.q]);
    hide A.LoopStep, A.StackInv, Work;
  }

  lemma OffStackIsParked(s: A.State, q: nat)
    requires A.Inv(s) && s.stack == [] && q < |s.reqs|
    ensures s.reqs[q].pc == A.Parked
  {
    hide A.ReqInv;
    assert q !in s.stack;
    assert !A.OnLoop(s.reqs[q].pc);
  }

  // ---- Requests that are not on the stack ----

  lemma ParkedFacts(r: A.Req)
    requires A.ReqInv(r) && r.pc == A.Parked
    ensures r.returned == None <==> r.worker == A.Blocked
    ensures r.worker != A.NotStarted && r.signal != A.Uninit
    ensures r.worker in {A.Sent, A.Ended} && r.signal == A.Open ==> r.pending
    ensures r.worker != A.Ended ==> r.signal == A.Open
    ensures r.signal == A.Closed <==> r.calls == 1
    ensures r.signal != A.Closed <==> r.calls == 0
    ensures !r.flagged ==> r.jsCalls == r.calls
  {
    if r.signal == A.Closed && !r.flagged {
      assert r.verdict.Some? && !r.verdict.value;
    }
  }

  lemma ParkedRequest(s: A.State, q: nat)
    requires A.Inv(s) && s.stack == [] && q < |s.reqs|
    ensures var r := s.reqs[q];
      && r.pc == A.Parked
      && (r.returned == None <==> r.worker == A.Blocked)
      && r.worker != A.NotStarted && r.signal != A.Uninit
      && (r.worker in {A.Sent, A.Ended} && r.signal == A.Open ==> r.pending)
      && (r.worker != A.Ended ==> r.signal == A.Open)
      && (r.signal == A.Closed <==> r.calls == 1)
      && (r.signal != A.Closed <==> r.calls == 0)
      && (!r.flagged ==> r.jsCalls == r.calls)
  {
    OffStackIsParked(s, q);
    hide A.ReqInv;
    ParkedFacts(s.reqs[q]);
  }

  /** A request whose lock call has returned can go on by itself until its callback has run, whether it
      has been torn down or not. */
  lemma ReturnedCanStep(s: A.State, q: nat) returns (m: A.Label)
    requires A.Inv(s) && s.stack == [] && q < |s.reqs|
    requires s.reqs[q].returned.Some? && s.reqs[q].calls == 0
    ensures A.Enabled(s, m) && !m.Call? && !m.LockReturns? && !m.Loop? && !m.Teardown?
  {
    hide A.Inv;
    ParkedRequest(s, q);
    var r := s.reqs[q];
    match r.worker
    case Returned(_) => m := A.StoreResult(q);
    case Stored => m := A.SendSignal(q);
    case Sent => m := A.ThreadExit(q);
    case _ => m := if r.signal == A.Closing then A.DispatchClose(q) else A.DispatchSignal(q);
  }

  /** What is on the loop thread's stack can go on, or a worker that it joins can. */
  lemma TopCanStep(s: A.State) returns (m: A.Label)
    requires A.Inv(s) && s.stack != []
    ensures A.Enabled(s, m) && !m.Call? && !m.LockReturns? && !m.Teardown?
  {
    var q := s.stack[|s.stack| - 1];
    assert A.ReqInv(s.reqs[q]);
    m := if s.reqs[q].pc == A.Join && s.reqs[q].worker != A.Ended then A.ThreadExit(q) else A.Loop(q);
  }

  // ---- With teardowns at any time ----

  /** The steps that the module itself takes: all but new calls, teardowns, and the kernel's answers. */
  predicate OwnStep(m: A.Label) {
    !m.Call? && !m.Teardown? && !m.LockReturns?
  }

  /** Every reference and the token that were made have been released, after the one callback. */
  predicate Released(r: A.Req) {
    && r.pc == A.Parked && r.signal == A.Closed && r.worker == A.Ended && r.calls == 1
    && (r.ctxMade, r.cbMade, r.tokMade, r.ctxFreed, r.cbFreed, r.tokFreed) == (1, 1, 1, 1, 1, 1)
  }

  lemma CalledIsReleased(s: A.State, q: nat)
    requires A.Inv(s) && s.stack == [] && q < |s.reqs| && s.reqs[q].calls == 1
    ensures Released(s.reqs[q])
  {
    ParkedRequest(s, q);
    assert A.ReqInv(s.reqs[q]);
  }

  /** When the module has nothing left to do, every request whose lock call has returned has released
      everything, whatever teardowns there were. */
  lemma IdleMeansReleased(s: A.State)
    requires A.Inv(s) && forall m :: A.Enabled(s, m) ==> !OwnStep(m)
    ensures s.stack == []
    ensures forall q :: 0 <= q < |s.reqs| && s.reqs[q].returned.Some? ==> Released(s.reqs[q])
  {
    if s.stack != [] {
      var m := TopCanStep(s);
      assert false;
    }
    hide A.Inv, A.Enabled, Released;
    forall q | 0 <= q < |s.reqs| && s.reqs[q].returned.Some? ensures Released(s.reqs[q]) {
      ParkedRequest(s, q);
      if s.reqs[q].calls == 0 {
        var m := ReturnedCanStep(s, q);
        assert false;
      } else {
        CalledIsReleased(s, q);
      }
    }
  }

  const NO_EXTRA: nat -> nat := (q: nat) => 0

  /** The steps of a run that belong to requests: all but calls and teardowns. */
  function Busy(ls: seq<A.Label>): nat {
    if ls == [] then 0
    else Busy(ls[..|ls| - 1]) + if ls[|ls| - 1].Call? || ls[|ls| - 1].Teardown? then 0 else 1
  }

  lemma {:induction false} SameWork(reqs: seq<A.Req>, reqs': seq<A.Req>, n: nat)
    requires n <= |reqs| && n <= |reqs'|
    requires forall i :: 0 <= i < n ==> Work(reqs'[i], 0) == Work(reqs[i], 0)
    ensures TotalWork(reqs', NO_EXTRA, n) == TotalWork(reqs, NO_EXTRA, n)
  {
    hide Work;
    if n > 0 { SameWork(reqs, reqs', n - 1); }
  }

  lemma FlagIsNoWork(r: A.Req)
    ensures Work(A.Flag(r), 0) == Work(r, 0)
  {
  }

  lemma TeardownWork(s: A.State)
    ensures var t, n := A.Step(s, A.Teardown), |s.reqs|;
      |t.reqs| == n && TotalWork(t.reqs, NO_EXTRA, n) == TotalWork(s.reqs, NO_EXTRA, n)
  {
    var t, n := A.Step(s, A.Teardown), |s.reqs|;
    forall i | 0 <= i < n ensures Work(t.reqs[i], 0) == Work(s.reqs[i], 0) {
      FlagIsNoWork(s.reqs[i]);
    }
    hide Work;
    SameWork(s.reqs, t.reqs, n);
  }

  lemma RequestWork(s: A.State, m: A.Label)
    requires A.Inv(s) && A.Enabled(s, m) && !m.Call? && !m.Teardown?
    ensures var t, n := A.Step(s, m), |s.reqs|;
      |t.reqs| == n && TotalWork(t.reqs, NO_EXTRA, n) < TotalWork(s.reqs, NO_EXTRA, n)
  {
    hide A.Inv, A.Enabled, A.Step;
    NativeStepWorks(s, m);
    WorkChange(s.reqs, NO_EXTRA, A.Step(s, m).reqs, NO_EXTRA, |s.reqs|, m.q);
  }

  /** A call brings 46 steps of work, a teardown none, and every other step does one. */
  lemma StepWork(s: A.State, m: A.Label)
    requires A.Inv(s) && A.Enabled(s, m)
    ensures var t, n := A.Step(s, m), |s.reqs|;
      && |t.reqs| == n + (if m.Call? then 1 else 0)
      && TotalWork(t.reqs, NO_EXTRA, |t.reqs|) + (if m.Call? || m.Teardown? then 0 else 1)
           <= TotalWork(s.reqs, NO_EXTRA, n) + if m.Call? then 46 else 0
  {
    hide A.Inv, A.Enabled, A.Step, TotalWork;
    if m.Call? { CallWork(s, m); }
    else if m.Teardown? { TeardownWork(s); }
    else { RequestWork(s, m); }
  }

  lemma CallWork(s: A.State, m: A.Label)
    requires A.Enabled(s, m) && m.Call?
    ensures var t, n := A.Step(s, m), |s.reqs|;
      |t.reqs| == n + 1 && TotalWork(t.reqs, NO_EXTRA, n + 1) <= TotalWork(s.reqs, NO_EXTRA, n) + 46
  {
    var t, n := A.Step(s, m), |s.reqs|;
    WorkChange(s.reqs, NO_EXTRA, t.reqs, NO_EXTRA, n, n);
    assert Work(t.reqs[n], 0) <= 46;
  }

  lemma {:induction false} RunIsBounded(ss: seq<A.State>, ls: seq<A.Label>, i: nat)
    requires A.Run(ss, ls) && i < |ss|
    ensures Busy(ls[..i]) + TotalWork(ss[i].reqs, NO_EXTRA, |ss[i].reqs|) <= 46 * |ss[i].reqs|
  {
    hide A.Inv, A.Enabled, A.Step, TotalWork;
    if i == 0 {
      assert ls[..0] == [] && ss[0].reqs == [];
      assert TotalWork(ss[0].reqs, NO_EXTRA, 0) == 0 by { NoWork(); }
    } else {
      RunIsBounded(ss, ls, i - 1);
      A.RunKeepsInv(ss, ls, i - 1);
      StepWork(ss[i - 1], ls[i - 1]);
      assert ls[..i][..i - 1] == ls[..i - 1];
    }
  }

  lemma NoWork()
    ensures TotalWork([], NO_EXTRA, 0) == 0
  {
  }

  /** Over every run, with teardowns at any time: the requests take at most 46 steps each, and when the
      module has nothing left to do every request whose lock call has returned has had its callback and
      released everything it held. */
  lemma EveryReturnedRequestReleases(ss: seq<A.State>, ls: seq<A.Label>)
    requires A.Run(ss, ls)
    ensures Busy(ls) <= 46 * |ss[|ls|].reqs|
    ensures (forall m :: A.Enabled(ss[|ls|], m) ==> !OwnStep(m)) ==>
      forall q :: 0 <= q < |ss[|ls|].reqs| && ss[|ls|].reqs[q].returned.Some? ==> Released(ss[|ls|].reqs[q])
  {
    RunIsBounded(ss, ls, |ls|);
    A.RunKeepsInv(ss, ls, |ls|);
    assert ls[..|ls|] == ls;
    hide A.Inv, A.Enabled, TotalWork, Released;
    if forall m :: A.Enabled(ss[|ls|], m) ==> !OwnStep(m) { IdleMeansReleased(ss[|ls|]); }
  }
}
