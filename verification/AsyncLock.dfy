/** The life of an asynchronous lock request, from the JavaScript call to the JavaScript callback.

Every request is a native structure shared by two threads. A worker thread blocks in the lock call,
stores the result and signals; the loop thread joins the worker, closes the signal and runs the
callback. The loop thread starts the worker before the binding has filled in the rest of the
structure, and an environment teardown may raise `exiting` between any two steps.

The system below has any number of requests. One label is one micro-step of one thread, and its
guard tests only what the real step depends on: the pending flag and state of the signal, the
worker having ended (for the join), and what is on top of the loop thread's call stack.
*/
module AsyncLock {
  import opened Basics

  /** The worker thread: blocked in the lock call, back from it with a value, having stored that
      value, having sent the signal (but still running), and ended. */
  datatype Worker = NotStarted | Blocked | Returned(value: int) | Stored | Sent | Ended

  /** The `uv_async_t` of the request. */
  datatype Signal = Uninit | Open | Closing | Closed

  /** What the loop thread is doing for a request. `Parked` means that no function of this module is
      on the loop thread's stack for it. */
  datatype Pc =
    | SetFields | InitSignal | CreateThread           // fs_ext_wait_for_lock
    | SetEnv | RefCtx | RefCb | AddTeardown           // the rest of the binding function
    | Parked
    | Join | CloseSignal                              // fs_ext__lock_after_work
    | ReadRequest | DeleteCb | DeleteCtx | BuildArgs  // fs_ext_js__on_lock
    | CheckExiting | InJs | CloseScope | FinishTeardown

  function Order(pc: Pc): nat {
    match pc
    case SetFields => 0
    case InitSignal => 1
    case CreateThread => 2
    case SetEnv => 3
    case RefCtx => 4
    case RefCb => 5
    case AddTeardown => 6
    case Parked => 7
    case Join => 8
    case CloseSignal => 9
    case ReadRequest => 10
    case DeleteCb => 11
    case DeleteCtx => 12
    case BuildArgs => 13
    case CheckExiting => 14
    case InJs => 15
    case CloseScope => 16
    case FinishTeardown => 17
  }

  /** The request structure, with counters for what must happen exactly once. `returned` remembers
      what the blocking lock call returned, `flagged` that a teardown reached this request, and
      `verdict` what the test of `exiting` saw. */
  datatype Req = Req(
    pc: Pc, worker: Worker, signal: Signal, pending: bool,
    native: bool, result: int, returned: Option<int>,
    joins: nat, closes: nat, calls: nat,
    env: bool, exiting: bool, flagged: bool,
    ctxMade: nat, ctxFreed: nat, cbMade: nat, cbFreed: nat, tokMade: nat, tokFreed: nat,
    argument: int, verdict: Option<bool>, jsCalls: nat, delivered: Option<int>)

  /** `stack` is the loop thread's call stack, innermost last. */
  datatype State = State(reqs: seq<Req>, stack: seq<nat>)

  datatype Label =
    | Call(garbageResult: int, garbageExiting: bool)
    | Loop(q: nat)
    | LockReturns(q: nat, value: int)
    | StoreResult(q: nat)
    | SendSignal(q: nat)
    | ThreadExit(q: nat)
    | DispatchSignal(q: nat)
    | DispatchClose(q: nat)
    | Teardown

  const INIT := State([], [])

  /** A request whose memory has just been allocated: nothing in it can be relied on. */
  function NewReq(garbageResult: int, garbageExiting: bool): Req {
    Req(SetFields, NotStarted, Uninit, false, false, garbageResult, None, 0, 0, 0,
        false, garbageExiting, false, 0, 0, 0, 0, 0, 0, 0, None, 0, None)
  }

  predicate Top(s: State, q: nat) {
    q < |s.reqs| && |s.stack| > 0 && s.stack[|s.stack| - 1] == q
  }

  /** JavaScript runs on the loop thread either outside this module or inside a lock callback. */
  predicate JsRunning(s: State) {
    s.stack == [] ||
    (s.stack[|s.stack| - 1] < |s.reqs| && s.reqs[s.stack[|s.stack| - 1]].pc == InJs)
  }

  predicate Enabled(s: State, l: Label) {
    match l
    case Call(_, _) => JsRunning(s)
    case Loop(q) => Top(s, q) && (s.reqs[q].pc == Join ==> s.reqs[q].worker == Ended)
    case LockReturns(q, _) => q < |s.reqs| && s.reqs[q].worker == Blocked
    case StoreResult(q) => q < |s.reqs| && s.reqs[q].worker.Returned?
    case SendSignal(q) => q < |s.reqs| && s.reqs[q].worker == Stored
    case ThreadExit(q) => q < |s.reqs| && s.reqs[q].worker == Sent
    case DispatchSignal(q) => s.stack == [] && q < |s.reqs| && s.reqs[q].signal == Open && s.reqs[q].pending
    case DispatchClose(q) => s.stack == [] && q < |s.reqs| && s.reqs[q].signal == Closing
    case Teardown => true
  }

  /** The binding function: submit the lock request, then fill in the rest of the structure. */
  function SubmitStep(r: Req): Req {
    match r.pc
    case SetFields => r.(pc := InitSignal, native := true)
    case InitSignal => r.(pc := CreateThread, signal := Open)
    case CreateThread => r.(pc := SetEnv, worker := Blocked)
    case SetEnv => r.(pc := RefCtx, env := true, exiting := false)
    case RefCtx => r.(pc := RefCb, ctxMade := r.ctxMade + 1)
    case RefCb => r.(pc := AddTeardown, cbMade := r.cbMade + 1)
    case AddTeardown => r.(pc := Parked, tokMade := r.tokMade + 1)
    case _ => r
  }

  /** The signal callback: join the worker, close the signal. */
  function AfterWorkStep(r: Req): Req {
    match r.pc
    case Join => r.(pc := CloseSignal, joins := r.joins + 1)
    case CloseSignal => r.(pc := Parked, signal := Closing, closes := r.closes + 1)
    case _ => r
  }

  /** The lock callback: drop the references, report to JavaScript unless exiting, and finish the
      deferred teardown. */
  function OnLockStep(r: Req): Req {
    match r.pc
    case ReadRequest => r.(pc := DeleteCb)
    case DeleteCb => r.(pc := DeleteCtx, cbFreed := r.cbFreed + 1)
    case DeleteCtx => r.(pc := BuildArgs, ctxFreed := r.ctxFreed + 1)
    case BuildArgs => r.(pc := CheckExiting, argument := r.result)
    case CheckExiting =>
      if r.exiting then
        r.(pc := CloseScope, verdict := Some(true))
      else
        r.(pc := InJs, verdict := Some(false), jsCalls := r.jsCalls + 1, delivered := Some(r.argument))
    case InJs => r.(pc := CloseScope)
    case CloseScope => r.(pc := FinishTeardown)
    case FinishTeardown => r.(pc := Parked, tokFreed := r.tokFreed + 1)
    case _ => r
  }

  /** One micro-step of the function that the loop thread is executing for a request. */
  function LoopStep(r: Req): Req {
    if Order(r.pc) < 7 then SubmitStep(r)
    else if Order(r.pc) < 10 then AfterWorkStep(r)
    else OnLockStep(r)
  }

  /** The teardown callback raises `exiting` wherever a teardown token is registered. */
  function Flag(r: Req): Req {
    if r.tokMade > r.tokFreed then r.(exiting := true, flagged := true) else r
  }

  function Step(s: State, l: Label): State
    requires Enabled(s, l)
  {
    match l
    case Call(result, exiting) => State(s.reqs + [NewReq(result, exiting)], s.stack + [|s.reqs|])
    case Loop(q) =>
      var r := LoopStep(s.reqs[q]);
      State(s.reqs[q := r], if r.pc == Parked then s.stack[..|s.stack| - 1] else s.stack)
    case LockReturns(q, v) => s.(reqs := s.reqs[q := s.reqs[q].(worker := Returned(v), returned := Some(v))])
    case StoreResult(q) => s.(reqs := s.reqs[q := s.reqs[q].(worker := Stored, result := s.reqs[q].worker.value)])
    case SendSignal(q) => s.(reqs := s.reqs[q := s.reqs[q].(worker := Sent, pending := true)])
    case ThreadExit(q) => s.(reqs := s.reqs[q := s.reqs[q].(worker := Ended)])
    case DispatchSignal(q) => State(s.reqs[q := s.reqs[q].(pending := false, pc := Join)], [q])
    case DispatchClose(q) =>
      // The close callback calls the request's callback if there is one.
      var r := s.reqs[q];
      if r.native then State(s.reqs[q := r.(signal := Closed, calls := r.calls + 1, pc := ReadRequest)], [q])
      else s.(reqs := s.reqs[q := r.(signal := Closed)])
    case Teardown => s.(reqs := seq(|s.reqs|, i requires 0 <= i < |s.reqs| => Flag(s.reqs[i])))
  }

  /** A run: `ls[i]` takes `ss[i]` to `ss[i + 1]`. */
  ghost predicate Run(ss: seq<State>, ls: seq<Label>) {
    && |ss| == |ls| + 1
    && ss[0] == INIT
    && forall i :: 0 <= i < |ls| ==> Enabled(ss[i], ls[i]) && ss[i + 1] == Step(ss[i], ls[i])
  }

  // ---- The invariant ----

  function Once(b: bool): nat {
    if b then 1 else 0
  }

  /** How far the callback has got: the order of its next step, or 18 when it has returned. */
  function Progress(r: Req): nat {
    if r.signal != Closed then 0 else if r.pc == Parked then 18 else Order(r.pc)
  }

  predicate OnLoop(pc: Pc) { pc != Parked }

  predicate SubmitInv(r: Req) {
    && (r.signal == Uninit <==> Order(r.pc) <= 1)
    && (r.worker == NotStarted <==> Order(r.pc) <= 2)
    && (r.native <==> Order(r.pc) > 0)
    && (r.env <==> Order(r.pc) > 3)
    && r.ctxMade == Once(Order(r.pc) > 4)
    && r.cbMade == Once(Order(r.pc) > 5)
    && r.tokMade == Once(Order(r.pc) > 6)
  }

  predicate ThreadInv(r: Req) {
    && r.joins == Once(r.signal in {Closing, Closed} || r.pc == CloseSignal)
    && r.closes == Once(r.signal in {Closing, Closed})
    && (r.closes == 1 || r.pc == CloseSignal ==> r.worker == Ended)
    && (r.pc == Join ==> r.worker in {Sent, Ended})
    && (r.pending <==> r.worker in {Sent, Ended} && r.signal == Open && r.pc !in {Join, CloseSignal})
    && (Order(r.pc) < 7 || r.pc in {Join, CloseSignal} ==> r.signal in {Uninit, Open})
    && (Order(r.pc) >= 10 ==> r.signal == Closed)
    && (r.worker in {NotStarted, Blocked} <==> r.returned == None)
    && (r.worker.Returned? ==> r.returned == Some(r.worker.value))
    && (r.worker in {Stored, Sent, Ended} ==> r.returned == Some(r.result))
  }

  predicate ReleaseInv(r: Req) {
    && r.calls == Once(r.signal == Closed)
    && r.cbFreed == Once(Progress(r) > 11)
    && r.ctxFreed == Once(Progress(r) > 12)
    && r.tokFreed == Once(Progress(r) > 17)
  }

  predicate CallbackInv(r: Req) {
    && (Progress(r) > 13 ==> r.argument == r.result)
    && (r.verdict == None <==> Progress(r) <= 14)
    && r.jsCalls == Once(r.verdict == Some(false))
    && r.delivered == (if r.verdict == Some(false) then Some(r.result) else None)
    && (r.pc == InJs ==> r.verdict == Some(false))
  }

  predicate FlagInv(r: Req) {
    && (r.env ==> r.exiting == r.flagged)
    && (r.tokMade == 0 ==> !r.flagged)
    && (r.verdict == Some(true) ==> r.flagged)
  }

  predicate ReqInv(r: Req) {
    SubmitInv(r) && ThreadInv(r) && ReleaseInv(r) && CallbackInv(r) && FlagInv(r)
  }

  /** The stack names exactly the requests the loop thread is busy with, each once, and every frame
      but the innermost is waiting for JavaScript to return. */
  ghost predicate StackInv(s: State) {
    && (forall i :: 0 <= i < |s.stack| ==> s.stack[i] < |s.reqs|)
    && (forall i, j :: 0 <= i < j < |s.stack| ==> s.stack[i] != s.stack[j])
    && (forall q :: 0 <= q < |s.reqs| ==> (OnLoop(s.reqs[q].pc) <==> q in s.stack))
    && (forall i :: 0 <= i < |s.stack| - 1 ==> s.reqs[s.stack[i]].pc == InJs)
  }

  ghost predicate Inv(s: State) {
    StackInv(s) && forall q :: 0 <= q < |s.reqs| ==> ReqInv(s.reqs[q])
  }

  lemma StartWorkerKeepsReqInv(r: Req)
    requires ReqInv(r) && Order(r.pc) < 4
    ensures ReqInv(SubmitStep(r))
  {
  }

  lemma FillInKeepsReqInv(r: Req)
    requires ReqInv(r) && 4 <= Order(r.pc) < 7
    ensures ReqInv(SubmitStep(r))
  {
  }

  lemma AfterWorkKeepsReqInv(r: Req)
    requires ReqInv(r) && 7 <= Order(r.pc) < 10
    requires r.pc == Join ==> r.worker == Ended
    ensures ReqInv(AfterWorkStep(r))
  {
  }

  lemma ReleaseRefsKeepsReqInv(r: Req)
    requires ReqInv(r) && 10 <= Order(r.pc) < 14
    ensures ReqInv(OnLockStep(r))
  {
  }

  lemma CheckKeepsReqInv(r: Req)
    requires ReqInv(r) && r.pc == CheckExiting
    ensures ReqInv(OnLockStep(r))
  {
  }

  lemma FinishKeepsReqInv(r: Req)
    requires ReqInv(r) && r.pc in {InJs, CloseScope, FinishTeardown}
    ensures ReqInv(OnLockStep(r))
  {
  }

  lemma ReportKeepsReqInv(r: Req)
    requires ReqInv(r) && 14 <= Order(r.pc)
    ensures ReqInv(OnLockStep(r))
  {
    assert r.pc in {CheckExiting, InJs, CloseScope, FinishTeardown};
    hide ReqInv, OnLockStep;
    if r.pc == CheckExiting { CheckKeepsReqInv(r); } else { FinishKeepsReqInv(r); }
  }

  lemma LoopStepKeepsReqInv(r: Req)
    requires ReqInv(r)
    requires r.pc == Join ==> r.worker == Ended
    ensures ReqInv(LoopStep(r))
  {
    if Order(r.pc) < 4 {
      StartWorkerKeepsReqInv(r);
    } else if Order(r.pc) < 7 {
      FillInKeepsReqInv(r);
    } else if Order(r.pc) < 10 {
      AfterWorkKeepsReqInv(r);
    } else if Order(r.pc) < 14 {
      ReleaseRefsKeepsReqInv(r);
    } else {
      ReportKeepsReqInv(r);
    }
  }

  lemma WorkerStepsKeepReqInv(r: Req, v: int)
    requires ReqInv(r)
    ensures r.worker == Blocked ==> ReqInv(r.(worker := Returned(v), returned := Some(v)))
    ensures r.worker.Returned? ==> ReqInv(r.(worker := Stored, result := r.worker.value))
    ensures r.worker == Stored ==> ReqInv(r.(worker := Sent, pending := true))
    ensures r.worker == Sent ==> ReqInv(r.(worker := Ended))
  {
  }

  lemma DispatchStepsKeepReqInv(r: Req)
    requires ReqInv(r) && r.pc == Parked
    ensures r.signal == Open && r.pending ==> ReqInv(r.(pending := false, pc := Join))
    ensures r.signal == Closing ==> ReqInv(r.(signal := Closed, calls := r.calls + 1, pc := ReadRequest))
  {
  }

  lemma FlagKeepsReqInv(r: Req)
    requires ReqInv(r)
    ensures ReqInv(Flag(r))
  {
  }

  /** A step that changes the request `q` alone and leaves the stack as it is. */
  lemma ChangeKeepsInv(s: State, q: nat, r: Req)
    requires Inv(s) && q < |s.reqs| && ReqInv(r)
    requires OnLoop(r.pc) == OnLoop(s.reqs[q].pc)
    requires s.reqs[q].pc == InJs && !Top(s, q) ==> r.pc == InJs
    ensures Inv(s.(reqs := s.reqs[q := r]))
  {
  }

  lemma PopKeepsInv(s: State, q: nat, r: Req)
    requires Inv(s) && Top(s, q) && ReqInv(r) && r.pc == Parked
    ensures Inv(State(s.reqs[q := r], s.stack[..|s.stack| - 1]))
  {
    var t := State(s.reqs[q := r], s.stack[..|s.stack| - 1]);
    forall p | 0 <= p < |t.reqs| ensures OnLoop(t.reqs[p].pc) <==> p in t.stack {
      assert s.stack == t.stack + [q];
    }
  }

  lemma PushKeepsInv(s: State, q: nat, r: Req)
    requires Inv(s) && s.stack == [] && q < |s.reqs| && ReqInv(r) && OnLoop(r.pc)
    ensures Inv(State(s.reqs[q := r], [q]))
  {
  }

  lemma NewReqInv(result: int, exiting: bool)
    ensures ReqInv(NewReq(result, exiting))
  {
  }

  lemma CallKeepsInv(s: State, result: int, exiting: bool)
    requires Inv(s) && JsRunning(s)
    ensures Inv(State(s.reqs + [NewReq(result, exiting)], s.stack + [|s.reqs|]))
  {
    var t := State(s.reqs + [NewReq(result, exiting)], s.stack + [|s.reqs|]);
    NewReqInv(result, exiting);
    hide ReqInv;
    assert OnLoop(NewReq(result, exiting).pc);
    hide NewReq;
    forall q | 0 <= q < |t.reqs| ensures OnLoop(t.reqs[q].pc) <==> q in t.stack {
      assert t.stack[|s.stack|] == |s.reqs|;
    }
  }

  lemma TeardownKeepsInv(s: State)
    requires Inv(s)
    ensures Inv(Step(s, Teardown))
  {
    var t := Step(s, Teardown);
    forall q | 0 <= q < |s.reqs| ensures ReqInv(t.reqs[q]) && t.reqs[q].pc == s.reqs[q].pc {
      FlagKeepsReqInv(s.reqs[q]);
    }
  }

  lemma LoopKeepsInv(s: State, q: nat)
    requires Inv(s) && Enabled(s, Loop(q))
    ensures Inv(Step(s, Loop(q)))
  {
    var r := LoopStep(s.reqs[q]);
    LoopStepKeepsReqInv(s.reqs[q]);
    assert s.stack[|s.stack| - 1] in s.stack;
    if r.pc == Parked {
      PopKeepsInv(s, q, r);
    } else {
      ChangeKeepsInv(s, q, r);
    }
  }

  lemma DispatchKeepsInv(s: State, q: nat)
    requires Inv(s)
    ensures Enabled(s, DispatchSignal(q)) ==> Inv(Step(s, DispatchSignal(q)))
    ensures Enabled(s, DispatchClose(q)) ==> Inv(Step(s, DispatchClose(q)))
  {
    if s.stack == [] && q < |s.reqs| {
      var r := s.reqs[q];
      assert q !in s.stack;
      DispatchStepsKeepReqInv(r);
      if Enabled(s, DispatchSignal(q)) {
        PushKeepsInv(s, q, r.(pending := false, pc := Join));
      }
      if Enabled(s, DispatchClose(q)) {
        PushKeepsInv(s, q, r.(signal := Closed, calls := r.calls + 1, pc := ReadRequest));
      }
    }
  }

  lemma WorkerKeepsInv(s: State, l: Label)
    requires Inv(s) && Enabled(s, l)
    requires l.LockReturns? || l.StoreResult? || l.SendSignal? || l.ThreadExit?
    ensures Inv(Step(s, l))
  {
    WorkerStepsKeepReqInv(s.reqs[l.q], if l.LockReturns? then l.value else 0);
    ChangeKeepsInv(s, l.q, Step(s, l).reqs[l.q]);
  }

  lemma StepKeepsInv(s: State, l: Label)
    requires Inv(s) && Enabled(s, l)
    ensures Inv(Step(s, l))
  {
    match l
    case Call(result, exiting) => CallKeepsInv(s, result, exiting);
    case Loop(q) => LoopKeepsInv(s, q);
    case DispatchSignal(q) => DispatchKeepsInv(s, q);
    case DispatchClose(q) => DispatchKeepsInv(s, q);
    case Teardown => TeardownKeepsInv(s);
    case _ => WorkerKeepsInv(s, l);
  }

  lemma {:induction false} RunKeepsInv(ss: seq<State>, ls: seq<Label>, i: nat)
    requires Run(ss, ls) && i < |ss|
    ensures Inv(ss[i])
  {
    if i > 0 {
      RunKeepsInv(ss, ls, i - 1);
      StepKeepsInv(ss[i - 1], ls[i - 1]);
    }
  }

  // ---- What every run guarantees ----

  /** The callback runs at most once, and only after the worker has ended and been joined and the
      signal has been closed, each exactly once. What JavaScript is told, if it is told anything, is
      what the worker's lock call returned. */
  lemma CallbackFollowsWorker(ss: seq<State>, ls: seq<Label>, i: nat, q: nat)
    requires Run(ss, ls) && i < |ss| && q < |ss[i].reqs|
    ensures var r := ss[i].reqs[q];
      && r.jsCalls <= r.calls <= r.closes <= r.joins <= 1
      && (r.calls == 1 ==> r.worker == Ended && r.signal == Closed && r.returned == Some(r.result))
      && (r.jsCalls == 1 ==> r.delivered.Some? && r.delivered == r.returned)
      && (r.jsCalls == 0 ==> r.delivered == None)
  {
    RunKeepsInv(ss, ls, i);
  }

  /** While the worker exists it may still send, and all that time its signal is open. */
  lemma SignalOutlivesWorker(ss: seq<State>, ls: seq<Label>, i: nat, q: nat)
    requires Run(ss, ls) && i < |ss| && q < |ss[i].reqs|
    requires ss[i].reqs[q].worker !in {NotStarted, Ended}
    ensures ss[i].reqs[q].signal == Open && ss[i].reqs[q].closes == 0
  {
    RunKeepsInv(ss, ls, i);
  }

  /** However early the worker finishes, the callback never runs on a request whose binding function
      has not returned: the environment, both references and the teardown token are there, both
      references are still live when it starts, and `exiting` holds what teardowns did to it. */
  lemma CallbackSeesWholeRequest(ss: seq<State>, ls: seq<Label>, i: nat, q: nat)
    requires Run(ss, ls) && i < |ss| && q < |ss[i].reqs|
    ensures var r := ss[i].reqs[q];
      && (Order(r.pc) < 7 ==> r.calls == 0 && r.joins == 0)
      && (Order(r.pc) >= 10 ==>
            && r.env && r.exiting == r.flagged
            && r.ctxMade == 1 && r.cbMade == 1 && r.tokMade == 1 && r.tokFreed == 0)
      && (r.pc == ReadRequest ==> r.ctxFreed == 0 && r.cbFreed == 0)
  {
    RunKeepsInv(ss, ls, i);
  }

  /** Between the return of the binding function and the start of the callback two references and
      one teardown token are live; when the callback has returned each has been released exactly
      once; and at no time is anything released that was not made. */
  lemma EveryReferenceIsReleasedOnce(ss: seq<State>, ls: seq<Label>, i: nat, q: nat)
    requires Run(ss, ls) && i < |ss| && q < |ss[i].reqs|
    ensures var r := ss[i].reqs[q];
      && r.ctxFreed <= r.ctxMade <= 1 && r.cbFreed <= r.cbMade <= 1 && r.tokFreed <= r.tokMade <= 1
      && (Order(r.pc) >= 7 && r.calls == 0 ==>
            (r.ctxMade, r.cbMade, r.tokMade, r.ctxFreed, r.cbFreed, r.tokFreed) == (1, 1, 1, 0, 0, 0))
      && (r.pc == Parked && r.calls == 1 ==>
            (r.ctxMade, r.cbMade, r.tokMade, r.ctxFreed, r.cbFreed, r.tokFreed) == (1, 1, 1, 1, 1, 1))
  {
    RunKeepsInv(ss, ls, i);
  }

  /** A teardown happened before step `i` while the request's token was registered. */
  ghost predicate TornDownBefore(ss: seq<State>, ls: seq<Label>, i: nat, q: nat)
    requires |ss| == |ls| + 1 && i < |ss|
  {
    exists j :: 0 <= j < i && ls[j] == Teardown && TokenLive(ss[j], q)
  }

  predicate TokenLive(s: State, q: nat) {
    q < |s.reqs| && s.reqs[q].tokMade > s.reqs[q].tokFreed
  }

  /** What the loop thread leaves alone while it works on a request. */
  predicate OnlyLoopFields(r: Req, r': Req) {
    && r'.flagged == r.flagged && r'.returned == r.returned && r'.jsCalls >= r.jsCalls
    && r'.worker == if r.pc == CreateThread then Blocked else r.worker
  }

  lemma SubmitStepFrame(r: Req)
    ensures OnlyLoopFields(r, SubmitStep(r))
  {
    match r.pc
    case CreateThread =>
    case _ =>
  }

  lemma AfterWorkStepFrame(r: Req)
    requires Order(r.pc) >= 7
    ensures OnlyLoopFields(r, AfterWorkStep(r))
  {
  }

  lemma OnLockStepFrame(r: Req)
    requires Order(r.pc) >= 10
    ensures OnlyLoopFields(r, OnLockStep(r))
  {
    assert r.pc != CreateThread;
    hide Order;
  }

  lemma LoopStepFrame(r: Req)
    ensures OnlyLoopFields(r, LoopStep(r))
  {
    hide SubmitStep, AfterWorkStep, OnLockStep, Order, OnlyLoopFields;
    SubmitStepFrame(r);
    if Order(r.pc) >= 7 { AfterWorkStepFrame(r); }
    if Order(r.pc) >= 10 { OnLockStepFrame(r); }
  }

  lemma StepFlags(s: State, l: Label, q: nat)
    requires Enabled(s, l) && q < |Step(s, l).reqs|
    ensures Step(s, l).reqs[q].flagged <==>
      (q < |s.reqs| && s.reqs[q].flagged) || (l == Teardown && TokenLive(s, q))
  {
    hide LoopStep;
    if l.Loop? { LoopStepFrame(s.reqs[l.q]); }
  }

  lemma TornDownGrows(ss: seq<State>, ls: seq<Label>, i: nat, q: nat)
    requires |ss| == |ls| + 1 && 0 < i < |ss|
    ensures TornDownBefore(ss, ls, i, q) <==>
      TornDownBefore(ss, ls, i - 1, q) || (ls[i - 1] == Teardown && TokenLive(ss[i - 1], q))
  {
    hide TokenLive;
  }

  lemma NotTornDownBeforeCall(ss: seq<State>, ls: seq<Label>, i: nat, q: nat)
    requires Run(ss, ls) && i < |ss| && q >= |ss[i].reqs|
    ensures !TornDownBefore(ss, ls, i, q)
  {
    NoTokenBeforeCall(ss, ls, i, q);
    hide Run;
  }

  lemma {:induction false} FlaggedIffTornDown(ss: seq<State>, ls: seq<Label>, i: nat, q: nat)
    requires Run(ss, ls) && i < |ss| && q < |ss[i].reqs|
    ensures ss[i].reqs[q].flagged <==> TornDownBefore(ss, ls, i, q)
  {
    hide TornDownBefore, TokenLive, Step, Enabled;
    if i > 0 {
      TornDownGrows(ss, ls, i, q);
      StepFlags(ss[i - 1], ls[i - 1], q);
      if q < |ss[i - 1].reqs| {
        FlaggedIffTornDown(ss, ls, i - 1, q);
      } else {
        NotTornDownBeforeCall(ss, ls, i - 1, q);
      }
    }
  }

  lemma {:induction false} NoTokenBeforeCall(ss: seq<State>, ls: seq<Label>, i: nat, q: nat)
    requires Run(ss, ls) && i < |ss| && q >= |ss[i].reqs|
    ensures forall j :: 0 <= j <= i ==> q >= |ss[j].reqs|
  {
    if i > 0 {
      assert |ss[i - 1].reqs| <= |ss[i].reqs|;
      NoTokenBeforeCall(ss, ls, i - 1, q);
    }
  }

  /** When the callback tests `exiting`, JavaScript is called if and only if no teardown has reached
      the request before, over the whole run so far. */
  lemma JavaScriptIsCalledUnlessTornDown(ss: seq<State>, ls: seq<Label>, i: nat, q: nat)
    requires Run(ss, ls) && i < |ls| && ls[i] == Loop(q)
    requires ss[i].reqs[q].pc == CheckExiting
    ensures ss[i].reqs[q].jsCalls == 0
    ensures ss[i + 1].reqs[q].jsCalls == 1 <==> !TornDownBefore(ss, ls, i, q)
  {
    RunKeepsInv(ss, ls, i);
    FlaggedIffTornDown(ss, ls, i, q);
  }

  /** A run and one more step. */
  lemma RunAndStep(ss: seq<State>, ls: seq<Label>, l: Label) returns (ss': seq<State>, ls': seq<Label>)
    requires Run(ss, ls) && Enabled(ss[|ls|], l)
    ensures Run(ss', ls') && |ls'| == |ls| + 1 && ss'[|ls'|] == Step(ss[|ls|], l)
  {
    ss', ls' := ss + [Step(ss[|ls|], l)], ls + [l];
  }

  /** The steps of a single request that is at the top of the stack. */
  lemma LoopStepOfOne(r: Req)
    requires OnLoop(LoopStep(r).pc) && r.pc != Join
    ensures Enabled(State([r], [0]), Loop(0)) && Step(State([r], [0]), Loop(0)) == State([LoopStep(r)], [0])
  {
    hide LoopStep;
    assert [r][0 := LoopStep(r)] == [LoopStep(r)];
  }

  lemma WorkerStepOfOne(r: Req, l: Label, r': Req)
    requires
      || (l == LockReturns(0, 0) && r.worker == Blocked && r' == r.(worker := Returned(0), returned := Some(0)))
      || (l == StoreResult(0) && r.worker == Returned(0) && r' == r.(worker := Stored, result := 0))
      || (l == SendSignal(0) && r.worker == Stored && r' == r.(worker := Sent, pending := true))
      || (l == ThreadExit(0) && r.worker == Sent && r' == r.(worker := Ended))
    ensures Enabled(State([r], [0]), l) && Step(State([r], [0]), l) == State([r'], [0])
  {
    hide LoopStep;
    assert [r][0 := r'] == [r'];
  }

  lemma FirstCall() returns (ss: seq<State>, ls: seq<Label>)
    ensures Run(ss, ls) && ss[|ls|] == State([NewReq(0, true)], [0])
  {
    ss, ls := RunAndStep([INIT], [], Call(0, true));
  }

  /** The race that all this has to survive is real: in some run the worker has ended and its signal is
      pending while the binding function has not even set the environment. */
  lemma WorkerMayFinishFirst() returns (ss: seq<State>, ls: seq<Label>)
    ensures Run(ss, ls) && |ss[|ls|].reqs| == 1
    ensures var r := ss[|ls|].reqs[0]; r.worker == Ended && r.pending && r.pc == SetEnv && !r.env && r.tokMade == 0
  {
    ss, ls := FirstCall();
    hide Step, Enabled;
    var r := NewReq(0, true);
    var labels := [Loop(0), Loop(0), Loop(0), LockReturns(0, 0), StoreResult(0), SendSignal(0), ThreadExit(0)];
    var stages := [
      r,
      r.(pc := InitSignal, native := true),
      r.(pc := CreateThread, native := true, signal := Open),
      r.(pc := SetEnv, native := true, signal := Open, worker := Blocked),
      r.(pc := SetEnv, native := true, signal := Open, worker := Returned(0), returned := Some(0)),
      r.(pc := SetEnv, native := true, signal := Open, worker := Stored, returned := Some(0)),
      r.(pc := SetEnv, native := true, signal := Open, worker := Sent, returned := Some(0), pending := true),
      r.(pc := SetEnv, native := true, signal := Open, worker := Ended, returned := Some(0), pending := true)];
    for i := 0 to 7
      invariant Run(ss, ls) && ss[|ls|] == State([stages[i]], [0])
    {
      if i < 3 {
        assert LoopStep(stages[i]) == stages[i + 1];
        LoopStepOfOne(stages[i]);
      } else {
        WorkerStepOfOne(stages[i], labels[i], stages[i + 1]);
      }
      ss, ls := RunAndStep(ss, ls, labels[i]);
    }
  }

  /** The last step of the binding function leaves the stack empty. */
  lemma LastStepOfOne(r: Req)
    requires OnLoop(r.pc) && LoopStep(r).pc == Parked && r.pc != Join
    ensures Enabled(State([r], [0]), Loop(0)) && Step(State([r], [0]), Loop(0)) == State([LoopStep(r)], [])
  {
    hide LoopStep;
    assert [r][0 := LoopStep(r)] == [LoopStep(r)];
    assert [0][..0] == [];
  }

  /** A run of one request from the loop thread's steps alone. */
  lemma LoopRun(ss: seq<State>, ls: seq<Label>, r: Req) returns (ss': seq<State>, ls': seq<Label>)
    requires Run(ss, ls) && ss[|ls|] == State([r], [0]) && r.pc != Join && OnLoop(r.pc)
    ensures Run(ss', ls')
    ensures ss'[|ls'|] == State([LoopStep(r)], if LoopStep(r).pc == Parked then [] else [0])
  {
    if LoopStep(r).pc == Parked { LastStepOfOne(r); } else { LoopStepOfOne(r); }
    hide Step, Enabled, LoopStep;
    ss', ls' := RunAndStep(ss, ls, Loop(0));
  }

  /** A request whose binding function has returned while its worker is still blocked. */
  function Submitted(): Req {
    NewReq(0, true).(pc := Parked, native := true, signal := Open, worker := Blocked, env := true, exiting := false,
                     ctxMade := 1, cbMade := 1, tokMade := 1)
  }

  lemma SubmittedRun() returns (ss: seq<State>, ls: seq<Label>)
    ensures Run(ss, ls) && ss[|ls|] == State([Submitted()], [])
  {
    ss, ls := FirstCall();
    var r := NewReq(0, true);
    var stages := [
      r,
      r.(pc := InitSignal, native := true),
      r.(pc := CreateThread, native := true, signal := Open),
      r.(pc := SetEnv, native := true, signal := Open, worker := Blocked),
      r.(pc := RefCtx, native := true, signal := Open, worker := Blocked, env := true, exiting := false),
      r.(pc := RefCb, native := true, signal := Open, worker := Blocked, env := true, exiting := false, ctxMade := 1),
      r.(pc := AddTeardown, native := true, signal := Open, worker := Blocked, env := true, exiting := false,
         ctxMade := 1, cbMade := 1),
      Submitted()];
    for i := 0 to 7
      invariant Run(ss, ls) && ss[|ls|] == State([stages[i]], if i == 7 then [] else [0])
    {
      assert LoopStep(stages[i]) == stages[i + 1];
      ss, ls := LoopRun(ss, ls, stages[i]);
    }
  }

  /** The worker may still be running when the loop thread gets its signal, so that the join has to wait
      for it. */
  lemma JoinMayHaveToWait() returns (ss: seq<State>, ls: seq<Label>)
    ensures Run(ss, ls) && |ss[|ls|].reqs| == 1
    ensures var r := ss[|ls|].reqs[0]; r.pc == Join && r.worker == Sent && !Enabled(ss[|ls|], Loop(0))
  {
    ss, ls := SubmittedRun();
    ss, ls := RunAndStep(ss, ls, LockReturns(0, 0));
    ss, ls := RunAndStep(ss, ls, StoreResult(0));
    ss, ls := RunAndStep(ss, ls, SendSignal(0));
    ss, ls := RunAndStep(ss, ls, DispatchSignal(0));
  }

  /** A request whose callback is running JavaScript. */
  function InCallback(): Req {
    Submitted().(pc := InJs, worker := Ended, signal := Closed, returned := Some(0), result := 0,
                 joins := 1, closes := 1, calls := 1, cbFreed := 1, ctxFreed := 1,
                 argument := 0, verdict := Some(false), jsCalls := 1, delivered := Some(0))
  }

  lemma WorkerDoneRun() returns (ss: seq<State>, ls: seq<Label>)
    ensures Run(ss, ls)
    ensures ss[|ls|] == State([Submitted().(worker := Ended, returned := Some(0), result := 0, pending := true)], [])
  {
    ss, ls := SubmittedRun();
    ss, ls := RunAndStep(ss, ls, LockReturns(0, 0));
    ss, ls := RunAndStep(ss, ls, StoreResult(0));
    ss, ls := RunAndStep(ss, ls, SendSignal(0));
    ss, ls := RunAndStep(ss, ls, ThreadExit(0));
  }

  lemma ClosingRun() returns (ss: seq<State>, ls: seq<Label>)
    ensures Run(ss, ls)
    ensures ss[|ls|] == State([Submitted().(worker := Ended, signal := Closing, returned := Some(0), joins := 1, closes := 1)], [])
  {
    ss, ls := WorkerDoneRun();
    ss, ls := RunAndStep(ss, ls, DispatchSignal(0));
    ss, ls := RunAndStep(ss, ls, Loop(0));
    var r := Submitted().(pc := CloseSignal, worker := Ended, returned := Some(0), joins := 1);
    assert ss[|ls|] == State([r], [0]);
    ss, ls := LoopRun(ss, ls, r);
  }

  lemma CallbackRun() returns (ss: seq<State>, ls: seq<Label>)
    ensures Run(ss, ls) && ss[|ls|] == State([InCallback()], [0])
  {
    ss, ls := ClosingRun();
    ss, ls := RunAndStep(ss, ls, DispatchClose(0));
    var r := Submitted().(pc := ReadRequest, worker := Ended, signal := Closed, returned := Some(0), joins := 1, closes := 1, calls := 1);
    assert ss[|ls|] == State([r], [0]);
    var stages := [
      r,
      r.(pc := DeleteCb),
      r.(pc := DeleteCtx, cbFreed := 1),
      r.(pc := BuildArgs, cbFreed := 1, ctxFreed := 1),
      r.(pc := CheckExiting, cbFreed := 1, ctxFreed := 1, argument := 0),
      InCallback()];
    for i := 0 to 5
      invariant Run(ss, ls) && ss[|ls|] == State([stages[i]], [0])
    {
      assert LoopStep(stages[i]) == stages[i + 1];
      ss, ls := LoopRun(ss, ls, stages[i]);
    }
  }

  /** A callback may make the next request before it returns. */
  lemma CallbackMayCallAgain() returns (ss: seq<State>, ls: seq<Label>)
    ensures Run(ss, ls) && |ss[|ls|].reqs| == 2 && ss[|ls|].stack == [0, 1]
    ensures ss[|ls|].reqs[0].pc == InJs && ss[|ls|].reqs[1].pc == SetFields
  {
    ss, ls := CallbackRun();
    ss, ls := RunAndStep(ss, ls, Call(0, true));
  }
}
