/** File locks on Linux: open file description locks, where every request replaces whatever the handle
held on the range, byte by byte. An upgrade or a downgrade is one such request. */
module OfdLocks {
  import opened RwLock

  /** A length of zero reaches to the end of any file. */
  datatype Range = Range(offset: nat, length: nat)

  predicate Covers(r: Range, b: nat) {
    r.offset <= b && (r.length == 0 || b < r.offset + r.length)
  }

  /** What each handle holds on each byte. */
  type Table = (nat, nat) -> Mode

  ghost predicate Conflict(t: Table, h: nat, r: Range, m: Mode) {
    exists o: nat, b: nat :: o != h && Covers(r, b) && !Compatible(t(o, b), m)
  }

  function Set(t: Table, h: nat, r: Range, m: Mode): Table {
    (o: nat, b: nat) => if o == h && Covers(r, b) then m else t(o, b)
  }

  function HoldersAt(t: Table, b: nat): Holders {
    (o: nat) => t(o, b)
  }

  datatype Request = Request(h: nat, r: Range, m: Mode)

  /** Requests that wait are numbered; a handle may have several. */
  datatype State = State(table: Table, waiting: map<nat, Request>)

  datatype Label =
    | TryLock(req: Request)
    | WaitForLock(id: nat, req: Request)
    | Grant(id: nat)
    | Unlock(h: nat, r: Range)
    | Close(h: nat)

  /** The one request behind each lock function of the platform. */
  function TryDowngradeLock(h: nat, r: Range): Label { TryLock(Request(h, r, Shared)) }
  function TryUpgradeLock(h: nat, r: Range): Label { TryLock(Request(h, r, Exclusive)) }
  function WaitForDowngradeLock(id: nat, h: nat, r: Range): Label { WaitForLock(id, Request(h, r, Shared)) }
  function WaitForUpgradeLock(id: nat, h: nat, r: Range): Label { WaitForLock(id, Request(h, r, Exclusive)) }

  ghost predicate Grantable(s: State, req: Request) {
    !Conflict(s.table, req.h, req.r, req.m)
  }

  ghost predicate Enabled(s: State, l: Label) {
    match l
    case TryLock(req) => req.m != Free
    case WaitForLock(id, req) => id !in s.waiting && req.m != Free
    case Grant(id) => id in s.waiting && Grantable(s, s.waiting[id])
    case Unlock(_, _) => true
    case Close(h) => forall id :: id in s.waiting ==> s.waiting[id].h != h
  }

  ghost function Step(s: State, l: Label): State
    requires Enabled(s, l)
  {
    match l
    case TryLock(req) => if Grantable(s, req) then s.(table := Set(s.table, req.h, req.r, req.m)) else s
    case WaitForLock(id, req) => s.(waiting := s.waiting[id := req])
    case Grant(id) =>
      var req := s.waiting[id];
      State(Set(s.table, req.h, req.r, req.m), s.waiting - {id})
    case Unlock(h, r) => s.(table := Set(s.table, h, r, Free))
    case Close(h) => s.(table := Set(s.table, h, Range(0, 0), Free))
  }

  function Handle(s: State, l: Label): nat {
    match l
    case TryLock(req) => req.h
    case WaitForLock(_, req) => req.h
    case Grant(id) => if id in s.waiting then s.waiting[id].h else 0
    case Unlock(h, _) => h
    case Close(h) => h
  }

  /** What setting a byte to `m` is for a handle that holds `was` there. */
  function SetOp(was: Mode, m: Mode): Op {
    if m == Free then Release(Free)
    else if m == Shared && was == Exclusive then Downgrade(Free)
    else Acquire(m)
  }

  /** What a step is on byte `b`: nothing if it is refused or does not reach that byte. */
  ghost function OpAt(s: State, l: Label, b: nat): Op {
    match l
    case TryLock(req) =>
      if Grantable(s, req) && Covers(req.r, b) then SetOp(s.table(req.h, b), req.m) else Keep
    case WaitForLock(_, _) => Keep
    case Grant(id) =>
      if id in s.waiting && Covers(s.waiting[id].r, b) then SetOp(s.table(s.waiting[id].h, b), s.waiting[id].m) else Keep
    case Unlock(_, r) => if Covers(r, b) then Release(Free) else Keep
    case Close(_) => Release(Free)
  }

  lemma SetDoes(t: Table, h: nat, r: Range, m: Mode, b: nat)
    requires m == Free || !Conflict(t, h, r, m)
    ensures Does(HoldersAt(t, b), h, if Covers(r, b) then SetOp(t(h, b), m) else Keep, HoldersAt(Set(t, h, r, m), b))
  {
  }

  /** On every byte, each step does on the reader-writer lock what `OpAt` says: an upgrade is one gain
      of the exclusive mode, a downgrade one weakening. */
  lemma StepRefines(s: State, l: Label, b: nat)
    requires Enabled(s, l)
    ensures Does(HoldersAt(s.table, b), Handle(s, l), OpAt(s, l, b), HoldersAt(Step(s, l).table, b))
  {
    hide Conflict;
    match l
    case TryLock(req) => if Grantable(s, req) { SetDoes(s.table, req.h, req.r, req.m, b); }
    case WaitForLock(id, req) =>
    case Grant(id) => SetDoes(s.table, s.waiting[id].h, s.waiting[id].r, s.waiting[id].m, b);
    case Unlock(h, r) => SetDoes(s.table, h, r, Free, b);
    case Close(h) => SetDoes(s.table, h, Range(0, 0), Free, b);
  }

  ghost predicate Run(ss: seq<State>, ls: seq<Label>) {
    && |ss| == |ls| + 1
    && (forall o, b :: ss[0].table(o, b) == Free)
    && ss[0].waiting == map[]
    && forall i :: 0 <= i < |ls| ==> Enabled(ss[i], ls[i]) && ss[i + 1] == Step(ss[i], ls[i])
  }

  /** Over every run each byte of the file behaves as one reader-writer lock: every step is one of its
      steps, and so two handles only ever hold a byte together if both hold it shared. */
  lemma {:induction false} RunsAreSafe(ss: seq<State>, ls: seq<Label>, i: nat, b: nat)
    requires Run(ss, ls) && i < |ss|
    ensures Safe(HoldersAt(ss[i].table, b))
    ensures i < |ls| ==>
      Does(HoldersAt(ss[i].table, b), Handle(ss[i], ls[i]), OpAt(ss[i], ls[i], b), HoldersAt(ss[i + 1].table, b))
  {
    hide Step, Does, OpAt, Handle, Enabled;
    if i > 0 {
      RunsAreSafe(ss, ls, i - 1, b);
      DoesKeepsSafe(HoldersAt(ss[i - 1].table, b), Handle(ss[i - 1], ls[i - 1]), OpAt(ss[i - 1], ls[i - 1], b),
                    HoldersAt(ss[i].table, b));
    }
    if i < |ls| {
      StepRefines(ss[i], ls[i], b);
    }
  }

  /** A handle that holds the range exclusively is always granted the downgrade, and it takes effect
      in one step: shared on exactly this range, everything else as it was. */
  lemma DowngradeIsAtomic(s: State, h: nat, r: Range)
    requires forall b :: Safe(HoldersAt(s.table, b))
    requires forall b :: Covers(r, b) ==> s.table(h, b) == Exclusive
    ensures var t := Step(s, TryDowngradeLock(h, r));
      forall o, b :: t.table(o, b) == if o == h && Covers(r, b) then Shared else s.table(o, b)
  {
    forall o: nat, b: nat | o != h && Covers(r, b) ensures s.table(o, b) == Free {
      assert Safe(HoldersAt(s.table, b));
      assert Compatible(HoldersAt(s.table, b)(o), HoldersAt(s.table, b)(h));
    }
  }

  /** A try-upgrade succeeds if and only if no other handle holds any byte of the range. When it is
      refused nothing changes: the handle keeps what it had. */
  lemma TryUpgradeIffAlone(s: State, h: nat, r: Range)
    ensures var t := Step(s, TryUpgradeLock(h, r));
      var alone := forall o: nat, b: nat :: o != h && Covers(r, b) ==> s.table(o, b) == Free;
      && (alone <==> Grantable(s, Request(h, r, Exclusive)))
      && (alone ==> forall b :: Covers(r, b) ==> t.table(h, b) == Exclusive)
      && (!alone ==> t == s)
  {
  }

  /** What on the range keeps handle `h` from mode `m`: for an exclusive lock any hold of another handle,
      for a shared one an exclusive hold of another. */
  ghost predicate Clear(t: Table, h: nat, r: Range, m: Mode) {
    forall o: nat, b: nat :: o != h && Covers(r, b) ==> if m == Exclusive then t(o, b) == Free else t(o, b) != Exclusive
  }

  /** The handle has exactly this mode on the bytes of the range, and everything else is as it was. */
  ghost predicate Becomes(t: Table, t': Table, h: nat, r: Range, m: Mode) {
    forall o: nat, b: nat :: t'(o, b) == if o == h && Covers(r, b) then m else t(o, b)
  }

  /** A request that does not wait is granted if and only if no other handle is in the way; refused, it
      changes nothing. */
  lemma TryLockAnswers(s: State, h: nat, r: Range, m: Mode)
    requires m != Free
    ensures var l := TryLock(Request(h, r, m));
      && Enabled(s, l) && Step(s, l).waiting == s.waiting
      && if Clear(s.table, h, r, m) then Becomes(s.table, Step(s, l).table, h, r, m) else Step(s, l) == s
  {
    hide Covers;
  }

  /** A request that waits can be granted at any later time if and only if no other handle is in the way
      then, and it then takes effect in one step. */
  lemma WaitForLockAnswers(s: State, id: nat, h: nat, r: Range, m: Mode)
    requires m != Free && id in s.waiting && s.waiting[id] == Request(h, r, m)
    ensures Enabled(s, Grant(id)) <==> Clear(s.table, h, r, m)
    ensures Enabled(s, Grant(id)) ==>
      Becomes(s.table, Step(s, Grant(id)).table, h, r, m) && Step(s, Grant(id)).waiting == s.waiting - {id}
  {
    hide Covers;
  }

  /** Unlocking is always possible, frees exactly the bytes of the range, and makes nobody stop waiting. */
  lemma UnlockAnswers(s: State, h: nat, r: Range)
    ensures Enabled(s, Unlock(h, r))
    ensures Becomes(s.table, Step(s, Unlock(h, r)).table, h, r, Free) && Step(s, Unlock(h, r)).waiting == s.waiting
  {
    hide Covers;
  }

  /** From the call on the request waits, whatever the other steps are, until it is granted. */
  lemma {:induction false} RequestWaits(ss: seq<State>, ls: seq<Label>, i: nat, j: nat, id: nat, req: Request)
    requires |ss| == |ls| + 1 && i < j < |ss| && ls[i] == WaitForLock(id, req)
    requires forall n :: 0 <= n < |ls| ==> Enabled(ss[n], ls[n]) && ss[n + 1] == Step(ss[n], ls[n])
    requires forall n :: i < n < j ==> ls[n] != Grant(id)
    ensures id in ss[j].waiting && ss[j].waiting[id] == req
  {
    if i + 1 < j {
      RequestWaits(ss, ls, i, j - 1, id, req);
      hide Step, Enabled;
      StepFrame(ss[j - 1], ls[j - 1], 0, id);
    }
  }

  /** A wait-for-upgrade is granted at any later time if and only if no other handle holds a byte of the
      range then, and makes exactly the bytes of the range exclusive. */
  lemma WaitForUpgradeAnswers(ss: seq<State>, ls: seq<Label>, i: nat, j: nat, id: nat, h: nat, r: Range)
    requires |ss| == |ls| + 1 && i < j < |ss| && ls[i] == WaitForUpgradeLock(id, h, r)
    requires forall n :: 0 <= n < |ls| ==> Enabled(ss[n], ls[n]) && ss[n + 1] == Step(ss[n], ls[n])
    requires forall n :: i < n < j ==> ls[n] != Grant(id)
    ensures Enabled(ss[j], Grant(id)) <==> forall o: nat, b: nat :: o != h && Covers(r, b) ==> ss[j].table(o, b) == Free
    ensures Enabled(ss[j], Grant(id)) ==> Becomes(ss[j].table, Step(ss[j], Grant(id)).table, h, r, Exclusive)
  {
    RequestWaits(ss, ls, i, j, id, Request(h, r, Exclusive));
    WaitForLockAnswers(ss[j], id, h, r, Exclusive);
    hide Enabled, Step, Covers;
  }

  /** A wait-for-downgrade does not wait: the exclusive holder is granted it in the state it finds. */
  lemma WaitForDowngradeAnswers(s: State, id: nat, h: nat, r: Range)
    requires forall b :: Safe(HoldersAt(s.table, b))
    requires id !in s.waiting && forall b :: Covers(r, b) ==> s.table(h, b) == Exclusive
    ensures var l := WaitForDowngradeLock(id, h, r);
      && Enabled(s, l) && Enabled(Step(s, l), Grant(id))
      && var t := Step(Step(s, l), Grant(id)); Becomes(s.table, t.table, h, r, Shared) && t.waiting == s.waiting
  {
    forall o: nat, b: nat | o != h && Covers(r, b) ensures s.table(o, b) == Free {
      assert Safe(HoldersAt(s.table, b));
      assert Compatible(HoldersAt(s.table, b)(o), HoldersAt(s.table, b)(h));
    }
    hide Covers, Safe;
    var t := Step(s, WaitForDowngradeLock(id, h, r));
    WaitForLockAnswers(t, id, h, r, Shared);
    assert s.waiting[id := Request(h, r, Shared)] - {id} == s.waiting;
  }

  // ---- When a waiting request can still be granted ----

  /** The request `i` is refused because of what the handle of the request `j` holds on byte `b`. */
  ghost predicate BlockedBy(s: State, i: nat, j: nat, b: nat) {
    && i in s.waiting && j in s.waiting
    && s.waiting[i].h != s.waiting[j].h && Covers(s.waiting[i].r, b)
    && !Compatible(s.table(s.waiting[j].h, b), s.waiting[i].m)
  }

  ghost predicate BlockedWithin(s: State, i: nat, d: set<nat>) {
    exists j, b :: j in d && BlockedBy(s, i, j, b)
  }

  /** Each of these requests is refused because of another of them. */
  ghost predicate Deadlocked(s: State, d: set<nat>) {
    d <= s.waiting.Keys && forall i :: i in d ==> BlockedWithin(s, i, d)
  }

  /** The handles of these requests do nothing but wait for them. */
  ghost predicate Patient(s: State, l: Label, d: set<nat>) {
    forall i :: i in d && i in s.waiting && s.waiting[i].h == Handle(s, l) ==> l == Grant(i)
  }

  ghost predicate Continues(ss: seq<State>, ls: seq<Label>, d: set<nat>) {
    && |ss| == |ls| + 1
    && forall n :: 0 <= n < |ls| ==> Enabled(ss[n], ls[n]) && Patient(ss[n], ls[n], d) && ss[n + 1] == Step(ss[n], ls[n])
  }

  ghost predicate SameHold(s: State, t: State, h: nat) {
    forall b :: t.table(h, b) == s.table(h, b)
  }

  /** The requests of `d` and what their handles hold are the same in both states. */
  ghost predicate Agree(s: State, t: State, d: set<nat>) {
    && d <= s.waiting.Keys && d <= t.waiting.Keys
    && forall i :: i in d ==> t.waiting[i] == s.waiting[i] && SameHold(s, t, s.waiting[i].h)
  }

  lemma AgreeFurther(s: State, t: State, u: State, d: set<nat>)
    requires Agree(s, t, d) && Agree(t, u, d)
    ensures Agree(s, u, d)
  {
    forall i | i in d ensures SameHold(s, u, s.waiting[i].h) {
      assert SameHold(s, t, s.waiting[i].h) && SameHold(t, u, t.waiting[i].h);
    }
  }

  lemma DeadlockCarries(s: State, t: State, d: set<nat>)
    requires Agree(s, t, d) && Deadlocked(s, d)
    ensures Deadlocked(t, d)
  {
    forall i | i in d ensures BlockedWithin(t, i, d) {
      assert BlockedWithin(s, i, d);
      var j, b :| j in d && BlockedBy(s, i, j, b);
      assert SameHold(s, t, s.waiting[j].h);
      assert BlockedBy(t, i, j, b);
    }
  }

  lemma BlockedIsRefused(s: State, i: nat, j: nat, b: nat)
    requires BlockedBy(s, i, j, b)
    ensures !Enabled(s, Grant(i))
  {
    var p, o := s.waiting[i], s.waiting[j].h;
    hide Covers, Compatible;
    assert o != p.h && Covers(p.r, b) && !Compatible(s.table(o, b), p.m);
  }

  lemma DeadlockedIsRefused(s: State, d: set<nat>, i: nat)
    requires Deadlocked(s, d) && i in d
    ensures !Enabled(s, Grant(i))
  {
    assert BlockedWithin(s, i, d);
    hide Deadlocked, BlockedBy, Enabled;
    var j, b :| j in d && BlockedBy(s, i, j, b);
    BlockedIsRefused(s, i, j, b);
  }

  /** A step leaves alone what the other handles hold, and every waiting request but a granted one. */
  lemma StepFrame(s: State, l: Label, h: nat, i: nat)
    requires Enabled(s, l)
    ensures h != Handle(s, l) ==> SameHold(s, Step(s, l), h)
    ensures i in s.waiting && l != Grant(i) ==> i in Step(s, l).waiting && Step(s, l).waiting[i] == s.waiting[i]
  {
    hide Grantable, Covers;
    match l
    case TryLock(req) =>
    case WaitForLock(id, req) => assert id !in s.waiting;
    case Grant(id) =>
    case Unlock(_, r) =>
    case Close(_) =>
  }

  lemma PatientStepAgrees(s: State, l: Label, d: set<nat>)
    requires Deadlocked(s, d) && Enabled(s, l) && Patient(s, l, d)
    ensures Agree(s, Step(s, l), d)
  {
    assert d <= s.waiting.Keys;
    hide Deadlocked, Step, Enabled, Handle, SameHold;
    forall i | i in d
      ensures i in Step(s, l).waiting && Step(s, l).waiting[i] == s.waiting[i]
      ensures SameHold(s, Step(s, l), s.waiting[i].h)
    {
      DeadlockedIsRefused(s, d, i);
      StepFrame(s, l, s.waiting[i].h, i);
    }
  }

  lemma DeadlockStep(s: State, t: State, l: Label, d: set<nat>)
    requires Deadlocked(s, d) && Enabled(s, l) && Patient(s, l, d) && t == Step(s, l)
    ensures Agree(s, t, d) && Deadlocked(t, d)
  {
    PatientStepAgrees(s, l, d);
    DeadlockCarries(s, t, d);
  }

  lemma DeadlockStart(s: State, d: set<nat>)
    requires Deadlocked(s, d)
    ensures Agree(s, s, d) && forall i :: i in d ==> !Enabled(s, Grant(i))
  {
    forall i | i in d ensures !Enabled(s, Grant(i)) {
      DeadlockedIsRefused(s, d, i);
    }
  }

  /** Requests that block each other stay blocked, whatever the other handles do. */
  lemma {:induction false} DeadlockLasts(ss: seq<State>, ls: seq<Label>, d: set<nat>, n: nat)
    requires Continues(ss, ls, d) && Deadlocked(ss[0], d) && n <= |ls|
    ensures Agree(ss[0], ss[n], d) && Deadlocked(ss[n], d)
    ensures forall i :: i in d ==> !Enabled(ss[n], Grant(i))
  {
    hide Step, Enabled, Patient, Deadlocked, Agree;
    if n > 0 {
      DeadlockLasts(ss, ls, d, n - 1);
      DeadlockStep(ss[n - 1], ss[n], ls[n - 1], d);
      AgreeFurther(ss[0], ss[n - 1], ss[n], d);
    }
    DeadlockStart(ss[n], d);
  }

  /** Only these handles hold anything. */
  ghost predicate FewHolders(s: State, hs: set<nat>) {
    forall o, b :: s.table(o, b) != Free ==> o in hs
  }

  /** No handle waits twice. */
  ghost predicate OneEach(s: State) {
    forall i, j :: i in s.waiting && j in s.waiting && i != j ==> s.waiting[i].h != s.waiting[j].h
  }

  /** One step in front of a continuation. */
  lemma ContinuesFrom(s: State, l: Label, ss: seq<State>, ls: seq<Label>, d: set<nat>)
    requires Enabled(s, l) && Patient(s, l, d) && Continues(ss, ls, d) && ss[0] == Step(s, l)
    ensures Continues([s] + ss, [l] + ls, d)
  {
    hide Step, Enabled, Patient;
    var ss', ls' := [s] + ss, [l] + ls;
    forall n | 0 <= n < |ls'|
      ensures Enabled(ss'[n], ls'[n]) && Patient(ss'[n], ls'[n], d) && ss'[n + 1] == Step(ss'[n], ls'[n])
    {
      if n > 0 { assert ss'[n] == ss[n - 1] && ls'[n] == ls[n - 1]; }
    }
  }

  /** A handle that waits for nothing can close its file, and takes no part in any deadlock. */
  lemma CloseStep(s: State, hs: set<nat>, d: set<nat>, o: nat)
    requires FewHolders(s, hs) && OneEach(s) && forall j :: j in s.waiting ==> s.waiting[j].h != o
    ensures Enabled(s, Close(o)) && Patient(s, Close(o), d)
    ensures var t := Step(s, Close(o));
      && FewHolders(t, hs - {o}) && OneEach(t) && t.waiting == s.waiting
      && forall left: set<nat> :: left <= s.waiting.Keys ==> Agree(t, s, left)
  {
    hide Grantable;
  }

  lemma GrantStep(s: State, hs: set<nat>, d: set<nat>, i: nat)
    requires FewHolders(s, hs) && OneEach(s) && i in s.waiting && Grantable(s, s.waiting[i])
    ensures Enabled(s, Grant(i)) && Patient(s, Grant(i), d)
    ensures var t := Step(s, Grant(i));
      && FewHolders(t, hs + {s.waiting[i].h}) && OneEach(t) && t.waiting == s.waiting - {i}
      && forall left: set<nat> :: left <= t.waiting.Keys ==> Agree(t, s, left)
  {
    hide Grantable;
  }

  ghost predicate OnlyWaitersHold(s: State, hs: set<nat>) {
    FewHolders(s, hs) && forall o :: o in hs ==> exists j :: j in s.waiting && s.waiting[j].h == o
  }

  lemma StuckOne(s: State, hs: set<nat>, i: nat)
    requires OnlyWaitersHold(s, hs) && i in s.waiting && !Grantable(s, s.waiting[i])
    ensures BlockedWithin(s, i, s.waiting.Keys)
  {
    var p := s.waiting[i];
    var o: nat, b: nat :| o != p.h && Covers(p.r, b) && !Compatible(s.table(o, b), p.m);
    assert o in hs;
    var j :| j in s.waiting && s.waiting[j].h == o;
    assert BlockedBy(s, i, j, b);
  }

  /** If only waiting handles hold anything and every request is refused, they all block each other. */
  lemma AllStuck(s: State, hs: set<nat>)
    requires OnlyWaitersHold(s, hs) && forall i :: i in s.waiting ==> !Grantable(s, s.waiting[i])
    ensures Deadlocked(s, s.waiting.Keys)
  {
    hide OnlyWaitersHold, Grantable, BlockedWithin;
    forall i | i in s.waiting ensures BlockedWithin(s, i, s.waiting.Keys) {
      StuckOne(s, hs, i);
    }
  }

  lemma NoSteps(s: State, d: set<nat>)
    ensures Continues([s], [], d)
  {
  }

  /** Handles that wait for nothing close their files, a granted one included, until nobody is left but
      requests that block each other; every other request has then been granted. */
  lemma {:induction false} Serve(s: State, hs: set<nat>, d: set<nat>) returns (ss: seq<State>, ls: seq<Label>, left: set<nat>)
    requires FewHolders(s, hs) && OneEach(s) && s.waiting.Keys <= d
    ensures Continues(ss, ls, d) && ss[0] == s
    ensures left <= s.waiting.Keys && Deadlocked(s, left)
    ensures forall i :: i in s.waiting && i !in left ==> Grant(i) in ls
    decreases |s.waiting.Keys|, |hs|
  {
    hide Deadlocked, Step, Enabled, Patient, Agree, OneEach, FewHolders, Grantable;
    var l, hs';
    if o :| o in hs && forall j :: j in s.waiting ==> s.waiting[j].h != o {
      l, hs' := Close(o), hs - {o};
      CloseStep(s, hs, d, o);
    } else if i :| i in s.waiting && Grantable(s, s.waiting[i]) {
      l, hs' := Grant(i), hs + {s.waiting[i].h};
      GrantStep(s, hs, d, i);
      assert Step(s, l).waiting.Keys == s.waiting.Keys - {i};
    } else {
      AllStuck(s, hs);
      NoSteps(s, d);
      return [s], [], s.waiting.Keys;
    }
    ss, ls, left := Serve(Step(s, l), hs', d);
    DeadlockCarries(Step(s, l), s, left);
    ContinuesFrom(s, l, ss, ls, d);
    hide Continues;
    ss, ls := [s] + ss, [l] + ls;
  }

  /** There is a future in which the waiting handles only wait and the request is granted. */
  ghost predicate CanBeGranted(s: State, i: nat) {
    exists ss, ls :: Continues(ss, ls, s.waiting.Keys) && ss[0] == s && Grant(i) in ls
  }

  /** A waiting request can still be granted if and only if it is not one of a set of requests that
      block each other. Any number of requests of either kind, on any ranges, by handles that hold
      anything. */
  lemma GrantedIffNotDeadlocked(s: State, hs: set<nat>, i: nat)
    requires FewHolders(s, hs) && OneEach(s) && i in s.waiting
    ensures CanBeGranted(s, i) <==> !exists d: set<nat> :: i in d && Deadlocked(s, d)
  {
    hide Deadlocked, FewHolders, OneEach;
    var ss, ls, left := Serve(s, hs, s.waiting.Keys);
    if i !in left {
      assert CanBeGranted(s, i);
    }
    forall d: set<nat> | i in d && Deadlocked(s, d) ensures !CanBeGranted(s, i) {
      DeadlockedNeverGranted(s, d, i);
    }
  }

  lemma DeadlockedNeverGranted(s: State, d: set<nat>, i: nat)
    requires Deadlocked(s, d) && i in d
    ensures !CanBeGranted(s, i)
  {
    hide Step, Enabled;
    assert d <= s.waiting.Keys;
    hide Deadlocked;
    forall ss, ls | Continues(ss, ls, s.waiting.Keys) && ss[0] == s ensures Grant(i) !in ls {
      assert Continues(ss, ls, d);
      forall n | 0 <= n < |ls| ensures ls[n] != Grant(i) {
        DeadlockLasts(ss, ls, d, n);
      }
    }
  }

  // ---- Two upgrades that wait for each other ----

  /** Two handles that share a byte both wait to upgrade a range covering it. */
  ghost predicate WaitForEachOther(s: State, i: nat, j: nat, b: nat) {
    && i in s.waiting && j in s.waiting
    && var p, q := s.waiting[i], s.waiting[j];
       && p.h != q.h && p.m == Exclusive && q.m == Exclusive
       && Covers(p.r, b) && Covers(q.r, b)
       && s.table(p.h, b) == Shared && s.table(q.h, b) == Shared
  }

  lemma MutualWaitIsDeadlock(s: State, i: nat, j: nat, b: nat)
    requires WaitForEachOther(s, i, j, b)
    ensures Deadlocked(s, {i, j})
  {
    assert BlockedBy(s, i, j, b) && BlockedBy(s, j, i, b);
    assert BlockedWithin(s, i, {i, j}) && BlockedWithin(s, j, {i, j});
  }

  lemma MutualWaitCarries(s: State, t: State, i: nat, j: nat, b: nat)
    requires WaitForEachOther(s, i, j, b) && Agree(s, t, {i, j})
    ensures WaitForEachOther(t, i, j, b) && t.waiting[i] == s.waiting[i] && t.waiting[j] == s.waiting[j]
  {
    assert i in {i, j} && j in {i, j};
    hide Covers;
    assert SameHold(s, t, s.waiting[i].h) && SameHold(s, t, s.waiting[j].h);
  }

  /** Neither can be granted, and whatever the other handles do, neither ever will be, as long as the
      two blocked handles do nothing else. */
  lemma UpgradesCanDeadlock(ss: seq<State>, ls: seq<Label>, i: nat, j: nat, b: nat, n: nat)
    requires Continues(ss, ls, {i, j}) && WaitForEachOther(ss[0], i, j, b) && n <= |ls|
    ensures WaitForEachOther(ss[n], i, j, b)
    ensures ss[n].waiting[i] == ss[0].waiting[i] && ss[n].waiting[j] == ss[0].waiting[j]
    ensures !Enabled(ss[n], Grant(i)) && !Enabled(ss[n], Grant(j))
  {
    assert n < |ss|;
    hide Deadlocked, Continues, Enabled, Agree, WaitForEachOther;
    MutualWaitIsDeadlock(ss[0], i, j, b);
    DeadlockLasts(ss, ls, {i, j}, n);
    MutualWaitCarries(ss[0], ss[n], i, j, b);
    assert i in {i, j} && j in {i, j};
  }

  /** Handles that wait to upgrade exactly what they hold shared, once each. */
  ghost predicate Upgrades(s: State) {
    && OneEach(s)
    && forall i, b :: i in s.waiting ==>
         && s.waiting[i].m == Exclusive
         && s.table(s.waiting[i].h, b) == if Covers(s.waiting[i].r, b) then Shared else Free
  }

  /** Among upgrades, being blocked by another request is waiting for each other. */
  lemma BlockedUpgradesAreMutual(s: State, i: nat, j: nat, b: nat)
    requires Upgrades(s)
    ensures BlockedBy(s, i, j, b) <==> WaitForEachOther(s, i, j, b)
  {
  }

  /** A waiting upgrade can still be granted if and only if there is no other with which it shares a
      byte: whatever deadlock an upgrade is in, it is one of two that wait for each other. */
  lemma UpgradeGrantedIffNotMutual(s: State, hs: set<nat>, i: nat)
    requires FewHolders(s, hs) && Upgrades(s) && i in s.waiting
    ensures CanBeGranted(s, i) <==> forall j, b :: !WaitForEachOther(s, i, j, b)
  {
    GrantedIffNotDeadlocked(s, hs, i);
    forall j, b | WaitForEachOther(s, i, j, b) ensures !CanBeGranted(s, i) {
      MutualWaitIsDeadlock(s, i, j, b);
      assert i in {i, j};
    }
    forall d: set<nat> | i in d && Deadlocked(s, d) ensures exists j, b :: WaitForEachOther(s, i, j, b) {
      assert BlockedWithin(s, i, d);
      var j, b :| j in d && BlockedBy(s, i, j, b);
      BlockedUpgradesAreMutual(s, i, j, b);
    }
  }

  /** What a caller can see of two ranges: whether they have a byte in common. */
  predicate Overlap(p: Range, q: Range) {
    (p.length == 0 || q.offset < p.offset + p.length) && (q.length == 0 || p.offset < q.offset + q.length)
  }

  lemma OverlapIffCommonByte(p: Range, q: Range)
    ensures Overlap(p, q) <==> exists b :: Covers(p, b) && Covers(q, b)
  {
    var b := if p.offset < q.offset then q.offset else p.offset;
    assert Overlap(p, q) ==> Covers(p, b) && Covers(q, b);
  }

  /** There is a future in which everyone who waits only waits, and everyone is granted. */
  ghost predicate AllCanBeGranted(s: State) {
    exists ss, ls ::
      Continues(ss, ls, s.waiting.Keys) && ss[0] == s && forall i :: i in s.waiting ==> Grant(i) in ls
  }

  /** Two upgrades wait for each other at some byte if and only if their ranges overlap. */
  lemma MutualIffOverlap(s: State, i: nat, j: nat)
    requires Upgrades(s) && i in s.waiting && j in s.waiting
    ensures (exists b :: WaitForEachOther(s, i, j, b)) <==> i != j && Overlap(s.waiting[i].r, s.waiting[j].r)
  {
    var p, q := s.waiting[i].r, s.waiting[j].r;
    hide Covers, Overlap;
    OverlapIffCommonByte(p, q);
    if i != j && Overlap(p, q) {
      var b :| Covers(p, b) && Covers(q, b);
      assert WaitForEachOther(s, i, j, b);
    }
  }

  lemma OverlapKeepsOneWaiting(s: State, hs: set<nat>, i: nat, j: nat)
    requires FewHolders(s, hs) && Upgrades(s) && i in s.waiting && j in s.waiting
    requires i != j && Overlap(s.waiting[i].r, s.waiting[j].r)
    ensures !AllCanBeGranted(s)
  {
    MutualIffOverlap(s, i, j);
    UpgradeGrantedIffNotMutual(s, hs, i);
    hide Continues, Overlap, Upgrades, FewHolders, WaitForEachOther;
    assert AllCanBeGranted(s) ==> CanBeGranted(s, i);
  }

  lemma DeadlockedUpgradesOverlap(s: State, d: set<nat>, i: nat) returns (j: nat)
    requires Upgrades(s) && Deadlocked(s, d) && i in d
    ensures i in s.waiting && j in s.waiting && i != j && Overlap(s.waiting[i].r, s.waiting[j].r)
  {
    assert BlockedWithin(s, i, d);
    hide Deadlocked, Overlap, Covers, Upgrades;
    var b;
    j, b :| j in d && BlockedBy(s, i, j, b);
    BlockedUpgradesAreMutual(s, i, j, b);
    MutualIffOverlap(s, i, j);
  }

  lemma ApartLetsAllFinish(s: State, hs: set<nat>)
    requires FewHolders(s, hs) && Upgrades(s)
    requires forall i, j :: i in s.waiting && j in s.waiting && i != j ==> !Overlap(s.waiting[i].r, s.waiting[j].r)
    ensures AllCanBeGranted(s)
  {
    var ss, ls, left := Serve(s, hs, s.waiting.Keys);
    hide Continues, Overlap, Upgrades, Deadlocked, FewHolders;
    if i :| i in left {
      var j := DeadlockedUpgradesOverlap(s, left, i);
      assert false;
    }
  }

  /** Shared holders that all upgrade can all finish if and only if no two of their ranges overlap. */
  lemma UpgradesFinishIffApart(s: State, hs: set<nat>)
    requires FewHolders(s, hs) && Upgrades(s)
    ensures AllCanBeGranted(s) <==>
      forall i, j :: i in s.waiting && j in s.waiting && i != j ==> !Overlap(s.waiting[i].r, s.waiting[j].r)
  {
    hide *;
    if i, j :| i in s.waiting && j in s.waiting && i != j && Overlap(s.waiting[i].r, s.waiting[j].r) {
      OverlapKeepsOneWaiting(s, hs, i, j);
    } else {
      ApartLetsAllFinish(s, hs);
    }
  }

  // ---- Shared holders that all call for an upgrade ----

  /** Handle `hs[i]` holds exactly the range `rs[i]`, shared, and no handle is named twice. */
  ghost predicate ShareExactly(t: Table, hs: seq<nat>, rs: seq<Range>) {
    && |hs| == |rs| && (forall i, j :: 0 <= i < j < |hs| ==> hs[i] != hs[j])
    && forall i, b :: 0 <= i < |hs| ==> t(hs[i], b) == if Covers(rs[i], b) then Shared else Free
  }

  /** The first `n` of them wait for their upgrade, and nobody else waits. */
  ghost predicate FirstWait(s: State, hs: seq<nat>, rs: seq<Range>, n: nat)
    requires n <= |hs| == |rs|
  {
    && (forall i: nat :: i in s.waiting <==> i < n)
    && forall i :: 0 <= i < n ==> s.waiting[i] == Request(hs[i], rs[i], Exclusive)
  }

  /** They make the call one after the other. */
  ghost predicate Called(ss: seq<State>, ls: seq<Label>, hs: seq<nat>, rs: seq<Range>, n: nat)
    requires n <= |hs| == |rs|
  {
    && |ss| == n + 1 && |ls| == n
    && forall i :: 0 <= i < n ==>
         ls[i] == WaitForUpgradeLock(i, hs[i], rs[i]) && Enabled(ss[i], ls[i]) && ss[i + 1] == Step(ss[i], ls[i])
  }

  lemma NextCalls(s: State, hs: seq<nat>, rs: seq<Range>, n: nat)
    requires n < |hs| == |rs| && FirstWait(s, hs, rs, n)
    ensures var l := WaitForUpgradeLock(n, hs[n], rs[n]);
      Enabled(s, l) && Step(s, l).table == s.table && FirstWait(Step(s, l), hs, rs, n + 1)
  {
  }

  lemma CalledOnceMore(ss: seq<State>, ls: seq<Label>, hs: seq<nat>, rs: seq<Range>, n: nat)
    requires n < |hs| == |rs| && Called(ss, ls, hs, rs, n)
    requires var l := WaitForUpgradeLock(n, hs[n], rs[n]); Enabled(ss[n], l)
    ensures var l := WaitForUpgradeLock(n, hs[n], rs[n]); Called(ss + [Step(ss[n], l)], ls + [l], hs, rs, n + 1)
  {
    hide Step, Enabled, WaitForUpgradeLock;
    var l := WaitForUpgradeLock(n, hs[n], rs[n]);
    var ss', ls' := ss + [Step(ss[n], l)], ls + [l];
    forall i | 0 <= i < n + 1
      ensures ls'[i] == WaitForUpgradeLock(i, hs[i], rs[i]) && Enabled(ss'[i], ls'[i]) && ss'[i + 1] == Step(ss'[i], ls'[i])
    {
      assert ss'[i] == ss[i];
    }
  }

  /** They can all make it, and no call has any effect on the locks. */
  lemma {:induction false} AllCall(s: State, hs: seq<nat>, rs: seq<Range>, n: nat) returns (ss: seq<State>, ls: seq<Label>)
    requires s.waiting == map[] && n <= |hs| == |rs|
    ensures Called(ss, ls, hs, rs, n) && ss[0] == s
    ensures ss[n].table == s.table && FirstWait(ss[n], hs, rs, n)
  {
    if n == 0 {
      ss, ls := [s], [];
    } else {
      ss, ls := AllCall(s, hs, rs, n - 1);
      assert |ss| == n;
      hide Step, Enabled, FirstWait, Called, WaitForUpgradeLock;
      NextCalls(ss[n - 1], hs, rs, n - 1);
      CalledOnceMore(ss, ls, hs, rs, n - 1);
      var l := WaitForUpgradeLock(n - 1, hs[n - 1], rs[n - 1]);
      ss, ls := ss + [Step(ss[n - 1], l)], ls + [l];
    }
  }

  lemma WaitersAreUpgrades(s: State, hs: seq<nat>, rs: seq<Range>)
    requires ShareExactly(s.table, hs, rs) && FirstWait(s, hs, rs, |hs|)
    ensures Upgrades(s)
  {
    hide Covers;
    forall i, j | i in s.waiting && j in s.waiting && i != j ensures s.waiting[i].h != s.waiting[j].h {
      assert i < j ==> hs[i] != hs[j];
      assert j < i ==> hs[j] != hs[i];
    }
  }

  lemma WaitersApart(t: State, hs: seq<nat>, rs: seq<Range>)
    requires |hs| == |rs| && FirstWait(t, hs, rs, |hs|)
    ensures (forall i, j :: i in t.waiting && j in t.waiting && i != j ==> !Overlap(t.waiting[i].r, t.waiting[j].r))
      <==> forall i, j :: 0 <= i < j < |rs| ==> !Overlap(rs[i], rs[j])
  {
    if forall i, j :: i in t.waiting && j in t.waiting && i != j ==> !Overlap(t.waiting[i].r, t.waiting[j].r) {
      forall i, j | 0 <= i < j < |rs| ensures !Overlap(rs[i], rs[j]) {
        assert i in t.waiting && j in t.waiting;
      }
    } else {
      var i, j :| i in t.waiting && j in t.waiting && i != j && Overlap(t.waiting[i].r, t.waiting[j].r);
      assert Overlap(rs[i], rs[j]) && Overlap(rs[j], rs[i]);
    }
  }

  /** Shared holders that all call wait-for-upgrade on what they hold: they come to a state in which
      everyone can be granted if and only if no two of the ranges overlap. */
  lemma CallersFinishIffApart(s: State, few: set<nat>, hs: seq<nat>, rs: seq<Range>) returns (ss: seq<State>, ls: seq<Label>)
    requires FewHolders(s, few) && s.waiting == map[] && ShareExactly(s.table, hs, rs)
    ensures Called(ss, ls, hs, rs, |hs|) && ss[0] == s
    ensures AllCanBeGranted(ss[|hs|]) <==> forall i, j :: 0 <= i < j < |rs| ==> !Overlap(rs[i], rs[j])
  {
    ss, ls := AllCall(s, hs, rs, |hs|);
    var t := ss[|hs|];
    WaitersAreUpgrades(t, hs, rs);
    assert FewHolders(t, few);
    hide AllCanBeGranted, Upgrades, FewHolders, ShareExactly, FirstWait, Overlap, Called;
    UpgradesFinishIffApart(t, few);
    WaitersApart(t, hs, rs);
  }

  /** In a state that a run reaches, no more handles hold anything than steps were taken. */
  lemma {:induction false} RunHasFewHolders(ss: seq<State>, ls: seq<Label>, i: nat) returns (hs: set<nat>)
    requires Run(ss, ls) && i < |ss|
    ensures FewHolders(ss[i], hs)
    ensures |hs| <= i
  {
    if i == 0 {
      hs := {};
    } else {
      var before := RunHasFewHolders(ss, ls, i - 1);
      var s, t, l := ss[i - 1], ss[i], ls[i - 1];
      hs := before + {Handle(s, l)};
      forall o: nat | o != Handle(s, l) ensures SameHold(s, t, o) {
        StepFrame(s, l, o, 0);
      }
    }
  }

  /** The stuck pair is reached by two clients that share the whole file and both upgrade. */
  lemma DeadlockIsReachable() returns (ss: seq<State>, ls: seq<Label>)
    ensures Run(ss, ls) && WaitForEachOther(ss[|ls|], 0, 1, 0)
    ensures ls == [
      TryLock(Request(1, Range(0, 0), Shared)), TryLock(Request(2, Range(0, 0), Shared)),
      WaitForUpgradeLock(0, 1, Range(0, 0)), WaitForUpgradeLock(1, 2, Range(0, 0))]
  {
    var all := Range(0, 0);
    ls := [TryLock(Request(1, all, Shared)), TryLock(Request(2, all, Shared)),
           WaitForUpgradeLock(0, 1, all), WaitForUpgradeLock(1, 2, all)];
    var s0 := State((o: nat, b: nat) => Free, map[]);
    var s1 := Step(s0, ls[0]);
    var s2 := Step(s1, ls[1]);
    var s3 := Step(s2, ls[2]);
    ss := [s0, s1, s2, s3, Step(s3, ls[3])];
  }
}
