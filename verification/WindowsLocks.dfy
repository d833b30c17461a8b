/** File locks on Windows: the table kept by `LockFileEx` and `UnlockFileEx`, the lock functions built
on it, and the system in which any number of handles run those functions at the same time.

A downgrade is two kernel calls, lock shared and then unlock; an upgrade is unlock and then lock
exclusive. Steps of other handles may come between the two. */
module WindowsLocks {
  import opened RwLock

  datatype Range = Range(start: nat, len: nat)

  const SIZE_MAX: nat := 0xFFFF_FFFF_FFFF_FFFF

  /** A length of zero asks for everything from the offset on. */
  function RangeOf(offset: nat, length: nat): Range {
    Range(offset, if length == 0 then SIZE_MAX else length)
  }

  predicate Covers(r: Range, b: nat) {
    r.start <= b < r.start + r.len
  }

  predicate Overlap(r: Range, s: Range) {
    r.len > 0 && s.len > 0 && r.start < s.start + s.len && s.start < r.start + r.len
  }

  datatype Entry = Entry(h: nat, r: Range, m: Mode)

  type Table = multiset<Entry>

  /** An entry that stands in the way of a request: for an exclusive request any overlap, even with
      the handle's own locks; for a shared one only an exclusive lock of another handle. */
  predicate Blocks(e: Entry, h: nat, r: Range, m: Mode) {
    Overlap(e.r, r) && (m == Exclusive || (e.m == Exclusive && e.h != h))
  }

  predicate Denied(t: Table, h: nat, r: Range, m: Mode) {
    exists e :: e in t && Blocks(e, h, r, m)
  }

  predicate Locked(t: Table, h: nat, r: Range) {
    Entry(h, r, Exclusive) in t || Entry(h, r, Shared) in t
  }

  /** Unlocking removes one lock on exactly this range, an exclusive one if there is one. */
  function Unlocked(t: Table, h: nat, r: Range): Table
    requires Locked(t, h, r)
  {
    if Entry(h, r, Exclusive) in t then t - multiset{Entry(h, r, Exclusive)}
    else t - multiset{Entry(h, r, Shared)}
  }

  /** Closing a handle drops all its locks. */
  ghost function Dropped(t: Table, h: nat): (t': Table)
    ensures forall e :: t'[e] == if e.h == h then 0 else t[e]
    decreases |t|
  {
    if e :| e in t && e.h == h then
      Dropped(t[e := 0], h)
    else
      t
  }

  // ---- The table as a reader-writer lock ----

  /** Handle `h` has a lock of mode `m` on byte `b`. */
  ghost predicate Holds(t: Table, h: nat, b: nat, m: Mode) {
    exists e :: e in t && e.h == h && Covers(e.r, b) && e.m == m
  }

  /** What handle `h` holds on byte `b`: the strongest of its locks there. */
  ghost function ModeAt(t: Table, h: nat, b: nat): Mode {
    if Holds(t, h, b, Exclusive) then Exclusive else if Holds(t, h, b, Shared) then Shared else Free
  }

  ghost function HoldersAt(t: Table, b: nat): Holders {
    (h: nat) => ModeAt(t, h, b)
  }

  /** Locks of different handles overlap only if both are shared, and not even the locks of one handle
      overlap if both are exclusive. */
  ghost predicate TableSafe(t: Table) {
    && (forall e :: e in t ==> e.m != Free)
    && (forall e, f :: e in t && f in t && Overlap(e.r, f.r) && e.m == Exclusive && f.m == Exclusive ==> e == f)
    && (forall e, f :: e in t && f in t && e.h != f.h && Overlap(e.r, f.r) ==> e.m == Shared && f.m == Shared)
  }

  /** Two ranges overlap if and only if they have a byte in common. */
  lemma OverlapIffCommonByte(r: Range, s: Range)
    ensures Overlap(r, s) <==> exists b :: Covers(r, b) && Covers(s, b)
  {
    var b := if r.start < s.start then s.start else r.start;
    assert Overlap(r, s) ==> Covers(r, b) && Covers(s, b);
  }

  /** What on byte `b` keeps handle `h` from locking it: for an exclusive lock any hold, even its own;
      for a shared one an exclusive hold of another handle. */
  ghost predicate Blocked(t: Table, h: nat, m: Mode, o: nat, b: nat) {
    if m == Exclusive then ModeAt(t, o, b) != Free else o != h && ModeAt(t, o, b) == Exclusive
  }

  /** No byte of the range is in the way of a lock of mode `m`. */
  ghost predicate Clear(t: Table, h: nat, r: Range, m: Mode) {
    forall o, b :: Covers(r, b) ==> !Blocked(t, h, m, o, b)
  }

  lemma EntryShows(t: Table, e: Entry, b: nat)
    requires e in t && Covers(e.r, b) && e.m != Free
    ensures ModeAt(t, e.h, b) != Free
    ensures e.m == Exclusive ==> ModeAt(t, e.h, b) == Exclusive
  {
    assert Holds(t, e.h, b, e.m);
  }

  /** A request is denied if and only if some byte of its range is in the way. */
  lemma DeniedIffNotClear(t: Table, h: nat, r: Range, m: Mode)
    requires TableSafe(t)
    ensures Denied(t, h, r, m) <==> !Clear(t, h, r, m)
  {
    if Denied(t, h, r, m) {
      var e :| e in t && Blocks(e, h, r, m);
      OverlapIffCommonByte(e.r, r);
      var b :| Covers(e.r, b) && Covers(r, b);
      EntryShows(t, e, b);
      assert Blocked(t, h, m, e.h, b);
    }
    if !Clear(t, h, r, m) {
      var o: nat, b: nat :| Covers(r, b) && Blocked(t, h, m, o, b);
      var x := if Holds(t, o, b, Exclusive) then Exclusive else Shared;
      assert Holds(t, o, b, x);
      var e :| e in t && e.h == o && Covers(e.r, b) && e.m == x;
      OverlapIffCommonByte(e.r, r);
      assert Blocks(e, h, r, m);
    }
  }

  lemma LockHolds(t: Table, n: Entry, o: nat, b: nat, x: Mode)
    ensures Holds(t + multiset{n}, o, b, x) <==>
      Holds(t, o, b, x) || (o == n.h && x == n.m && Covers(n.r, b))
  {
    var t' := t + multiset{n};
    assert n in t';
    if Holds(t, o, b, x) {
      var e :| e in t && e.h == o && Covers(e.r, b) && e.m == x;
      assert e in t';
    }
  }

  lemma LockKeepsSafe(t: Table, h: nat, r: Range, m: Mode)
    requires TableSafe(t) && m != Free && !Denied(t, h, r, m)
    ensures TableSafe(t + multiset{Entry(h, r, m)})
  {
    forall e | e in t && Overlap(e.r, r) ensures m == Shared && (e.h != h ==> e.m == Shared) {
      assert !Blocks(e, h, r, m);
    }
    assert forall x: Range :: Overlap(x, r) == Overlap(r, x);
  }

  lemma LockRefines(t: Table, h: nat, r: Range, m: Mode, b: nat)
    requires TableSafe(t) && m != Free && !Denied(t, h, r, m)
    ensures Does(HoldersAt(t, b), h, if Covers(r, b) then Acquire(m) else Keep, HoldersAt(t + multiset{Entry(h, r, m)}, b))
  {
    var n := Entry(h, r, m);
    forall o: nat, x: Mode ensures
      Holds(t + multiset{n}, o, b, x) <==> Holds(t, o, b, x) || (o == h && x == m && Covers(r, b))
    {
      LockHolds(t, n, o, b, x);
    }
    if Covers(r, b) {
      forall o: nat | o != h ensures Compatible(ModeAt(t, o, b), m) {
        forall e | e in t && e.h == o && Covers(e.r, b) ensures e.m == Shared && m == Shared {
          assert !Blocks(e, h, r, m);
        }
      }
    }
  }

  /** Giving up locks keeps the table safe and is a step of the handle that gives them up. */
  lemma FewerLocks(t: Table, h: nat, t': Table, b: nat)
    requires TableSafe(t)
    requires forall e :: e in t' ==> e in t
    requires forall e :: e in t && e.h != h ==> e in t'
    ensures TableSafe(t') && Does(HoldersAt(t, b), h, Release(ModeAt(t', h, b)), HoldersAt(t', b))
  {
    forall o: nat, x: Mode ensures Holds(t', o, b, x) ==> Holds(t, o, b, x)
    {
    }
    forall o: nat, x: Mode | o != h && Holds(t, o, b, x) ensures Holds(t', o, b, x) {
      var e :| e in t && e.h == o && Covers(e.r, b) && e.m == x;
      assert e in t';
    }
  }

  lemma UnlockRefines(t: Table, h: nat, r: Range, b: nat)
    requires TableSafe(t) && Locked(t, h, r)
    ensures TableSafe(Unlocked(t, h, r))
    ensures Does(HoldersAt(t, b), h, Release(ModeAt(Unlocked(t, h, r), h, b)), HoldersAt(Unlocked(t, h, r), b))
  {
    FewerLocks(t, h, Unlocked(t, h, r), b);
  }

  /** A lock on the range keeps every other handle's exclusive lock off it, so a shared request is not
      denied. */
  lemma HolderMayShare(t: Table, h: nat, r: Range)
    requires TableSafe(t) && Locked(t, h, r)
    ensures !Denied(t, h, r, Shared)
  {
    var m := if Entry(h, r, Exclusive) in t then Exclusive else Shared;
    assert Entry(h, r, m) in t;
    forall e | e in t ensures !Blocks(e, h, r, Shared) {
      assert Overlap(r, e.r) == Overlap(e.r, r);
    }
  }

  /** Locking shared and then unlocking removes the exclusive lock if there is one, and otherwise the
      shared lock just taken. */
  lemma LockThenUnlock(t: Table, h: nat, r: Range)
    ensures var both := t + multiset{Entry(h, r, Shared)};
      && Locked(both, h, r)
      && Unlocked(both, h, r) ==
           if Entry(h, r, Exclusive) in t then t - multiset{Entry(h, r, Exclusive)} + multiset{Entry(h, r, Shared)} else t
  {
    var both := t + multiset{Entry(h, r, Shared)};
    assert Entry(h, r, Shared) in both;
    assert both - multiset{Entry(h, r, Shared)} == t;
  }

  // ---- Clients of the lock functions, interleaved ----

  /** A client holds at most one lock per handle and range. */
  datatype Key = Key(h: nat, r: Range)

  /** Where a client stands: blocked in a first request; holding; between the two kernel calls of a
      downgrade (holding both locks) or of an upgrade (holding none, and either trying once or
      waiting). */
  datatype Phase = Waiting(m: Mode) | Held(m: Mode) | Downgrading(was: Mode) | Upgrading(wait: bool)

  datatype State = State(table: Table, clients: map<Key, Phase>)

  datatype Label =
    | TryLock(k: Key, m: Mode)
    | WaitForLock(k: Key, m: Mode)
    | Grant(k: Key)
    | DowngradeLock(k: Key)
    | DowngradeUnlock(k: Key)
    | UpgradeUnlock(k: Key, wait: bool)
    | UpgradeLock(k: Key)
    | Unlock(k: Key)
    | Close(h: nat)

  predicate Enabled(s: State, l: Label) {
    match l
    case TryLock(k, m) => k !in s.clients && m != Free
    case WaitForLock(k, m) => k !in s.clients && m != Free
    case Grant(k) => k in s.clients && s.clients[k].Waiting? && !Denied(s.table, k.h, k.r, s.clients[k].m)
    case DowngradeLock(k) => k in s.clients && s.clients[k].Held? && !Denied(s.table, k.h, k.r, Shared)
    case DowngradeUnlock(k) => k in s.clients && s.clients[k].Downgrading? && Locked(s.table, k.h, k.r)
    case UpgradeUnlock(k, _) => k in s.clients && s.clients[k].Held? && Locked(s.table, k.h, k.r)
    case UpgradeLock(k) =>
      k in s.clients && s.clients[k].Upgrading? &&
      (s.clients[k].wait ==> !Denied(s.table, k.h, k.r, Exclusive))
    case Unlock(k) => k in s.clients && s.clients[k].Held? && Locked(s.table, k.h, k.r)
    case Close(h) => forall k :: k in s.clients && k.h == h ==> s.clients[k].Held?
  }

  function Granted(s: State, k: Key, m: Mode, p: Phase): State {
    State(s.table + multiset{Entry(k.h, k.r, m)}, s.clients[k := p])
  }

  ghost function Step(s: State, l: Label): State
    requires Enabled(s, l)
  {
    match l
    case TryLock(k, m) => if Denied(s.table, k.h, k.r, m) then s else Granted(s, k, m, Held(m))
    case WaitForLock(k, m) => s.(clients := s.clients[k := Waiting(m)])
    case Grant(k) => Granted(s, k, s.clients[k].m, Held(s.clients[k].m))
    case DowngradeLock(k) => Granted(s, k, Shared, Downgrading(s.clients[k].m))
    case DowngradeUnlock(k) => State(Unlocked(s.table, k.h, k.r), s.clients[k := Held(Shared)])
    case UpgradeUnlock(k, wait) => State(Unlocked(s.table, k.h, k.r), s.clients[k := Upgrading(wait)])
    case UpgradeLock(k) =>
      if Denied(s.table, k.h, k.r, Exclusive) then s.(clients := s.clients - {k})
      else Granted(s, k, Exclusive, Held(Exclusive))
    case Unlock(k) => State(Unlocked(s.table, k.h, k.r), s.clients - {k})
    case Close(h) => State(Dropped(s.table, h), map k | k in s.clients && k.h != h :: s.clients[k])
  }

  function Handle(l: Label): nat {
    if l.Close? then l.h else l.k.h
  }

  /** How many locks of mode `m` a client has in the table. */
  function Count(p: Phase, m: Mode): nat {
    match p
    case Held(x) => if x == m then 1 else 0
    case Downgrading(was) => (if was == m then 1 else 0) + (if m == Shared then 1 else 0)
    case _ => 0
  }

  ghost predicate Accounted(s: State) {
    forall e :: s.table[e] == if Key(e.h, e.r) in s.clients then Count(s.clients[Key(e.h, e.r)], e.m) else 0
  }

  ghost predicate Inv(s: State) {
    && TableSafe(s.table)
    && Accounted(s)
    && forall k :: k in s.clients ==> ValidPhase(s.clients[k])
  }

  lemma GrantKeepsInv(s: State, k: Key, m: Mode, p: Phase)
    requires Inv(s) && m != Free && !Denied(s.table, k.h, k.r, m)
    requires
      || (p == Held(m) && (k !in s.clients || s.clients[k].Waiting? || s.clients[k].Upgrading?))
      || (m == Shared && k in s.clients && s.clients[k].Held? && p == Downgrading(s.clients[k].m))
    ensures Inv(Granted(s, k, m, p))
  {
    LockKeepsSafe(s.table, k.h, k.r, m);
  }

  /** The client `k` gives up one lock: at the end of a downgrade, or all it has. */
  predicate Releases(before: map<Key, Phase>, k: Key, after: map<Key, Phase>)
    requires k in before
  {
    if before[k].Downgrading? then after == before[k := Held(Shared)]
    else before[k].Held? && (after == before - {k} || exists w :: w in {true, false} && after == before[k := Upgrading(w)])
  }

  /** The lock that an unlock call removes. */
  function Gone(t: Table, k: Key): Entry {
    if Entry(k.h, k.r, Exclusive) in t then Entry(k.h, k.r, Exclusive) else Entry(k.h, k.r, Shared)
  }

  lemma UnlockedCounts(t: Table, k: Key, e: Entry)
    requires Locked(t, k.h, k.r)
    ensures Unlocked(t, k.h, k.r)[e] == if e == Gone(t, k) then t[e] - 1 else t[e]
  {
  }

  /** Everyone else is where they were. */
  lemma OthersStay(before: map<Key, Phase>, k: Key, after: map<Key, Phase>, d: Key)
    requires k in before && Releases(before, k, after) && d != k
    ensures d in after <==> d in before
    ensures d in after ==> after[d] == before[d]
  {
  }

  /** The client that unlocks has one lock less, of the mode that goes. */
  lemma OwnCountFalls(t: Table, before: map<Key, Phase>, k: Key, after: map<Key, Phase>, m: Mode)
    requires k in before && Releases(before, k, after) && Locked(t, k.h, k.r)
    requires before[k].Downgrading? ==> before[k].was != Free
    requires forall x: Mode :: t[Entry(k.h, k.r, x)] == Count(before[k], x)
    ensures (if k in after then Count(after[k], m) else 0) == Count(before[k], m) - if m == Gone(t, k).m then 1 else 0
  {
    assert t[Entry(k.h, k.r, Exclusive)] == Count(before[k], Exclusive);
    assert t[Entry(k.h, k.r, Shared)] == Count(before[k], Shared);
  }

  lemma ReleaseKeepsAccounts(s: State, k: Key, clients: map<Key, Phase>)
    requires Accounted(s) && Locked(s.table, k.h, k.r) && k in s.clients && Releases(s.clients, k, clients)
    requires s.clients[k].Downgrading? ==> s.clients[k].was != Free
    ensures Accounted(State(Unlocked(s.table, k.h, k.r), clients))
  {
    var t := Unlocked(s.table, k.h, k.r);
    assert forall x: Mode :: s.table[Entry(k.h, k.r, x)] == Count(s.clients[k], x);
    hide Unlocked, Locked, Releases, Count;
    forall e ensures t[e] == if Key(e.h, e.r) in clients then Count(clients[Key(e.h, e.r)], e.m) else 0 {
      UnlockedCounts(s.table, k, e);
      if Key(e.h, e.r) == k {
        assert e == Entry(k.h, k.r, e.m);
        OwnCountFalls(s.table, s.clients, k, clients, e.m);
      } else {
        OthersStay(s.clients, k, clients, Key(e.h, e.r));
      }
    }
  }

  predicate ValidPhase(p: Phase) {
    (p.Waiting? || p.Held? ==> p.m != Free) && (p.Downgrading? ==> p.was != Free)
  }

  lemma ReleaseKeepsPhases(before: map<Key, Phase>, k: Key, after: map<Key, Phase>)
    requires k in before && Releases(before, k, after) && forall c :: c in before ==> ValidPhase(before[c])
    ensures forall c :: c in after ==> ValidPhase(after[c])
  {
    assert k in after ==> ValidPhase(after[k]);
    hide Releases, ValidPhase;
    forall c | c in after && c != k ensures ValidPhase(after[c]) {
      OthersStay(before, k, after, c);
    }
  }

  lemma ReleaseKeepsInv(s: State, k: Key, clients: map<Key, Phase>)
    requires Inv(s) && Locked(s.table, k.h, k.r) && k in s.clients && Releases(s.clients, k, clients)
    ensures Inv(State(Unlocked(s.table, k.h, k.r), clients))
  {
    assert ValidPhase(s.clients[k]);
    ReleaseKeepsAccounts(s, k, clients);
    hide TableSafe, Does, Accounted, Releases, Unlocked, Locked;
    UnlockRefines(s.table, k.h, k.r, 0);
    ReleaseKeepsPhases(s.clients, k, clients);
  }

  lemma WaitKeepsInv(s: State, k: Key, m: Mode)
    requires Inv(s) && k !in s.clients && m != Free
    ensures Inv(s.(clients := s.clients[k := Waiting(m)]))
  {
  }

  lemma CloseKeepsInv(s: State, h: nat)
    requires Inv(s) && Enabled(s, Close(h))
    ensures Inv(Step(s, Close(h)))
  {
    FewerLocks(s.table, h, Dropped(s.table, h), 0);
  }

  lemma StepKeepsInv(s: State, l: Label)
    requires Inv(s) && Enabled(s, l)
    ensures Inv(Step(s, l))
  {
    match l
    case TryLock(k, m) =>
      if !Denied(s.table, k.h, k.r, m) { GrantKeepsInv(s, k, m, Held(m)); }
    case WaitForLock(k, m) => WaitKeepsInv(s, k, m);
    case Grant(k) => GrantKeepsInv(s, k, s.clients[k].m, Held(s.clients[k].m));
    case DowngradeLock(k) => GrantKeepsInv(s, k, Shared, Downgrading(s.clients[k].m));
    case UpgradeLock(k) =>
      if !Denied(s.table, k.h, k.r, Exclusive) { GrantKeepsInv(s, k, Exclusive, Held(Exclusive)); }
    case Close(h) => CloseKeepsInv(s, h);
    case DowngradeUnlock(k) => ReleaseKeepsInv(s, k, s.clients[k := Held(Shared)]);
    case UpgradeUnlock(k, wait) => ReleaseKeepsInv(s, k, s.clients[k := Upgrading(wait)]);
    case Unlock(k) => ReleaseKeepsInv(s, k, s.clients - {k});
  }

  // ---- What each step does on each byte ----

  /** The table without the locks of one client. */
  function Without(t: Table, k: Key): Table {
    t[Entry(k.h, k.r, Exclusive) := 0][Entry(k.h, k.r, Shared) := 0]
  }

  /** What the handle of a client holds on a byte through its other clients. */
  ghost function Rest(s: State, k: Key, b: nat): Mode {
    ModeAt(Without(s.table, k), k.h, b)
  }

  /** What a step is on byte `b`: nothing if it is denied or does not reach that byte. An upgrade lets
      go first and gains later; a downgrade gains shared, which an exclusive holder has already, and
      then weakens its hold in one step. */
  ghost function OpAt(s: State, l: Label, b: nat): Op
    requires Enabled(s, l)
  {
    match l
    case TryLock(k, m) => if !Denied(s.table, k.h, k.r, m) && Covers(k.r, b) then Acquire(m) else Keep
    case WaitForLock(_, _) => Keep
    case Grant(k) => if Covers(k.r, b) then Acquire(s.clients[k].m) else Keep
    case DowngradeLock(k) => if Covers(k.r, b) then Acquire(Shared) else Keep
    case DowngradeUnlock(k) => if Covers(k.r, b) then Downgrade(Rest(s, k, b)) else Keep
    case UpgradeUnlock(k, _) => if Covers(k.r, b) then Release(Rest(s, k, b)) else Keep
    case UpgradeLock(k) => if !Denied(s.table, k.h, k.r, Exclusive) && Covers(k.r, b) then Acquire(Exclusive) else Keep
    case Unlock(k) => if Covers(k.r, b) then Release(Rest(s, k, b)) else Keep
    case Close(_) => Release(Free)
  }

  /** Away from its range, and for other handles, a client's locks make no difference. */
  lemma WithoutHolds(t: Table, k: Key, o: nat, b: nat, x: Mode)
    ensures Holds(Without(t, k), o, b, x) ==> Holds(t, o, b, x)
    ensures Holds(t, o, b, x) && !(o == k.h && Covers(k.r, b)) ==> Holds(Without(t, k), o, b, x)
  {
    if Holds(t, o, b, x) && !(o == k.h && Covers(k.r, b)) {
      var e :| e in t && e.h == o && Covers(e.r, b) && e.m == x;
      assert e in Without(t, k);
    }
  }

  lemma WithoutModes(t: Table, k: Key, o: nat, b: nat)
    ensures AtMost(ModeAt(Without(t, k), o, b), ModeAt(t, o, b))
    ensures !(o == k.h && Covers(k.r, b)) ==> ModeAt(Without(t, k), o, b) == ModeAt(t, o, b)
  {
    hide Holds, Without;
    WithoutHolds(t, k, o, b, Exclusive);
    WithoutHolds(t, k, o, b, Shared);
  }

  predicate Holding(s: State, k: Key) {
    k in s.clients && (s.clients[k].Held? || s.clients[k].Downgrading?)
  }

  lemma HoldingCovers(s: State, k: Key, b: nat)
    requires Inv(s) && Holding(s, k) && Covers(k.r, b)
    ensures ModeAt(s.table, k.h, b) != Free
    ensures s.clients[k] in {Held(Exclusive), Downgrading(Exclusive)} ==> ModeAt(s.table, k.h, b) == Exclusive
  {
    var e, x := Entry(k.h, k.r, Shared), Entry(k.h, k.r, Exclusive);
    assert s.table[e] == Count(s.clients[k], Shared);
    assert s.table[x] == Count(s.clients[k], Exclusive);
    assert e in s.table || x in s.table;
  }

  lemma UnlockOnly(t: Table, k: Key)
    requires t[Entry(k.h, k.r, Exclusive)] + t[Entry(k.h, k.r, Shared)] == 1
    ensures Locked(t, k.h, k.r) && Unlocked(t, k.h, k.r) == Without(t, k)
  {
  }

  lemma UnlockFirst(t: Table, k: Key)
    requires t[Entry(k.h, k.r, Exclusive)] + t[Entry(k.h, k.r, Shared)] == 2 && t[Entry(k.h, k.r, Shared)] > 0
    ensures Locked(t, k.h, k.r) && Unlocked(t, k.h, k.r) == Without(t, k) + multiset{Entry(k.h, k.r, Shared)}
  {
  }

  /** A holder's one lock is all it has; in a downgrade a shared one is left. */
  lemma UnlockedIs(s: State, k: Key)
    requires Inv(s) && Holding(s, k) && Locked(s.table, k.h, k.r)
    ensures Unlocked(s.table, k.h, k.r) ==
      if s.clients[k].Held? then Without(s.table, k) else Without(s.table, k) + multiset{Entry(k.h, k.r, Shared)}
  {
    hide Unlocked, Without, TableSafe;
    assert s.table[Entry(k.h, k.r, Exclusive)] == Count(s.clients[k], Exclusive);
    assert s.table[Entry(k.h, k.r, Shared)] == Count(s.clients[k], Shared);
    if s.clients[k].Held? { UnlockOnly(s.table, k); } else { UnlockFirst(s.table, k); }
  }

  lemma WithSharedModes(t: Table, k: Key, o: nat, b: nat)
    ensures ModeAt(t + multiset{Entry(k.h, k.r, Shared)}, o, b) ==
      if o == k.h && Covers(k.r, b) then Stronger(Shared, ModeAt(t, o, b)) else ModeAt(t, o, b)
  {
    hide Holds;
    LockHolds(t, Entry(k.h, k.r, Shared), o, b, Exclusive);
    LockHolds(t, Entry(k.h, k.r, Shared), o, b, Shared);
  }

  /** What each handle holds on a byte once a client has unlocked its range. */
  lemma ReleaseModes(s: State, k: Key, o: nat, b: nat)
    requires Inv(s) && Holding(s, k) && Locked(s.table, k.h, k.r)
    ensures ModeAt(Unlocked(s.table, k.h, k.r), o, b) ==
      if o != k.h || !Covers(k.r, b) then ModeAt(s.table, o, b)
      else if s.clients[k].Held? then Rest(s, k, b) else Stronger(Shared, Rest(s, k, b))
    ensures AtMost(ModeAt(Unlocked(s.table, k.h, k.r), o, b), ModeAt(s.table, o, b))
  {
    UnlockedIs(s, k);
    if Covers(k.r, b) { HoldingCovers(s, k, b); }
    hide Inv, ModeAt, Without, Unlocked, Covers, Locked;
    WithoutModes(s.table, k, o, b);
    WithSharedModes(Without(s.table, k), k, o, b);
  }

  lemma DoesByModes(t: Table, t': Table, h: nat, op: Op, b: nat)
    requires forall o: nat :: o != h ==> ModeAt(t', o, b) == ModeAt(t, o, b)
    requires AtMost(ModeAt(t', h, b), ModeAt(t, h, b))
    requires match op
      case Keep => ModeAt(t', h, b) == ModeAt(t, h, b)
      case Acquire(_) => false
      case Downgrade(rest) => ModeAt(t', h, b) == Stronger(Shared, rest)
      case Release(rest) => ModeAt(t', h, b) == rest
    ensures Does(HoldersAt(t, b), h, op, HoldersAt(t', b))
  {
    hide ModeAt, AtMost, Stronger;
  }

  lemma ReleaseDoes(s: State, k: Key, b: nat)
    requires Inv(s) && Holding(s, k) && Locked(s.table, k.h, k.r)
    ensures Does(HoldersAt(s.table, b), k.h,
      if !Covers(k.r, b) then Keep
      else if s.clients[k].Held? then Release(Rest(s, k, b)) else Downgrade(Rest(s, k, b)),
      HoldersAt(Unlocked(s.table, k.h, k.r), b))
  {
    var t, t' := s.table, Unlocked(s.table, k.h, k.r);
    forall o: nat
      ensures ModeAt(t', o, b) ==
        if o != k.h || !Covers(k.r, b) then ModeAt(t, o, b)
        else if s.clients[k].Held? then Rest(s, k, b) else Stronger(Shared, Rest(s, k, b))
      ensures AtMost(ModeAt(t', o, b), ModeAt(t, o, b))
    {
      ReleaseModes(s, k, o, b);
    }
    hide Inv, ModeAt, Rest, Unlocked, Covers, Locked, AtMost, Stronger, Does, HoldersAt;
    DoesByModes(t, t', k.h,
      if !Covers(k.r, b) then Keep
      else if s.clients[k].Held? then Release(Rest(s, k, b)) else Downgrade(Rest(s, k, b)), b);
  }

  lemma CloseDoes(t: Table, h: nat, b: nat)
    requires TableSafe(t)
    ensures Does(HoldersAt(t, b), h, Release(Free), HoldersAt(Dropped(t, h), b))
  {
    FewerLocks(t, h, Dropped(t, h), b);
  }

  /** On every byte, each step of each client does on the reader-writer lock what `OpAt` says. */
  lemma StepRefines(s: State, l: Label, b: nat)
    requires Inv(s) && Enabled(s, l)
    ensures Does(HoldersAt(s.table, b), Handle(l), OpAt(s, l, b), HoldersAt(Step(s, l).table, b))
  {
    hide Denied, ModeAt, Rest, Unlocked, TableSafe, Covers, Locked, Accounted;
    match l
    case TryLock(k, m) => if !Denied(s.table, k.h, k.r, m) { LockRefines(s.table, k.h, k.r, m, b); }
    case WaitForLock(k, m) =>
    case Grant(k) => LockRefines(s.table, k.h, k.r, s.clients[k].m, b);
    case DowngradeLock(k) => LockRefines(s.table, k.h, k.r, Shared, b);
    case DowngradeUnlock(k) => ReleaseDoes(s, k, b);
    case UpgradeUnlock(k, wait) => ReleaseDoes(s, k, b);
    case UpgradeLock(k) =>
      if !Denied(s.table, k.h, k.r, Exclusive) { LockRefines(s.table, k.h, k.r, Exclusive, b); }
    case Unlock(k) => ReleaseDoes(s, k, b);
    case Close(h) => CloseDoes(s.table, h, b);
  }

  ghost predicate Run(ss: seq<State>, ls: seq<Label>) {
    && |ss| == |ls| + 1
    && ss[0] == State(multiset{}, map[])
    && forall i :: 0 <= i < |ls| ==> Enabled(ss[i], ls[i]) && ss[i + 1] == Step(ss[i], ls[i])
  }

  lemma {:induction false} RunKeepsInv(ss: seq<State>, ls: seq<Label>, i: nat)
    requires Run(ss, ls) && i < |ss|
    ensures Inv(ss[i])
  {
    if i > 0 {
      RunKeepsInv(ss, ls, i - 1);
      StepKeepsInv(ss[i - 1], ls[i - 1]);
    }
  }

  lemma EmptyIsSafe(b: nat)
    ensures Safe(HoldersAt(multiset{}, b))
  {
  }

  /** Over every run of any number of clients on any ranges, each byte of the file behaves as one
      reader-writer lock: every step is one of its steps. */
  lemma RunsRefine(ss: seq<State>, ls: seq<Label>, i: nat, b: nat)
    requires Run(ss, ls) && i < |ls|
    ensures Does(HoldersAt(ss[i].table, b), Handle(ls[i]), OpAt(ss[i], ls[i], b), HoldersAt(ss[i + 1].table, b))
  {
    hide Step, Does, ModeAt, Inv, Enabled, OpAt;
    RunKeepsInv(ss, ls, i);
    StepRefines(ss[i], ls[i], b);
  }

  /** And so two handles only ever hold a byte together if both hold it shared. */
  lemma {:induction false} RunsAreSafe(ss: seq<State>, ls: seq<Label>, i: nat, b: nat)
    requires Run(ss, ls) && i < |ss|
    ensures Safe(HoldersAt(ss[i].table, b))
  {
    hide Step, Does, ModeAt, Inv, Enabled, OpAt;
    if i == 0 {
      EmptyIsSafe(b);
    } else {
      RunsAreSafe(ss, ls, i - 1, b);
      RunsRefine(ss, ls, i - 1, b);
      DoesKeepsSafe(HoldersAt(ss[i - 1].table, b), Handle(ls[i - 1]), OpAt(ss[i - 1], ls[i - 1], b), HoldersAt(ss[i].table, b));
    }
  }

  // ---- The downgrade has no gap ----

  /** The shared lock of a downgrade is granted at once to any holder, whatever the others are doing, and
      the client then holds both locks. */
  lemma DowngradeIsGrantedAtOnce(s: State, k: Key)
    requires Inv(s) && k in s.clients && s.clients[k].Held?
    ensures Enabled(s, DowngradeLock(k))
    ensures Step(s, DowngradeLock(k)).clients == s.clients[k := Downgrading(s.clients[k].m)]
  {
    HeldIsLocked(s, k);
    HolderMayShare(s.table, k.h, k.r);
  }

  /** Whatever has happened since, the downgrade can then be finished, which leaves the shared lock. */
  lemma DowngradeCanFinish(s: State, k: Key)
    requires Inv(s) && k in s.clients && s.clients[k].Downgrading?
    ensures Enabled(s, DowngradeUnlock(k))
    ensures Step(s, DowngradeUnlock(k)).clients == s.clients[k := Held(Shared)]
    ensures Step(s, DowngradeUnlock(k)).table[Entry(k.h, k.r, Exclusive)] == 0
    ensures Step(s, DowngradeUnlock(k)).table[Entry(k.h, k.r, Shared)] == 1
  {
    assert s.table[Entry(k.h, k.r, Shared)] == Count(s.clients[k], Shared);
    assert s.table[Entry(k.h, k.r, Exclusive)] == Count(s.clients[k], Exclusive);
    hide Inv;
  }

  /** On no byte does the first call of a downgrade change what any handle holds: the exclusive lock is
      still the strongest. */
  lemma DowngradeStartsSilently(s: State, k: Key, o: nat, b: nat)
    requires Inv(s) && k in s.clients && s.clients[k] == Held(Exclusive)
    ensures Enabled(s, DowngradeLock(k))
    ensures ModeAt(Step(s, DowngradeLock(k)).table, o, b) == ModeAt(s.table, o, b)
  {
    DowngradeIsGrantedAtOnce(s, k);
    var own := Entry(k.h, k.r, Exclusive);
    assert s.table[own] == 1;
    assert own in s.table;
    LockHolds(s.table, Entry(k.h, k.r, Shared), o, b, Exclusive);
    LockHolds(s.table, Entry(k.h, k.r, Shared), o, b, Shared);
  }

  /** The second call turns exclusive into shared on exactly the bytes of the range, in one step. So a
      downgrade is one atomic step of the reader-writer lock, taken when its second call is made. */
  lemma DowngradeIsAtomic(s: State, k: Key, o: nat, b: nat)
    requires Inv(s) && k in s.clients && s.clients[k] == Downgrading(Exclusive)
    ensures Enabled(s, DowngradeUnlock(k))
    ensures ModeAt(Step(s, DowngradeUnlock(k)).table, o, b) ==
      if o == k.h && Covers(k.r, b) then Shared else ModeAt(s.table, o, b)
  {
    DowngradeCanFinish(s, k);
    var x := Entry(k.h, k.r, Exclusive);
    var t := s.table - multiset{x};
    assert s.table[x] == 1 && s.table[Entry(k.h, k.r, Shared)] == 1;
    assert s.table == t + multiset{x};
    LockHolds(t, x, o, b, Exclusive);
    LockHolds(t, x, o, b, Shared);
    if o == k.h && Covers(k.r, b) {
      assert Entry(k.h, k.r, Shared) in t;
      forall e | e in t && e.h == o && Covers(e.r, b) ensures e.m != Exclusive {
        assert e in s.table && Overlap(e.r, x.r);
      }
    }
  }

  /** The steps by which a client lets go of its whole lock. */
  predicate LetsGo(l: Label, k: Key) {
    l == Unlock(k) || l == Close(k.h) || (l.UpgradeUnlock? && l.k == k)
  }

  lemma StepHolds(s: State, l: Label, k: Key)
    requires Enabled(s, l) && Holding(s, k) && !LetsGo(l, k)
    ensures Holding(Step(s, l), k)
  {
    hide Denied, Locked, Unlocked, Dropped;
  }

  /** From the moment a client holds its lock until it lets go, through the middle of a downgrade and
      under any interleaving, its handle holds at least a shared lock on every byte of the range, and
      so no other handle gains an exclusive lock on any of them. */
  lemma {:induction false} DowngradeHasNoGap(ss: seq<State>, ls: seq<Label>, i: nat, j: nat, k: Key, b: nat)
    requires Run(ss, ls) && i <= j < |ss|
    requires Holding(ss[i], k) && Covers(k.r, b)
    requires forall n :: i <= n < j ==> !LetsGo(ls[n], k)
    ensures Holding(ss[j], k)
    ensures ModeAt(ss[j].table, k.h, b) != Free
    ensures forall o: nat :: o != k.h ==> ModeAt(ss[j].table, o, b) != Exclusive
  {
    hide Step, Does, ModeAt, Inv, Enabled, OpAt, Holding;
    if i < j {
      DowngradeHasNoGap(ss, ls, i, j - 1, k, b);
      RunKeepsInv(ss, ls, j - 1);
      StepHolds(ss[j - 1], ls[j - 1], k);
    }
    RunKeepsInv(ss, ls, j);
    HoldingCovers(ss[j], k, b);
    RunsAreSafe(ss, ls, j, b);
    forall o: nat | o != k.h ensures ModeAt(ss[j].table, o, b) != Exclusive {
      assert Compatible(HoldersAt(ss[j].table, b)(o), HoldersAt(ss[j].table, b)(k.h));
    }
  }

  // ---- Upgrades never deadlock ----

  /** A request is only ever refused because of a client that is not itself waiting for anything. */
  lemma BlockerIsNotWaiting(s: State, h: nat, r: Range, m: Mode) returns (k: Key)
    requires Inv(s) && Denied(s.table, h, r, m)
    ensures Holding(s, k) && Overlap(k.r, r)
    ensures s.clients[k].Held? ==> Enabled(s, Unlock(k))
    ensures s.clients[k].Downgrading? ==> Enabled(s, DowngradeUnlock(k))
  {
    var e :| e in s.table && Blocks(e, h, r, m);
    k := Key(e.h, e.r);
    assert s.table[e] > 0;
    assert e.m == Exclusive || e.m == Shared;
    assert e == Entry(k.h, k.r, e.m);
  }

  /** Clients that hold a shared lock, wait for an upgrade, and unlock once they have it. */
  predicate Upgraders(s: State) {
    forall k :: k in s.clients ==> s.clients[k] in {Held(Shared), Upgrading(true), Held(Exclusive)}
  }

  predicate UpgraderStep(s: State, l: Label) {
    match l
    case UpgradeUnlock(k, wait) => k in s.clients && s.clients[k] == Held(Shared) && wait
    case UpgradeLock(k) => k in s.clients && s.clients[k].Upgrading?
    case Unlock(k) => k in s.clients && s.clients[k] == Held(Exclusive)
    case _ => false
  }

  function Weight(p: Phase): nat {
    match p
    case Held(Shared) => 3
    case Upgrading(_) => 2
    case _ => 1
  }

  ghost function Remaining(clients: map<Key, Phase>): nat
    decreases |clients|
  {
    if clients == map[] then 0
    else
      var k :| k in clients;
      assert |clients - {k}| < |clients| by { assert (clients - {k}).Keys == clients.Keys - {k}; }
      Weight(clients[k]) + Remaining(clients - {k})
  }

  lemma {:induction false} RemainingWithout(clients: map<Key, Phase>, k: Key)
    requires k in clients
    ensures Remaining(clients) == Weight(clients[k]) + Remaining(clients - {k})
    decreases |clients|
  {
    var c :| c in clients && Remaining(clients) == Weight(clients[c]) + Remaining(clients - {c});
    if c != k {
      assert (clients - {c}).Keys == clients.Keys - {c};
      RemainingWithout(clients - {c}, k);
      assert (clients - {k}).Keys == clients.Keys - {k};
      RemainingWithout(clients - {k}, c);
      assert clients - {c} - {k} == clients - {k} - {c};
    }
  }

  lemma RemainingChange(clients: map<Key, Phase>, k: Key, p: Phase)
    requires k in clients
    ensures Remaining(clients[k := p]) == Remaining(clients) - Weight(clients[k]) + Weight(p)
  {
    RemainingWithout(clients, k);
    RemainingWithout(clients[k := p], k);
    assert clients[k := p] - {k} == clients - {k};
  }

  /** A client that holds a lock can unlock it. */
  lemma HeldIsLocked(s: State, k: Key)
    requires Inv(s) && k in s.clients && s.clients[k].Held?
    ensures Locked(s.table, k.h, k.r)
  {
    assert s.table[Entry(k.h, k.r, Exclusive)] == Count(s.clients[k], Exclusive);
    assert s.table[Entry(k.h, k.r, Shared)] == Count(s.clients[k], Shared);
  }

  lemma ExclusivesAreApart(s: State, j: Key, k: Key)
    requires Inv(s) && j in s.clients && k in s.clients && j != k
    requires s.clients[j] == Held(Exclusive) && s.clients[k] == Held(Exclusive)
    ensures !Overlap(j.r, k.r)
  {
    var e, f := Entry(j.h, j.r, Exclusive), Entry(k.h, k.r, Exclusive);
    assert s.table[e] == 1 && s.table[f] == 1;
    hide Overlap;
  }

  lemma SomeUpgraderCanStep(s: State) returns (l: Label)
    requires Inv(s) && Upgraders(s) && s.clients != map[]
    ensures UpgraderStep(s, l) && Enabled(s, l)
  {
    var k :| k in s.clients;
    if s.clients[k].Upgrading? && Denied(s.table, k.h, k.r, Exclusive) {
      k := BlockerIsNotWaiting(s, k.h, k.r, Exclusive);
    }
    l := if s.clients[k].Upgrading? then UpgradeLock(k)
         else if s.clients[k] == Held(Shared) then UpgradeUnlock(k, true)
         else Unlock(k);
    if s.clients[k].Held? { HeldIsLocked(s, k); }
  }

  lemma UpgraderStepCounts(s: State, l: Label)
    requires Inv(s) && Upgraders(s) && UpgraderStep(s, l) && Enabled(s, l)
    ensures Upgraders(Step(s, l))
    ensures Remaining(Step(s, l).clients) == Remaining(s.clients) - 1
  {
    RemainingWithout(s.clients, l.k);
    RemainingChange(s.clients, l.k, Upgrading(true));
    RemainingChange(s.clients, l.k, Held(Exclusive));
  }

  /** Any number of shared holders that all wait for an upgrade, on ranges that overlap in any way:
      every step brings the end one step closer, so every way of running them is finite. */
  lemma {:induction false} UpgradersNeverDeadlock(ss: seq<State>, ls: seq<Label>)
    requires |ss| == |ls| + 1 && Inv(ss[0]) && Upgraders(ss[0])
    requires forall i :: 0 <= i < |ls| ==>
      UpgraderStep(ss[i], ls[i]) && Enabled(ss[i], ls[i]) && ss[i + 1] == Step(ss[i], ls[i])
    ensures Inv(ss[|ls|]) && Upgraders(ss[|ls|])
    ensures |ls| + Remaining(ss[|ls|].clients) == Remaining(ss[0].clients)
    decreases |ls|
  {
    var n := |ls|;
    if n > 0 {
      UpgradersNeverDeadlock(ss[..n], ls[..n - 1]);
      StepKeepsInv(ss[n - 1], ls[n - 1]);
      UpgraderStepCounts(ss[n - 1], ls[n - 1]);
    }
  }

  /** Upgraders can only stop when each has had its exclusive lock and released it. */
  lemma UpgradersStopOnlyWhenDone(s: State)
    requires Inv(s) && Upgraders(s)
    ensures (forall l :: !(UpgraderStep(s, l) && Enabled(s, l))) <==> s.clients == map[]
  {
    if s.clients != map[] {
      var l := SomeUpgraderCanStep(s);
    }
  }

  /** Clients that all still hold their shared lock are three steps each from the end. */
  lemma {:induction false} RemainingAtStart(clients: map<Key, Phase>)
    requires forall k :: k in clients ==> clients[k] == Held(Shared)
    ensures Remaining(clients) == 3 * |clients|
    decreases |clients|
  {
    if clients != map[] {
      var k :| k in clients;
      assert (clients - {k}).Keys == clients.Keys - {k};
      RemainingAtStart(clients - {k});
      RemainingWithout(clients, k);
    }
  }

  /** A try-upgrade that is denied leaves the client with no lock at all, whatever others have done
      since it let go of its shared lock. */
  lemma DeniedUpgradeLosesLock(s: State, k: Key)
    requires Inv(s) && k in s.clients && s.clients[k] == Upgrading(false)
    requires Denied(s.table, k.h, k.r, Exclusive)
    ensures Enabled(s, UpgradeLock(k))
    ensures var t := Step(s, UpgradeLock(k)); k !in t.clients && !Locked(t.table, k.h, k.r) && t.table == s.table
  {
    assert s.table[Entry(k.h, k.r, Exclusive)] == Count(s.clients[k], Exclusive);
    assert s.table[Entry(k.h, k.r, Shared)] == Count(s.clients[k], Shared);
  }

  // ---- What each lock function answers ----

  /** The steps that the client `k` itself takes. */
  predicate ActsFor(l: Label, k: Key) {
    if l.Close? then l.h == k.h else l.k == k
  }

  lemma OthersKeepPhase(s: State, l: Label, k: Key)
    requires Enabled(s, l) && k in s.clients && !ActsFor(l, k)
    ensures k in Step(s, l).clients && Step(s, l).clients[k] == s.clients[k]
  {
    hide Denied, Locked, Unlocked, Dropped;
  }

  /** A client stays where it is while only others take steps. */
  lemma {:induction false} PhaseStays(ss: seq<State>, ls: seq<Label>, i: nat, j: nat, k: Key)
    requires Run(ss, ls) && i <= j < |ss| && k in ss[i].clients
    requires forall n :: i <= n < j ==> !ActsFor(ls[n], k)
    ensures k in ss[j].clients && ss[j].clients[k] == ss[i].clients[k]
  {
    hide Step, Enabled;
    if i < j {
      PhaseStays(ss, ls, i, j - 1, k);
      OthersKeepPhase(ss[j - 1], ls[j - 1], k);
    }
  }

  /** Nobody holds a byte of the range. */
  ghost predicate AllFree(t: Table, r: Range) {
    forall o, b :: Covers(r, b) ==> ModeAt(t, o, b) == Free
  }

  lemma ClearIfAllFree(t: Table, h: nat, r: Range)
    ensures Clear(t, h, r, Exclusive) <==> AllFree(t, r)
  {
    hide ModeAt, Covers;
    if Clear(t, h, r, Exclusive) {
      forall o: nat, b: nat | Covers(r, b) ensures ModeAt(t, o, b) == Free {
        assert !Blocked(t, h, Exclusive, o, b);
      }
    }
  }

  /** The bytes of the range are what a granted lock makes them, and no other hold has changed. */
  ghost predicate Gains(t: Table, t': Table, h: nat, r: Range, m: Mode) {
    forall o, b ::
      ModeAt(t', o, b) == if o == h && Covers(r, b) then Stronger(ModeAt(t, o, b), m) else ModeAt(t, o, b)
  }

  lemma GrantGains(t: Table, h: nat, r: Range, m: Mode)
    requires m != Free
    ensures Gains(t, t + multiset{Entry(h, r, m)}, h, r, m)
  {
    hide Holds;
    forall o: nat, b: nat
      ensures ModeAt(t + multiset{Entry(h, r, m)}, o, b) ==
        if o == h && Covers(r, b) then Stronger(ModeAt(t, o, b), m) else ModeAt(t, o, b)
    {
      LockHolds(t, Entry(h, r, m), o, b, Exclusive);
      LockHolds(t, Entry(h, r, m), o, b, Shared);
    }
  }

  /** A try-lock answers at once: the lock if no byte is in the way, and otherwise nothing happens. */
  lemma TryLockAnswers(s: State, k: Key, m: Mode)
    requires Inv(s) && k !in s.clients && m != Free
    ensures Enabled(s, TryLock(k, m))
    ensures var t := Step(s, TryLock(k, m));
      if Clear(s.table, k.h, k.r, m) then t.clients == s.clients[k := Held(m)] && Gains(s.table, t.table, k.h, k.r, m)
      else t == s
  {
    DeniedIffNotClear(s.table, k.h, k.r, m);
    GrantGains(s.table, k.h, k.r, m);
    hide Inv, Clear, Gains, Denied;
  }

  /** A lock call that waits is granted at any later time if and only if no byte is in the way then,
      whatever the others have done since, and the client then holds what it asked for. */
  lemma WaitForLockAnswers(ss: seq<State>, ls: seq<Label>, i: nat, j: nat, k: Key, m: Mode)
    requires Run(ss, ls) && i < j < |ss| && ls[i] == WaitForLock(k, m)
    requires forall n :: i < n < j ==> !ActsFor(ls[n], k)
    ensures var s := ss[j];
      && (Enabled(s, Grant(k)) <==> Clear(s.table, k.h, k.r, m))
      && (Enabled(s, Grant(k)) ==>
            var t := Step(s, Grant(k)); t.clients == s.clients[k := Held(m)] && Gains(s.table, t.table, k.h, k.r, m))
  {
    var s := ss[j];
    RunKeepsInv(ss, ls, j);
    assert ss[i + 1] == Step(ss[i], ls[i]) && ss[i + 1].clients[k] == Waiting(m);
    PhaseStays(ss, ls, i + 1, j, k);
    assert m != Free;
    DeniedIffNotClear(s.table, k.h, k.r, m);
    GrantGains(s.table, k.h, k.r, m);
    hide Inv, Clear, Gains, Denied, Run;
  }

  /** Between the two calls of an upgrade, whatever the others do: a try-upgrade can always answer, one
      that waits exactly when nobody holds a byte of the range. The answer is the exclusive lock if
      nobody holds a byte, and otherwise the client is left with no lock. */
  lemma UpgradeAnswers(ss: seq<State>, ls: seq<Label>, i: nat, j: nat, k: Key, wait: bool)
    requires Run(ss, ls) && i < j < |ss| && ls[i] == UpgradeUnlock(k, wait)
    requires forall n :: i < n < j ==> !ActsFor(ls[n], k)
    ensures var s := ss[j];
      && (Enabled(s, UpgradeLock(k)) <==> (wait ==> AllFree(s.table, k.r)))
      && (Enabled(s, UpgradeLock(k)) ==>
            var t := Step(s, UpgradeLock(k));
            if AllFree(s.table, k.r) then
              t.clients == s.clients[k := Held(Exclusive)] && Gains(s.table, t.table, k.h, k.r, Exclusive)
            else
              t == State(s.table, s.clients - {k}) && !Locked(t.table, k.h, k.r))
  {
    var s := ss[j];
    RunKeepsInv(ss, ls, j);
    assert ss[i + 1] == Step(ss[i], ls[i]) && ss[i + 1].clients[k] == Upgrading(wait);
    PhaseStays(ss, ls, i + 1, j, k);
    DeniedIffNotClear(s.table, k.h, k.r, Exclusive);
    ClearIfAllFree(s.table, k.h, k.r);
    GrantGains(s.table, k.h, k.r, Exclusive);
    assert s.table[Entry(k.h, k.r, Exclusive)] == Count(s.clients[k], Exclusive);
    assert s.table[Entry(k.h, k.r, Shared)] == Count(s.clients[k], Shared);
    hide Inv, Clear, Gains, Denied, AllFree, Run;
  }

  /** A client that is not there yet can make either lock call, and one that holds a lock every other. */
  lemma CallsAreFree(s: State, k: Key, m: Mode, wait: bool)
    requires Inv(s) && m != Free
    ensures k !in s.clients ==> Enabled(s, TryLock(k, m)) && Enabled(s, WaitForLock(k, m))
    ensures k in s.clients && s.clients[k].Held? ==>
      Enabled(s, Unlock(k)) && Enabled(s, UpgradeUnlock(k, wait)) && Enabled(s, DowngradeLock(k))
  {
    if k in s.clients && s.clients[k].Held? {
      HeldIsLocked(s, k);
      DowngradeIsGrantedAtOnce(s, k);
    }
  }

  /** Unlocking takes the client away and leaves no lock of it. */
  lemma UnlockAnswers(s: State, k: Key)
    requires Inv(s) && k in s.clients && s.clients[k].Held?
    ensures Enabled(s, Unlock(k))
    ensures var t := Step(s, Unlock(k)); t.clients == s.clients - {k} && !Locked(t.table, k.h, k.r)
  {
    HeldIsLocked(s, k);
    assert s.table[Entry(k.h, k.r, Exclusive)] == Count(s.clients[k], Exclusive);
    assert s.table[Entry(k.h, k.r, Shared)] == Count(s.clients[k], Shared);
    hide Inv;
  }
}
