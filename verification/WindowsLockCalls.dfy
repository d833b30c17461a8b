/** The lock functions as single calls on the lock table, with the result codes that reach JavaScript. */
module WindowsLockCalls {
  import opened RwLock
  import opened WindowsLocks

  /** Result codes: success, the three codes that mean "someone else has it", and "not locked". */
  datatype Code = OK | EAGAIN | EACCES | EBUSY | ENOTLOCKED

  /** Every refusal reaches the caller as `EAGAIN`; nothing else is changed. */
  function Normalise(err: Code): (c: Code)
    ensures c == EAGAIN <==> err in {EACCES, EAGAIN, EBUSY}
    ensures c != EAGAIN ==> c == err
  {
    if err == EACCES || err == EAGAIN || err == EBUSY then EAGAIN else err
  }

  /** The bytes that a call with this offset and length is about: with a length of zero, the 2^64 - 1
      bytes from the offset on. */
  predicate Asked(offset: nat, length: nat, b: nat) {
    offset <= b < offset + if length == 0 then 0xFFFF_FFFF_FFFF_FFFF else length
  }

  lemma RangeIsAsked(offset: nat, length: nat)
    ensures forall b :: Covers(RangeOf(offset, length), b) <==> Asked(offset, length, b)
  {
  }

  /** A lock on exactly the bytes asked for. */
  ghost predicate OnAsked(e: Entry, h: nat, offset: nat, length: nat) {
    e.h == h && forall b :: Covers(e.r, b) <==> Asked(offset, length, b)
  }

  /** The caller has a lock, or an exclusive one, on exactly the bytes asked for. */
  ghost predicate HasLock(t: Table, h: nat, offset: nat, length: nat) {
    exists e :: e in t && OnAsked(e, h, offset, length)
  }

  ghost predicate HasExclusive(t: Table, h: nat, offset: nat, length: nat) {
    exists e :: e in t && OnAsked(e, h, offset, length) && e.m == Exclusive
  }

  /** Only one range has exactly the bytes asked for. */
  lemma AskedIsRange(e: Entry, h: nat, offset: nat, length: nat)
    ensures OnAsked(e, h, offset, length) <==> e == Entry(h, RangeOf(offset, length), e.m)
  {
    RangeIsAsked(offset, length);
    if OnAsked(e, h, offset, length) {
      var r, n := e.r, if length == 0 then 0xFFFF_FFFF_FFFF_FFFF else length;
      assert Covers(r, offset) && Covers(r, offset + n - 1) && !Covers(r, offset + n);
      assert r.start < offset ==> Covers(r, offset - 1);
      assert Covers(r, r.start) && Covers(r, r.start + r.len - 1);
    }
  }

  /** No byte asked for is in the way of a lock of mode `m`. */
  ghost predicate Unobstructed(t: Table, h: nat, offset: nat, length: nat, m: Mode) {
    forall o, b :: Asked(offset, length, b) ==> !Blocked(t, h, m, o, b)
  }

  lemma UnobstructedIsClear(t: Table, h: nat, offset: nat, length: nat, m: Mode)
    requires TableSafe(t)
    ensures Unobstructed(t, h, offset, length, m) <==> !Denied(t, h, RangeOf(offset, length), m)
  {
    RangeIsAsked(offset, length);
    DeniedIffNotClear(t, h, RangeOf(offset, length), m);
    hide Covers, Asked, TableSafe, Denied, Blocked, RangeOf;
  }

  /** Every hold on every byte after a call that gains `m` on the bytes asked for. */
  ghost predicate GainsAsked(t: Table, t': Table, h: nat, offset: nat, length: nat, m: Mode) {
    forall o, b :: ModeAt(t', o, b) ==
      if o == h && Asked(offset, length, b) then Stronger(ModeAt(t, o, b), m) else ModeAt(t, o, b)
  }

  /** Every hold on every byte after a call that leaves the caller with exactly `m` on the bytes asked
      for. */
  ghost predicate BecomesAsked(t: Table, t': Table, h: nat, offset: nat, length: nat, m: Mode) {
    forall o, b :: ModeAt(t', o, b) == if o == h && Asked(offset, length, b) then m else ModeAt(t, o, b)
  }

  /** A call that takes away one lock on exactly the bytes asked for, an exclusive one if there is one,
      and changes no hold of others or elsewhere. */
  ghost predicate ReleasesAsked(t: Table, t': Table, h: nat, offset: nat, length: nat, e: Entry) {
    && e in t && OnAsked(e, h, offset, length) && t' == t - multiset{e}
    && (e.m == Exclusive || forall f :: f in t && OnAsked(f, h, offset, length) ==> f.m == Shared)
    && forall o, b :: o != h || !Asked(offset, length, b) ==> ModeAt(t', o, b) == ModeAt(t, o, b)
  }

  /** An exclusive lock is there once. */
  predicate ExclusivesOnce(t: Table) {
    forall e :: e in t && e.m == Exclusive ==> t[e] == 1
  }

  lemma LockKeepsOnce(t: Table, h: nat, offset: nat, length: nat, m: Mode)
    requires ExclusivesOnce(t) && !Denied(t, h, RangeOf(offset, length), m)
    ensures ExclusivesOnce(t + multiset{Entry(h, RangeOf(offset, length), m)})
  {
    var n := Entry(h, RangeOf(offset, length), m);
    assert m == Exclusive ==> Blocks(n, h, n.r, m);
  }

  lemma LockGains(t: Table, h: nat, offset: nat, length: nat, m: Mode)
    requires m != Free
    ensures GainsAsked(t, t + multiset{Entry(h, RangeOf(offset, length), m)}, h, offset, length, m)
  {
    RangeIsAsked(offset, length);
    GrantGains(t, h, RangeOf(offset, length), m);
    hide ModeAt, Covers, Asked, RangeOf;
  }

  /** The modes of a table with one entry taken out. */
  lemma TakenOutModes(t: Table, e: Entry, o: nat, b: nat)
    requires e in t && e.m != Free
    ensures ModeAt(t, o, b) ==
      if o == e.h && Covers(e.r, b) then Stronger(ModeAt(t - multiset{e}, o, b), e.m) else ModeAt(t - multiset{e}, o, b)
  {
    var u := t - multiset{e};
    assert t == u + multiset{e};
    hide Holds, Covers;
    LockHolds(u, e, o, b, Exclusive);
    LockHolds(u, e, o, b, Shared);
  }

  lemma UnlockReleases(t: Table, h: nat, offset: nat, length: nat) returns (e: Entry)
    requires TableSafe(t) && Locked(t, h, RangeOf(offset, length))
    ensures e.m != Free && ReleasesAsked(t, Unlocked(t, h, RangeOf(offset, length)), h, offset, length, e)
  {
    var r := RangeOf(offset, length);
    e := if Entry(h, r, Exclusive) in t then Entry(h, r, Exclusive) else Entry(h, r, Shared);
    RangeIsAsked(offset, length);
    hide ModeAt, Covers, Asked, RangeOf;
    forall o: nat, b: nat | o != h || !Asked(offset, length, b)
      ensures ModeAt(t - multiset{e}, o, b) == ModeAt(t, o, b)
    {
      TakenOutModes(t, e, o, b);
    }
    forall f | f in t && OnAsked(f, h, offset, length) ensures f == Entry(h, r, f.m) {
      AskedIsRange(f, h, offset, length);
    }
  }

  lemma LockedIsOnAsked(t: Table, h: nat, offset: nat, length: nat)
    requires TableSafe(t)
    ensures Locked(t, h, RangeOf(offset, length)) <==> HasLock(t, h, offset, length)
  {
    var r := RangeOf(offset, length);
    AskedIsRange(Entry(h, r, Exclusive), h, offset, length);
    AskedIsRange(Entry(h, r, Shared), h, offset, length);
    hide OnAsked, RangeOf;
    forall f | f in t && OnAsked(f, h, offset, length) ensures Locked(t, h, r) {
      AskedIsRange(f, h, offset, length);
    }
  }

  lemma ExclusiveOnAsked(t: Table, h: nat, offset: nat, length: nat)
    ensures Entry(h, RangeOf(offset, length), Exclusive) in t <==> HasExclusive(t, h, offset, length)
  {
    AskedIsRange(Entry(h, RangeOf(offset, length), Exclusive), h, offset, length);
    hide OnAsked, RangeOf;
    forall e | e in t && OnAsked(e, h, offset, length) && e.m == Exclusive
      ensures e == Entry(h, RangeOf(offset, length), Exclusive)
    {
      AskedIsRange(e, h, offset, length);
    }
  }

  /** The caller has no lock over the bytes asked for but this one. */
  ghost predicate OnlyLock(t: Table, e: Entry, h: nat, offset: nat, length: nat) {
    t[e] == 1 && forall f, b :: f in t && f.h == h && Asked(offset, length, b) && Covers(f.r, b) ==> f == e
  }

  /** Giving up the only lock over the bytes leaves none. */
  lemma UnlockFrees(t: Table, t': Table, h: nat, offset: nat, length: nat, e: Entry)
    requires ReleasesAsked(t, t', h, offset, length, e) && OnlyLock(t, e, h, offset, length)
    ensures BecomesAsked(t, t', h, offset, length, Free)
  {
    hide Asked;
    forall o: nat, b: nat
      ensures ModeAt(t', o, b) == if o == h && Asked(offset, length, b) then Free else ModeAt(t, o, b)
    {
      if o == h && Asked(offset, length, b) {
        assert forall f :: f in t' && f.h == h && Covers(f.r, b) ==> f in t && f == e;
      }
    }
  }

  /** Turning the one exclusive lock into a shared one. */
  lemma DowngradeBecomes(t: Table, h: nat, offset: nat, length: nat)
    requires TableSafe(t) && ExclusivesOnce(t)
    requires Entry(h, RangeOf(offset, length), Exclusive) in t
    ensures var r := RangeOf(offset, length);
      BecomesAsked(t, t - multiset{Entry(h, r, Exclusive)} + multiset{Entry(h, r, Shared)}, h, offset, length, Shared)
  {
    var r := RangeOf(offset, length);
    var e, n := Entry(h, r, Exclusive), Entry(h, r, Shared);
    var u := t - multiset{e};
    RangeIsAsked(offset, length);
    forall o: nat, b: nat
      ensures ModeAt(u + multiset{n}, o, b) == if o == h && Asked(offset, length, b) then Shared else ModeAt(t, o, b)
    {
      TakenOutModes(t, e, o, b);
      TakenOutModes(u + multiset{n}, n, o, b);
      assert u + multiset{n} - multiset{n} == u;
      if o == h && Covers(r, b) { NoOtherExclusive(t, e, b); }
      hide ModeAt, Covers, Asked, RangeOf, TableSafe, ExclusivesOnce;
    }
  }

  /** The exclusive lock on exactly the bytes asked for, if there is one, has become a shared one, entry
      for entry and byte for byte; without it nothing has changed. */
  ghost predicate Downgraded(t: Table, t': Table, h: nat, offset: nat, length: nat) {
    var r := RangeOf(offset, length);
    if HasExclusive(t, h, offset, length) then
      && BecomesAsked(t, t', h, offset, length, Shared)
      && t' == t - multiset{Entry(h, r, Exclusive)} + multiset{Entry(h, r, Shared)}
    else
      t' == t
  }

  /** What the two calls of a downgrade come to. */
  lemma DowngradeOutcome(t: Table, h: nat, offset: nat, length: nat)
    requires TableSafe(t) && ExclusivesOnce(t)
    ensures var r := RangeOf(offset, length);
      var both := t + multiset{Entry(h, r, Shared)};
      Locked(both, h, r) && Downgraded(t, Unlocked(both, h, r), h, offset, length)
  {
    var r := RangeOf(offset, length);
    ExclusiveOnAsked(t, h, offset, length);
    WindowsLocks.LockThenUnlock(t, h, r);
    hide TableSafe, ExclusivesOnce, HasExclusive, BecomesAsked, RangeOf, Unlocked, Locked;
    if Entry(h, r, Exclusive) in t { DowngradeBecomes(t, h, offset, length); }
  }

  lemma HolderIsUnobstructed(t: Table, h: nat, offset: nat, length: nat)
    requires TableSafe(t)
    ensures HasExclusive(t, h, offset, length) ==> Unobstructed(t, h, offset, length, Shared)
  {
    ExclusiveOnAsked(t, h, offset, length);
    UnobstructedIsClear(t, h, offset, length, Shared);
    hide Denied, Unobstructed, HasExclusive, RangeOf;
    if HasExclusive(t, h, offset, length) { HolderMayShare(t, h, RangeOf(offset, length)); }
  }

  lemma NoOtherExclusive(t: Table, e: Entry, b: nat)
    requires TableSafe(t) && ExclusivesOnce(t) && e in t && e.m == Exclusive && Covers(e.r, b)
    ensures ModeAt(t - multiset{e}, e.h, b) != Exclusive
  {
    forall f | f in t - multiset{e} && f.h == e.h && Covers(f.r, b) ensures f.m != Exclusive {
      OverlapIffCommonByte(f.r, e.r);
      assert f in t;
    }
  }

  /** Taking the exclusive lock where nobody is left. */
  lemma UpgradeBecomes(t: Table, u: Table, h: nat, offset: nat, length: nat, e: Entry)
    requires ReleasesAsked(t, u, h, offset, length, e) && Unobstructed(u, h, offset, length, Exclusive)
    ensures BecomesAsked(t, u + multiset{Entry(h, RangeOf(offset, length), Exclusive)}, h, offset, length, Exclusive)
  {
    LockGains(u, h, offset, length, Exclusive);
    hide ModeAt, RangeOf, Asked, OnAsked, Unobstructed, Blocked;
  }

  class LockTable {
    var table: Table
    /** How a refused `LockFileEx` call is translated. */
    const refusal: Code

    constructor (refusal: Code)
      requires refusal in {EACCES, EAGAIN, EBUSY}
      ensures table == multiset{} && this.refusal == refusal && Valid()
    {
      table := multiset{};
      this.refusal := refusal;
    }

    ghost predicate Valid()
      reads this
    {
      TableSafe(table) && ExclusivesOnce(table) && refusal in {EACCES, EAGAIN, EBUSY}
    }

    /** `fs_ext__try_lock`: one `LockFileEx` call that fails rather than waits. */
    method LockFile(h: nat, offset: nat, length: nat, m: Mode) returns (res: Code)
      requires Valid() && m != Free
      modifies this`table
      ensures Valid()
      ensures res == if Denied(old(table), h, RangeOf(offset, length), m) then refusal else OK
      ensures table == if res == OK then old(table) + multiset{Entry(h, RangeOf(offset, length), m)} else old(table)
      ensures res == OK <==> Unobstructed(old(table), h, offset, length, m)
      ensures res == OK ==> GainsAsked(old(table), table, h, offset, length, m)
    {
      var r := RangeOf(offset, length);
      UnobstructedIsClear(table, h, offset, length, m);
      LockGains(table, h, offset, length, m);
      hide GainsAsked, Unobstructed, TableSafe, ExclusivesOnce, Denied;
      if Denied(table, h, r, m) {
        return refusal;
      }
      LockKeepsSafe(table, h, r, m);
      LockKeepsOnce(table, h, offset, length, m);
      table := table + multiset{Entry(h, r, m)};
      return OK;
    }

    /** `fs_ext_try_lock`: granted if and only if no byte asked for is in the way, and the caller then
        has gained the mode on exactly these bytes; a refusal is `EAGAIN` whichever of its codes the
        kernel gave it, and changes nothing. */
    method TryLock(h: nat, offset: nat, length: nat, m: Mode) returns (res: Code)
      requires Valid() && m != Free
      modifies this`table
      ensures Valid()
      ensures if Unobstructed(old(table), h, offset, length, m) then
          && res == OK && GainsAsked(old(table), table, h, offset, length, m)
          && table == old(table) + multiset{Entry(h, RangeOf(offset, length), m)}
        else
          res == EAGAIN && table == old(table)
    {
      hide GainsAsked, Unobstructed, TableSafe, ExclusivesOnce, Denied, RangeOf;
      var err := LockFile(h, offset, length, m);
      return Normalise(err);
    }

    /** `fs_ext__unlock`: takes away one lock on exactly the bytes asked for, an exclusive one first, or
        reports that there is none. */
    method Unlock(h: nat, offset: nat, length: nat) returns (res: Code, ghost e: Entry)
      requires Valid()
      modifies this`table
      ensures Valid()
      ensures res == if Locked(old(table), h, RangeOf(offset, length)) then OK else ENOTLOCKED
      ensures table == if res == OK then Unlocked(old(table), h, RangeOf(offset, length)) else old(table)
      ensures res == OK <==> HasLock(old(table), h, offset, length)
      ensures res == OK ==> ReleasesAsked(old(table), table, h, offset, length, e)
    {
      var r := RangeOf(offset, length);
      LockedIsOnAsked(table, h, offset, length);
      hide ReleasesAsked, HasLock, RangeOf, TableSafe;
      e := Entry(h, r, Free);
      if !Locked(table, h, r) {
        return ENOTLOCKED, e;
      }
      e := UnlockReleases(table, h, offset, length);
      UnlockRefines(table, h, r, 0);
      table := Unlocked(table, h, r);
      return OK, e;
    }

    /** `fs_ext__try_downgrade_lock`: lock shared, then unlock. */
    method LockThenUnlock(h: nat, offset: nat, length: nat) returns (res: Code)
      requires Valid()
      modifies this`table
      ensures Valid()
      ensures res == if Unobstructed(old(table), h, offset, length, Shared) then OK else refusal
      ensures res != OK ==> table == old(table)
      ensures res == OK ==> Downgraded(old(table), table, h, offset, length)
    {
      ghost var t := table;
      DowngradeOutcome(t, h, offset, length);
      hide TableSafe, Denied, Locked, Unlocked, ExclusivesOnce, Unobstructed, HasLock, HasExclusive, BecomesAsked,
        GainsAsked, ReleasesAsked, RangeOf, Downgraded;
      res := LockFile(h, offset, length, Shared);
      if res == OK {
        ghost var e;
        res, e := Unlock(h, offset, length);
      }
    }

    /** `fs_ext_try_downgrade_lock`. It succeeds if and only if no other handle has any of the bytes
        exclusively, as always for one that has them exclusively itself. A holder of the exclusive lock on
        exactly the bytes asked for then has them shared, and everything else is as it was; without that
        lock nothing changes. */
    method TryDowngradeLock(h: nat, offset: nat, length: nat) returns (res: Code)
      requires Valid()
      modifies this`table
      ensures Valid()
      ensures res == if Unobstructed(old(table), h, offset, length, Shared) then OK else EAGAIN
      ensures HasExclusive(old(table), h, offset, length) ==> res == OK
      ensures res == OK ==> Downgraded(old(table), table, h, offset, length)
      ensures res != OK ==> table == old(table)
    {
      HolderIsUnobstructed(table, h, offset, length);
      hide TableSafe, ExclusivesOnce, Unobstructed, HasExclusive, Downgraded;
      var err := LockThenUnlock(h, offset, length);
      return Normalise(err);
    }

    /** `fs_ext_try_upgrade_lock`: it first gives up one lock on exactly the bytes asked for. It reports
        success if nobody then holds any of these bytes, and the caller then holds them exclusively;
        `EAGAIN` if somebody does, and then the lock is gone; and that there was none. */
    method TryUpgradeLock(h: nat, offset: nat, length: nat) returns (res: Code, ghost released: Table, ghost e: Entry)
      requires Valid()
      modifies this`table
      ensures Valid()
      ensures res == ENOTLOCKED <==> !HasLock(old(table), h, offset, length)
      ensures res == ENOTLOCKED ==> table == old(table)
      ensures res != ENOTLOCKED ==>
        && ReleasesAsked(old(table), released, h, offset, length, e)
        && if Unobstructed(released, h, offset, length, Exclusive) then
             && res == OK && BecomesAsked(old(table), table, h, offset, length, Exclusive)
             && table == released + multiset{Entry(h, RangeOf(offset, length), Exclusive)}
           else
             res == EAGAIN && table == released
    {
      hide TableSafe, Denied, Locked, Unlocked, ExclusivesOnce, Unobstructed, HasLock, HasExclusive, BecomesAsked,
        GainsAsked, ReleasesAsked, RangeOf;
      ghost var t := table;
      var err;
      err, e := Unlock(h, offset, length);
      released := table;
      if err == OK {
        err := LockFile(h, offset, length, Exclusive);
        if err == OK { UpgradeBecomes(t, released, h, offset, length, e); }
      }
      return Normalise(err), released, e;
    }
  }

  lemma HolderObstructs(t: Table, t': Table, h: nat, o: nat, offset: nat, length: nat, m: Mode)
    requires GainsAsked(t, t', h, 0, 0, Exclusive) && o != h && m != Free && offset < 0xFFFF_FFFF_FFFF_FFFF
    ensures !Unobstructed(t', o, offset, length, m)
  {
    hide ModeAt;
    assert Asked(offset, length, offset) && Asked(0, 0, offset);
    assert Blocked(t', o, m, h, offset);
  }

  lemma NothingObstructs(h: nat, offset: nat, length: nat, m: Mode)
    ensures Unobstructed(multiset{}, h, offset, length, m)
  {
  }

  /** The one lock of a table can be given up. */
  lemma OneLock(h: nat)
    ensures var t := multiset{Entry(h, RangeOf(0, 0), Exclusive)};
      && HasLock(t, h, 0, 0)
      && forall e, t' :: ReleasesAsked(t, t', h, 0, 0, e) ==> t' == multiset{}
  {
    AskedIsRange(Entry(h, RangeOf(0, 0), Exclusive), h, 0, 0);
  }

  /** With the default arguments a lock is on the whole file: while one handle has it exclusively every
      other handle is refused any lock that starts below byte 2^64 - 1, and once it is given up the other
      gets it. */
  method WholeFileIsExclusive(h: nat, o: nat, offset: nat, length: nat, m: Mode)
    returns (first: Code, second: Code, third: Code, fourth: Code)
    requires o != h && m != Free && offset < 0xFFFF_FFFF_FFFF_FFFF
    ensures first == OK && second == EAGAIN && third == OK && fourth == OK
  {
    hide Unobstructed, GainsAsked, ReleasesAsked, HasLock, RangeOf, Denied, Locked, Unlocked, TableSafe, ExclusivesOnce;
    var file := new LockTable(EACCES);
    NothingObstructs(h, 0, 0, Exclusive);
    first := file.TryLock(h, 0, 0, Exclusive);
    assert file.table == multiset{Entry(h, RangeOf(0, 0), Exclusive)};
    HolderObstructs(multiset{}, file.table, h, o, offset, length, m);
    second := file.TryLock(o, offset, length, m);
    OneLock(h);
    ghost var e;
    third, e := file.Unlock(h, 0, 0);
    NothingObstructs(o, offset, length, m);
    fourth := file.TryLock(o, offset, length, m);
  }
}
