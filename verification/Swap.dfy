/** Swapping two paths on Windows: up to five moves, any of which may fail, with a rollback. */
module Swap {
  import opened Basics
  import opened FileTree
  import opened TempPath

  const ENAMETOOLONG: Status := -36
  const EEXIST: Status := -17
  const EPERM: Status := -1
  const MAX_PATH := 260

  /** What goes wrong from outside, zero where nothing does: for each attempt to make a candidate name,
      and for each of the five moves. */
  datatype Faults = Faults(name: nat -> Status, away: Status, over: Status, undoAway: Status,
                           finish: Status, undoOver: Status, undoLast: Status)

  /** The candidate number `i` for the temporary path of `base`. */
  function Candidate(cwd: Path, base: string, unique: nat, i: nat): Path {
    Resolve(cwd, Directory(base)) + [CandidateName(unique, i)]
  }

  // ---- What three moves amount to ----

  /** What is at `q` once the subtrees at `a` and `b` have changed places. */
  function ExchangedLookup(t: Tree, a: Path, b: Path, q: Path): Option<Node> {
    if a <= q then Lookup(t, b + q[|a|..]) else if b <= q then Lookup(t, a + q[|b|..]) else Lookup(t, q)
  }

  ghost predicate Exchanged(t: Tree, u: Tree, a: Path, b: Path) {
    forall q :: Lookup(u, q) == ExchangedLookup(t, a, b, q)
  }

  /** A path beside `a` that nothing has. */
  predicate FreeBeside(t: Tree, a: Path, tmp: Path) {
    a != [] && tmp != [] && Parent(a) == Parent(tmp) && tmp !in t
  }

  lemma Siblings(a: Path, tmp: Path)
    requires a != [] && tmp != [] && Parent(a) == Parent(tmp) && a != tmp
    ensures !Comparable(a, tmp)
  {
    PrefixCases(a, tmp);
    PrefixCases(tmp, a);
  }

  /** The source can be moved out of the way. */
  lemma AwayIsMovable(t: Tree, a: Path, tmp: Path)
    requires IsTree(t) && FreeBeside(t, a, tmp)
    ensures Movable(t, a, tmp) <==> a in t
  {
    if a in t {
      Siblings(a, tmp);
    }
  }

  /** What can be moved to the place of the source once that is at the temporary path: an existing
      target that is apart from the source, or, where the target string happens to lead to or into the
      temporary path, what the source has at that place. */
  predicate TakesPlace(t: Tree, a: Path, b: Path, tmp: Path) {
    if tmp <= b then a + b[|tmp|..] in t else b in t && !Comparable(a, b)
  }

  lemma OverIsMovable(t: Tree, a: Path, b: Path, tmp: Path)
    requires IsTree(t) && FreeBeside(t, a, tmp) && a in t
    ensures Movable(Moved(t, a, tmp), b, a) <==> TakesPlace(t, a, b, tmp)
    ensures a !in Moved(t, a, tmp)
    ensures b in t ==> !(tmp <= b) && (TakesPlace(t, a, b, tmp) <==> !Comparable(a, b))
  {
    hide Moved;
    Siblings(a, tmp);
    LookupMoved(t, a, tmp, a);
    LookupMoved(t, a, tmp, b);
    LookupMoved(t, a, tmp, Parent(a));
    PrefixCases(tmp, b);
    PrefixCases(a, b);
    PrefixCases(b, a);
    if b in t && tmp <= b { NothingUnder(t, tmp, b); }
    assert !(a <= Parent(a)) && !(tmp <= Parent(a));
    assert tmp <= b < a ==> |b| < |tmp|;
  }

  /** And then the source can take the target's place. */
  lemma FinishIsMovable(t: Tree, a: Path, b: Path, tmp: Path)
    requires IsTree(t) && FreeBeside(t, a, tmp) && a in t && b in t && !Comparable(a, b)
    ensures Movable(Moved(Moved(t, a, tmp), b, a), tmp, b)
    ensures b !in Moved(Moved(t, a, tmp), b, a)
  {
    hide Moved;
    var t1 := Moved(t, a, tmp);
    var t2 := Moved(t1, b, a);
    Siblings(a, tmp);
    PrefixCases(tmp, b);
    if tmp <= b { NothingUnder(t, tmp, b); }
    assert b != [];
    BesideIsApart(t, a, b, tmp);
    LookupMoved(t1, b, a, tmp);
    LookupMoved(t, a, tmp, tmp);
    assert tmp[|tmp|..] == [] && a + [] == a;
    LookupMoved(t1, b, a, b);
    var p := Parent(b);
    assert !(b <= p) && (a <= p ==> a <= b) && (tmp <= p ==> tmp <= b);
    LookupMoved(t1, b, a, p);
    LookupMoved(t, a, tmp, p);
  }

  /** A free sibling of one path has nothing to do with another existing one apart from it. */
  lemma BesideIsApart(t: Tree, a: Path, b: Path, tmp: Path)
    requires IsTree(t) && FreeBeside(t, a, tmp) && b in t && !Comparable(a, b)
    ensures !Comparable(b, tmp)
  {
    PrefixCases(tmp, b);
    PrefixCases(b, tmp);
    if tmp < b { NothingUnder(t, tmp, b); }
    if b < tmp { AboveSibling(a, b, tmp); }
  }

  lemma AboveSibling(a: Path, b: Path, tmp: Path)
    requires a != [] && tmp != [] && Parent(a) == Parent(tmp) && b < tmp
    ensures b <= a
  {
    assert b <= Parent(tmp);
  }

  lemma ThreeMovesAt(t: Tree, a: Path, b: Path, tmp: Path, q: Path)
    requires IsTree(t) && FreeBeside(t, a, tmp) && a in t && b in t && !Comparable(a, b)
    ensures Lookup(Moved(Moved(Moved(t, a, tmp), b, a), tmp, b), q) == ExchangedLookup(t, a, b, q)
  {
    hide Moved;
    var t1 := Moved(t, a, tmp);
    var t2 := Moved(t1, b, a);
    Siblings(a, tmp);
    BesideIsApart(t, a, b, tmp);
    LookupMoved(t2, tmp, b, q);
    if b <= q {
      var p := tmp + q[|b|..];
      LookupMoved(t1, b, a, p);
      LookupMoved(t, a, tmp, p);
      assert a + p[|tmp|..] == a + q[|b|..];
      Apart(a, tmp, p);
      Apart(b, tmp, p);
    } else if a <= q {
      LookupMoved(t1, b, a, q);
      LookupMoved(t, a, tmp, b + q[|a|..]);
      Apart(a, b, b + q[|a|..]);
      Apart(tmp, b, b + q[|a|..]);
      Apart(tmp, a, q);
    } else {
      LookupMoved(t1, b, a, q);
      LookupMoved(t, a, tmp, q);
      PrefixCases(tmp, q);
      if tmp < q { NothingUnder(t, tmp, q); }
    }
  }

  lemma CommonPath(a: Path, b: Path, q: Path)
    requires a <= q && b <= q
    ensures Comparable(a, b)
  {
    assert a == q[..|a|] && b == q[..|b|];
    assert |a| <= |b| ==> a == b[..|a|];
    assert |b| <= |a| ==> b == a[..|b|];
  }

  /** No path is under two that are apart. */
  lemma Apart(a: Path, b: Path, q: Path)
    requires !Comparable(a, b)
    ensures !(a <= q && b <= q)
  {
    if a <= q && b <= q { CommonPath(a, b, q); }
  }

  lemma ThreeMovesExchange(t: Tree, a: Path, b: Path, tmp: Path)
    requires IsTree(t) && FreeBeside(t, a, tmp) && a in t && b in t && !Comparable(a, b)
    ensures Exchanged(t, Moved(Moved(Moved(t, a, tmp), b, a), tmp, b), a, b)
  {
    forall q ensures Lookup(Moved(Moved(Moved(t, a, tmp), b, a), tmp, b), q) == ExchangedLookup(t, a, b, q) {
      ThreeMovesAt(t, a, b, tmp, q);
    }
  }

  // ---- The swap ----

  /** What was at or under `p` in the first tree is at or under `p'` in the second. */
  ghost predicate SameBelow(t: Tree, p: Path, u: Tree, p': Path) {
    forall s: Path :: Lookup(u, p' + s) == Lookup(t, p + s)
  }

  /** Nothing outside the three paths has changed. */
  ghost predicate SameElsewhere(t: Tree, u: Tree, a: Path, b: Path, tmp: Path) {
    forall q :: !(a <= q) && !(b <= q) && !(tmp <= q) ==> Lookup(u, q) == Lookup(t, q)
  }

  /** The first subtree is whole at `p` and the second at `q`. */
  ghost predicate WholeAt(t: Tree, u: Tree, a: Path, b: Path, p: Path, q: Path) {
    SameBelow(t, a, u, p) && SameBelow(t, b, u, q) && !Comparable(p, q)
  }

  /** Each subtree is whole at a path of its own among the three, and nothing else has changed. */
  ghost predicate BothWhole(t: Tree, u: Tree, a: Path, b: Path, tmp: Path) {
    (WholeAt(t, u, a, b, a, b) || WholeAt(t, u, a, b, tmp, b) || WholeAt(t, u, a, b, tmp, a)) &&
    SameElsewhere(t, u, a, b, tmp)
  }

  /** Going down from a path does not get under one that is apart from it. */
  lemma Under(p: Path, a: Path, s: Path)
    requires !Comparable(p, a)
    ensures p <= p + s && (p + s)[|p|..] == s && !(a <= p + s)
  {
    Apart(p, a, p + s);
  }

  lemma AwayKeepsBoth(t: Tree, a: Path, b: Path, tmp: Path)
    requires !Comparable(a, b) && !Comparable(a, tmp) && !Comparable(b, tmp)
    ensures BothWhole(t, Moved(t, a, tmp), a, b, tmp)
  {
    hide Moved;
    var u := Moved(t, a, tmp);
    forall s: Path ensures Lookup(u, tmp + s) == Lookup(t, a + s) {
      LookupMoved(t, a, tmp, tmp + s);
      Under(tmp, a, s);
    }
    assert SameBelow(t, a, u, tmp);
    forall s: Path ensures Lookup(u, b + s) == Lookup(t, b + s) {
      LookupMoved(t, a, tmp, b + s);
      Under(b, a, s);
      Under(b, tmp, s);
    }
    assert SameBelow(t, b, u, b);
    forall q | !(a <= q) && !(tmp <= q) ensures Lookup(u, q) == Lookup(t, q) {
      LookupMoved(t, a, tmp, q);
    }
  }

  lemma OverKeepsBoth(t: Tree, a: Path, b: Path, tmp: Path)
    requires !Comparable(a, b) && !Comparable(a, tmp) && !Comparable(b, tmp)
    ensures BothWhole(t, Moved(Moved(t, a, tmp), b, a), a, b, tmp)
  {
    hide Moved;
    var t1 := Moved(t, a, tmp);
    var u := Moved(t1, b, a);
    forall s: Path ensures Lookup(u, tmp + s) == Lookup(t, a + s) {
      LookupMoved(t1, b, a, tmp + s);
      LookupMoved(t, a, tmp, tmp + s);
      Under(tmp, a, s);
      Under(tmp, b, s);
    }
    assert SameBelow(t, a, u, tmp);
    forall s: Path ensures Lookup(u, a + s) == Lookup(t, b + s) {
      LookupMoved(t1, b, a, a + s);
      LookupMoved(t, a, tmp, b + s);
      Under(a, b, s);
      Under(b, a, s);
      Under(b, tmp, s);
    }
    assert SameBelow(t, b, u, a);
    forall q | !(a <= q) && !(b <= q) && !(tmp <= q) ensures Lookup(u, q) == Lookup(t, q) {
      LookupMoved(t1, b, a, q);
      LookupMoved(t, a, tmp, q);
    }
  }

  // ---- Where the moves of a swap lead ----

  /** The temporary path is beside the source if the source string ends in a name, and otherwise inside
      it, where the source cannot be moved. */
  lemma CandidateIsBeside(t: Tree, cwd: Path, from: string, unique: nat, i: nat)
    requires Candidate(cwd, from, unique, i) !in t
    ensures var a, tmp := Resolve(cwd, from), Candidate(cwd, from, unique, i);
      if Names(LastSegment(from)) then FreeBeside(t, a, tmp) else !Movable(t, a, tmp)
  {
    hide CandidateName, Resolve, Directory, LastSegment;
    DirectoryIsParent(cwd, from);
  }

  /** For one: `d/` is the directory `d`, its temporary path is inside `d`, and although nothing has that
      path `d` cannot be moved there. So `d/` can be swapped with nothing. */
  lemma TrailingSeparatorIsInside(unique: nat)
    ensures var t: Tree := map[[] := Dir, ["d"] := Dir, ["e"] := Dir];
      var a, tmp := Resolve([], "d/"), Candidate([], "d/", unique, 0);
      && IsTree(t) && a == ["d"] && tmp == ["d", CandidateName(unique, 0)]
      && tmp !in t && !Movable(t, a, tmp) && !Names(LastSegment("d/"))
  {
    hide CandidateName, Resolve, Directory, LastSegment;
    assert "d" + ['/'] == "d/";
    TrailingSeparator([], "d", '/');
  }

  /** If the last move is possible after the first two, the paths exist and are apart. */
  lemma FinishImpliesApart(t: Tree, a: Path, b: Path, tmp: Path)
    requires IsTree(t) && FreeBeside(t, a, tmp) && a in t
    requires TakesPlace(t, a, b, tmp) && Movable(Moved(Moved(t, a, tmp), b, a), tmp, b)
    ensures b in t && !Comparable(a, b)
  {
    hide Moved;
    OverIsMovable(t, a, b, tmp);
    LookupMoved(Moved(t, a, tmp), b, a, b);
    PrefixCases(tmp, b);
    PrefixCases(a, b);
    assert b[|b|..] == [];
  }

  /** Where the target string leads to or into the temporary path, moving the temporary path back over
      the source path is not possible. */
  lemma InsideStays(t: Tree, a: Path, b: Path, tmp: Path)
    requires IsTree(t) && FreeBeside(t, a, tmp) && a in t && tmp <= b && TakesPlace(t, a, b, tmp)
    ensures !Movable(Moved(Moved(t, a, tmp), b, a), tmp, a)
  {
    hide Moved;
    var t1 := Moved(t, a, tmp);
    Siblings(a, tmp);
    OverIsMovable(t, a, b, tmp);
    PrefixCases(tmp, b);
    if tmp < b {
      LookupMoved(t1, b, a, tmp);
      LookupMoved(t1, b, a, a);
      LookupMoved(t, a, tmp, tmp);
      assert tmp[|tmp|..] == [] && a + [] == a && b + a[|a|..] == b;
      assert a < a + b[|tmp|..];
      PrefixIsDir(t, a, a + b[|tmp|..]);
    } else {
      AwayIsMovable(t, a, tmp);
      MoveBack(t, a, tmp);
    }
  }

  lemma NoTemporaryLeft(t: Tree, u: Tree, a: Path, b: Path, tmp: Path)
    requires IsTree(t) && FreeBeside(t, a, tmp) && a in t && b in t && !Comparable(a, b) && Exchanged(t, u, a, b)
    ensures tmp !in u
  {
    Siblings(a, tmp);
    BesideIsApart(t, a, b, tmp);
    assert Lookup(u, tmp) == ExchangedLookup(t, a, b, tmp);
  }

  /** After two moves the temporary path holds the source and the source path the target. A third move
      of the temporary back over the source path is possible only between files, and then drops what
      the target was. */
  lemma BackOverTarget(t: Tree, a: Path, b: Path, tmp: Path)
    requires IsTree(t) && FreeBeside(t, a, tmp) && a in t && b in t && !Comparable(a, b)
    ensures var t2 := Moved(Moved(t, a, tmp), b, a);
      && (Movable(t2, tmp, a) <==> t[a].File? && t[b].File?)
      && (Movable(t2, tmp, a) ==> Moved(t2, tmp, a) == t - {b})
  {
    hide Moved;
    var t1 := Moved(t, a, tmp);
    var t2 := Moved(t1, b, a);
    Siblings(a, tmp);
    BesideIsApart(t, a, b, tmp);
    OverLookups(t, a, b, tmp);
    if t[a].File? && t[b].File? {
      forall q ensures Lookup(Moved(t2, tmp, a), q) == Lookup(t - {b}, q) {
        BackOverAt(t, a, b, tmp, q);
      }
      SameLookups(Moved(t2, tmp, a), t - {b});
    }
  }

  lemma OverLookups(t: Tree, a: Path, b: Path, tmp: Path)
    requires IsTree(t) && FreeBeside(t, a, tmp) && a in t && b in t && !Comparable(a, b)
    ensures var t2 := Moved(Moved(t, a, tmp), b, a);
      && Lookup(t2, tmp) == Lookup(t, a) && Lookup(t2, a) == Lookup(t, b)
      && Lookup(t2, Parent(a)) == Lookup(t, Parent(a))
  {
    hide Moved;
    var t1 := Moved(t, a, tmp);
    Siblings(a, tmp);
    BesideIsApart(t, a, b, tmp);
    LookupMoved(t1, b, a, tmp);
    LookupMoved(t, a, tmp, tmp);
    LookupMoved(t1, b, a, a);
    LookupMoved(t, a, tmp, b);
    LookupMoved(t1, b, a, Parent(a));
    LookupMoved(t, a, tmp, Parent(a));
    assert a + tmp[|tmp|..] == a && b + a[|a|..] == b;
    assert !(a <= Parent(a)) && !(tmp <= Parent(a));
    assert b <= Parent(a) ==> b <= a;
  }

  lemma BackOverAt(t: Tree, a: Path, b: Path, tmp: Path, q: Path)
    requires IsTree(t) && FreeBeside(t, a, tmp) && a in t && b in t && !Comparable(a, b)
    requires t[a].File? && t[b].File?
    ensures Lookup(Moved(Moved(Moved(t, a, tmp), b, a), tmp, a), q) == Lookup(t - {b}, q)
  {
    hide Moved;
    var t1 := Moved(t, a, tmp);
    var t2 := Moved(t1, b, a);
    Siblings(a, tmp);
    BesideIsApart(t, a, b, tmp);
    LookupMoved(t2, tmp, a, q);
    if a <= q {
      var p := tmp + q[|a|..];
      LookupMoved(t1, b, a, p);
      LookupMoved(t, a, tmp, p);
      assert a + p[|tmp|..] == q;
      Apart(a, tmp, p);
      Apart(b, tmp, p);
    } else {
      LookupMoved(t1, b, a, q);
      LookupMoved(t, a, tmp, q);
      PrefixCases(tmp, q);
      PrefixCases(b, q);
      if tmp < q { NothingUnder(t, tmp, q); }
      if b < q { NothingUnder(t, b, q); }
    }
  }

  // ---- What a failed swap leaves ----

  /** The tree after a failed swap, from how far it got: whether the source was moved away, whether the
      target then took its place, and which rollback moves were made to fail. */
  ghost function Leftover(t: Tree, a: Path, b: Path, tmp: Path, away: bool, over: bool, faults: Faults): Tree {
    var t1 := Moved(t, a, tmp);
    if !away || (if over then faults.undoOver == 0 && faults.undoLast == 0 else faults.undoAway == 0) then t
    else if !over || faults.undoOver == 0 then t1
    else if Overwrites(t, a, b, faults) then t - {b}
    else Moved(t1, b, a)
  }

  /** The second rollback move puts the source back, over the target that the first has left there. */
  predicate Overwrites(t: Tree, a: Path, b: Path, faults: Faults) {
    && a in t && b in t && t[a].File? && t[b].File?
    && faults.undoOver < 0 && faults.undoLast == 0
  }

  /** A failed swap keeps every node if and only if it does not overwrite the target; and if the paths
      exist and are apart, each subtree is then whole. */
  lemma LeftoverLoses(t: Tree, a: Path, b: Path, tmp: Path, away: bool, over: bool, faults: Faults)
    requires IsTree(t)
    requires away ==> FreeBeside(t, a, tmp) && a in t
    requires over ==> away && TakesPlace(t, a, b, tmp)
    ensures var u := Leftover(t, a, b, tmp, away, over, faults);
      && (NothingLost(t, u) <==> !(over && Overwrites(t, a, b, faults)))
      && (b in t && !Comparable(a, b) && NothingLost(t, u) ==> BothWhole(t, u, a, b, tmp))
  {
    hide Moved, NothingLost, Comparable, BothWhole;
    UnchangedLosesNothing(t);
    UnchangedIsWhole(t, a, b, tmp);
    if away {
      OverIsMovable(t, a, b, tmp);
      AwayIsMovable(t, a, tmp);
      MovedIsTree(t, a, tmp);
      MoveLosesNothing(t, a, tmp);
      MoveLosesNothing(Moved(t, a, tmp), b, a);
      LossesAddUp(t, Moved(t, a, tmp), Moved(Moved(t, a, tmp), b, a));
      if b in t {
        WithoutOneIsLoss(t, b);
        if !Comparable(a, b) {
          Siblings(a, tmp);
          BesideIsApart(t, a, b, tmp);
          AwayKeepsBoth(t, a, b, tmp);
          OverKeepsBoth(t, a, b, tmp);
        }
      }
    }
  }

  /** After two moves: when the last is possible, and what moving the temporary path back would do. */
  lemma AfterTwoMoves(t: Tree, a: Path, b: Path, tmp: Path)
    requires IsTree(t) && FreeBeside(t, a, tmp) && a in t && TakesPlace(t, a, b, tmp)
    ensures var t2 := Moved(Moved(t, a, tmp), b, a);
      && (Movable(t2, tmp, b) <==> b in t && !Comparable(a, b))
      && (b in t ==> !Comparable(a, b))
      && (Movable(t2, tmp, b) ==> Exchanged(t, Moved(t2, tmp, b), a, b) && NothingLost(t, Moved(t2, tmp, b)))
      && (Movable(t2, tmp, a) <==> b in t && t[a].File? && t[b].File?)
      && (Movable(t2, tmp, a) ==> Moved(t2, tmp, a) == t - {b})
  {
    hide Moved, NothingLost, Comparable, Exchanged;
    OverIsMovable(t, a, b, tmp);
    if b in t {
      FinishIsMovable(t, a, b, tmp);
      ThreeMovesExchange(t, a, b, tmp);
      ThreeMovesLoseNothing(t, a, b, tmp);
      BackOverTarget(t, a, b, tmp);
    } else {
      InsideStays(t, a, b, tmp);
      if Movable(Moved(Moved(t, a, tmp), b, a), tmp, b) { FinishImpliesApart(t, a, b, tmp); }
    }
  }

  lemma ThreeMovesLoseNothing(t: Tree, a: Path, b: Path, tmp: Path)
    requires IsTree(t) && FreeBeside(t, a, tmp) && a in t && b in t && !Comparable(a, b)
    ensures NothingLost(t, Moved(Moved(Moved(t, a, tmp), b, a), tmp, b))
  {
    hide Moved, NothingLost, Comparable, Movable;
    var t1 := Moved(t, a, tmp);
    var t2 := Moved(t1, b, a);
    AwayIsMovable(t, a, tmp);
    MovedIsTree(t, a, tmp);
    OverIsMovable(t, a, b, tmp);
    MovedIsTree(t1, b, a);
    FinishIsMovable(t, a, b, tmp);
    MoveLosesNothing(t, a, tmp);
    MoveLosesNothing(t1, b, a);
    MoveLosesNothing(t2, tmp, b);
    LossesAddUp(t, t1, t2);
    LossesAddUp(t, t2, Moved(t2, tmp, b));
  }

  lemma UnchangedIsWhole(t: Tree, a: Path, b: Path, tmp: Path)
    ensures !Comparable(a, b) ==> BothWhole(t, t, a, b, tmp)
  {
    assert SameBelow(t, a, t, a) && SameBelow(t, b, t, b);
  }

  class FileSystem {
    var tree: Tree
    const cwd: Path

    ghost predicate Valid()
      reads this
    {
      IsTree(tree)
    }

    /** `fs_ext__move`: it fails if something outside makes it fail or if the move is not possible, and
        then changes nothing. */
    method Move(from: Path, to: Path, fault: Status) returns (res: Status)
      requires Valid()
      modifies this
      ensures Valid()
      ensures res == if fault < 0 then fault else if Movable(old(tree), from, to) then 0 else -1
      ensures tree == if res == 0 then Moved(old(tree), from, to) else old(tree)
    {
      if fault < 0 {
        return fault;
      }
      if !Movable(tree, from, to) {
        return EPERM;
      }
      MovedIsTree(tree, from, to);
      tree := Moved(tree, from, to);
      return 0;
    }

    /** The search stops at the candidate `i`: making and finding all before it has gone well. */
    predicate StopsAt(base: string, unique: nat, name: nat -> Status, i: nat, res: Status, path: Path)
      reads this
    {
      && i <= 64 && (forall k :: 0 <= k < i ==> name(k) == 0 && Candidate(cwd, base, unique, k) in tree)
      && if i == 64 then res == -17
         else if name(i) != 0 then res == name(i)
         else res == 0 && path == Candidate(cwd, base, unique, i) && path !in tree
    }

    /** `fs_ext__temp_path`: the first of the 64 candidates that is free; the error of the first name that
        cannot be made; or that all 64 exist. A base of 260 characters or more is too long. */
    method FreePath(base: string, unique: nat, name: nat -> Status) returns (res: Status, path: Path, ghost i: nat)
      ensures if |base| >= 260 then res == -36 else StopsAt(base, unique, name, i, res, path)
    {
      path, i := [], 0;
      if |base| >= MAX_PATH {
        return ENAMETOOLONG, path, i;
      }
      var directory := Resolve(cwd, Directory(base));
      for n := 0 to ATTEMPTS
        invariant forall k :: 0 <= k < n ==> name(k) == 0 && Candidate(cwd, base, unique, k) in tree
      {
        if name(n) != 0 {
          return name(n), path, n;
        }
        path := directory + [CandidateName(unique, n)];
        if path !in tree {
          return 0, path, n;
        }
      }
      return EEXIST, path, ATTEMPTS;
    }

    /** `fs_ext__swap`. Its result is the code of the search for a temporary path if that fails, and
        otherwise that of the first of its three moves that fails, whatever the rollback moves do: what
        made it fail from outside, or that it is not possible. The moves are possible if `from` ends in a
        name, both paths exist and neither is inside the other.

        When the swap succeeds it has exchanged the two subtrees and left no temporary. When it fails,
        `Leftover` is the tree it leaves, for all paths and all faults. If no rollback move fails that is
        the tree it found. A node is lost in one case only: two files, the last move failed, the rollback
        of the second move failed and that of the first succeeded. Then the file at `to` is gone. */
    method Swap(from: string, to: string, unique: nat, faults: Faults)
      returns (res: Status, ghost search: Status, ghost i: nat, ghost tmp: Path)
      requires Valid()
      modifies this
      ensures Valid()
      ensures if |from| >= 260 then search == -36 else old(StopsAt(from, unique, faults.name, i, search, tmp))
      ensures var t, a, b := old(tree), Resolve(cwd, from), Resolve(cwd, to);
        res ==
          if search < 0 then search
          else if faults.away < 0 then faults.away
          else if !Names(LastSegment(from)) || a !in t then -1
          else if faults.over < 0 then faults.over
          else if !TakesPlace(t, a, b, tmp) then -1
          else if faults.finish < 0 then faults.finish
          else if b !in t then -1
          else 0
      ensures var t, a, b := old(tree), Resolve(cwd, from), Resolve(cwd, to);
        res == 0 <==>
          && search == 0 && Names(LastSegment(from)) && a in t && b in t && !Comparable(a, b)
          && faults.away == 0 && faults.over == 0 && faults.finish == 0
      ensures res == 0 ==> tmp !in tree && Exchanged(old(tree), tree, Resolve(cwd, from), Resolve(cwd, to))
      ensures var t, a, b := old(tree), Resolve(cwd, from), Resolve(cwd, to);
        var away := search == 0 && Names(LastSegment(from)) && a in t && faults.away == 0;
        var over := away && faults.over == 0 && TakesPlace(t, a, b, tmp);
        res != 0 ==> tree == Leftover(t, a, b, tmp, away, over, faults)
      ensures res != 0 && faults.undoAway == 0 && faults.undoOver == 0 && faults.undoLast == 0 ==> tree == old(tree)
      ensures var t, a, b := old(tree), Resolve(cwd, from), Resolve(cwd, to);
        !NothingLost(t, tree) <==>
          && search == 0 && Names(LastSegment(from)) && a in t && b in t && !Comparable(a, b)
          && t[a].File? && t[b].File?
          && faults.away == 0 && faults.over == 0 && faults.finish < 0
          && faults.undoOver < 0 && faults.undoLast == 0
      ensures var t, a, b := old(tree), Resolve(cwd, from), Resolve(cwd, to);
        !NothingLost(t, tree) ==> tree == t - {b}
      ensures var t, a, b := old(tree), Resolve(cwd, from), Resolve(cwd, to);
        res != 0 && b in t && !Comparable(a, b) && NothingLost(t, tree) ==> BothWhole(t, tree, a, b, tmp)
    {
      hide Moved, Movable, Resolve, CandidateName, Directory, LastSegment, Candidate, IsTree, Comparable, Exchanged,
        NothingLost, BothWhole, TakesPlace;
      var a, b := Resolve(cwd, from), Resolve(cwd, to);
      ghost var t := tree;
      var path;
      res, path, i := FreePath(from, unique, faults.name);
      search, tmp := res, path;
      LeftoverLoses(t, a, b, tmp, false, false, faults);
      if res < 0 {
        return;
      }
      CandidateIsBeside(t, cwd, from, unique, i);
      res := Move(a, path, faults.away);
      if Names(LastSegment(from)) {
        AwayIsMovable(t, a, tmp);
      }
      if res < 0 {
        return;
      }
      MoveBack(t, a, tmp);
      OverIsMovable(t, a, b, tmp);
      LeftoverLoses(t, a, b, tmp, true, false, faults);
      ghost var t1 := tree;
      res := Move(b, a, faults.over);
      if res < 0 {
        var undo := Move(path, a, faults.undoAway);
        return;
      }
      MoveBack(t1, b, a);
      LeftoverLoses(t, a, b, tmp, true, true, faults);
      AfterTwoMoves(t, a, b, tmp);
      res := Move(path, b, faults.finish);
      if res < 0 {
        var undo := Move(a, b, faults.undoOver);
        undo := Move(path, a, faults.undoLast);
        return;
      }
      NoTemporaryLeft(t, tree, a, b, tmp);
    }
  }
}
