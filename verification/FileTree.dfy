/** A file system as a tree, and what moving a path does to it. */
module FileTree {
  import opened Basics

  type Path = seq<string>

  datatype Node = File(content: int) | Dir

  type Tree = map<Path, Node>

  function Parent(p: Path): Path
    requires p != []
  {
    p[..|p| - 1]
  }

  /** There is a root, and everything else is in a directory. */
  ghost predicate IsTree(t: Tree) {
    && [] in t && t[[]].Dir?
    && forall p :: p in t && p != [] ==> Parent(p) in t && t[Parent(p)].Dir?
  }

  function Lookup(t: Tree, p: Path): Option<Node> {
    if p in t then Some(t[p]) else None
  }

  predicate Comparable(a: Path, b: Path) {
    a <= b || b <= a
  }

  /** `MoveFileEx` with replacement: the source exists, the target is not inside it and has a directory
      to be in, and if the target exists both are files. */
  predicate Movable(t: Tree, a: Path, b: Path) {
    && a in t && a != [] && b != []
    && !(a < b)
    && Parent(b) in t && t[Parent(b)].Dir?
    && (b in t ==> a == b || (t[a].File? && t[b].File?))
  }

  /** Everything at or under `a` is then at or under `b`. */
  function Moved(t: Tree, a: Path, b: Path): Tree {
    map q | q in (set q | q in t && !(a <= q) && !(b <= q)) + (set q | q in t && a <= q :: b + q[|a|..]) ::
      if b <= q && a + q[|b|..] in t then t[a + q[|b|..]] else if q in t then t[q] else Dir
  }

  /** What is at `q` after the move: the target is what the source was, the source is gone, and nothing
      else has changed. */
  function MovedLookup(t: Tree, a: Path, b: Path, q: Path): Option<Node> {
    if b <= q then Lookup(t, a + q[|b|..]) else if a <= q then None else Lookup(t, q)
  }

  lemma LookupMoved(t: Tree, a: Path, b: Path, q: Path)
    ensures Lookup(Moved(t, a, b), q) == MovedLookup(t, a, b, q)
  {
    if b <= q {
      var p := a + q[|b|..];
      assert q == b + p[|a|..];
      if q in Moved(t, a, b) {
        assert forall x :: x in t && a <= x && q == b + x[|a|..] ==> x == p;
      }
    } else {
      assert forall x :: a <= x && x in t ==> b <= b + x[|a|..];
    }
  }

  lemma PrefixCases(p: Path, q: Path)
    ensures p <= q <==> p == q || p < q
  {
    assert p <= q && |p| == |q| ==> p == q;
  }

  lemma SameLookups(t: Tree, u: Tree)
    requires forall q :: Lookup(t, q) == Lookup(u, q)
    ensures t == u
  {
    forall q ensures q in t <==> q in u {
      assert Lookup(t, q) == Lookup(u, q);
    }
    forall q | q in t ensures t[q] == u[q] {
      assert Lookup(t, q) == Lookup(u, q);
    }
  }

  lemma {:induction false} PrefixIsDir(t: Tree, p: Path, q: Path)
    requires IsTree(t) && q in t && p < q
    ensures p in t && t[p].Dir?
    decreases |q|
  {
    if p != Parent(q) {
      assert p < Parent(q);
      PrefixIsDir(t, p, Parent(q));
    }
  }

  /** Nothing is under a path that is absent or a file. */
  lemma NothingUnder(t: Tree, p: Path, q: Path)
    requires IsTree(t) && p < q && (p !in t || t[p].File?)
    ensures q !in t
  {
    if q in t { PrefixIsDir(t, p, q); }
  }

  lemma MovedIsTree(t: Tree, a: Path, b: Path)
    requires IsTree(t) && Movable(t, a, b)
    ensures IsTree(Moved(t, a, b))
  {
    hide Moved;
    var u := Moved(t, a, b);
    LookupMoved(t, a, b, []);
    forall p | p in u && p != [] ensures Parent(p) in u && u[Parent(p)].Dir? {
      LookupMoved(t, a, b, p);
      LookupMoved(t, a, b, Parent(p));
      if p == b {
        assert a <= Parent(b) ==> a < b;
      } else if b <= p {
        assert b <= Parent(p) && a + Parent(p)[|b|..] == Parent(a + p[|b|..]);
      } else {
        assert a <= Parent(p) ==> a <= p;
      }
    }
  }

  /** A free target is neither above nor below an existing source that can be moved to it. */
  lemma FreeTargetIsApart(t: Tree, a: Path, b: Path)
    requires IsTree(t) && Movable(t, a, b) && b !in t
    ensures !Comparable(a, b)
  {
    PrefixCases(a, b);
    PrefixCases(b, a);
    if b < a { PrefixIsDir(t, b, a); }
  }

  lemma MovableBack(t: Tree, a: Path, b: Path)
    requires IsTree(t) && Movable(t, a, b) && b !in t
    ensures Movable(Moved(t, a, b), b, a)
  {
    hide Moved;
    FreeTargetIsApart(t, a, b);
    LookupMoved(t, a, b, b);
    LookupMoved(t, a, b, a);
    LookupMoved(t, a, b, Parent(a));
    assert b[|b|..] == [] && a + [] == a;
    assert !(a <= Parent(a));
    assert b <= Parent(a) ==> b <= a;
  }

  lemma MoveBackAt(t: Tree, a: Path, b: Path, q: Path)
    requires IsTree(t) && Movable(t, a, b) && b !in t
    ensures Lookup(Moved(Moved(t, a, b), b, a), q) == Lookup(t, q)
  {
    hide Moved;
    FreeTargetIsApart(t, a, b);
    LookupMoved(Moved(t, a, b), b, a, q);
    if a <= q {
      var p := b + q[|a|..];
      LookupMoved(t, a, b, p);
      assert a + p[|b|..] == q;
    } else {
      LookupMoved(t, a, b, q);
      PrefixCases(b, q);
      if b < q { NothingUnder(t, b, q); }
    }
  }

  /** Moving to a free path can always be undone, and undoing it restores the tree. */
  lemma MoveBack(t: Tree, a: Path, b: Path)
    requires IsTree(t) && Movable(t, a, b) && b !in t
    ensures Movable(Moved(t, a, b), b, a) && Moved(Moved(t, a, b), b, a) == t
  {
    MovableBack(t, a, b);
    hide Moved;
    var u := Moved(Moved(t, a, b), b, a);
    forall q ensures Lookup(u, q) == Lookup(t, q) {
      MoveBackAt(t, a, b, q);
    }
    SameLookups(u, t);
  }

  /** Moving something to where it is changes nothing. */
  lemma MoveOntoItself(t: Tree, a: Path)
    requires IsTree(t) && a in t && a != []
    ensures Movable(t, a, a) && Moved(t, a, a) == t
  {
    forall q ensures Lookup(Moved(t, a, a), q) == Lookup(t, q) {
      LookupMoved(t, a, a, q);
      assert a <= q ==> a + q[|a|..] == q;
    }
    hide Moved;
    SameLookups(Moved(t, a, a), t);
  }

  // ---- Keeping everything that is there ----

  /** `f` says where each node of the first tree is in the second, and no two are in one place. */
  ghost predicate Carries(f: map<Path, Path>, t: Tree, u: Tree) {
    && f.Keys == t.Keys
    && (forall p :: p in f ==> Lookup(u, f[p]) == Lookup(t, p))
    && Injective(f)
  }

  ghost predicate Injective(f: map<Path, Path>) {
    forall p, q :: p in f && q in f && f[p] == f[q] ==> p == q
  }

  /** Every node of the first tree is still in the second, as often as it was. */
  ghost predicate NothingLost(t: Tree, u: Tree) {
    exists f :: Carries(f, t, u)
  }

  lemma UnchangedLosesNothing(t: Tree)
    ensures NothingLost(t, t)
  {
    assert Carries(map p | p in t :: p, t, t);
  }

  /** Where a move takes a path. */
  function Shift(a: Path, b: Path, p: Path): Path {
    if a <= p then b + p[|a|..] else p
  }

  lemma ShiftBack(a: Path, b: Path, p: Path)
    requires !(b <= p)
    ensures p == if b <= Shift(a, b, p) then a + Shift(a, b, p)[|b|..] else Shift(a, b, p)
  {
  }

  /** A node that is there lands where the move takes its path. */
  lemma NodeLands(t: Tree, a: Path, b: Path, p: Path)
    requires IsTree(t) && b !in t && p in t
    ensures !(b <= p) && Lookup(Moved(t, a, b), Shift(a, b, p)) == Lookup(t, p)
  {
    hide Moved;
    PrefixCases(b, p);
    if b < p { NothingUnder(t, b, p); }
    ShiftBack(a, b, p);
    LookupMoved(t, a, b, Shift(a, b, p));
  }

  /** A move to a free path keeps every node. */
  lemma MoveLosesNothing(t: Tree, a: Path, b: Path)
    requires IsTree(t) && b !in t
    ensures NothingLost(t, Moved(t, a, b))
  {
    hide Moved, Shift, IsTree;
    var f := map p | p in t :: Shift(a, b, p);
    forall p | p in t ensures !(b <= p) && Lookup(Moved(t, a, b), f[p]) == Lookup(t, p) {
      NodeLands(t, a, b, p);
    }
    forall p, q | p in f && q in f && f[p] == f[q] ensures p == q {
      ShiftBack(a, b, p);
      ShiftBack(a, b, q);
    }
    assert Carries(f, t, Moved(t, a, b));
  }

  lemma {:induction false} ImageFits(f: map<Path, Path>, from: set<Path>, to: set<Path>)
    requires Injective(f) && from <= f.Keys && forall p :: p in from ==> f[p] in to
    ensures |from| <= |to|
  {
    if from != {} {
      var p :| p in from;
      ImageFits(f, from - {p}, to - {f[p]});
    }
  }

  lemma CarriedFits(f: map<Path, Path>, t: Tree, u: Tree)
    requires Carries(f, t, u)
    ensures |t.Keys| <= |u.Keys|
  {
    forall p | p in t.Keys ensures f[p] in u.Keys {
      assert Lookup(u, f[p]) == Lookup(t, p);
    }
    ImageFits(f, t.Keys, u.Keys);
  }

  /** A tree without one of its nodes has lost something, whatever else is in it. */
  lemma WithoutOneIsLoss(t: Tree, p: Path)
    requires p in t
    ensures !NothingLost(t, t - {p})
  {
    hide Carries;
    assert (t - {p}).Keys == t.Keys - {p};
    if NothingLost(t, t - {p}) {
      var f :| Carries(f, t, t - {p});
      CarriedFits(f, t, t - {p});
    }
  }

  lemma CarriesOn(f: map<Path, Path>, g: map<Path, Path>, t: Tree, u: Tree, v: Tree)
    requires Carries(f, t, u) && Carries(g, u, v)
    ensures NothingLost(t, v)
  {
    forall p | p in f ensures f[p] in g && Lookup(v, g[f[p]]) == Lookup(t, p) {
      assert Lookup(u, f[p]) == Lookup(t, p);
      assert Lookup(v, g[f[p]]) == Lookup(u, f[p]);
    }
    hide Lookup;
    var h := map p | p in f :: g[f[p]];
    forall p, q | p in h && q in h && h[p] == h[q] ensures p == q {
      assert f[p] == f[q];
    }
    assert Carries(h, t, v);
  }

  lemma LossesAddUp(t: Tree, u: Tree, v: Tree)
    requires NothingLost(t, u) && NothingLost(u, v)
    ensures NothingLost(t, v)
  {
    hide Carries;
    var f :| Carries(f, t, u);
    var g :| Carries(g, u, v);
    CarriesOn(f, g, t, u, v);
  }
}
