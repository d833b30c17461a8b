/** The reader-writer lock that every platform's advisory file lock is meant to be, seen at one byte
of the file: who holds what there, and what one call of one handle may do to that. */
module RwLock {

  datatype Mode = Free | Shared | Exclusive

  /** What each handle holds on one byte. */
  type Holders = nat -> Mode

  predicate Compatible(a: Mode, b: Mode) {
    a == Free || b == Free || (a == Shared && b == Shared)
  }

  predicate AtMost(a: Mode, b: Mode) {
    a == Free || a == b || b == Exclusive
  }

  function Stronger(a: Mode, b: Mode): Mode {
    if AtMost(a, b) then b else a
  }

  ghost predicate Safe(t: Holders) {
    forall a, b :: a != b ==> Compatible(t(a), t(b))
  }

  ghost predicate Grantable(t: Holders, h: nat, m: Mode) {
    forall o :: o != h ==> Compatible(t(o), m)
  }

  /** What a call can do on a byte: nothing; gain a mode; weaken the hold to shared in one step; or let
      go. A handle may have several locks over a byte: `rest` is what it holds there through others
      than the one it weakens or lets go of. */
  datatype Op = Keep | Acquire(m: Mode) | Downgrade(rest: Mode) | Release(rest: Mode)

  /** Only gaining needs permission, and only of the other handles. */
  ghost predicate Does(t: Holders, h: nat, op: Op, t': Holders) {
    && (forall o :: o != h ==> t'(o) == t(o))
    && match op
       case Keep => t'(h) == t(h)
       case Acquire(m) => Grantable(t, h, m) && t'(h) == Stronger(t(h), m)
       case Downgrade(rest) => AtMost(t'(h), t(h)) && t'(h) == Stronger(Shared, rest)
       case Release(rest) => AtMost(t'(h), t(h)) && t'(h) == rest
  }

  lemma DoesKeepsSafe(t: Holders, h: nat, op: Op, t': Holders)
    requires Safe(t) && Does(t, h, op, t')
    ensures Safe(t')
  {
    forall a, b | a != b ensures Compatible(t'(a), t'(b)) {
      assert Compatible(t(a), t(b));
    }
  }
}
