/** Choosing the temporary path of a Windows swap: path strings, the directory part the code cuts off
them, and the 64 candidate names it tries there. */
module TempPath {
  import opened FileTree

  predicate IsSeparator(c: char) {
    c == '\\' || c == '/'
  }

  /** One more character in front of some pieces. */
  function Attach(c: char, pieces: seq<string>): (r: seq<string>)
    requires |pieces| > 0
    ensures |r| > 0
  {
    if IsSeparator(c) then [""] + pieces else [[c] + pieces[0]] + pieces[1..]
  }

  /** The pieces of a string between separators of either kind. */
  function Segments(s: string): (r: seq<string>)
    ensures |r| > 0
  {
    if s == "" then [""] else Attach(s[0], Segments(s[1..]))
  }

  lemma AttachAppend(c: char, front: seq<string>, back: seq<string>)
    requires |front| > 0
    ensures Attach(c, front + back) == Attach(c, front) + back
  {
    assert (front + back)[1..] == front[1..] + back;
  }

  /** Empty pieces and "." name nothing, and ".." names no entry of the directory it is in. */
  predicate Names(segment: string) {
    segment != "" && segment != "." && segment != ".."
  }

  /** Where one piece leads from a directory. The root is its own parent. */
  function Enter(p: Path, segment: string): Path {
    if Names(segment) then p + [segment]
    else if segment == ".." && p != [] then Parent(p)
    else p
  }

  function Walk(p: Path, segments: seq<string>): Path
    decreases |segments|
  {
    if segments == [] then p else Walk(Enter(p, segments[0]), segments[1..])
  }

  predicate Absolute(s: string) {
    s != "" && IsSeparator(s[0])
  }

  function Origin(cwd: Path, s: string): Path {
    if Absolute(s) then [] else cwd
  }

  /** The path that a string names, seen from the directory `cwd`. */
  function Resolve(cwd: Path, s: string): Path {
    Walk(Origin(cwd, s), Segments(s))
  }

  /** `strrchr`: the last index of a character, or -1. */
  function LastIndexOf(s: string, c: char): (i: int)
    ensures -1 <= i < |s|
    ensures i >= 0 ==> s[i] == c
    ensures forall k :: i < k < |s| ==> s[k] != c
  {
    if s == "" then -1
    else if s[|s| - 1] == c then |s| - 1
    else LastIndexOf(s[..|s| - 1], c)
  }

  /** The last separator of either kind, or -1. */
  function LastSeparator(s: string): (i: int)
    ensures -1 <= i < |s|
    ensures i >= 0 ==> IsSeparator(s[i])
    ensures forall k :: i < k < |s| ==> !IsSeparator(s[k])
  {
    var backward, forward := LastIndexOf(s, '\\'), LastIndexOf(s, '/');
    if backward > forward then backward else forward
  }

  /** The string up to its last separator; the separator itself is kept only at the front, and a
      string without one is in the current directory. */
  function Directory(base: string): string {
    var separator := LastSeparator(base);
    if separator < 0 then "."
    else if separator == 0 then base[..1]
    else base[..separator]
  }

  /** What follows the last separator. */
  function LastSegment(base: string): string {
    base[LastSeparator(base) + 1..]
  }

  lemma {:induction false} SegmentsOfPlain(s: string)
    requires forall k :: 0 <= k < |s| ==> !IsSeparator(s[k])
    ensures Segments(s) == [s]
  {
    if s != "" {
      SegmentsOfPlain(s[1..]);
      assert [s[0]] + s[1..] == s;
    }
  }

  lemma {:induction false} SegmentsOfJoin(a: string, c: char, b: string)
    requires IsSeparator(c)
    ensures Segments(a + [c] + b) == Segments(a) + Segments(b)
  {
    if a == "" {
      assert a + [c] + b == [c] + b;
      assert ([c] + b)[1..] == b;
    } else {
      SegmentsOfJoin(a[1..], c, b);
      assert (a + [c] + b)[1..] == a[1..] + [c] + b;
      AttachAppend(a[0], Segments(a[1..]), Segments(b));
      hide Attach;
      assert (a + [c] + b)[0] == a[0];
    }
  }

  lemma {:induction false} WalkAppend(p: Path, a: seq<string>, b: seq<string>)
    ensures Walk(p, a + b) == Walk(Walk(p, a), b)
    decreases |a|
  {
    hide Enter;
    if a == [] {
      assert a + b == b;
    } else {
      WalkAppend(Enter(p, a[0]), a[1..], b);
      assert (a + b)[1..] == a[1..] + b;
    }
  }

  lemma WalkPlain(p: Path, s: string)
    requires forall k :: 0 <= k < |s| ==> !IsSeparator(s[k])
    ensures Walk(p, Segments(s)) == Enter(p, s)
  {
    SegmentsOfPlain(s);
    hide Enter;
    assert [s][1..] == [];
  }

  /** A string leads where its part before the last separator leads, and from there where its last
      piece leads. */
  lemma WalkAround(p: Path, base: string, i: nat)
    requires i < |base| && IsSeparator(base[i]) && forall k :: i < k < |base| ==> !IsSeparator(base[k])
    ensures Walk(p, Segments(base)) == Enter(Walk(p, Segments(base[..i])), base[i + 1..])
  {
    hide Segments, Walk, Enter;
    var front, last := base[..i], base[i + 1..];
    assert base == front + [base[i]] + last;
    SegmentsOfJoin(front, base[i], last);
    WalkAppend(p, Segments(front), Segments(last));
    WalkPlain(Walk(p, Segments(front)), last);
  }

  /** A string of one piece: nothing and "." are the directory itself, ".." is the one above it (the root
      is above itself), and anything else is an entry of it. */
  lemma OnePiece(cwd: Path, s: string)
    requires forall k :: 0 <= k < |s| ==> s[k] != '\\' && s[k] != '/'
    ensures Resolve(cwd, s) ==
      if s == "" || s == "." then cwd
      else if s == ".." then (if cwd == [] then [] else cwd[..|cwd| - 1])
      else cwd + [s]
  {
    hide Walk, Segments;
    WalkPlain(cwd, s);
  }

  /** Two strings with a separator between them: the second is seen from where the first leads. */
  lemma Joined(cwd: Path, a: string, c: char, b: string)
    requires a != "" && (c == '\\' || c == '/') && (b == "" || (b[0] != '\\' && b[0] != '/'))
    ensures Resolve(cwd, a + [c] + b) == Resolve(Resolve(cwd, a), b)
  {
    hide Walk, Segments;
    SegmentsOfJoin(a, c, b);
    WalkAppend(Origin(cwd, a), Segments(a), Segments(b));
    assert (a + [c] + b)[0] == a[0];
  }

  /** A string that starts with a separator leads to the same place from every directory: where the rest
      leads from the root. */
  lemma FromTheRoot(cwd: Path, c: char, s: string)
    requires c == '\\' || c == '/'
    ensures Resolve(cwd, [c] + s) == Resolve([], s)
  {
    hide Walk, Segments;
    SegmentsOfJoin("", c, s);
    assert "" + [c] + s == [c] + s;
    WalkAppend([], Segments(""), Segments(s));
    WalkPlain([], "");
  }

  lemma NothingNamed(p: Path, c: char)
    requires IsSeparator(c)
    ensures Walk(p, Segments([c])) == p && Walk(p, Segments("")) == p && Walk(p, Segments(".")) == p
  {
    hide Segments, Walk;
    WalkPlain(p, "");
    WalkPlain(p, ".");
    WalkAround(p, [c], 0);
    assert [c][..0] == "" && [c][1..] == "";
  }

  /** The base leads to what its last segment leads to from the directory string, whichever separator is
      used. So the directory string names the directory that the base is in exactly when the base ends
      in a name; a base that ends in a separator or in "." is that directory itself, and one that
      ends in ".." is above it. */
  lemma DirectoryOf(cwd: Path, base: string)
    ensures Resolve(cwd, base) == Enter(Resolve(cwd, Directory(base)), LastSegment(base))
  {
    hide Segments, Walk, Enter, LastIndexOf, LastSeparator;
    var i, p := LastSeparator(base), Origin(cwd, base);
    if i < 0 {
      WalkPlain(p, base);
      NothingNamed(p, '/');
      assert LastSegment(base) == base;
    } else {
      WalkAround(p, base, i);
      if i == 0 {
        NothingNamed(p, base[0]);
        assert base[..1] == [base[0]] && base[..0] == "";
      }
    }
  }

  /** And only then: the directory string names the parent of what the base names if and only if the
      base ends in a name, and otherwise it names something at or inside the base itself. */
  lemma DirectoryIsParent(cwd: Path, base: string)
    ensures var a, d := Resolve(cwd, base), Resolve(cwd, Directory(base));
      if Names(LastSegment(base)) then a != [] && Parent(a) == d else a <= d
  {
    hide Resolve, Directory, LastSegment;
    DirectoryOf(cwd, base);
  }

  /** A name with a separator behind it: the directory string is the named path itself. */
  lemma TrailingSeparator(cwd: Path, name: string, c: char)
    requires Names(name) && IsSeparator(c) && forall k :: 0 <= k < |name| ==> !IsSeparator(name[k])
    ensures var base := name + [c];
      LastSegment(base) == "" && Resolve(cwd, base) == Resolve(cwd, Directory(base)) == cwd + [name]
  {
    hide Segments, Walk, LastIndexOf, LastSeparator, IsSeparator;
    var base := name + [c];
    var i := LastSeparator(base);
    assert base[|name|] == c;
    assert base[..i] == name;
    WalkPlain(cwd, name);
    DirectoryOf(cwd, base);
  }

  // ---- Candidate names ----

  const ATTEMPTS := 64

  function HexDigit(d: nat): char
    requires d < 16
  {
    "0123456789ABCDEF"[d]
  }

  function Hex(n: nat): (s: string)
    ensures |s| > 0
  {
    if n < 16 then [HexDigit(n)] else Hex(n / 16) + [HexDigit(n % 16)]
  }

  lemma {:induction false} HexIsInjective(m: nat, n: nat)
    requires Hex(m) == Hex(n)
    ensures m == n
    decreases m + n
  {
    var s, t := Hex(m), Hex(n);
    HexLast(m);
    HexLast(n);
    assert s[|s| - 1] == t[|t| - 1];
    DigitIsInjective(m % 16, n % 16);
    if m >= 16 && n >= 16 {
      assert Hex(m / 16) == s[..|s| - 1] && Hex(n / 16) == t[..|t| - 1];
      HexIsInjective(m / 16, n / 16);
    }
  }

  lemma HexLast(n: nat)
    ensures Hex(n)[|Hex(n)| - 1] == HexDigit(n % 16)
    ensures |Hex(n)| == 1 <==> n < 16
  {
  }

  lemma DigitIsInjective(d: nat, e: nat)
    requires d < 16 && e < 16 && HexDigit(d) == HexDigit(e)
    ensures d == e
  {
  }

  /** The name `GetTempFileName` makes from a nonzero number, of which it uses the low 16 bits. */
  function CandidateName(unique: nat, i: nat): string {
    "fse" + Hex((unique + i) % 0x1_0000) + ".TMP"
  }

  /** The candidate `i` is the one for the number that many further, and all have the prefix the code asks
      for. */
  lemma CandidateNumber(unique: nat, i: nat)
    ensures CandidateName(unique, i) == CandidateName(unique + i, 0)
    ensures CandidateName(unique, i)[..3] == "fse"
  {
  }

  /** The 64 candidates are 64 different names. */
  lemma CandidatesDiffer(unique: nat, i: nat, j: nat)
    requires i < j < 64
    ensures CandidateName(unique, i) != CandidateName(unique, j)
  {
    var m, n := (unique + i) % 0x1_0000, (unique + j) % 0x1_0000;
    if CandidateName(unique, i) == CandidateName(unique, j) {
      assert Hex(m) == CandidateName(unique, i)[3..|CandidateName(unique, i)| - 4];
      assert Hex(n) == CandidateName(unique, j)[3..|CandidateName(unique, j)| - 4];
      HexIsInjective(m, n);
    }
  }
}
