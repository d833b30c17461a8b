/** Lists of attribute names as bytes: NUL-terminated names one after another, and the same names behind
a table of pointers to them, which is what the native layer hands to the binding. */
module AttrNames {
  import opened Basics

  const POINTER_SIZE: nat := 8
  const ADDRESSES: nat := 0x1_0000_0000_0000_0000

  // ---- Pointers as bytes ----

  /** The `n` low bytes of `v`, least significant first. */
  function LittleEndian(n: nat, v: nat): (s: seq<byte>)
    ensures |s| == n
  {
    if n == 0 then [] else [v % 256] + LittleEndian(n - 1, v / 256)
  }

  function FromLittleEndian(s: seq<byte>): nat {
    if s == [] then 0 else s[0] + 256 * FromLittleEndian(s[1..])
  }

  function Pow256(n: nat): nat {
    if n == 0 then 1 else 256 * Pow256(n - 1)
  }

  lemma {:induction false} LittleEndianRoundTrip(n: nat, v: nat)
    requires v < Pow256(n)
    ensures FromLittleEndian(LittleEndian(n, v)) == v
  {
    if n > 0 {
      LittleEndianRoundTrip(n - 1, v / 256);
      assert LittleEndian(n, v)[1..] == LittleEndian(n - 1, v / 256);
    }
  }

  function EncodePointer(p: nat): (s: seq<byte>)
    ensures |s| == POINTER_SIZE
  {
    LittleEndian(POINTER_SIZE, p)
  }

  lemma PointerRoundTrip(p: nat)
    requires p < ADDRESSES
    ensures FromLittleEndian(EncodePointer(p)) == p
  {
    assert Pow256(8) == ADDRESSES by {
      assert Pow256(4) == 0x1_0000_0000;
      assert Pow256(8) == 256 * (256 * (256 * (256 * Pow256(4))));
    }
    LittleEndianRoundTrip(POINTER_SIZE, p);
  }

  // ---- NUL-terminated names ----

  predicate NulFree(s: seq<byte>) {
    forall i :: 0 <= i < |s| ==> s[i] != 0
  }

  predicate AllNulFree(names: seq<seq<byte>>) {
    forall i :: 0 <= i < |names| ==> NulFree(names[i])
  }

  /** Names one after another, each with its terminator. */
  function Flatten(names: seq<seq<byte>>): seq<byte> {
    if names == [] then [] else names[0] + [0] + Flatten(names[1..])
  }

  /** Every name in the buffer has its terminator. */
  predicate Terminated(raw: seq<byte>) {
    raw == [] || raw[|raw| - 1] == 0
  }

  /** The length of the name that starts at `raw[0]`, as `strlen` finds it. */
  function StrLen(raw: seq<byte>): (n: nat)
    requires raw != [] && Terminated(raw)
    ensures n < |raw| && raw[n] == 0 && NulFree(raw[..n])
  {
    if raw[0] == 0 then 0
    else
      var n := 1 + StrLen(raw[1..]);
      assert forall i :: 0 < i < n ==> raw[i] == raw[1..][..n - 1][i - 1];
      n
  }

  /** The names in a buffer of terminated names. */
  function Names(raw: seq<byte>): seq<seq<byte>>
    requires Terminated(raw)
    decreases |raw|
  {
    if raw == [] then []
    else
      var n := StrLen(raw);
      [raw[..n]] + Names(raw[n + 1..])
  }

  lemma StrLenIs(raw: seq<byte>, name: seq<byte>, rest: seq<byte>)
    requires raw == name + [0] + rest && NulFree(name) && Terminated(raw)
    ensures StrLen(raw) == |name|
  {
    var n := StrLen(raw);
    assert forall i :: 0 <= i < |name| ==> raw[i] == name[i];
    assert raw[|name|] == 0;
    assert forall i :: 0 <= i < n ==> raw[i] == raw[..n][i];
  }

  /** Stepping over the first name of a buffer leaves the other names. */
  lemma NamesStep(raw: seq<byte>, n: nat)
    requires Terminated(raw) && n < |raw| && raw[n] == 0 && NulFree(raw[..n])
    ensures Terminated(raw[n + 1..]) && Names(raw) == [raw[..n]] + Names(raw[n + 1..])
  {
    assert raw == raw[..n] + [0] + raw[n + 1..];
    StrLenIs(raw, raw[..n], raw[n + 1..]);
  }

  lemma {:induction false} FlattenTerminated(names: seq<seq<byte>>)
    ensures Terminated(Flatten(names))
    ensures |Flatten(names)| >= |names|
  {
    if names != [] {
      FlattenTerminated(names[1..]);
    }
  }

  /** Writing names out and reading them back gives the same names. */
  lemma {:induction false} NamesOfFlatten(names: seq<seq<byte>>)
    requires AllNulFree(names)
    ensures Terminated(Flatten(names)) && Names(Flatten(names)) == names
    decreases |names|
  {
    FlattenTerminated(names);
    if names != [] {
      var rest := Flatten(names[1..]);
      var raw := Flatten(names);
      NamesOfFlatten(names[1..]);
      StrLenIs(raw, names[0], rest);
      assert raw[..|names[0]|] == names[0];
      assert raw[|names[0]| + 1..] == rest;
    }
  }

  /** And any terminated buffer is its names written out. */
  lemma {:induction false} FlattenOfNames(raw: seq<byte>)
    requires Terminated(raw)
    ensures AllNulFree(Names(raw)) && Flatten(Names(raw)) == raw
    decreases |raw|
  {
    if raw != [] {
      var n := StrLen(raw);
      var first, rest := raw[..n], raw[n + 1..];
      FlattenOfNames(rest);
      var names := [first] + Names(rest);
      assert Names(raw) == names;
      assert names[1..] == Names(rest);
      assert raw == first + [0] + rest;
    }
  }

  // ---- The pointer table ----

  /** Pointers to names laid out from address `a` on. */
  function Table(a: nat, names: seq<seq<byte>>): (t: seq<byte>)
    ensures |t| == POINTER_SIZE * |names|
    decreases |names|
  {
    if names == [] then []
    else EncodePointer(a) + Table(a + |names[0]| + 1, names[1..])
  }

  /** The block at address `base` that holds the table and then the names. */
  function Packed(base: nat, names: seq<seq<byte>>): (block: seq<byte>)
    ensures |block| == POINTER_SIZE * |names| + |Flatten(names)|
  {
    Table(base + POINTER_SIZE * |names|, names) + Flatten(names)
  }

  lemma PackedParts(block: seq<byte>, base: nat, names: seq<seq<byte>>)
    requires POINTER_SIZE * |names| <= |block|
    requires block[..POINTER_SIZE * |names|] == Table(base + POINTER_SIZE * |names|, names)
    requires block[POINTER_SIZE * |names|..] == Flatten(names)
    ensures block == Packed(base, names)
  {
    hide Table, Flatten;
  }

  /** Where the name `i` starts among the names. */
  function Start(names: seq<seq<byte>>, i: nat): nat
    requires i <= |names|
    decreases i
  {
    if i == 0 then 0 else |names[0]| + 1 + Start(names[1..], i - 1)
  }

  lemma {:induction false} StartNext(names: seq<seq<byte>>, i: nat)
    requires i < |names|
    ensures Start(names, i + 1) == Start(names, i) + |names[i]| + 1
    decreases i
  {
    if i > 0 { StartNext(names[1..], i - 1); }
  }

  lemma {:induction false} StartOfEnd(names: seq<seq<byte>>)
    ensures Start(names, |names|) == |Flatten(names)|
  {
    if names != [] { StartOfEnd(names[1..]); }
  }

  lemma {:induction false} FlattenAppend(names: seq<seq<byte>>, name: seq<byte>)
    ensures Flatten(names + [name]) == Flatten(names) + name + [0]
  {
    if names == [] {
      assert names + [name] == [name];
    } else {
      FlattenAppend(names[1..], name);
      assert (names + [name])[1..] == names[1..] + [name];
    }
  }

  lemma {:induction false} StartIsFlat(names: seq<seq<byte>>, i: nat)
    requires i <= |names|
    ensures Start(names, i) == |Flatten(names[..i])|
    decreases i
  {
    if i > 0 {
      StartIsFlat(names[1..], i - 1);
      assert names[..i][1..] == names[1..][..i - 1];
    }
  }

  lemma StartInside(names: seq<seq<byte>>, i: nat)
    requires i <= |names|
    ensures Start(names, i) <= |Flatten(names)|
    ensures Start(names, i) < |Flatten(names)| <==> i < |names|
  {
    if i < |names| { NameAt(names, i); } else { StartOfEnd(names); }
  }

  lemma {:induction false} TableEntry(a: nat, names: seq<seq<byte>>, i: nat)
    requires i < |names|
    ensures Table(a, names)[POINTER_SIZE * i..POINTER_SIZE * (i + 1)] == EncodePointer(a + Start(names, i))
    decreases i
  {
    var rest := Table(a + |names[0]| + 1, names[1..]);
    if i > 0 {
      TableEntry(a + |names[0]| + 1, names[1..], i - 1);
      assert Table(a, names)[8 * i..8 * (i + 1)] == rest[8 * (i - 1)..8 * i];
    } else {
      assert Table(a, names)[..8] == EncodePointer(a);
    }
  }

  lemma {:induction false} NameAt(names: seq<seq<byte>>, i: nat)
    requires i < |names|
    ensures var s := Start(names, i);
      && s + |names[i]| < |Flatten(names)|
      && Flatten(names)[s..s + |names[i]|] == names[i]
      && Flatten(names)[s + |names[i]|] == 0
    decreases i
  {
    var tail := Flatten(names[1..]);
    if i > 0 {
      NameAt(names[1..], i - 1);
      var s, k := Start(names, i), |names[0]| + 1;
      assert Flatten(names)[s..s + |names[i]|] == tail[s - k..s - k + |names[i]|];
    } else {
      assert Flatten(names)[..|names[0]|] == names[0];
    }
  }

  /** Reading the block back: the 8-byte pointer at index `i` points into the block, at the start of the
      `i`-th name, which ends at the next NUL. */
  lemma PackedEntry(base: nat, names: seq<seq<byte>>, i: nat)
    requires i < |names| && AllNulFree(names)
    requires base + |Packed(base, names)| <= ADDRESSES
    ensures var block := Packed(base, names);
      var p := FromLittleEndian(block[8 * i..8 * (i + 1)]) - base;
      && p == 8 * |names| + Start(names, i)
      && 0 <= p && p + |names[i]| < |block|
      && block[p..p + |names[i]|] == names[i] && block[p + |names[i]|] == 0
  {
    PackedPointer(base, names, i);
    PackedName(base, names, i);
  }

  lemma PackedPointer(base: nat, names: seq<seq<byte>>, i: nat)
    requires i < |names| && base + |Packed(base, names)| <= ADDRESSES
    ensures FromLittleEndian(Packed(base, names)[POINTER_SIZE * i..POINTER_SIZE * (i + 1)])
      == base + POINTER_SIZE * |names| + Start(names, i)
  {
    var a := base + POINTER_SIZE * |names|;
    NameAt(names, i);
    TableEntry(a, names, i);
    assert Packed(base, names)[8 * i..8 * (i + 1)] == Table(a, names)[8 * i..8 * (i + 1)];
    PointerRoundTrip(a + Start(names, i));
  }

  lemma PackedName(base: nat, names: seq<seq<byte>>, i: nat)
    requires i < |names|
    ensures var block := Packed(base, names);
      var p := POINTER_SIZE * |names| + Start(names, i);
      && p + |names[i]| < |block| && block[p..p + |names[i]|] == names[i] && block[p + |names[i]|] == 0
  {
    NameAt(names, i);
    hide Start, Flatten, Table;
    var block, s := Packed(base, names), Start(names, i);
    var p := POINTER_SIZE * |names| + s;
    assert block[p..p + |names[i]|] == Flatten(names)[s..s + |names[i]|];
  }
}
