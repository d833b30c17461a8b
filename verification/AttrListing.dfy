/** Listing attribute names on Linux and macOS: the kernel's flat buffer is turned in place into a
pointer table followed by the names, and the binding reads that block back. */
module AttrListing {
  import opened Basics
  import opened AttrNames

  /** One `flistxattr` call: a negative error, or the kernel's list of terminated names. */
  datatype XattrCall = Failed(err: int) | Filled(raw: seq<byte>)

  predicate ValidCall(c: XattrCall) {
    if c.Failed? then c.err < 0 else Terminated(c.raw)
  }

  /** `strlen` of the name at `at`; the scan ends at the first NUL. */
  method StringLength(buf: array<byte>, at: nat) returns (n: nat)
    requires exists k :: at <= k < buf.Length && buf[k] == 0
    ensures at + n < buf.Length && buf[at + n] == 0
    ensures forall k :: at <= k < at + n ==> buf[k] != 0
  {
    ghost var end :| at <= end < buf.Length && buf[end] == 0;
    n := 0;
    while buf[at + n] != 0
      invariant at + n <= end
      invariant forall k :: at <= k < at + n ==> buf[k] != 0
      decreases end - n
    {
      n := n + 1;
    }
  }

  /** `memmove` within one buffer; the ranges may overlap. */
  method MoveBytes(buf: array<byte>, dst: nat, src: nat, n: nat)
    requires dst + n <= buf.Length && src + n <= buf.Length
    modifies buf
    ensures buf[..] == old(buf[..dst] + buf[src..src + n] + buf[dst + n..])
  {
    forall k | 0 <= k < n {
      buf[dst + k] := buf[src + k];
    }
  }

  /** Counting the names in a buffer. */
  method CountNames(buf: array<byte>) returns (length: nat)
    requires Terminated(buf[..])
    ensures length == |Names(buf[..])|
  {
    var n, i := buf.Length, 0;
    ghost var raw := buf[..];
    length := 0;
    assert raw[0..] == raw;
    while i < n
      invariant i <= n
      invariant Terminated(raw[i..])
      invariant length + |Names(raw[i..])| == |Names(raw)|
    {
      hide Names;
      assert buf[n - 1] == 0;
      var l := StringLength(buf, i);
      assert raw[i..][l] == 0 && NulFree(raw[i..][..l]);
      NamesStep(raw[i..], l);
      assert raw[i..][l + 1..] == raw[i + l + 1..];
      i := i + l + 1;
      length := length + 1;
    }
  }

  /** `strlen` where a known name is written. */
  method NameLength(buf: array<byte>, at: nat, ghost name: seq<byte>) returns (n: nat)
    requires at + |name| < buf.Length && buf[at..at + |name|] == name && buf[at + |name|] == 0
    requires NulFree(name)
    ensures n == |name|
  {
    n := StringLength(buf, at);
    assert forall k :: at <= k < at + |name| ==> buf[k] == name[k - at];
  }

  /** Copying a pointer into the buffer, byte by byte. */
  method PutPointer(buf: array<byte>, j: nat, address: nat)
    requires j + POINTER_SIZE <= buf.Length
    modifies buf
    ensures buf[..] == old(buf[..j]) + EncodePointer(address) + old(buf[j + POINTER_SIZE..])
  {
    var bytes := EncodePointer(address);
    forall k | 0 <= k < POINTER_SIZE {
      buf[j + k] := bytes[k];
    }
  }

  /** Writing one pointer of a table in front of `tail`: the entries before it and the tail stay. */
  method PutEntry(buf: array<byte>, j: nat, address: nat, ghost table: seq<byte>, ghost tail: seq<byte>)
    requires j + POINTER_SIZE <= |table| <= buf.Length
    requires buf[..j] == table[..j] && buf[|table|..] == tail
    requires table[j..j + POINTER_SIZE] == EncodePointer(address)
    modifies buf
    ensures buf[..j + POINTER_SIZE] == table[..j + POINTER_SIZE] && buf[|table|..] == tail
  {
    hide EncodePointer;
    ghost var before := buf[..];
    PutPointer(buf, j, address);
    assert buf[|table|..] == before[|table|..];
    assert buf[..j + 8] == before[..j] + EncodePointer(address);
    assert table[..j + 8] == table[..j] + table[j..j + 8];
  }

  /** The names are behind the room for the table, and the first `c` entries are in place. */
  ghost predicate TableUpTo(block: seq<byte>, base: nat, names: seq<seq<byte>>, c: nat) {
    && c <= |names| && POINTER_SIZE * |names| <= |block|
    && block[POINTER_SIZE * |names|..] == Flatten(names)
    && block[..POINTER_SIZE * c] == Table(base + POINTER_SIZE * |names|, names)[..POINTER_SIZE * c]
  }

  lemma WholeTable(block: seq<byte>, base: nat, names: seq<seq<byte>>)
    requires TableUpTo(block, base, names, |names|)
    ensures block == Packed(base, names)
  {
    PackedParts(block, base, names);
  }

  /** `strlen` of the name number `c`, where it stands behind the table. */
  method MeasureName(buf: array<byte>, at: nat, ghost base: nat, ghost names: seq<seq<byte>>, ghost c: nat) returns (l: nat)
    requires AllNulFree(names) && TableUpTo(buf[..], base, names, c) && c < |names|
    requires at == POINTER_SIZE * |names| + Start(names, c)
    ensures l == |names[c]|
  {
    NameAt(names, c);
    hide Start, Flatten, Table, NulFree;
    ghost var offset, i := POINTER_SIZE * |names|, at - POINTER_SIZE * |names|;
    assert buf[at..at + |names[c]|] == buf[..][offset..][i..i + |names[c]|];
    l := NameLength(buf, at, names[c]);
  }

  /** The bytes of the entry `c` in the table, and where they go. */
  lemma EntryBytes(block: seq<byte>, base: nat, names: seq<seq<byte>>, c: nat)
    requires TableUpTo(block, base, names, c) && c < |names|
    ensures var table, offset, j := Table(base + POINTER_SIZE * |names|, names), POINTER_SIZE * |names|, POINTER_SIZE * c;
      && j + POINTER_SIZE <= |table| == offset <= |block|
      && block[..j] == table[..j] && block[|table|..] == Flatten(names)
      && table[j..j + POINTER_SIZE] == EncodePointer(base + offset + Start(names, c))
  {
    TableEntry(base + POINTER_SIZE * |names|, names, c);
    hide Table, Flatten, Start, EncodePointer;
  }

  lemma EntryAdded(block: seq<byte>, base: nat, names: seq<seq<byte>>, c: nat)
    requires c < |names| && POINTER_SIZE * |names| <= |block|
    requires var table, j := Table(base + POINTER_SIZE * |names|, names), POINTER_SIZE * c;
      block[|table|..] == Flatten(names) && block[..j + POINTER_SIZE] == table[..j + POINTER_SIZE]
    ensures TableUpTo(block, base, names, c + 1)
  {
    hide Flatten, Table;
  }

  /** Measuring the name number `c` and writing its pointer. */
  method WriteEntry(buf: array<byte>, offset: nat, base: nat, i: nat, j: nat, ghost names: seq<seq<byte>>, ghost c: nat)
    returns (l: nat)
    requires AllNulFree(names) && offset == POINTER_SIZE * |names|
    requires TableUpTo(buf[..], base, names, c) && c < |names| && i == Start(names, c) && j == POINTER_SIZE * c
    modifies buf
    ensures l == |names[c]|
    ensures TableUpTo(buf[..], base, names, c + 1)
  {
    hide Start, Flatten, Table, EncodePointer, AllNulFree, TableUpTo;
    l := MeasureName(buf, offset + i, base, names, c);
    EntryBytes(buf[..], base, names, c);
    PutEntry(buf, j, base + offset + i, Table(base + offset, names), Flatten(names));
    EntryAdded(buf[..], base, names, c);
  }

  /** Writing the pointer table in front of names that start at `offset`. No pointer reaches the names:
      the table ends where they begin. */
  method WriteTable(buf: array<byte>, offset: nat, base: nat, ghost names: seq<seq<byte>>)
    requires AllNulFree(names) && offset == POINTER_SIZE * |names| <= buf.Length
    requires buf[offset..] == Flatten(names)
    modifies buf
    ensures buf[..] == Packed(base, names)
  {
    var i, j, n := 0, 0, buf.Length - offset;
    ghost var c := 0;
    StartInside(names, 0);
    assert buf[..][offset..] == buf[offset..];
    assert TableUpTo(buf[..], base, names, 0);
    hide Start, Flatten, AllNulFree, Packed, TableUpTo;
    while i < n
      invariant c <= |names| && i == Start(names, c) && j == POINTER_SIZE * c
      invariant i < n <==> c < |names|
      invariant TableUpTo(buf[..], base, names, c)
      decreases |names| - c
    {
      var l := WriteEntry(buf, offset, base, i, j, names, c);
      StartNext(names, c);
      StartInside(names, c + 1);
      i := i + l + 1;
      j := j + POINTER_SIZE;
      c := c + 1;
    }
    WholeTable(buf[..], base, names);
  }

  /** `realloc`: a block of the new size that begins with the old contents. */
  method Enlarge(names: array<byte>, size: nat) returns (block: array<byte>)
    requires names.Length <= size
    ensures fresh(block) && block.Length == size && block[..names.Length] == names[..]
  {
    block := new byte[size];
    forall k | 0 <= k < names.Length {
      block[k] := names[k];
    }
  }

  /** Enlarging the block and moving the names up by `offset`, over themselves. */
  method MakeRoom(names: array<byte>, offset: nat) returns (block: array<byte>)
    ensures fresh(block) && block.Length == offset + names.Length && block[offset..] == names[..]
  {
    var n := names.Length;
    block := Enlarge(names, offset + n);
    ghost var before := block[..];
    MoveBytes(block, offset, 0, n);
    assert block[..][offset..] == before[0..n];
  }

  /** `fs_ext__list_attrs`. The first call asks for the size, the second fills the buffer; the block
      may move when it is enlarged, to address `base`. On success the block is the table of exactly
      the kernel's names, in order, followed by the names. */
  method ListAttrs(probe: XattrCall, fill: XattrCall, base: nat) returns (res: int, names: array?<byte>, length: nat)
    requires ValidCall(probe) && ValidCall(fill)
    requires probe.Filled? && fill.Filled? ==> fill.raw == probe.raw
    ensures res == if probe.Failed? then probe.err else if fill.Failed? then fill.err else 0
    ensures res == 0 ==> names != null && names[..] == Packed(base, Names(fill.raw)) && length == |Names(fill.raw)|
    ensures res == 0 ==> names.Length == 8 * length + |fill.raw|
  {
    if probe.Failed? {
      return probe.err, null, 0;
    }
    var n := |probe.raw|;
    names := new byte[n];
    if fill.Failed? {
      return fill.err, names, n;
    }
    names := new byte[n](k requires 0 <= k < n => fill.raw[k]);
    assert names[..] == fill.raw;
    FlattenOfNames(fill.raw);
    hide Names, Flatten, Packed, AllNulFree;
    length := CountNames(names);
    var offset := length * POINTER_SIZE;
    var block := MakeRoom(names, offset);
    WriteTable(block, offset, base, Names(fill.raw));
    return 0, block, length;
  }

  /** Following one pointer of the list: the string that it points at. */
  method ReadName(block: array<byte>, base: nat, i: nat, ghost names: seq<seq<byte>>) returns (name: seq<byte>)
    requires AllNulFree(names) && i < |names|
    requires block[..] == Packed(base, names) && base + block.Length <= ADDRESSES
    ensures name == names[i]
  {
    PackedEntry(base, names, i);
    assert NulFree(names[i]);
    hide Packed, Start, FromLittleEndian, NulFree;
    var pointer := FromLittleEndian(block[POINTER_SIZE * i..POINTER_SIZE * (i + 1)]);
    assert block[POINTER_SIZE * i..POINTER_SIZE * (i + 1)] == block[..][POINTER_SIZE * i..POINTER_SIZE * (i + 1)];
    var p := pointer - base;
    assert block[p..p + |names[i]|] == block[..][p..p + |names[i]|];
    var l := NameLength(block, p, names[i]);
    return block[p..p + l];
  }

  /** The binding's loop over the list: follow each pointer, take the string it points at. */
  method ReadList(block: array<byte>, base: nat, length: nat, ghost names: seq<seq<byte>>) returns (list: seq<seq<byte>>)
    requires AllNulFree(names) && length == |names|
    requires block[..] == Packed(base, names) && base + block.Length <= ADDRESSES
    ensures list == names
  {
    list := [];
    for i := 0 to length
      invariant list == names[..i]
    {
      var name := ReadName(block, base, i, names);
      list := list + [name];
    }
  }

  /** Listing and reading back gives the kernel's names, in its order: written out again they are the
      kernel's buffer. */
  method ListAttrsSync(probe: XattrCall, fill: XattrCall, base: nat) returns (res: int, list: seq<seq<byte>>)
    requires ValidCall(probe) && ValidCall(fill)
    requires probe.Filled? && fill.Filled? ==> fill.raw == probe.raw
    requires fill.Filled? ==> base + 9 * |fill.raw| <= ADDRESSES
    ensures res == 0 <==> probe.Filled? && fill.Filled?
    ensures res == 0 ==> AllNulFree(list) && Flatten(list) == fill.raw
    ensures res != 0 ==> list == []
  {
    var names, length;
    res, names, length := ListAttrs(probe, fill, base);
    if res < 0 {
      return res, [];
    }
    FlattenOfNames(fill.raw);
    FlattenTerminated(Names(fill.raw));
    list := ReadList(names, base, length, Names(fill.raw));
  }
}
