/** Making a hole in a file. On Linux that is one call. On macOS a hole can only be punched over whole
blocks, so the head and the tail of the range are overwritten with zeros and the blocks between them
are punched. */
module Trim {
  import opened Basics
  import opened Words

  const EINVAL: Status := -22

  /** The byte at `i`; a file reads as zeros past its end. */
  function At(s: seq<byte>, i: nat): byte {
    if i < |s| then s[i] else 0
  }

  /** `t` is `s` with zeros in the `length` bytes from `offset` on, whatever its size. */
  ghost predicate Zeroed(s: seq<byte>, t: seq<byte>, offset: nat, length: nat) {
    forall i: nat :: At(t, i) == if offset <= i < offset + length then 0 else At(s, i)
  }

  /** The block `b` lies wholly inside the range. */
  predicate Covered(b: nat, offset: nat, length: nat, block: nat) {
    offset <= b * block && (b + 1) * block <= offset + length
  }

  /** Some byte of the block `b` is in the range. */
  predicate Touched(b: nat, offset: nat, length: nat, block: nat) {
    b * block < offset + length && offset < (b + 1) * block && length > 0
  }

  function Max(a: nat, b: nat): nat {
    if a < b then b else a
  }

  function Min(a: nat, b: nat): nat {
    if a < b then a else b
  }

  /** What `pwrite` leaves: the buffer at the offset, zeros in any gap before it. */
  function Written(s: seq<byte>, buf: seq<byte>, offset: nat): seq<byte> {
    if buf == [] then s
    else
      seq(Max(|s|, offset + |buf|), (i: nat) =>
        if offset <= i < offset + |buf| then buf[i - offset] else At(s, i))
  }

  /** What punching a hole leaves: zeros, and the size as it was. */
  function Punched(s: seq<byte>, offset: nat, length: nat): seq<byte> {
    seq(|s|, i requires 0 <= i < |s| => if offset <= i < offset + length then 0 else s[i])
  }

  function Zeros(n: nat): seq<byte> {
    seq(n, i => 0)
  }

  // ---- Zeroing a range piece by piece ----

  lemma WriteZeros(s: seq<byte>, offset: nat, n: nat)
    ensures Zeroed(s, Written(s, Zeros(n), offset), offset, n)
    ensures |s| <= |Written(s, Zeros(n), offset)| <= Max(|s|, offset + n)
  {
    var t := Written(s, Zeros(n), offset);
    if n > 0 {
      assert |Zeros(n)| == n && Zeros(n) != [];
    }
  }

  lemma NothingZeroed(s: seq<byte>, offset: nat)
    ensures Zeroed(s, s, offset, 0)
  {
  }

  lemma PunchZeros(s: seq<byte>, offset: nat, n: nat)
    ensures Zeroed(s, Punched(s, offset, n), offset, n)
  {
  }

  lemma JoinZeroed(a: seq<byte>, b: seq<byte>, c: seq<byte>, offset: nat, m: nat, n: nat)
    requires Zeroed(a, b, offset, m) && Zeroed(b, c, offset + m, n)
    ensures Zeroed(a, c, offset, m + n)
  {
    forall i: nat ensures At(c, i) == if offset <= i < offset + m + n then 0 else At(a, i) {
      assert At(b, i) == if offset <= i < offset + m then 0 else At(a, i);
    }
  }

  /** Zeroing a range without changing the size is punching a hole over it. */
  lemma ZeroedIsPunched(s: seq<byte>, t: seq<byte>, offset: nat, n: nat)
    requires Zeroed(s, t, offset, n) && |t| == |s|
    ensures t == Punched(s, offset, n)
  {
    forall i | 0 <= i < |s| ensures t[i] == Punched(s, offset, n)[i] {
      assert t[i] == At(t, i);
    }
  }

  // ---- Which blocks the pieces cover ----

  lemma MultiplesDiffer(m: nat, u: nat, align: nat)
    requires align > 0 && Multiple(m, align) && Multiple(u, align) && u <= m
    ensures Multiple(m - u, align)
  {
    var p, q := m / align, u / align;
    assert m == p * align && u == q * align;
    assert (p - q) * align == m - u;
    MultipleSign(p - q, align);
    if p >= q { RemainderIs(m - u, align, p - q, 0); }
  }

  lemma BlockStarts(b: nat, block: nat)
    requires block > 0
    ensures Multiple(b * block, block) && Multiple((b + 1) * block, block) && (b + 1) * block == b * block + block
  {
    RemainderIs(b * block, block, b, 0);
    RemainderIs((b + 1) * block, block, b + 1, 0);
  }

  /** Rounding the start up and the rest of the length down loses no block that the range covers. */
  lemma MiddleCoversTheSame(b: nat, offset: nat, length: nat, block: nat)
    requires PowerOfTwo(block) && offset + length < WORD && offset + block <= WORD
    ensures 0 < block < WORD
    ensures var u := AlignUp(offset, block);
      if u <= offset + length then
        Covered(b, offset, length, block) <==> Covered(b, u, AlignDown(offset + length - u, block), block)
      else !Covered(b, offset, length, block)
  {
    AlignUpIsLeast(offset, block);
    var u := AlignUp(offset, block);
    var start, end := b * block, (b + 1) * block;
    BlockStarts(b, block);
    assert offset <= start ==> u <= start;
    if u <= offset + length {
      var rest := offset + length - u;
      AlignDownIsGreatest(rest, block);
      if u <= start {
        MultiplesDiffer(end, u, block);
        assert end - u <= rest ==> end - u <= AlignDown(rest, block);
      }
    }
  }

  /** A block touched before the rounded start is not covered. */
  lemma HeadIsPartial(b: nat, offset: nat, n: nat, length: nat, block: nat)
    requires PowerOfTwo(block) && offset + block <= WORD && offset < WORD
    requires 0 < block < WORD && offset + n <= AlignUp(offset, block) && Touched(b, offset, n, block)
    ensures !Covered(b, offset, length, block)
  {
    AlignUpIsLeast(offset, block);
    BlockStarts(b, block);
  }

  /** Nor is one touched after the last whole block. */
  lemma TailIsPartial(b: nat, tail: nat, n: nat, offset: nat, length: nat, block: nat)
    requires block > 0 && Multiple(tail, block) && n < block && tail + n == offset + length
    requires Touched(b, tail, n, block)
    ensures !Covered(b, offset, length, block)
  {
    BlockStarts(b, block);
    if (b + 1) * block <= tail + n {
      NextMultiple(tail, (b + 1) * block, block);
    }
  }

  lemma HeadBlocks(offset: nat, n: nat, length: nat, block: nat)
    requires PowerOfTwo(block) && offset + block <= WORD && offset < WORD
    requires 0 < block < WORD && offset + n <= AlignUp(offset, block) && n <= length
    ensures PartialPiece(offset, n, offset, length, block)
  {
    forall b: nat | Touched(b, offset, n, block) ensures !Covered(b, offset, length, block) {
      HeadIsPartial(b, offset, n, length, block);
    }
  }

  lemma MiddleBlocks(offset: nat, length: nat, block: nat)
    requires PowerOfTwo(block) && offset + length < WORD && offset + block <= WORD
    ensures 0 < block < WORD
    ensures var u := AlignUp(offset, block);
      forall b: nat :: Covered(b, offset, length, block) <==>
        u + block <= offset + length && Covered(b, u, AlignDown(offset + length - u, block), block)
  {
    AlignUpIsLeast(offset, block);
    var u := AlignUp(offset, block);
    forall b: nat ensures Covered(b, offset, length, block) <==>
        u + block <= offset + length && Covered(b, u, AlignDown(offset + length - u, block), block)
    {
      MiddleCoversTheSame(b, offset, length, block);
      BlockStarts(b, block);
      if u <= offset + length { AlignDownIsGreatest(offset + length - u, block); }
    }
  }

  lemma TailBlocks(tail: nat, n: nat, offset: nat, length: nat, block: nat)
    requires block > 0 && offset <= tail && tail + n == offset + length
    requires Multiple(tail, block) && n < block
    ensures PartialPiece(tail, n, offset, length, block)
  {
    forall b: nat | Touched(b, tail, n, block) ensures !Covered(b, offset, length, block) {
      TailIsPartial(b, tail, n, offset, length, block);
    }
  }

  lemma MultiplesAdd(m: nat, u: nat, align: nat)
    requires align > 0 && Multiple(m, align) && Multiple(u, align)
    ensures Multiple(m + u, align)
  {
    var p, q := m / align, u / align;
    assert m == p * align && u == q * align;
    assert (p + q) * align == m + u;
    RemainderIs(m + u, align, p + q, 0);
  }

  /** After the middle less than a block is left, and it starts on a block. */
  lemma MiddleLeaves(start: nat, rest: nat, block: nat)
    requires PowerOfTwo(block) && rest < WORD
    ensures 0 < block < WORD && AlignDown(rest, block) <= rest < AlignDown(rest, block) + block
    ensures AlignDown(rest, block) < block ==> AlignDown(rest, block) == 0
    ensures Multiple(AlignDown(rest, block), block)
    ensures Multiple(start, block) ==> Multiple(start + AlignDown(rest, block), block)
  {
    AlignDownIsGreatest(rest, block);
    if AlignDown(rest, block) < block { NextMultiple(0, AlignDown(rest, block), block); }
    if Multiple(start, block) { MultiplesAdd(start, AlignDown(rest, block), block); }
  }

  /** How the set of blocks that take up space may change while a range is trimmed: covered blocks may
      go, and nothing else goes; blocks the range touches may come. */
  ghost predicate MappedWithin(before: set<nat>, after: set<nat>, offset: nat, length: nat, block: nat) {
    && (forall b :: b in before && !Covered(b, offset, length, block) ==> b in after)
    && (forall b :: b in after && b !in before ==> Touched(b, offset, length, block) && !Covered(b, offset, length, block))
  }

  ghost predicate NoneCovered(mapped: set<nat>, offset: nat, length: nat, block: nat) {
    forall b :: b in mapped ==> !Covered(b, offset, length, block)
  }

  lemma NoneToCover(mapped: set<nat>, offset: nat, length: nat, block: nat)
    ensures !CoversBlock(offset, length, block) ==> NoneCovered(mapped, offset, length, block)
  {
  }

  lemma NothingMapped(m: set<nat>, offset: nat, length: nat, block: nat)
    ensures MappedWithin(m, m, offset, length, block)
  {
  }

  lemma MappedThen(a: set<nat>, b: set<nat>, c: set<nat>, offset: nat, length: nat, block: nat)
    requires MappedWithin(a, b, offset, length, block) && MappedWithin(b, c, offset, length, block)
    ensures MappedWithin(a, c, offset, length, block)
  {
  }

  /** A piece of the range none of whose blocks is covered. */
  ghost predicate PartialPiece(at: nat, n: nat, offset: nat, length: nat, block: nat) {
    forall b: nat :: Touched(b, at, n, block) ==> !Covered(b, offset, length, block) && Touched(b, offset, length, block)
  }

  // ---- What the blocks mean byte by byte ----

  predicate InBlock(i: nat, b: nat, block: nat) {
    b * block <= i < (b + 1) * block
  }

  predicate InRange(i: nat, offset: nat, length: nat) {
    offset <= i < offset + length
  }

  /** A block is covered if and only if all its bytes are in the range. */
  lemma CoveredIffBytes(b: nat, offset: nat, length: nat, block: nat)
    requires block > 0
    ensures Covered(b, offset, length, block) <==> forall i :: InBlock(i, b, block) ==> InRange(i, offset, length)
  {
    BlockStarts(b, block);
    assert InBlock(b * block, b, block) && InBlock((b + 1) * block - 1, b, block);
  }

  /** And touched if and only if some byte of it is. */
  lemma TouchedIffByte(b: nat, offset: nat, length: nat, block: nat)
    requires block > 0
    ensures Touched(b, offset, length, block) <==> exists i :: InBlock(i, b, block) && InRange(i, offset, length)
  {
    BlockStarts(b, block);
    var i := Max(b * block, offset);
    assert Touched(b, offset, length, block) ==> InBlock(i, b, block) && InRange(i, offset, length);
  }

  // ---- Which calls a range needs ----

  /** The range ends inside the block `b`, and has its first byte. */
  predicate EndsIn(b: nat, offset: nat, length: nat, block: nat) {
    offset <= b * block < offset + length < (b + 1) * block
  }

  ghost predicate CoversBlock(offset: nat, length: nat, block: nat) {
    exists b: nat :: Covered(b, offset, length, block)
  }

  ghost predicate EndsInBlock(offset: nat, length: nat, block: nat) {
    exists b: nat :: EndsIn(b, offset, length, block)
  }

  lemma HeadNeeded(offset: nat, block: nat)
    requires PowerOfTwo(block) && offset + block <= WORD && offset < WORD
    ensures 0 < block < WORD && (AlignUp(offset, block) != offset <==> offset % block != 0)
  {
    AlignUpIsLeast(offset, block);
    hide AlignUp, PowerOfTwo;
    if offset % block == 0 { assert Multiple(offset, block); }
  }

  /** What is left of the range behind the head. */
  function BehindHead(offset: nat, length: nat, block: nat): nat
    requires 0 < block < WORD
  {
    if AlignUp(offset, block) < offset + length then offset + length - AlignUp(offset, block) else 0
  }

  lemma BlockAt(at: nat, block: nat) returns (b: nat)
    requires block > 0 && Multiple(at, block)
    ensures at == b * block && (b + 1) * block == at + block
  {
    b := at / block;
    Quotient(at, block);
    BlockStarts(b, block);
  }

  lemma PunchNeeded(offset: nat, length: nat, block: nat)
    requires PowerOfTwo(block) && offset + length < WORD && offset + block <= WORD
    ensures 0 < block < WORD
    ensures AlignDown(BehindHead(offset, length, block), block) >= block <==> CoversBlock(offset, length, block)
  {
    AlignUpIsLeast(offset, block);
    var u, left := AlignUp(offset, block), BehindHead(offset, length, block);
    AlignDownIsGreatest(left, block);
    MiddleBlocks(offset, length, block);
    hide AlignUp, AlignDown, PowerOfTwo;
    var b := BlockAt(u, block);
    assert AlignDown(left, block) >= block ==> Covered(b, offset, length, block);
    if c: nat :| Covered(c, offset, length, block) {
      BlockStarts(c, block);
      assert left >= block && Multiple(block, block);
    }
  }

  lemma UpToMultiple(offset: nat, m: nat, block: nat)
    requires PowerOfTwo(block) && offset < WORD && offset + block <= WORD
    requires 0 < block < WORD && offset <= m && Multiple(m, block)
    ensures AlignUp(offset, block) <= m
  {
    AlignUpIsLeast(offset, block);
  }

  lemma TailLeft(at: nat, rest: nat, offset: nat, length: nat, block: nat)
    requires 0 < rest < block && offset <= at && at + rest == offset + length && Multiple(at, block)
    ensures EndsInBlock(offset, length, block)
  {
    var b := BlockAt(at, block);
    assert EndsIn(b, offset, length, block);
  }

  lemma NoTailLeft(c: nat, offset: nat, length: nat, block: nat)
    requires block > 0 && EndsIn(c, offset, length, block)
    ensures !Multiple(offset + length, block)
  {
    BlockStarts(c, block);
    if Multiple(offset + length, block) { NextMultiple(c * block, offset + length, block); }
  }

  /** A range that ends inside a block has something left behind its whole blocks. */
  lemma EndIsLeft(c: nat, offset: nat, length: nat, block: nat)
    requires PowerOfTwo(block) && offset + length < WORD && offset + block <= WORD
    requires 0 < block < WORD && EndsIn(c, offset, length, block)
    ensures AlignUp(offset, block) < offset + length && !Multiple(offset + length, block)
  {
    BlockStarts(c, block);
    NoTailLeft(c, offset, length, block);
    UpToMultiple(offset, c * block, block);
    hide AlignUp, Multiple, PowerOfTwo;
  }

  lemma TailNeeded(offset: nat, length: nat, block: nat)
    requires PowerOfTwo(block) && offset + length < WORD && offset + block <= WORD
    ensures 0 < block < WORD
    ensures var left := BehindHead(offset, length, block);
      AlignDown(left, block) < left <==> EndsInBlock(offset, length, block)
  {
    AlignUpIsLeast(offset, block);
    var u, left := AlignUp(offset, block), BehindHead(offset, length, block);
    MiddleLeaves(u, left, block);
    hide AlignUp, AlignDown, Multiple, EndsIn, PowerOfTwo;
    if AlignDown(left, block) < left {
      TailLeft(u + AlignDown(left, block), left - AlignDown(left, block), offset, length, block);
    } else if c: nat :| EndsIn(c, offset, length, block) {
      EndIsLeft(c, offset, length, block);
      assert false;
    }
  }

  /** What rounding the rest down comes to, once the head is done. */
  lemma MiddlePlan(start: nat, length: nat, offset: nat, all: nat, block: nat)
    requires PowerOfTwo(block) && 0 < block < WORD && offset + all < WORD && offset + block <= WORD
    requires start + length == offset + all && length == BehindHead(offset, all, block)
    requires length > 0 ==> start == AlignUp(offset, block)
    ensures var whole := AlignDown(length, block);
      && whole <= length < whole + block
      && (whole >= block <==> CoversBlock(offset, all, block))
      && (whole < block ==> whole == 0)
      && (whole < length <==> EndsInBlock(offset, all, block))
      && (length > 0 ==> Multiple(start, block) && Multiple(start + whole, block)) && Multiple(whole, block)
      && (whole >= block ==> forall b: nat :: Covered(b, offset, all, block) <==> Covered(b, start, whole, block))
  {
    AlignUpIsLeast(offset, block);
    PunchNeeded(offset, all, block);
    TailNeeded(offset, all, block);
    MiddleBlocks(offset, all, block);
    MiddleLeaves(start, length, block);
    hide AlignUp, AlignDown, Multiple, PowerOfTwo, Covered, CoversBlock, EndsInBlock;
  }

  /** Which calls of a trim fail, and with what code; zero for a call that succeeds. */
  datatype Faults = Faults(stat: Status, head: Status, punch: Status, tail: Status)

  class DataFile {
    var bytes: seq<byte>
    /** The blocks that take up space. */
    var mapped: set<nat>
    const block: nat

    ghost predicate Valid() {
      PowerOfTwo(block)
    }

    /** `pwrite` of all or nothing. Every block written to takes up space. */
    method PWrite(buf: seq<byte>, offset: nat, fault: Status) returns (res: Status)
      modifies this
      ensures res == fault
      ensures bytes == if res == 0 then Written(old(bytes), buf, offset) else old(bytes)
      ensures forall b: nat :: b in mapped <==>
        b in old(mapped) || (res == 0 && b <= offset + |buf| && Touched(b, offset, |buf|, block))
    {
      if fault == 0 {
        bytes := Written(bytes, buf, offset);
        mapped := mapped + set b | 0 <= b <= offset + |buf| && Touched(b, offset, |buf|, block);
      }
      return fault;
    }

    /** `fcntl(F_PUNCHHOLE)`: refused unless offset and length are whole blocks. */
    method PunchBlocks(offset: nat, length: nat, fault: Status) returns (res: Status)
      requires block > 0
      modifies this
      ensures res == if !Multiple(offset, block) || !Multiple(length, block) then -22 else fault
      ensures bytes == if res == 0 then Punched(old(bytes), offset, length) else old(bytes)
      ensures mapped == if res == 0 then old(mapped) - set b | b in old(mapped) && Covered(b, offset, length, block) else old(mapped)
    {
      if !Multiple(offset, block) || !Multiple(length, block) {
        return EINVAL;
      }
      if fault == 0 {
        bytes := Punched(bytes, offset, length);
        mapped := mapped - set b | b in mapped && Covered(b, offset, length, block);
      }
      return fault;
    }

    /** The Linux trim, one `fallocate` that punches a hole and keeps the size; unlike the macOS form it
        refuses an empty range. */
    method LinuxTrim(offset: nat, length: nat, fault: Status) returns (res: Status)
      modifies this
      ensures res == if length == 0 then -22 else fault
      ensures bytes == if res == 0 then Punched(old(bytes), offset, length) else old(bytes)
      ensures MappedWithin(old(mapped), mapped, offset, length, block)
      ensures res == 0 ==> NoneCovered(mapped, offset, length, block)
    {
      if length == 0 {
        return EINVAL;
      }
      if fault == 0 {
        bytes := Punched(bytes, offset, length);
        mapped := mapped - set b | b in mapped && Covered(b, offset, length, block);
      }
      return fault;
    }

    /** The first `done` bytes of the range have been trimmed, since the file had the given bytes and
        blocks. */
    ghost predicate Trimmed(was: seq<byte>, had: set<nat>, offset: nat, length: nat, done: nat)
      reads this
    {
      && done <= length && Zeroed(was, bytes, offset, done)
      && |was| <= |bytes| <= Max(|was|, offset + length)
      && MappedWithin(had, mapped, offset, length, block)
    }

    lemma NothingTrimmed(offset: nat, length: nat)
      ensures Trimmed(bytes, mapped, offset, length, 0)
    {
    }

    lemma TrimmedInside(was: seq<byte>, had: set<nat>, offset: nat, length: nat)
      requires Trimmed(was, had, offset, length, length)
      ensures offset + length <= |was| ==> bytes == Punched(was, offset, length)
    {
      if offset + length <= |was| { ZeroedIsPunched(was, bytes, offset, length); }
    }

    /** Zeroes from `calloc`, written with one `pwrite` over a piece of the range at either end. */
    method WriteZeroes(at: nat, n: nat, fault: Status, ghost was: seq<byte>, ghost had: set<nat>, ghost offset: nat, ghost length: nat)
      returns (res: Status)
      requires offset <= at && at + n <= offset + length && PartialPiece(at, n, offset, length, block)
      requires Trimmed(was, had, offset, length, at - offset)
      modifies this
      ensures res == fault
      ensures Trimmed(was, had, offset, length, at - offset + if res == 0 then n else 0)
      ensures NoneCovered(old(mapped), offset, length, block) ==> NoneCovered(mapped, offset, length, block)
    {
      ghost var before, blocks := bytes, mapped;
      WriteZeros(before, at, n);
      NothingZeroed(before, at);
      res := PWrite(Zeros(n), at, fault);
      assert Zeroed(before, bytes, at, if res == 0 then n else 0);
      assert MappedWithin(blocks, mapped, offset, length, block);
      assert |before| <= |bytes| <= Max(|before|, at + n);
      hide Zeroed, Written, Covered, Touched, MappedWithin;
      JoinZeroed(was, before, bytes, offset, at - offset, if res == 0 then n else 0);
      MappedThen(had, blocks, mapped, offset, length, block);
    }

    /** The hole over the whole blocks of the range. */
    method PunchMiddle(at: nat, n: nat, fault: Status, ghost was: seq<byte>, ghost had: set<nat>, ghost offset: nat, ghost length: nat)
      returns (res: Status)
      requires block > 0 && Multiple(at, block) && Multiple(n, block)
      requires forall b: nat :: Covered(b, offset, length, block) <==> Covered(b, at, n, block)
      requires offset <= at && at + n <= offset + length && Trimmed(was, had, offset, length, at - offset)
      modifies this
      ensures res == fault
      ensures Trimmed(was, had, offset, length, at - offset + if res == 0 then n else 0)
      ensures res == 0 ==> NoneCovered(mapped, offset, length, block)
    {
      ghost var before, blocks := bytes, mapped;
      PunchZeros(before, at, n);
      NothingZeroed(before, at);
      hide Covered, Touched;
      res := PunchBlocks(at, n, fault);
      assert Zeroed(before, bytes, at, if res == 0 then n else 0);
      assert MappedWithin(blocks, mapped, offset, length, block);
      hide Zeroed, MappedWithin;
      JoinZeroed(was, before, bytes, offset, at - offset, if res == 0 then n else 0);
      MappedThen(had, blocks, mapped, offset, length, block);
    }

    /** The bytes before the first block boundary, if the range does not start on one. */
    method TrimHead(offset: nat, length: nat, fault: Status) returns (res: Status, at: nat, left: nat)
      requires Valid() && offset + length < WORD && offset + block <= WORD
      modifies this
      ensures 0 < block < WORD && res == if offset % block != 0 then fault else 0
      ensures at + left == offset + length && offset <= at
      ensures Trimmed(old(bytes), old(mapped), offset, length, if res == 0 then at - offset else 0)
      ensures left == BehindHead(offset, length, block) && (left > 0 ==> at == AlignUp(offset, block))
    {
      HeadNeeded(offset, block);
      AlignUpIsLeast(offset, block);
      NothingTrimmed(offset, length);
      hide AlignUp, Multiple, PowerOfTwo, Trimmed;
      ghost var was, had := bytes, mapped;
      var alignedOffset := AlignUp(offset, block);
      res, at, left := 0, offset, length;
      if alignedOffset != offset {
        var zeroLength := Min(left, alignedOffset - offset);
        HeadBlocks(offset, zeroLength, length, block);
        res := WriteZeroes(at, zeroLength, fault, was, had, offset, length);
        at, left := at + zeroLength, left - zeroLength;
      }
    }

    /** The whole blocks of the range, if there is one. */
    method TrimBlocks(start: nat, length: nat, fault: Status, ghost was: seq<byte>, ghost had: set<nat>, ghost offset: nat, ghost all: nat)
      returns (res: Status, at: nat, left: nat)
      requires Valid() && 0 < block < WORD && offset + all < WORD && offset + block <= WORD
      requires start + length == offset + all && offset <= start && Trimmed(was, had, offset, all, start - offset)
      requires length == BehindHead(offset, all, block) && (length > 0 ==> start == AlignUp(offset, block))
      modifies this
      ensures res == if CoversBlock(offset, all, block) then fault else 0
      ensures at + left == offset + all && offset <= at && left < block && (left > 0 ==> Multiple(at, block))
      ensures Trimmed(was, had, offset, all, if res == 0 then at - offset else start - offset)
      ensures res == 0 ==> NoneCovered(mapped, offset, all, block)
      ensures left > 0 <==> EndsInBlock(offset, all, block)
    {
      MiddlePlan(start, length, offset, all, block);
      NoneToCover(mapped, offset, all, block);
      hide AlignUp, AlignDown, BehindHead, Multiple, PowerOfTwo, Trimmed, Covered, CoversBlock, EndsInBlock, NoneCovered;
      var alignedLength := AlignDown(length, block);
      res, at, left := 0, start, length;
      if alignedLength >= block {
        res := PunchMiddle(at, alignedLength, fault, was, had, offset, all);
        at, left := at + alignedLength, left - alignedLength;
      }
    }

    /** The macOS trim. The result is that of the first failing call among those the range needs: always
        `fstat`; a write at the head if the range does not start on a block; a hole if it covers one; a
        write at the tail if it ends inside a block whose first byte it has. The hole is always whole
        blocks, so no call is refused.

        On success the range reads as zeros and nothing else has changed, exactly the blocks wholly
        inside the range have stopped taking up space, and a range inside the file leaves the same bytes
        as one hole punched over all of it. A failing call leaves the zeros written before it. */
    method MacTrim(offset: nat, length: nat, faults: Faults) returns (res: Status, ghost done: nat)
      requires Valid() && offset + length < WORD && offset + block <= WORD
      modifies this
      ensures block > 0 && res ==
        if faults.stat != 0 then faults.stat
        else if offset % block != 0 && faults.head != 0 then faults.head
        else if CoversBlock(offset, length, block) && faults.punch != 0 then faults.punch
        else if EndsInBlock(offset, length, block) && faults.tail != 0 then faults.tail
        else 0
      ensures Trimmed(old(bytes), old(mapped), offset, length, done)
      ensures res == 0 ==> done == length && NoneCovered(mapped, offset, length, block)
      ensures res == 0 && offset + length <= |old(bytes)| ==> bytes == Punched(old(bytes), offset, length)
    {
      HeadNeeded(offset, block);
      NothingTrimmed(offset, length);
      hide Punched, AlignUp, PowerOfTwo, CoversBlock, EndsInBlock, Trimmed, NoneCovered, Multiple;
      done := 0;
      if faults.stat != 0 {
        return faults.stat, done;
      }
      ghost var was, had := bytes, mapped;
      var at, left;
      res, at, left := TrimHead(offset, length, faults.head);
      if res != 0 {
        return;
      }
      done := at - offset;
      res, at, left := TrimBlocks(at, left, faults.punch, was, had, offset, length);
      if res != 0 {
        return;
      }
      done := at - offset;
      if left > 0 {
        TailBlocks(at, left, offset, length, block);
        res := WriteZeroes(at, left, faults.tail, was, had, offset, length);
        if res != 0 {
          return;
        }
        done := length;
      }
      TrimmedInside(was, had, offset, length);
      return 0, done;
    }
  }
}
