/** Listing attribute names on Windows, where attributes are alternate data streams. The kernel returns a
chain of records; a first pass cuts the `:$DATA` off every stream name in place and sizes the result,
a second pass fills the result with the same pointer table and names as on the other platforms. */
module StreamListing {
  import opened Basics
  import opened AttrNames
  import opened StreamLayout
  import AttrListing

  /** The units, after the start of a record, at which the name without its leading colon starts. */
  const NAME_UNIT: nat := 13

  const DATA_SUFFIX: seq<wchar> := [58, 36, 68, 65, 84, 65]  // ":$DATA"

  /** The byte distance to the next record, in the first four bytes of a record; zero in the last. */
  function NextOffset(s: seq<wchar>, p: nat): nat
    requires p + 1 < |s|
  {
    var low: nat, high: nat := s[p], s[p + 1];
    low + 0x1_0000 * high
  }

  /** The record `i` starts at unit `recs[i]`, and its name, without the leading colon, is `lens[i]`
      units long, ends in `:$DATA` and is terminated before the next record starts. */
  predicate Record(s: seq<wchar>, recs: seq<nat>, lens: seq<nat>, i: nat)
    requires i < |recs| == |lens|
  {
    && recs[i] + NAME_UNIT + lens[i] < End(s, recs, i) <= |s|
    && NextOffset(s, recs[i]) == (if i + 1 < |recs| then 2 * (recs[i + 1] - recs[i]) else 0)
    && Terminates(s, recs[i] + NAME_UNIT, lens[i])
    && Suffixed(Text(s, recs, lens, i))
  }

  /** A chain of at least one record fills the buffer. */
  ghost predicate Chain(s: seq<wchar>, recs: seq<nat>, lens: seq<nat>) {
    && 0 < |recs| == |lens| && recs[0] == 0
    && forall i :: 0 <= i < |recs| ==> Record(s, recs, lens, i)
  }

  function End(s: seq<wchar>, recs: seq<nat>, i: nat): nat
    requires i < |recs|
  {
    if i + 1 < |recs| then recs[i + 1] else |s|
  }

  predicate Terminates(s: seq<wchar>, at: nat, n: nat) {
    at + n < |s| && s[at + n] == 0 && forall k :: at <= k < at + n ==> s[k] != 0
  }

  predicate Suffixed(text: seq<wchar>) {
    |text| >= 6 && text[|text| - 6..] == DATA_SUFFIX
  }

  function Text(s: seq<wchar>, recs: seq<nat>, lens: seq<nat>, i: nat): seq<wchar>
    requires i < |recs| == |lens| && recs[i] + NAME_UNIT + lens[i] <= |s|
  {
    s[recs[i] + NAME_UNIT..recs[i] + NAME_UNIT + lens[i]]
  }

  /** Where the first pass cuts the name `i`. */
  function Cut(recs: seq<nat>, lens: seq<nat>, i: nat): int
    requires i < |recs| == |lens|
  {
    recs[i] + NAME_UNIT + lens[i] - 6
  }

  /** The stream name without its suffix. */
  ghost function Name(s: seq<wchar>, recs: seq<nat>, lens: seq<nat>, i: nat): seq<wchar>
    requires Chain(s, recs, lens) && i < |recs|
  {
    assert Record(s, recs, lens, i);
    s[recs[i] + NAME_UNIT..Cut(recs, lens, i)]
  }

  /** The names of the first `k` records that are not empty, encoded, in chain order. */
  ghost function Encoded(s: seq<wchar>, recs: seq<nat>, lens: seq<nat>, enc: seq<wchar> -> seq<byte>, k: nat): seq<seq<byte>>
    requires Chain(s, recs, lens) && k <= |recs|
  {
    if k == 0 then []
    else
      Encoded(s, recs, lens, enc, k - 1)
      + if Name(s, recs, lens, k - 1) == [] then [] else [enc(Name(s, recs, lens, k - 1))]
  }

  /** The buffer after the first `k` names have been cut. */
  ghost function CutTo(s: seq<wchar>, recs: seq<nat>, lens: seq<nat>, k: nat): (t: seq<wchar>)
    requires Chain(s, recs, lens) && k <= |recs|
    ensures |t| == |s|
  {
    if k == 0 then s
    else
      assert Record(s, recs, lens, k - 1);
      CutTo(s, recs, lens, k - 1)[Cut(recs, lens, k - 1) := 0]
  }

  lemma {:induction false} RecordsAreApart(s: seq<wchar>, recs: seq<nat>, lens: seq<nat>, i: nat, j: nat)
    requires Chain(s, recs, lens) && i < j < |recs|
    ensures recs[i] + NAME_UNIT + lens[i] < recs[j]
    decreases j
  {
    if i + 1 < j {
      RecordsAreApart(s, recs, lens, i, j - 1);
      assert Record(s, recs, lens, j - 1);
    } else {
      assert Record(s, recs, lens, i);
    }
  }

  lemma {:induction false} CutKeeps(s: seq<wchar>, recs: seq<nat>, lens: seq<nat>, k: nat, u: nat)
    requires Chain(s, recs, lens) && k <= |recs| && u < |s|
    requires forall i :: 0 <= i < k ==> u != Cut(recs, lens, i)
    ensures CutTo(s, recs, lens, k)[u] == s[u]
  {
    if k > 0 {
      assert Record(s, recs, lens, k - 1);
      CutKeeps(s, recs, lens, k - 1, u);
    }
  }

  lemma {:induction false} CutStays(s: seq<wchar>, recs: seq<nat>, lens: seq<nat>, k: nat, i: nat)
    requires Chain(s, recs, lens) && i < k <= |recs|
    ensures 0 <= Cut(recs, lens, i) < |s| && CutTo(s, recs, lens, k)[Cut(recs, lens, i)] == 0
    decreases k
  {
    assert Record(s, recs, lens, i) && Record(s, recs, lens, k - 1);
    if i < k - 1 { CutStays(s, recs, lens, k - 1, i); }
  }

  /** A unit in the record `j`, before the cut of its own name, survives every cut. */
  lemma OutsideCuts(s: seq<wchar>, recs: seq<nat>, lens: seq<nat>, k: nat, j: nat, u: nat)
    requires Chain(s, recs, lens) && k <= |recs| && j < |recs|
    requires recs[j] <= u <= recs[j] + NAME_UNIT + lens[j] && u < |s|
    requires u < Cut(recs, lens, j) || k <= j
    ensures CutTo(s, recs, lens, k)[u] == s[u]
  {
    forall i | 0 <= i < k ensures u != Cut(recs, lens, i) {
      assert Record(s, recs, lens, i);
      if i < j { RecordsAreApart(s, recs, lens, i, j); }
      if j < i { RecordsAreApart(s, recs, lens, j, i); }
    }
    CutKeeps(s, recs, lens, k, u);
  }

  /** What both passes find at the record `j` when the first `k` names have been cut: the link, and the
      name, whole if it is still uncut. */
  lemma RecordAfterCuts(s: seq<wchar>, recs: seq<nat>, lens: seq<nat>, k: nat, j: nat)
    requires Chain(s, recs, lens) && k <= |recs| && j < |recs|
    ensures var t := CutTo(s, recs, lens, k);
      && Record(s, recs, lens, j)
      && recs[j] + NAME_UNIT + lens[j] < |t|
      && NextOffset(t, recs[j]) == NextOffset(s, recs[j])
      && Terminates(t, recs[j] + NAME_UNIT, if k <= j then lens[j] else lens[j] - 6)
      && t[recs[j] + NAME_UNIT..Cut(recs, lens, j)] == Name(s, recs, lens, j)
  {
    assert Record(s, recs, lens, j);
    if j < k { CutStays(s, recs, lens, k, j); }
    forall u: nat | recs[j] <= u <= recs[j] + NAME_UNIT + lens[j] && (u < Cut(recs, lens, j) || k <= j)
      ensures CutTo(s, recs, lens, k)[u] == s[u]
    {
      OutsideCuts(s, recs, lens, k, j, u);
    }
    hide CutTo, Chain;
  }

  // ---- The kernel's answer is such a chain ----

  ghost function Recs(streams: seq<Stream>): seq<nat> {
    seq(|streams|, i requires 0 <= i < |streams| => StartOf(streams, i))
  }

  ghost function Lens(streams: seq<Stream>): seq<nat> {
    seq(|streams|, i requires 0 <= i < |streams| => |streams[i].name| + 6)
  }

  lemma Pieces(a: seq<wchar>, b: seq<wchar>, c: seq<wchar>, d: seq<wchar>)
    requires |d| > 0
    ensures var s := a + b + c + d;
      && s[|a|..|a| + |b|] == b && s[|a| + |b|..|a| + |b| + |c|] == c && s[|a| + |b| + |c|] == d[0]
      && forall k :: 0 <= k < |a| ==> s[k] == a[k]
  {
  }

  lemma RecordShape(s: Stream, last: bool)
    requires ValidStream(s)
    ensures var r, n := RecordOf(s, last), |s.name|;
      && NextOffset(r, 0) == Link(s, last)
      && r[13..13 + n] == s.name && r[13 + n..13 + n + 6] == DATA_SUFFIX && r[13 + n + 6] == 0
  {
    var next := Link(s, last);
    var head := [next % 0x1_0000, next / 0x1_0000] + s.sizes + [58];
    assert |head| == 13 && head[0] == next % 0x1_0000 && head[1] == next / 0x1_0000;
    Pieces(head, s.name, DATA_SUFFIX, [0] + s.padding);
  }

  lemma Part(s: seq<wchar>, at: nat, r: seq<wchar>, lo: nat, hi: nat)
    requires at + |r| <= |s| && s[at..at + |r|] == r && lo <= hi <= |r|
    ensures s[at + lo..at + hi] == r[lo..hi]
    ensures lo < |r| ==> s[at + lo] == r[lo]
  {
    forall k | 0 <= k < |r| ensures s[at + k] == r[k] {
      assert s[at..at + |r|][k] == s[at + k];
    }
    forall j | 0 <= j < hi - lo ensures s[at + lo..at + hi][j] == r[lo..hi][j] {
      assert s[at + (lo + j)] == r[lo + j];
    }
  }

  /** The record `st` stands in the buffer at `at`. */
  ghost predicate Stands(s: seq<wchar>, at: nat, st: Stream, last: bool)
    requires ValidStream(st)
  {
    && at + Size(st) <= |s|
    && NextOffset(s, at) == Link(st, last)
    && s[at + 13..at + 13 + |st.name|] == st.name
    && s[at + 13 + |st.name|..at + 13 + |st.name| + 6] == DATA_SUFFIX && s[at + 13 + |st.name| + 6] == 0
  }

  lemma RecordStands(s: seq<wchar>, at: nat, st: Stream, last: bool)
    requires ValidStream(st) && at + Size(st) <= |s| && s[at..at + Size(st)] == RecordOf(st, last)
    ensures Stands(s, at, st, last)
  {
    var r, n := RecordOf(st, last), |st.name|;
    RecordShape(st, last);
    hide RecordOf;
    Part(s, at, r, 0, 0);
    Part(s, at, r, 1, 1);
    Part(s, at, r, 13, 13 + n);
    Part(s, at, r, 13 + n, 13 + n + 6);
    Part(s, at, r, 13 + n + 6, 13 + n + 6);
    assert at + 13 + n == at + (13 + n) && at + 13 + n + 6 == at + (13 + n + 6);
  }

  /** The name of the record `i` is where both passes look for it. */
  lemma NameInAnswer(streams: seq<Stream>, i: nat)
    requires WellFormed(streams) && i < |streams|
    ensures ValidStream(streams[i]) && Stands(Answer(streams), StartOf(streams, i), streams[i], i == |streams| - 1)
  {
    hide RecordOf, Answer, StartOf, Stands, Size, ValidStream;
    RecordInAnswer(streams, i);
    hide WellFormed;
    RecordStands(Answer(streams), StartOf(streams, i), streams[i], i == |streams| - 1);
  }

  lemma TextTerminates(s: seq<wchar>, p: nat, name: seq<wchar>)
    requires p + |name| + 6 < |s| && 0 !in name
    requires s[p..p + |name|] == name && s[p + |name|..p + |name| + 6] == DATA_SUFFIX && s[p + |name| + 6] == 0
    ensures Terminates(s, p, |name| + 6) && Suffixed(s[p..p + |name| + 6])
  {
    forall k | p <= k < p + |name| + 6 ensures s[k] != 0 {
      if k < p + |name| {
        assert s[k] == name[k - p];
      } else {
        assert s[k] == DATA_SUFFIX[k - p - |name|];
      }
    }
    assert s[p..p + |name| + 6][|name|..] == s[p + |name|..p + |name| + 6];
  }

  /** A record that stands in the buffer is one of a chain. */
  lemma StandsIsRecord(s: seq<wchar>, recs: seq<nat>, lens: seq<nat>, i: nat, st: Stream)
    requires i < |recs| == |lens| && ValidStream(st) && lens[i] == |st.name| + 6
    requires Stands(s, recs[i], st, i == |recs| - 1) && End(s, recs, i) == recs[i] + Size(st)
    ensures Record(s, recs, lens, i) && s[recs[i] + NAME_UNIT..Cut(recs, lens, i)] == st.name
  {
    TextTerminates(s, recs[i] + 13, st.name);
    hide Terminates, Suffixed, NextOffset;
  }

  lemma RecsOfAnswer(streams: seq<Stream>, i: nat)
    requires WellFormed(streams) && i < |streams|
    ensures var recs := Recs(streams);
      && recs[i] == StartOf(streams, i) && End(Answer(streams), recs, i) == recs[i] + Size(streams[i])
      && Lens(streams)[i] == |streams[i].name| + 6
  {
    var recs := Recs(streams);
    assert |recs| == |streams| && recs[i] == StartOf(streams, i);
    assert i + 1 < |streams| ==> recs[i + 1] == StartOf(streams, i + 1);
    assert |Lens(streams)| == |streams| && Lens(streams)[i] == |streams[i].name| + 6;
    hide Recs, Lens, StartOf, Answer, Size, ValidStream;
    StartOfNext(streams, i);
    AnswerSize(streams);
  }

  lemma RecordOfAnswer(streams: seq<Stream>, i: nat)
    requires WellFormed(streams) && i < |streams|
    ensures var s, recs, lens := Answer(streams), Recs(streams), Lens(streams);
      Record(s, recs, lens, i) && s[recs[i] + NAME_UNIT..Cut(recs, lens, i)] == streams[i].name
  {
    assert ValidStream(streams[i]);
    assert |Recs(streams)| == |Lens(streams)| == |streams|;
    hide Answer, StartOf, Record, Stands, Size, ValidStream, Recs, Lens, End, Cut;
    NameInAnswer(streams, i);
    RecsOfAnswer(streams, i);
    StandsIsRecord(Answer(streams), Recs(streams), Lens(streams), i, streams[i]);
  }

  /** Every answer of the kernel is a chain. */
  lemma AnswerIsChain(streams: seq<Stream>)
    requires WellFormed(streams)
    ensures |Recs(streams)| == |streams| && Chain(Answer(streams), Recs(streams), Lens(streams))
  {
    RecsOfAnswer(streams, 0);
    var s, recs, lens := Answer(streams), Recs(streams), Lens(streams);
    assert |recs| == |lens| == |streams| && recs[0] == 0;
    forall i | 0 <= i < |recs| ensures Record(s, recs, lens, i) {
      hide Answer, Record, Recs, Lens, Cut, WellFormed;
      RecordOfAnswer(streams, i);
    }
    hide Answer, Record, Recs, Lens;
  }

  /** And the names in it are those of its streams. */
  lemma NameOfAnswer(streams: seq<Stream>, i: nat)
    requires WellFormed(streams) && i < |streams| == |Recs(streams)|
    requires Chain(Answer(streams), Recs(streams), Lens(streams))
    ensures Name(Answer(streams), Recs(streams), Lens(streams), i) == streams[i].name
  {
    RecordOfAnswer(streams, i);
    hide Answer, Record, Recs, Lens, Cut, WellFormed, Chain;
  }

  /** So what the passes encode are the streams' names that are not empty, in order. */
  lemma {:induction false} EncodedIsNames(streams: seq<Stream>, enc: seq<wchar> -> seq<byte>, k: nat)
    requires WellFormed(streams) && k <= |streams| == |Recs(streams)|
    requires Chain(Answer(streams), Recs(streams), Lens(streams))
    ensures Encoded(Answer(streams), Recs(streams), Lens(streams), enc, k) == NamesOf(streams[..k], enc)
  {
    hide Answer, Record, Name, Recs, Lens, Chain, WellFormed;
    if k > 0 {
      EncodedIsNames(streams, enc, k - 1);
      NameOfAnswer(streams, k - 1);
      assert streams[..k] == streams[..k - 1] + [streams[k - 1]];
      NamesAppend(streams[..k - 1], streams[k - 1], enc);
    }
  }

  // ---- Querying the chain ----

  /** The loop that doubles the buffer until the kernel's answer, of `required` bytes, fits. */
  method QuerySize(required: nat) returns (size: nat)
    ensures required <= size && size >= 64
    ensures size < if required <= 64 then 128 else 2 * required
  {
    size := 64;
    while size < required
      invariant size >= 64
      invariant size == 64 || size < 2 * required
      decreases required - size
    {
      size := size * 2;
    }
  }

  // ---- The two passes ----

  /** `wcslen` of the name at `at`. */
  method WideLength(info: array<wchar>, at: nat, ghost n: nat) returns (len: nat)
    requires Terminates(info[..], at, n)
    ensures len == n
  {
    len := 0;
    while info[at + len] != 0
      invariant len <= n
      decreases n - len
    {
      assert info[..][at + len] != 0;
      len := len + 1;
    }
    assert info[..][at + len] == 0;
  }

  /** The name that starts at `at`, up to its terminator. */
  method WideString(info: array<wchar>, at: nat, ghost n: nat) returns (text: seq<wchar>)
    requires Terminates(info[..], at, n)
    ensures text == info[..][at..at + n]
  {
    var len := WideLength(info, at, n);
    text := info[at..at + len];
  }

  /** Cutting the suffix off the name of the record at `next`, which is the record `k`. */
  method CutName(info: array<wchar>, next: nat, ghost s: seq<wchar>, ghost recs: seq<nat>, ghost lens: seq<nat>, ghost k: nat)
    requires Chain(s, recs, lens) && k < |recs| && next == recs[k] && info[..] == CutTo(s, recs, lens, k)
    modifies info
    ensures info[..] == CutTo(s, recs, lens, k + 1)
  {
    RecordAfterCuts(s, recs, lens, k, k);
    assert CutTo(s, recs, lens, k + 1) == CutTo(s, recs, lens, k)[Cut(recs, lens, k) := 0];
    hide CutTo, Chain;
    var len := WideLength(info, next + NAME_UNIT, lens[k]);
    info[next + NAME_UNIT + len - 6] := 0;
  }

  /** The name of the record at `next` once it has been cut. */
  method CutNameOf(info: array<wchar>, next: nat, ghost s: seq<wchar>, ghost recs: seq<nat>, ghost lens: seq<nat>, ghost k: nat, ghost j: nat)
    returns (name: seq<wchar>)
    requires Chain(s, recs, lens) && j < k <= |recs| && next == recs[j] && info[..] == CutTo(s, recs, lens, k)
    ensures name == Name(s, recs, lens, j)
  {
    RecordAfterCuts(s, recs, lens, k, j);
    hide CutTo, Chain;
    name := WideString(info, next + NAME_UNIT, lens[j] - 6);
  }

  /** Following the link of the record at `next`; the last record has none. */
  method Advance(info: array<wchar>, next: nat, ghost s: seq<wchar>, ghost recs: seq<nat>, ghost lens: seq<nat>, ghost k: nat, ghost j: nat)
    returns (more: bool, next': nat)
    requires Chain(s, recs, lens) && k <= |recs| && j < |recs| && next == recs[j] && info[..] == CutTo(s, recs, lens, k)
    ensures more <==> j + 1 < |recs|
    ensures more ==> next' == recs[j + 1]
  {
    RecordAfterCuts(s, recs, lens, k, j);
    hide CutTo, Chain;
    var step := NextOffset(info[..], next);
    more, next' := step != 0, next + step / 2;
  }

  lemma EncodedGrows(s: seq<wchar>, recs: seq<nat>, lens: seq<nat>, enc: seq<wchar> -> seq<byte>, k: nat, n: nat)
    requires Chain(s, recs, lens) && k <= n <= |recs|
    ensures Encoded(s, recs, lens, enc, k) <= Encoded(s, recs, lens, enc, n)
    decreases n
  {
    if k < n { EncodedGrows(s, recs, lens, enc, k, n - 1); }
  }

  /** One record's part in the result. */
  lemma EncodedStep(s: seq<wchar>, recs: seq<nat>, lens: seq<nat>, enc: seq<wchar> -> seq<byte>, k: nat)
    requires Chain(s, recs, lens) && k < |recs|
    ensures var before, after := Encoded(s, recs, lens, enc, k), Encoded(s, recs, lens, enc, k + 1);
      var name := Name(s, recs, lens, k);
      if name == [] then after == before
      else after == before + [enc(name)] && |Flatten(after)| == |Flatten(before)| + |enc(name)| + 1
  {
    if Name(s, recs, lens, k) != [] {
      FlattenAppend(Encoded(s, recs, lens, enc, k), enc(Name(s, recs, lens, k)));
    }
  }

  /** The first pass: cut every suffix and add up what the names will need. */
  method CutAndMeasure(info: array<wchar>, enc: seq<wchar> -> seq<byte>, ghost recs: seq<nat>, ghost lens: seq<nat>)
    returns (length: nat, namesLen: nat)
    requires Chain(info[..], recs, lens)
    modifies info
    ensures info[..] == CutTo(old(info[..]), recs, lens, |recs|)
    ensures var encoded := Encoded(old(info[..]), recs, lens, enc, |recs|);
      length == |encoded| && namesLen == POINTER_SIZE * |encoded| + |Flatten(encoded)|
  {
    ghost var s, k := info[..], 0;
    var next, more := 0, true;
    length, namesLen := 0, 0;
    while more
      invariant k <= |recs| && (more <==> k < |recs|) && (more ==> next == recs[k])
      invariant info[..] == CutTo(s, recs, lens, k)
      invariant length == |Encoded(s, recs, lens, enc, k)|
      invariant namesLen == POINTER_SIZE * length + |Flatten(Encoded(s, recs, lens, enc, k))|
      decreases |recs| - k
    {
      EncodedStep(s, recs, lens, enc, k);
      hide CutTo, Chain, Encoded, Flatten, Name;
      CutName(info, next, s, recs, lens, k);
      var name := CutNameOf(info, next, s, recs, lens, k + 1, k);
      if name != [] {
        length := length + 1;
        namesLen := namesLen + POINTER_SIZE + |enc(name)| + 1;
      }
      more, next := Advance(info, next, s, recs, lens, k + 1, k);
      k := k + 1;
    }
  }

  // ---- Filling the block ----

  /** What the block holds when `c` of the names have been written: their pointers at the front of the
      table, and the names themselves behind the whole table. */
  ghost predicate Filled(names: seq<byte>, base: nat, all: seq<seq<byte>>, c: nat) {
    && c <= |all| && |names| == POINTER_SIZE * |all| + |Flatten(all)|
    && |Flatten(all[..c])| <= |Flatten(all)|
    && names[..POINTER_SIZE * c] == Table(base + POINTER_SIZE * |all|, all)[..POINTER_SIZE * c]
    && names[POINTER_SIZE * |all|..][..|Flatten(all[..c])|] == Flatten(all[..c])
  }

  lemma FlattenPrefix(all: seq<seq<byte>>, c: nat)
    requires c < |all|
    ensures Flatten(all[..c + 1]) == Flatten(all[..c]) + all[c] + [0]
    ensures |Flatten(all[..c])| + |all[c]| + 1 <= |Flatten(all)|
  {
    assert all[..c + 1] == all[..c] + [all[c]];
    FlattenAppend(all[..c], all[c]);
    NameAt(all, c);
    StartIsFlat(all, c);
  }

  lemma FilledIsPacked(names: seq<byte>, base: nat, all: seq<seq<byte>>)
    requires Filled(names, base, all, |all|)
    ensures names == Packed(base, all)
  {
    assert all[..|all|] == all;
    PackedParts(names, base, all);
  }

  lemma NoneFilled(names: seq<byte>, base: nat, all: seq<seq<byte>>)
    requires |names| == POINTER_SIZE * |all| + |Flatten(all)|
    ensures Filled(names, base, all, 0) && Flatten(all[..0]) == []
  {
  }

  /** A string and its terminator. */
  method PutText(names: array<byte>, at: nat, text: seq<byte>)
    requires at + |text| + 1 <= names.Length
    modifies names
    ensures names[..] == old(names[..at]) + text + [0] + old(names[at + |text| + 1..])
  {
    forall k | 0 <= k < |text| {
      names[at + k] := text[k];
    }
    names[at + |text|] := 0;
  }

  /** A text written behind the first `i` bytes that follow `offset` joins them, and nothing in front of
      it changes. */
  lemma TextJoins(before: seq<byte>, after: seq<byte>, offset: nat, i: nat, text: seq<byte>, j: nat)
    requires j <= offset && offset + i + |text| + 1 <= |before|
    requires after == before[..offset + i] + text + [0] + before[offset + i + |text| + 1..]
    ensures after[..j] == before[..j]
    ensures after[offset..][..i + |text| + 1] == before[offset..][..i] + text + [0]
  {
  }

  lemma FilledNext(names: seq<byte>, base: nat, all: seq<seq<byte>>, c: nat)
    requires c < |all| && |names| == POINTER_SIZE * |all| + |Flatten(all)|
    requires names[..POINTER_SIZE * (c + 1)] == Table(base + POINTER_SIZE * |all|, all)[..POINTER_SIZE * (c + 1)]
    requires |Flatten(all[..c])| + |all[c]| + 1 <= |Flatten(all)|
    requires names[POINTER_SIZE * |all|..][..|Flatten(all[..c])| + |all[c]| + 1] == Flatten(all[..c]) + all[c] + [0]
    ensures Filled(names, base, all, c + 1)
  {
    FlattenPrefix(all, c);
    hide Flatten, Table;
  }

  /** A text written behind the first `i` bytes of the names. */
  method PutBehind(names: array<byte>, offset: nat, i: nat, text: seq<byte>)
    requires offset + i + |text| + 1 <= names.Length
    modifies names
    ensures names[..offset] == old(names[..offset])
    ensures names[offset..][..i + |text| + 1] == old(names[offset..][..i]) + text + [0]
  {
    ghost var before := names[..];
    PutText(names, offset + i, text);
    TextJoins(before, names[..], offset, i, text, offset);
  }

  /** The pointer that the entry `c` of the table has to be. */
  lemma EntryOf(base: nat, all: seq<seq<byte>>, c: nat)
    requires c < |all|
    ensures var table := Table(base + POINTER_SIZE * |all|, all);
      POINTER_SIZE * c + POINTER_SIZE <= |table| &&
      table[POINTER_SIZE * c..POINTER_SIZE * c + POINTER_SIZE]
        == EncodePointer(base + POINTER_SIZE * |all| + |Flatten(all[..c])|)
  {
    StartIsFlat(all, c);
    TableEntry(base + POINTER_SIZE * |all|, all, c);
  }

  /** Writing the name number `c` and its pointer. */
  method PutName(names: array<byte>, base: nat, offset: nat, i: nat, j: nat, text: seq<byte>, ghost all: seq<seq<byte>>, ghost c: nat)
    requires Filled(names[..], base, all, c) && c < |all| && all[c] == text
    requires offset == POINTER_SIZE * |all| && i == |Flatten(all[..c])| && j == POINTER_SIZE * c
    modifies names
    ensures Filled(names[..], base, all, c + 1)
  {
    FlattenPrefix(all, c);
    EntryOf(base, all, c);
    hide Flatten, Table, EncodePointer;
    ghost var table, before := Table(base + offset, all), names[..];
    assert names[..][offset..] == names[offset..] && names[..][..j] == names[..j];
    PutBehind(names, offset, i, text);
    assert names[..j] == names[..offset][..j] && before[..j] == before[..offset][..j];
    hide Filled;
    AttrListing.PutEntry(names, j, base + offset + i, table, names[offset..]);
    assert names[..][offset..] == names[offset..];
    FilledNext(names[..], base, all, c);
  }

  /** The next name that is written is the next name of the whole list. */
  lemma EncodedPrefix(s: seq<wchar>, recs: seq<nat>, lens: seq<nat>, enc: seq<wchar> -> seq<byte>, k: nat, c: nat)
    requires Chain(s, recs, lens) && k < |recs|
    requires var all := Encoded(s, recs, lens, enc, |recs|); c <= |all| && Encoded(s, recs, lens, enc, k) == all[..c]
    ensures var all := Encoded(s, recs, lens, enc, |recs|);
      var name := Name(s, recs, lens, k);
      if name == [] then Encoded(s, recs, lens, enc, k + 1) == all[..c]
      else
        && c < |all| && all[c] == enc(name) && Encoded(s, recs, lens, enc, k + 1) == all[..c + 1]
        && |Flatten(all[..c + 1])| == |Flatten(all[..c])| + |enc(name)| + 1
  {
    EncodedStep(s, recs, lens, enc, k);
    EncodedGrows(s, recs, lens, enc, k + 1, |recs|);
    hide Encoded, Flatten, Name, Chain;
    var all, after := Encoded(s, recs, lens, enc, |recs|), Encoded(s, recs, lens, enc, k + 1);
    assert after == all[..|after|];
  }

  /** The second pass: encode every name that is not empty behind the table, and point at it. */
  method Fill(info: array<wchar>, enc: seq<wchar> -> seq<byte>, names: array<byte>, base: nat, length: nat,
              ghost s: seq<wchar>, ghost recs: seq<nat>, ghost lens: seq<nat>)
    requires Chain(s, recs, lens) && info[..] == CutTo(s, recs, lens, |recs|)
    requires length == |Encoded(s, recs, lens, enc, |recs|)|
    requires names.Length == POINTER_SIZE * length + |Flatten(Encoded(s, recs, lens, enc, |recs|))|
    requires info as object != names
    modifies names
    ensures names[..] == Packed(base, Encoded(s, recs, lens, enc, |recs|))
  {
    ghost var all, c, k := Encoded(s, recs, lens, enc, |recs|), 0, 0;
    var offset, i, j, next, more := length * POINTER_SIZE, 0, 0, 0, true;
    NoneFilled(names[..], base, all);
    assert Encoded(s, recs, lens, enc, 0) == all[..0];
    assert Encoded(s, recs, lens, enc, |recs|) == all;
    hide CutTo, Encoded, Flatten, Name, Filled, Packed;
    while more
      invariant k <= |recs| && (more <==> k < |recs|) && (more ==> next == recs[k])
      invariant c <= |all| && Encoded(s, recs, lens, enc, k) == all[..c] && Filled(names[..], base, all, c)
      invariant i == |Flatten(all[..c])| && j == POINTER_SIZE * c
      decreases |recs| - k
    {
      EncodedPrefix(s, recs, lens, enc, k, c);
      hide Chain;
      var name := CutNameOf(info, next, s, recs, lens, |recs|, k);
      if name != [] {
        PutName(names, base, offset, i, j, enc(name), all, c);
        i := i + |enc(name)| + 1;
        j := j + POINTER_SIZE;
        c := c + 1;
      }
      more, next := Advance(info, next, s, recs, lens, |recs|, k);
      k := k + 1;
    }
    FilledIsPacked(names[..], base, all);
  }

  // ---- The whole call ----

  const EIO: int := -5

  /** The buffer is larger than the answer and zero behind it; the chain in it is the same. */
  lemma PaddedChain(s: seq<wchar>, t: seq<wchar>, recs: seq<nat>, lens: seq<nat>)
    requires Chain(s, recs, lens) && s <= t
    ensures Chain(t, recs, lens)
  {
    forall i | 0 <= i < |recs| ensures Record(t, recs, lens, i) {
      assert Record(s, recs, lens, i);
      assert Text(t, recs, lens, i) == Text(s, recs, lens, i);
    }
  }

  lemma {:induction false} PaddedEncoded(s: seq<wchar>, t: seq<wchar>, recs: seq<nat>, lens: seq<nat>, enc: seq<wchar> -> seq<byte>, k: nat)
    requires Chain(s, recs, lens) && Chain(t, recs, lens) && s <= t && k <= |recs|
    ensures Encoded(t, recs, lens, enc, k) == Encoded(s, recs, lens, enc, k)
  {
    if k > 0 {
      assert Record(s, recs, lens, k - 1);
      assert Name(t, recs, lens, k - 1) == Name(s, recs, lens, k - 1);
      PaddedEncoded(s, t, recs, lens, enc, k - 1);
    }
  }

  /** The answer of the kernel: the records of the file's streams, which need `required` bytes, or an
      error. */
  datatype StreamQuery = Streams(streams: seq<Stream>, required: nat) | Broken

  predicate ValidQuery(query: StreamQuery) {
    query.Streams? ==> WellFormed(query.streams) && 2 * |Answer(query.streams)| <= query.required
  }

  /** The two passes over the kernel's answer with zeros behind it. */
  method ListRecords(info: array<wchar>, enc: seq<wchar> -> seq<byte>, base: nat, ghost streams: seq<Stream>)
    returns (names: array<byte>, length: nat)
    requires WellFormed(streams) && Answer(streams) <= info[..]
    modifies info
    ensures names[..] == Packed(base, NamesOf(streams, enc)) && length == |NamesOf(streams, enc)|
  {
    ghost var s, padded, recs, lens := Answer(streams), info[..], Recs(streams), Lens(streams);
    AnswerIsChain(streams);
    EncodedIsNames(streams, enc, |streams|);
    assert streams[..|streams|] == streams;
    hide Answer, WellFormed, Recs, Lens;
    PaddedChain(s, padded, recs, lens);
    PaddedEncoded(s, padded, recs, lens, enc, |recs|);
    hide Chain, Encoded, Flatten, CutTo, Packed, NamesOf;
    var namesLen;
    length, namesLen := CutAndMeasure(info, enc, recs, lens);
    names := new byte[namesLen];
    Fill(info, enc, names, base, length, padded, recs, lens);
  }

  /** `fs_ext__list_attrs` on Windows: the block holds exactly the streams' names that are not empty,
      encoded, in order, and is as large as the first pass said. */
  method ListAttrs(query: StreamQuery, enc: seq<wchar> -> seq<byte>, base: nat)
    returns (res: int, names: array?<byte>, length: nat)
    requires ValidQuery(query)
    ensures res == if query.Streams? then 0 else -5
    ensures res == 0 ==>
      && names != null && names[..] == Packed(base, NamesOf(query.streams, enc))
      && length == |NamesOf(query.streams, enc)|
  {
    if query.Broken? {
      return EIO, null, 0;
    }
    var s := Answer(query.streams);
    hide Answer, WellFormed, Packed, NamesOf;
    var size := QuerySize(query.required);
    var info := new wchar[size / 2](k requires k >= 0 => if k < |s| then s[k] else 0);
    assert info[..|s|] == s;
    names, length := ListRecords(info, enc, base, query.streams);
    return 0, names, length;
  }

  lemma {:induction false} NamesNulFree(streams: seq<Stream>, enc: seq<wchar> -> seq<byte>)
    requires forall w :: NulFree(enc(w))
    ensures AllNulFree(NamesOf(streams, enc))
  {
    if streams != [] { NamesNulFree(streams[1..], enc); }
  }

  /** Listing and reading back gives the encoded names of the streams that have one, in order. */
  method ListAttrsSync(query: StreamQuery, enc: seq<wchar> -> seq<byte>, base: nat)
    returns (res: int, list: seq<seq<byte>>)
    requires forall w :: NulFree(enc(w))
    requires ValidQuery(query)
    requires query.Streams? ==> base + |Packed(base, NamesOf(query.streams, enc))| <= ADDRESSES
    ensures res == if query.Streams? then 0 else -5
    ensures list == if query.Streams? then NamesOf(query.streams, enc) else []
  {
    var names, length;
    res, names, length := ListAttrs(query, enc, base);
    if res < 0 {
      return res, [];
    }
    NamesNulFree(query.streams, enc);
    hide ValidQuery, Packed;
    list := AttrListing.ReadList(names, base, length, NamesOf(query.streams, enc));
  }
}
