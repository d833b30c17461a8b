/** What the kernel answers when asked for the streams of a file (`FILE_STREAM_INFORMATION`): a chain of
records, in 16-bit units. */
module StreamLayout {
  import opened Basics

  type wchar = n: int | 0 <= n < 0x1_0000

  /** One stream: its name without colon and type, ten units of sizes between the link and the name, and
      what follows the name's terminator up to the next record. */
  datatype Stream = Stream(name: seq<wchar>, sizes: seq<wchar>, padding: seq<wchar>)

  predicate WellFormed(streams: seq<Stream>) {
    streams != [] && forall i :: 0 <= i < |streams| ==> ValidStream(streams[i])
  }

  predicate ValidStream(s: Stream) {
    0 !in s.name && |s.sizes| == 10 && 2 * Size(s) < 0x1_0000_0000
  }

  /** In units: two for the link, ten for the sizes, a colon, the name, six for `:$DATA`, the terminator. */
  function Size(s: Stream): nat {
    2 + |s.sizes| + 1 + |s.name| + 6 + 1 + |s.padding|
  }

  /** The distance in bytes to the next record, or zero in the last one. */
  function Link(s: Stream, last: bool): nat {
    if last then 0 else 2 * Size(s)
  }

  /** The record of a stream: link, sizes, colon, name, `:$DATA`, terminator. */
  function RecordOf(s: Stream, last: bool): (r: seq<wchar>)
    requires ValidStream(s)
    ensures |r| == Size(s)
  {
    var next := Link(s, last);
    ([next % 0x1_0000, next / 0x1_0000] + s.sizes + [58]) + s.name + [58, 36, 68, 65, 84, 65] + ([0] + s.padding)
  }

  function Answer(streams: seq<Stream>): seq<wchar>
    requires forall i :: 0 <= i < |streams| ==> ValidStream(streams[i])
  {
    if streams == [] then [] else RecordOf(streams[0], |streams| == 1) + Answer(streams[1..])
  }

  /** The names that are not empty, encoded, in order. */
  function NamesOf(streams: seq<Stream>, enc: seq<wchar> -> seq<byte>): seq<seq<byte>> {
    if streams == [] then []
    else (if streams[0].name == [] then [] else [enc(streams[0].name)]) + NamesOf(streams[1..], enc)
  }

  /** Where the record `i` starts. */
  function StartOf(streams: seq<Stream>, i: nat): nat
    requires i <= |streams|
    decreases i
  {
    if i == 0 then 0 else Size(streams[0]) + StartOf(streams[1..], i - 1)
  }

  lemma {:induction false} StartOfNext(streams: seq<Stream>, i: nat)
    requires i < |streams|
    ensures StartOf(streams, i + 1) == StartOf(streams, i) + Size(streams[i])
    decreases i
  {
    if i > 0 { StartOfNext(streams[1..], i - 1); }
  }

  lemma {:induction false} AnswerSize(streams: seq<Stream>)
    requires forall i :: 0 <= i < |streams| ==> ValidStream(streams[i])
    ensures |Answer(streams)| == StartOf(streams, |streams|)
  {
    if streams != [] { AnswerSize(streams[1..]); }
  }

  lemma Behind(front: seq<wchar>, back: seq<wchar>, lo: nat, hi: nat)
    requires lo <= hi <= |back|
    ensures (front + back)[|front| + lo..|front| + hi] == back[lo..hi]
  {
    assert (front + back)[|front|..] == back;
  }

  /** Each record is where it should be. */
  lemma {:induction false} RecordInAnswer(streams: seq<Stream>, i: nat)
    requires forall k :: 0 <= k < |streams| ==> ValidStream(streams[k])
    requires i < |streams|
    ensures ValidStream(streams[i]) && StartOf(streams, i) + Size(streams[i]) <= |Answer(streams)|
    ensures Answer(streams)[StartOf(streams, i)..StartOf(streams, i) + Size(streams[i])]
      == RecordOf(streams[i], i == |streams| - 1)
    decreases i
  {
    hide RecordOf, Size;
    var rest := Answer(streams[1..]);
    if i > 0 {
      RecordInAnswer(streams[1..], i - 1);
      var at := StartOf(streams[1..], i - 1);
      Behind(RecordOf(streams[0], |streams| == 1), rest, at, at + Size(streams[i]));
    }
  }

  lemma {:induction false} NamesAppend(a: seq<Stream>, s: Stream, enc: seq<wchar> -> seq<byte>)
    ensures NamesOf(a + [s], enc) == NamesOf(a, enc) + if s.name == [] then [] else [enc(s.name)]
  {
    if a == [] {
      assert a + [s] == [s] && [s][1..] == [];
    } else {
      NamesAppend(a[1..], s, enc);
      assert (a + [s])[1..] == a[1..] + [s];
      var first := if a[0].name == [] then [] else [enc(a[0].name)];
      assert NamesOf(a, enc) == first + NamesOf(a[1..], enc) && NamesOf(a + [s], enc) == first + NamesOf(a[1..] + [s], enc);
    }
  }
}
