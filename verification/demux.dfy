/**
 * The code runner's parser for the Docker Engine API's multiplexed attach
 * stream. Each frame is an 8-byte header (1 stream-type byte, 3 ignored bytes,
 * a 4-byte big-endian payload length) followed by the payload.
 *
 * The parser works on each chunk the stream delivers ON ITS OWN: it starts at
 * offset 0 of every chunk and keeps nothing between chunks, so a frame that is
 * cut by a chunk boundary is lost from the first chunk and the rest of it is
 * read as if it began with a header.
 */
module Demux {

  newtype byte = b: int | 0 <= b < 256

  const HeaderSize: nat := 8
  const StdoutType: byte := 1
  const StderrType: byte := 2
  const Two32: nat := 0x1_0000_0000

  /** The two accumulators the runner fills: everything captured so far. */
  datatype Streams = Streams(stdout: seq<byte>, stderr: seq<byte>)

  const NoOutput := Streams([], [])

  /** `buf.readUInt32BE(at)`. */
  function ReadUInt32BE(chunk: seq<byte>, at: nat): (n: nat)
    requires at + 4 <= |chunk|
    ensures n < Two32
  {
    var a, b, c, d := chunk[at] as int, chunk[at + 1] as int, chunk[at + 2] as int, chunk[at + 3] as int;
    assert a * 0x100_0000 <= 255 * 0x100_0000;
    ((a * 256 + b) * 256 + c) * 256 + d
  }

  /** Where a payload of the given stream type goes: type 1 to stdout, type 2 to stderr, others nowhere. */
  function Deliver(acc: Streams, streamType: byte, payload: seq<byte>): Streams {
    if streamType == StdoutType then acc.(stdout := acc.stdout + payload)
    else if streamType == StderrType then acc.(stderr := acc.stderr + payload)
    else acc
  }

  /**
   * The parsing loop of one chunk, from `offset`: a header is read only when 8
   * bytes remain, a payload only when its declared length remains after the
   * header; otherwise the rest of the chunk is dropped.
   */
  function DemuxFrom(chunk: seq<byte>, offset: nat, acc: Streams): (r: Streams)
    requires offset <= |chunk|
    ensures acc.stdout <= r.stdout && acc.stderr <= r.stderr
    decreases |chunk| - offset
  {
    if offset + HeaderSize > |chunk| then acc
    else
      var size := ReadUInt32BE(chunk, offset + 4);
      var start := offset + HeaderSize;
      if start + size > |chunk| then acc
      else DemuxFrom(chunk, start + size, Deliver(acc, chunk[offset], chunk[start..start + size]))
  }

  /** The `'data'` handler: the accumulators after one chunk. */
  function DemuxChunk(chunk: seq<byte>, acc: Streams): Streams {
    DemuxFrom(chunk, 0, acc)
  }

  /** Every chunk of the stream, each parsed on its own, from empty accumulators. */
  function DemuxStream(chunks: seq<seq<byte>>): (r: Streams)
    decreases |chunks|
  {
    if |chunks| == 0 then NoOutput
    else DemuxChunk(chunks[|chunks| - 1], DemuxStream(chunks[..|chunks| - 1]))
  }

  /**
   * The handler as the runner writes it: a cursor loop over the chunk that
   * extends the two accumulators in place.
   */
  method ParseChunk(chunk: seq<byte>, acc: Streams) returns (r: Streams)
    ensures r == DemuxChunk(chunk, acc)
    ensures acc.stdout <= r.stdout && acc.stderr <= r.stderr
  {
    var offset: nat := 0;
    var stdout, stderr := acc.stdout, acc.stderr;
    while offset < |chunk|
      invariant offset <= |chunk|
      invariant DemuxFrom(chunk, offset, Streams(stdout, stderr)) == DemuxFrom(chunk, 0, acc)
      decreases |chunk| - offset
    {
      if offset + HeaderSize > |chunk| {
        break;
      }
      var streamType := chunk[offset];
      var size := ReadUInt32BE(chunk, offset + 4);
      var start := offset + HeaderSize;
      if start + size > |chunk| {
        break;
      }
      var payload := chunk[start..start + size];
      if streamType == StdoutType {
        stdout := stdout + payload;
      } else if streamType == StderrType {
        stderr := stderr + payload;
      }
      offset := start + size;
    }
    r := Streams(stdout, stderr);
  }

  // ---------------------------------------------------------------------------
  // Frames as the engine writes them

  datatype Frame = Frame(streamType: byte, payload: seq<byte>)

  /** A payload length that fits the 4-byte header field. */
  predicate WellFormed(f: Frame) {
    |f.payload| < Two32
  }

  predicate AllWellFormed(fs: seq<Frame>) {
    forall i :: 0 <= i < |fs| ==> WellFormed(fs[i])
  }

  /** Four big-endian bytes of `n`. */
  function UInt32BE(n: nat): (bs: seq<byte>)
    requires n < Two32
    ensures |bs| == 4
  {
    [(n / 0x100_0000) as byte, ((n / 0x1_0000) % 256) as byte, ((n / 256) % 256) as byte, (n % 256) as byte]
  }

  lemma UInt32BERoundTrip(n: nat)
    requires n < Two32
    ensures ReadUInt32BE(UInt32BE(n), 0) == n
  {
    var bs := UInt32BE(n);
    assert n / 0x1_0000 == (n / 0x100_0000) * 256 + (n / 0x1_0000) % 256;
    assert n / 256 == (n / 0x1_0000) * 256 + (n / 256) % 256;
    assert n == (n / 256) * 256 + n % 256;
  }

  function EncodeFrame(f: Frame): (bs: seq<byte>)
    requires WellFormed(f)
    ensures |bs| == HeaderSize + |f.payload|
  {
    [f.streamType, 0, 0, 0] + UInt32BE(|f.payload|) + f.payload
  }

  function EncodeFrames(fs: seq<Frame>): seq<byte>
    requires AllWellFormed(fs)
    decreases |fs|
  {
    if |fs| == 0 then [] else EncodeFrame(fs[0]) + EncodeFrames(fs[1..])
  }

  /** The payloads of the frames of one stream type, concatenated in order. */
  function PayloadsOf(fs: seq<Frame>, streamType: byte): seq<byte>
    decreases |fs|
  {
    if |fs| == 0 then []
    else (if fs[0].streamType == streamType then fs[0].payload else []) + PayloadsOf(fs[1..], streamType)
  }

  /** The length field reads the same with a prefix in front. */
  lemma ReadUInt32BEAfterPrefix(prefix: seq<byte>, rest: seq<byte>, at: nat)
    requires at + 4 <= |rest|
    ensures ReadUInt32BE(prefix + rest, |prefix| + at) == ReadUInt32BE(rest, at)
  {
    var whole := prefix + rest;
    assert whole[|prefix| + at] == rest[at];
    assert whole[|prefix| + at + 1] == rest[at + 1];
    assert whole[|prefix| + at + 2] == rest[at + 2];
    assert whole[|prefix| + at + 3] == rest[at + 3];
  }

  /** A slice of the rest is the shifted slice of the whole. */
  lemma SliceAfterPrefix(prefix: seq<byte>, rest: seq<byte>, i: nat, j: nat)
    requires i <= j <= |rest|
    ensures (prefix + rest)[|prefix| + i..|prefix| + j] == rest[i..j]
  {
    assert (prefix + rest)[|prefix|..] == rest;
  }

  /** The size of the frame at `offset` of `rest`, when a whole header remains. */
  function FrameSize(rest: seq<byte>, offset: nat): nat
    requires offset + HeaderSize <= |rest|
  {
    ReadUInt32BE(rest, offset + 4)
  }

  /** One step of the parse: a whole frame at `offset` is delivered and parsing moves past it. */
  lemma DemuxStep(chunk: seq<byte>, offset: nat, size: nat, streamType: byte, payload: seq<byte>, acc: Streams)
    requires offset + HeaderSize <= |chunk| && size == FrameSize(chunk, offset)
    requires offset + HeaderSize + size <= |chunk|
    requires streamType == chunk[offset] && payload == chunk[offset + HeaderSize..offset + HeaderSize + size]
    ensures DemuxFrom(chunk, offset, acc) == DemuxFrom(chunk, offset + HeaderSize + size, Deliver(acc, streamType, payload))
  {
  }

  /** With a prefix in front, a whole frame of the rest is consumed as one step of the whole. */
  lemma FrameStepAfterPrefix(prefix: seq<byte>, rest: seq<byte>, offset: nat, acc: Streams)
    requires offset + HeaderSize <= |rest|
    requires offset + HeaderSize + FrameSize(rest, offset) <= |rest|
    ensures var next := offset + HeaderSize + FrameSize(rest, offset);
      DemuxFrom(prefix + rest, |prefix| + offset, acc)
      == DemuxFrom(prefix + rest, |prefix| + next, Deliver(acc, rest[offset], rest[offset + HeaderSize..next]))
  {
    var whole := prefix + rest;
    var at := |prefix| + offset;
    var size := FrameSize(rest, offset);
    var payload := rest[offset + HeaderSize..offset + HeaderSize + size];
    ReadUInt32BEAfterPrefix(prefix, rest, offset + 4);
    SliceAfterPrefix(prefix, rest, offset + HeaderSize, offset + HeaderSize + size);
    assert whole[at] == rest[offset];
    DemuxStep(whole, at, size, rest[offset], payload, acc);
  }

  /** With a prefix in front, the parse stops where it stops on the rest alone. */
  lemma StopAfterPrefix(prefix: seq<byte>, rest: seq<byte>, offset: nat, acc: Streams)
    requires offset <= |rest|
    requires offset + HeaderSize > |rest| || offset + HeaderSize + FrameSize(rest, offset) > |rest|
    ensures DemuxFrom(prefix + rest, |prefix| + offset, acc) == acc
  {
    if offset + HeaderSize <= |rest| {
      ReadUInt32BEAfterPrefix(prefix, rest, offset + 4);
    }
  }

  /** Parsing past a prefix is parsing the rest on its own. */
  lemma {:induction false} DemuxAfterPrefix(prefix: seq<byte>, rest: seq<byte>, offset: nat, acc: Streams)
    requires offset <= |rest|
    ensures DemuxFrom(prefix + rest, |prefix| + offset, acc) == DemuxFrom(rest, offset, acc)
    decreases |rest| - offset
  {
    if offset + HeaderSize <= |rest| && offset + HeaderSize + FrameSize(rest, offset) <= |rest| {
      var next := offset + HeaderSize + FrameSize(rest, offset);
      var acc' := Deliver(acc, rest[offset], rest[offset + HeaderSize..next]);
      FrameStepAfterPrefix(prefix, rest, offset, acc);
      DemuxAfterPrefix(prefix, rest, next, acc');
    } else {
      StopAfterPrefix(prefix, rest, offset, acc);
    }
  }

  /** A well-formed frame at the head of a chunk is delivered whole, then parsing resumes after it. */
  lemma DemuxFrameThen(f: Frame, rest: seq<byte>, acc: Streams)
    requires WellFormed(f)
    ensures DemuxChunk(EncodeFrame(f) + rest, acc) == DemuxChunk(rest, Deliver(acc, f.streamType, f.payload))
  {
    var e := EncodeFrame(f);
    var whole := e + rest;
    var n := |f.payload|;
    UInt32BERoundTrip(n);
    assert whole[4..8] == UInt32BE(n);
    assert ReadUInt32BE(whole, 4) == ReadUInt32BE(UInt32BE(n), 0);
    assert whole[HeaderSize..HeaderSize + n] == f.payload;
    DemuxAfterPrefix(e, rest, 0, Deliver(acc, f.streamType, f.payload));
  }

  lemma EncodeFramesCons(fs: seq<Frame>, tail: seq<byte>)
    requires AllWellFormed(fs) && |fs| > 0
    ensures EncodeFrames(fs) + tail == EncodeFrame(fs[0]) + (EncodeFrames(fs[1..]) + tail)
  {
  }

  /** On one stream: the first frame's share, then the others' payloads, is the payloads of all. */
  lemma PayloadsCons(before: seq<byte>, fs: seq<Frame>, streamType: byte)
    requires |fs| > 0
    ensures (if fs[0].streamType == streamType then before + fs[0].payload else before) + PayloadsOf(fs[1..], streamType)
         == before + PayloadsOf(fs, streamType)
  {
    var rest := PayloadsOf(fs[1..], streamType);
    if fs[0].streamType == streamType {
      assert PayloadsOf(fs, streamType) == fs[0].payload + rest;
      assert before + fs[0].payload + rest == before + (fs[0].payload + rest);
    } else {
      assert PayloadsOf(fs, streamType) == [] + rest;
      assert [] + rest == rest;
    }
  }

  /** Delivering the first frame, then the payloads of the others, is delivering the payloads of all. */
  lemma DeliverPayloads(acc: Streams, fs: seq<Frame>)
    requires |fs| > 0
    ensures var acc' := Deliver(acc, fs[0].streamType, fs[0].payload);
      && acc'.stdout + PayloadsOf(fs[1..], StdoutType) == acc.stdout + PayloadsOf(fs, StdoutType)
      && acc'.stderr + PayloadsOf(fs[1..], StderrType) == acc.stderr + PayloadsOf(fs, StderrType)
  {
    PayloadsCons(acc.stdout, fs, StdoutType);
    PayloadsCons(acc.stderr, fs, StderrType);
  }

  /** Whole frames followed by anything: the frames are delivered in order, then the tail is parsed. */
  lemma {:induction false} DemuxFramesThen(fs: seq<Frame>, tail: seq<byte>, acc: Streams)
    requires AllWellFormed(fs)
    ensures DemuxChunk(EncodeFrames(fs) + tail, acc)
         == DemuxChunk(tail, Streams(acc.stdout + PayloadsOf(fs, StdoutType), acc.stderr + PayloadsOf(fs, StderrType)))
    decreases |fs|
  {
    if |fs| == 0 {
      assert EncodeFrames(fs) + tail == tail;
      assert acc == Streams(acc.stdout + PayloadsOf(fs, StdoutType), acc.stderr + PayloadsOf(fs, StderrType));
    } else {
      var f := fs[0];
      EncodeFramesCons(fs, tail);
      DemuxFrameThen(f, EncodeFrames(fs[1..]) + tail, acc);
      var acc' := Deliver(acc, f.streamType, f.payload);
      DemuxFramesThen(fs[1..], tail, acc');
      DeliverPayloads(acc, fs);
    }
  }

  /**
   * A chunk of well-formed frames back to back yields, on top of what was
   * captured before, exactly the type-1 payloads on stdout and the type-2
   * payloads on stderr, each in frame order.
   */
  lemma DemuxWholeFrames(fs: seq<Frame>, acc: Streams)
    requires AllWellFormed(fs)
    ensures DemuxChunk(EncodeFrames(fs), acc)
         == Streams(acc.stdout + PayloadsOf(fs, StdoutType), acc.stderr + PayloadsOf(fs, StderrType))
  {
    DemuxFramesThen(fs, [], acc);
    assert EncodeFrames(fs) + [] == EncodeFrames(fs);
  }

  /** Any strict prefix of one encoded frame yields nothing: the partial frame is dropped. */
  lemma PartialFrameDropped(f: Frame, k: nat, acc: Streams)
    requires WellFormed(f) && k < |EncodeFrame(f)|
    ensures DemuxChunk(EncodeFrame(f)[..k], acc) == acc
  {
    var part := EncodeFrame(f)[..k];
    if k >= HeaderSize {
      UInt32BERoundTrip(|f.payload|);
      assert part[4..8] == UInt32BE(|f.payload|);
      assert ReadUInt32BE(part, 4) == |f.payload|;
    }
  }

  /**
   * A chunk that ends inside a frame contributes its complete frames only:
   * the trailing partial frame is neither delivered nor kept for the next chunk.
   */
  lemma TruncatedChunk(fs: seq<Frame>, f: Frame, k: nat, acc: Streams)
    requires AllWellFormed(fs) && WellFormed(f) && k < |EncodeFrame(f)|
    ensures DemuxChunk(EncodeFrames(fs) + EncodeFrame(f)[..k], acc)
         == Streams(acc.stdout + PayloadsOf(fs, StdoutType), acc.stderr + PayloadsOf(fs, StderrType))
  {
    DemuxFramesThen(fs, EncodeFrame(f)[..k], acc);
    PartialFrameDropped(f, k, Streams(acc.stdout + PayloadsOf(fs, StdoutType), acc.stderr + PayloadsOf(fs, StderrType)));
  }

  /** Chunks that each hold whole frames lose nothing: the stream is the frames' payloads in order. */
  lemma {:induction false} AlignedChunks(groups: seq<seq<Frame>>, chunks: seq<seq<byte>>)
    requires |groups| == |chunks|
    requires forall i :: 0 <= i < |groups| ==> AllWellFormed(groups[i]) && chunks[i] == EncodeFrames(groups[i])
    ensures DemuxStream(chunks) == Streams(Flatten(groups, StdoutType), Flatten(groups, StderrType))
    decreases |chunks|
  {
    if |chunks| > 0 {
      var n := |chunks| - 1;
      AlignedChunks(groups[..n], chunks[..n]);
      DemuxWholeFrames(groups[n], DemuxStream(chunks[..n]));
    }
  }

  /** The payloads of one stream type across chunk-sized groups of frames. */
  function Flatten(groups: seq<seq<Frame>>, streamType: byte): seq<byte>
    decreases |groups|
  {
    if |groups| == 0 then []
    else Flatten(groups[..|groups| - 1], streamType) + PayloadsOf(groups[|groups| - 1], streamType)
  }

  // ---------------------------------------------------------------------------
  // A frame cut by a chunk boundary

  const Hello: Frame := Frame(StdoutType, [104, 101, 108, 108, 111])
  const Bye: Frame := Frame(StderrType, [98, 121, 101])

  /**
   * The stdout frame "hello" followed by the stderr frame "bye": in one chunk
   * both arrive; cut after the third byte, neither does, because the first
   * chunk holds no whole frame and the second is parsed from a non-header byte
   * whose length field reads far past its end.
   */
  lemma StraddledFrameLost()
    ensures DemuxStream([EncodeFrame(Hello) + EncodeFrame(Bye)]) == Streams(Hello.payload, Bye.payload)
    ensures DemuxStream([EncodeFrame(Hello)[..3], EncodeFrame(Hello)[3..] + EncodeFrame(Bye)]) == NoOutput
  {
    HelloByeInOneChunk();
    HelloByeCut();
  }

  lemma HelloByeInOneChunk()
    ensures DemuxStream([EncodeFrame(Hello) + EncodeFrame(Bye)]) == Streams(Hello.payload, Bye.payload)
  {
    var whole := [Hello, Bye];
    assert EncodeFrames(whole) == EncodeFrame(Hello) + EncodeFrame(Bye) by {
      assert whole[1..] == [Bye];
      assert EncodeFrames([Bye]) == EncodeFrame(Bye) + EncodeFrames([]);
    }
    DemuxWholeFrames(whole, NoOutput);
    assert whole[1..] == [Bye];
    assert [Bye][1..] == [];
    assert PayloadsOf([Bye], StdoutType) == [];
    assert PayloadsOf(whole, StdoutType) == Hello.payload;
    assert PayloadsOf([Bye], StderrType) == Bye.payload;
    assert PayloadsOf(whole, StderrType) == Bye.payload;
    assert [EncodeFrame(Hello) + EncodeFrame(Bye)][..0] == [];
  }

  lemma HelloByeCut()
    ensures DemuxStream([EncodeFrame(Hello)[..3], EncodeFrame(Hello)[3..] + EncodeFrame(Bye)]) == NoOutput
  {
    var c1 := EncodeFrame(Hello)[..3];
    var c2 := EncodeFrame(Hello)[3..] + EncodeFrame(Bye);
    var chunks := [c1, c2];
    assert chunks[..1] == [c1];
    assert [c1][..0] == [];
    PartialFrameDropped(Hello, 3, NoOutput);
    assert DemuxStream([c1]) == NoOutput;
    SecondHalfReadsPastEnd();
  }

  /** The second chunk starts inside the "hello" header: its length field covers payload bytes. */
  lemma SecondHalfReadsPastEnd()
    ensures DemuxChunk(EncodeFrame(Hello)[3..] + EncodeFrame(Bye), NoOutput) == NoOutput
  {
    var c2 := EncodeFrame(Hello)[3..] + EncodeFrame(Bye);
    assert UInt32BE(5) == [0, 0, 0, 5];
    assert EncodeFrame(Hello) == [1, 0, 0, 0, 0, 0, 0, 5, 104, 101, 108, 108, 111];
    assert c2[4..8] == [5, 104, 101, 108];
    assert ReadUInt32BE(c2, 4) > |c2|;
  }

}
