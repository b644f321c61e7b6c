/** Answering one CONNECT: the metric data, cut into frames and written to the broker
    (internal/reverse/connection/metrics.go). */
module Responses {
  import opened Common
  import opened Frames

  /** "{}", sent when there is no data at all. */
  const EMPTY_METRICS: seq<byte> := [0x7b, 0x7d]

  function ResponseData(metrics: Option<seq<byte>>): seq<byte> {
    match metrics
    case None => EMPTY_METRICS
    case Some(data) => data
  }

  function FrameAt(channelID: uint16, data: seq<byte>, offset: nat): Frame
    requires offset < |data|
  {
    Frame(channelID, false, data[offset..offset + Min(|data| - offset, MAX_PAYLOAD_LEN)])
  }

  /** The frames of a loop that, after each frame, advances by its payload plus an overhead. */
  function FramesFrom(channelID: uint16, data: seq<byte>, offset: nat, overhead: nat): seq<Frame>
    decreases |data| - offset
  {
    if offset >= |data| then []
    else
      var f := FrameAt(channelID, data, offset);
      [f] + FramesFrom(channelID, data, offset + |f.payload| + overhead, overhead)
  }

  /** The code advances by what Write reports: the whole frame, header included. */
  function ResponseFrames(channelID: uint16, data: seq<byte>): seq<Frame> {
    FramesFrom(channelID, data, 0, HEADER_LEN)
  }

  /** Advancing by the payload only. */
  function IntendedFrames(channelID: uint16, data: seq<byte>): seq<Frame> {
    FramesFrom(channelID, data, 0, 0)
  }

  function Reassemble(fs: seq<Frame>): seq<byte> {
    if fs == [] then [] else fs[0].payload + Reassemble(fs[1..])
  }

  // ---------------------------------------------------------------- writing

  /** How a connection takes writes: so many whole ones, then one that fails after `cut` bytes. */
  datatype Link = Link(okWrites: nat, cut: nat)

  datatype Sent = Sent(ok: bool, bytes: seq<byte>, link: Link)

  /** Write the frames one by one; stop at the first failure. */
  function WriteFrames(link: Link, fs: seq<Frame>): Sent
    decreases |fs|
  {
    if fs == [] then Sent(true, [], link)
    else if link.okWrites == 0 then
      var b := Encode(fs[0]);
      Sent(false, b[..Min(link.cut, |b|)], link)
    else
      var more := WriteFrames(link.(okWrites := link.okWrites - 1), fs[1..]);
      more.(bytes := Encode(fs[0]) + more.bytes)
  }

  /** The sending half of a connection. */
  datatype Output = Output(written: seq<byte>, link: Link)

  function Write(o: Output, frame: seq<byte>): (bool, Output) {
    if o.link.okWrites > 0 then
      (true, Output(o.written + frame, o.link.(okWrites := o.link.okWrites - 1)))
    else
      (false, o.(written := o.written + frame[..Min(o.link.cut, |frame|)]))
  }

  /** What the sending loop does from an offset on. */
  function SendRest(o: Output, channelID: uint16, data: seq<byte>, offset: nat): (bool, Output)
    decreases |data| - offset
  {
    if offset >= |data| then (true, o)
    else
      var frame := Encode(FrameAt(channelID, data, offset));
      var (ok, o') := Write(o, frame);
      if ok then SendRest(o', channelID, data, offset + |frame|) else (false, o')
  }

  class Outbound {
    var out: Output

    constructor (link: Link)
      ensures out == Output([], link)
    {
      out := Output([], link);
    }

    /** sendMetricData */
    method SendMetricData(channelID: uint16, metrics: Option<seq<byte>>) returns (ok: bool)
      modifies this
      ensures var s := WriteFrames(old(out).link, ResponseFrames(channelID, ResponseData(metrics)));
              ok == s.ok && out == Output(old(out).written + s.bytes, s.link)
    {
      var data := ResponseData(metrics);
      ghost var before := out;
      hide Write, SendRest, Encode, FramesFrom, WriteFrames;
      var offset := 0;
      ok := true;
      while offset < |data|
        invariant ok && SendRest(out, channelID, data, offset) == SendRest(before, channelID, data, 0)
        decreases |data| - offset
      {
        SendRestStep(out, channelID, data, offset);
        var buff := data[offset..offset + Min(|data| - offset, MAX_PAYLOAD_LEN)];
        var frame := BuildFrame(channelID, false, buff);
        ok, out := Write(out, frame[..]).0, Write(out, frame[..]).1;
        if !ok {
          SendRestWritesFrames(before, channelID, data, 0);
          return;
        }
        offset := offset + frame.Length;
      }
      SendRestWritesFrames(before, channelID, data, 0);
      SendRestDone(out, channelID, data, offset);
    }
  }

  lemma {:induction false} SendRestStep(o: Output, channelID: uint16, data: seq<byte>, offset: nat)
    requires offset < |data|
    ensures var frame := Encode(Frame(channelID, false, data[offset..offset + Min(|data| - offset, MAX_PAYLOAD_LEN)]));
            var (ok, o') := Write(o, frame);
            && |frame| > 0
            && SendRest(o, channelID, data, offset)
               == if ok then SendRest(o', channelID, data, offset + |frame|) else (false, o')
  {
    hide Write;
  }

  lemma {:induction false} SendRestDone(o: Output, channelID: uint16, data: seq<byte>, offset: nat)
    ensures offset >= |data| ==> SendRest(o, channelID, data, offset) == (true, o)
  {
  }

  lemma {:induction false} SendRestWritesFrames(o: Output, channelID: uint16, data: seq<byte>, offset: nat)
    ensures var s := WriteFrames(o.link, FramesFrom(channelID, data, offset, HEADER_LEN));
            SendRest(o, channelID, data, offset) == (s.ok, Output(o.written + s.bytes, s.link))
    decreases |data| - offset
  {
    if offset < |data| {
      var f := FrameAt(channelID, data, offset);
      var next := FramesFrom(channelID, data, offset + |Encode(f)|, HEADER_LEN);
      WriteFramesCons(o.link, f, next);
      var (ok, o') := Write(o, Encode(f));
      if ok {
        SendRestWritesFrames(o', channelID, data, offset + |Encode(f)|);
        assert o'.written + WriteFrames(o'.link, next).bytes
            == o.written + (Encode(f) + WriteFrames(o'.link, next).bytes);
      }
    } else {
      assert o.written + [] == o.written;
    }
  }

  lemma {:induction false} WriteFramesCons(link: Link, f: Frame, fs: seq<Frame>)
    ensures link.okWrites == 0 ==>
              WriteFrames(link, [f] + fs) == Sent(false, Encode(f)[..Min(link.cut, |Encode(f)|)], link)
    ensures link.okWrites > 0 ==>
              var more := WriteFrames(link.(okWrites := link.okWrites - 1), fs);
              WriteFrames(link, [f] + fs) == more.(bytes := Encode(f) + more.bytes)
  {
    assert ([f] + fs)[1..] == fs;
  }

  /** A whole response is on the wire, or its first bytes are; and which of the two only depends
      on how many writes the connection still takes. */
  lemma {:induction false} WritesAPrefix(link: Link, fs: seq<Frame>)
    ensures var s := WriteFrames(link, fs);
            && s.ok == (link.okWrites >= |fs|)
            && (s.ok ==> s.bytes == EncodeAll(fs))
            && s.bytes <= EncodeAll(fs)
    decreases |fs|
  {
    if fs != [] && link.okWrites > 0 {
      WritesAPrefix(link.(okWrites := link.okWrites - 1), fs[1..]);
    }
  }

  /** What a failed response leaves on the wire: the frames before the write that failed, and what
      the link took of that one. */
  lemma {:induction false} FailedWriteLeaves(link: Link, fs: seq<Frame>)
    requires link.okWrites < |fs|
    ensures var b := Encode(fs[link.okWrites]);
            WriteFrames(link, fs).bytes == EncodeAll(fs[..link.okWrites]) + b[..Min(link.cut, |b|)]
    decreases |fs|
  {
    hide Encode;
    if link.okWrites > 0 {
      FailedWriteLeaves(link.(okWrites := link.okWrites - 1), fs[1..]);
      assert fs[..link.okWrites][0] == fs[0] && fs[..link.okWrites][1..] == fs[1..][..link.okWrites - 1];
    } else {
      assert fs[..0] == [];
    }
  }

  /** What is sent is the data there is, byte for byte; without any, "{}". */
  lemma {:induction false} DataOrAnEmptyObject(data: Option<seq<byte>>)
    ensures data.Some? ==> ResponseData(data) == data.value
    ensures data.None? ==> |ResponseData(data)| == 2 && forall i :: 0 <= i < 2 ==> ResponseData(data)[i] == "{}"[i] as int
  {
  }

  // ---------------------------------------------------------------- what arrives

  /** Every frame of a response is a non-command frame of the asking channel with 1 to
      65529 bytes of payload. */
  lemma {:induction false} FramesAreWellFormed(channelID: uint16, data: seq<byte>, offset: nat, overhead: nat)
    ensures forall f <- FramesFrom(channelID, data, offset, overhead) ::
              f.channelID == channelID && !f.isCommand && 1 <= |f.payload| <= MAX_PAYLOAD_LEN
    decreases |data| - offset
  {
    if offset < |data| {
      var f := FrameAt(channelID, data, offset);
      FramesAreWellFormed(channelID, data, offset + |f.payload| + overhead, overhead);
    }
  }

  /** Closed form of the loop: frame i carries the bytes from 65535*i on, 65529 at most. */
  lemma {:induction false} FramesClosedForm(channelID: uint16, data: seq<byte>, offset: nat, i: nat)
    ensures var fs := FramesFrom(channelID, data, offset, HEADER_LEN);
            && (i < |fs| <==> offset + 65535 * i < |data|)
            && (i < |fs| ==> fs[i] == FrameAt(channelID, data, offset + 65535 * i))
    decreases |data| - offset
  {
    if offset < |data| && i > 0 {
      var f := FrameAt(channelID, data, offset);
      FramesClosedForm(channelID, data, offset + |f.payload| + HEADER_LEN, i - 1);
    }
  }

  lemma {:induction false} IntendedRest(channelID: uint16, data: seq<byte>, offset: nat)
    requires offset <= |data|
    ensures Reassemble(FramesFrom(channelID, data, offset, 0)) == data[offset..]
    decreases |data| - offset
  {
    if offset < |data| {
      var f := FrameAt(channelID, data, offset);
      IntendedRest(channelID, data, offset + |f.payload|);
      assert data[offset..] == f.payload + data[offset + |f.payload|..];
    }
  }

  /** Advancing by the payload loses nothing, whatever the size. */
  lemma {:induction false} IntendedFramesLossless(channelID: uint16, data: seq<byte>)
    ensures Reassemble(IntendedFrames(channelID, data)) == data
  {
    IntendedRest(channelID, data, 0);
  }

  /** How many of n bytes survive: all but 6 out of each full stretch of 65535. */
  function Surviving(n: nat): nat {
    n / 65535 * MAX_PAYLOAD_LEN + Min(n % 65535, MAX_PAYLOAD_LEN)
  }

  /** r holds, of the data from offset on, all bytes but the 6 behind each stretch of 65529:
      its byte j is data byte j/65529*65535 + j%65529 from there. */
  ghost predicate Survives(r: seq<byte>, data: seq<byte>, offset: nat) {
    && offset <= |data|
    && |r| == Surviving(|data| - offset)
    && forall j :: 0 <= j < |r| ==> SurvivesAt(r, data, offset, j)
  }

  ghost predicate SurvivesAt(r: seq<byte>, data: seq<byte>, offset: nat, j: nat)
    requires j < |r|
  {
    var from := offset + j / MAX_PAYLOAD_LEN * 65535 + j % MAX_PAYLOAD_LEN;
    from < |data| && r[j] == data[from]
  }

  lemma {:induction false} SurvivesCons(r: seq<byte>, data: seq<byte>, offset: nat)
    requires Survives(r, data, offset + 65535)
    ensures Survives(data[offset..offset + MAX_PAYLOAD_LEN] + r, data, offset)
  {
    var whole := data[offset..offset + MAX_PAYLOAD_LEN] + r;
    forall j | 0 <= j < |whole|
      ensures SurvivesAt(whole, data, offset, j)
    {
      if j >= MAX_PAYLOAD_LEN {
        var i := j - MAX_PAYLOAD_LEN;
        assert SurvivesAt(r, data, offset + 65535, i);
        assert i / MAX_PAYLOAD_LEN == j / MAX_PAYLOAD_LEN - 1;
      }
    }
  }

  /** Exactly which bytes arrive. */
  lemma {:induction false} SurvivingBytes(channelID: uint16, data: seq<byte>, offset: nat)
    requires offset <= |data|
    ensures Survives(Reassemble(FramesFrom(channelID, data, offset, HEADER_LEN)), data, offset)
    decreases |data| - offset
  {
    if offset < |data| {
      var f := FrameAt(channelID, data, offset);
      var next := FramesFrom(channelID, data, offset + |f.payload| + HEADER_LEN, HEADER_LEN);
      assert FramesFrom(channelID, data, offset, HEADER_LEN)[1..] == next;
      if |data| - offset >= 65535 {
        SurvivingBytes(channelID, data, offset + 65535);
        SurvivesCons(Reassemble(next), data, offset);
      } else {
        assert next == [];
        assert f.payload + [] == f.payload;
      }
    }
  }

  /** The response is lossless exactly when it fits one frame. */
  lemma {:induction false} LosslessIff(channelID: uint16, data: seq<byte>)
    ensures Reassemble(ResponseFrames(channelID, data)) == data <==> |data| <= MAX_PAYLOAD_LEN
  {
    if |data| > MAX_PAYLOAD_LEN {
      assert |Reassemble(ResponseFrames(channelID, data))| == Surviving(|data|) by {
        SurvivingBytes(channelID, data, 0);
      }
      SomeAreLost(|data|);
    } else if data != [] {
      OneFrame(channelID, data);
      assert data + Reassemble([]) == data;
    }
  }

  lemma {:induction false} SomeAreLost(n: nat)
    requires n > MAX_PAYLOAD_LEN
    ensures Surviving(n) < n
  {
  }

  lemma {:induction false} OneFrame(channelID: uint16, data: seq<byte>)
    requires 0 < |data| <= MAX_PAYLOAD_LEN
    ensures ResponseFrames(channelID, data) == [Frame(channelID, false, data)]
  {
    assert data[0..|data|] == data;
    assert FramesFrom(channelID, data, |data| + HEADER_LEN, HEADER_LEN) == [];
  }

  lemma {:induction false} ReassembleMasked(fs: seq<Frame>)
    ensures Reassemble(MaskedAll(fs)) == Reassemble(fs)
  {
    if fs != [] {
      assert MaskedAll(fs)[1..] == MaskedAll(fs[1..]);
      ReassembleMasked(fs[1..]);
    }
  }

  /** End to end: what a broker gets back by reading the bytes of one response. */
  lemma {:induction false} ResponseOnTheWire(channelID: uint16, data: seq<byte>, c: Inbound, rest: seq<byte>)
    requires c.pending == EncodeAll(ResponseFrames(channelID, data)) + rest
    requires Prompt(c.deliveries) && |c.deliveries| >= 2 * |ResponseFrames(channelID, data)|
    ensures var r := TakeFrames(c, |ResponseFrames(channelID, data)|);
            && r.err.None? && r.after.pending == rest
            && (forall f <- r.got :: f.channelID == channelID % 0x8000 && !f.isCommand)
            && (Reassemble(r.got) == data <==> |data| <= MAX_PAYLOAD_LEN)
  {
    var fs := ResponseFrames(channelID, data);
    FramesAreWellFormed(channelID, data, 0, HEADER_LEN);
    PromptStreamIsRead(c, fs, rest);
    FrameStreamRoundTrip(c, fs, rest);
    ReassembleMasked(fs);
    LosslessIff(channelID, data);
  }
}
