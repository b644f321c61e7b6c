/** The frame format spoken with a broker, and reading frames from a stream that may
    deliver its bytes in any pieces (internal/reverse/connection/frame.go). */
module Frames {
  import opened Common

  type uint16 = x: int | 0 <= x < 0x1_0000

  const HEADER_LEN := 6
  const MAX_PAYLOAD_LEN := 65529

  datatype Header = Header(channelID: uint16, isCommand: bool, payloadLen: nat)
  datatype Frame = Frame(channelID: uint16, isCommand: bool, payload: seq<byte>)

  /** A frame whose length survives the check made on receipt. */
  predicate Sendable(f: Frame) {
    |f.payload| <= MAX_PAYLOAD_LEN
  }

  /** The frame as the other side sees it: the id keeps its low 15 bits only. */
  function Masked(f: Frame): Frame {
    f.(channelID := f.channelID % 0x8000)
  }

  // ---------------------------------------------------------------- encoding

  function ChannelWord(f: Frame): uint16 {
    f.channelID % 0x8000 + if f.isCommand then 0x8000 else 0
  }

  function BigEndian16(v: uint16): seq<byte> {
    [v / 0x100, v % 0x100]
  }

  /** Big-endian uint32 of a length; a longer length wraps, as the conversion does. */
  function BigEndian32(n: nat): seq<byte> {
    var v := n % 0x1_0000_0000;
    [v / 0x100_0000, v / 0x1_0000 % 0x100, v / 0x100 % 0x100, v % 0x100]
  }

  function Encode(f: Frame): seq<byte> {
    BigEndian16(ChannelWord(f)) + BigEndian32(|f.payload|) + f.payload
  }

  function EncodeAll(fs: seq<Frame>): seq<byte> {
    if fs == [] then [] else Encode(fs[0]) + EncodeAll(fs[1..])
  }

  lemma {:induction false} EncodeAllSplits(fs: seq<Frame>, gs: seq<Frame>)
    ensures EncodeAll(fs + gs) == EncodeAll(fs) + EncodeAll(gs)
  {
    if fs == [] {
      assert fs + gs == gs;
    } else {
      assert (fs + gs)[1..] == fs[1..] + gs;
      EncodeAllSplits(fs[1..], gs);
    }
  }

  /** buildFrame: allocates the buffer, copies the payload behind the header, fills the header in. */
  method BuildFrame(channelID: uint16, isCommand: bool, payload: seq<byte>) returns (frame: array<byte>)
    ensures fresh(frame)
    ensures frame[..] == Encode(Frame(channelID, isCommand, payload))
  {
    frame := new byte[|payload| + HEADER_LEN](_ => 0);
    var cmdFlag := 0;
    if isCommand {
      cmdFlag := 0x8000;
    }
    for i := 0 to |payload|
      invariant forall k :: 0 <= k < i ==> frame[HEADER_LEN + k] == payload[k]
    {
      frame[HEADER_LEN + i] := payload[i];
    }
    assert frame[HEADER_LEN..] == payload;
    PutHeader(frame, channelID % 0x8000 + cmdFlag, |payload|);
    assert frame[..] == frame[..HEADER_LEN] + frame[HEADER_LEN..];
  }

  /** The two binary.BigEndian calls of buildFrame. */
  method PutHeader(frame: array<byte>, word: uint16, size: nat)
    requires frame.Length >= HEADER_LEN
    modifies frame
    ensures frame[..HEADER_LEN] == BigEndian16(word) + BigEndian32(size)
    ensures frame[HEADER_LEN..] == old(frame[HEADER_LEN..])
  {
    frame[0], frame[1] := word / 0x100, word % 0x100;
    var len := size % 0x1_0000_0000;
    frame[2], frame[3] := len / 0x100_0000, len / 0x1_0000 % 0x100;
    frame[4], frame[5] := len / 0x100 % 0x100, len % 0x100;
  }

  // ---------------------------------------------------------------- decoding

  function DecodeHeader(b: seq<byte>): Header
    requires |b| == HEADER_LEN
  {
    var word: int := b[0] as int * 0x100 + b[1];
    Header(word % 0x8000, word / 0x8000 > 0,
           b[2] as int * 0x100_0000 + b[3] as int * 0x1_0000 + b[4] as int * 0x100 + b[5])
  }

  lemma {:induction false} BigEndian32RoundTrip(n: nat)
    requires n < 0x1_0000_0000
    ensures var b := BigEndian32(n);
            n == b[0] as int * 0x100_0000 + b[1] as int * 0x1_0000 + b[2] as int * 0x100 + b[3] as int
  {
    assert n % 0x1_0000_0000 == n;
    Quotients(n);
    var q := n / 0x100;
    Positional(n, q, q / 0x100, q / 0x100 / 0x100);
  }

  lemma {:induction false} Quotients(n: nat)
    ensures n / 0x1_0000 == n / 0x100 / 0x100
    ensures n / 0x100_0000 == n / 0x100 / 0x100 / 0x100
  {
  }

  lemma {:induction false} Positional(n: nat, q: nat, r: nat, s: nat)
    requires q == n / 0x100 && r == q / 0x100 && s == r / 0x100
    ensures n == s * 0x100_0000 + r % 0x100 * 0x1_0000 + q % 0x100 * 0x100 + n % 0x100
  {
    assert q == r * 0x100 + q % 0x100;
    assert r == s * 0x100 + r % 0x100;
  }

  lemma {:induction false} HeaderRoundTrip(f: Frame)
    requires |f.payload| < 0x1_0000_0000
    ensures |Encode(f)| == HEADER_LEN + |f.payload|
    ensures DecodeHeader(Encode(f)[..HEADER_LEN])
         == Header(f.channelID % 0x8000, f.isCommand, |f.payload|)
    ensures Encode(f)[HEADER_LEN..] == f.payload
  {
    BigEndian32RoundTrip(|f.payload|);
    assert Encode(f)[..HEADER_LEN] == BigEndian16(ChannelWord(f)) + BigEndian32(|f.payload|);
  }

  /** The six bytes of a header: the low 15 bits of the id and the flag on top of them, then the length
      of the payload, each with the high byte first. */
  lemma {:induction false} HeaderBytes(f: Frame)
    requires |f.payload| < 0x1_0000_0000
    ensures var b := Encode(f);
            && |b| == 6 + |f.payload|
            && b[0] as int * 256 + b[1] as int == f.channelID % 32768 + (if f.isCommand then 32768 else 0)
            && b[2] as int * 16777216 + b[3] as int * 65536 + b[4] as int * 256 + b[5] as int == |f.payload|
            && b[6..] == f.payload
  {
    BigEndian32RoundTrip(|f.payload|);
    assert Encode(f)[6..] == f.payload;
  }

  /** The encoding is prefix-free and uniquely decodable: whatever bytes follow, equal streams
      start with the same frame and go on with the same rest. */
  lemma {:induction false} UniqueDecoding(f: Frame, g: Frame, s: seq<byte>, t: seq<byte>)
    requires |f.payload| < 0x1_0000_0000 && |g.payload| < 0x1_0000_0000
    requires Encode(f) + s == Encode(g) + t
    ensures Masked(f) == Masked(g) && s == t
  {
    HeaderRoundTrip(f);
    HeaderRoundTrip(g);
    var whole := Encode(f) + s;
    assert whole[..HEADER_LEN] == Encode(f)[..HEADER_LEN] == Encode(g)[..HEADER_LEN];
    var n := HEADER_LEN + |f.payload|;
    assert whole[HEADER_LEN..n] == f.payload;
    assert whole[HEADER_LEN..n] == g.payload;
    assert s == whole[n..] == t;
  }

  // ---------------------------------------------------------------- reading

  /** Errors of the network, split as the reader of commands splits them. */
  datatype NetError = TimedOut | Broken
  datatype ReadError = Net(cause: NetError) | ShortRead | Oversized

  /** What one Read call on the connection does: hand over at most so many bytes, with this error. */
  datatype Delivery = Delivery(most: nat, err: Option<NetError>)

  /** The receiving half of a connection: bytes not read yet, and how coming Read calls behave.
      When the deliveries run out the connection is at its end. */
  datatype Inbound = Inbound(pending: seq<byte>, deliveries: seq<Delivery>)

  /** readBytes: ONE Read call; anything but the full size is an error. */
  function TakeBytes(c: Inbound, size: nat): (Result<seq<byte>, ReadError>, Inbound) {
    if size == 0 then (Ok([]), c)
    else if c.deliveries == [] then (Err(Net(Broken)), c)
    else
      var d := c.deliveries[0];
      var n := Min(Min(d.most, size), |c.pending|);
      var c' := Inbound(c.pending[n..], c.deliveries[1..]);
      if n == 0 && d.err.Some? then (Err(Net(d.err.value)), c')
      else if n != size then (Err(ShortRead), c')
      else (Ok(c.pending[..n]), c')
  }

  /** readFrameFromBroker: header, length check, payload. */
  function TakeFrame(c: Inbound): (Result<Frame, ReadError>, Inbound) {
    var (hdrBytes, c1) := TakeBytes(c, HEADER_LEN);
    match hdrBytes
    case Err(e) => (Err(e), c1)
    case Ok(b) =>
      TakeBytesExact(c, HEADER_LEN);
      var hdr := DecodeHeader(b);
      if hdr.payloadLen > MAX_PAYLOAD_LEN then (Err(Oversized), c1)
      else
        var (payload, c2) := TakeBytes(c1, hdr.payloadLen);
        match payload
        case Err(e) => (Err(e), c2)
        case Ok(p) => (Ok(Frame(hdr.channelID, hdr.isCommand, p)), c2)
  }

  /** Under any delivery a read yields exactly the bytes asked for, or an error that
      used up no more than those bytes. */
  lemma {:induction false} TakeBytesExact(c: Inbound, size: nat)
    ensures var (r, c') := TakeBytes(c, size);
            && (r.Ok? ==> |r.value| == size && c.pending == r.value + c'.pending)
            && (r.Err? ==> exists k :: 0 <= k < size && k <= |c.pending| && c'.pending == c.pending[k..])
            && |c'.deliveries| + (if size == 0 then 0 else 1) >= |c.deliveries|
            && c'.deliveries == c.deliveries[|c.deliveries| - |c'.deliveries|..]
  {
    var (r, c') := TakeBytes(c, size);
    assert c.pending[0..] == c.pending && c.deliveries[0..] == c.deliveries;
    if size > 0 && c.deliveries != [] {
      var n := Min(Min(c.deliveries[0].most, size), |c.pending|);
      assert c' == Inbound(c.pending[n..], c.deliveries[1..]);
      assert r.Ok? ==> n == size && r.value == c.pending[..n];
      assert r.Err? ==> n < size;
    }
  }

  /** Which of the outcomes: nothing to read is nothing read; bytes in full are read whatever error
      comes with them; an error without bytes is reported as it is; all else is a short read. */
  lemma {:induction false} ReadOutcomes(c: Inbound, size: nat)
    ensures size == 0 ==> TakeBytes(c, size) == (Ok([]), c)
    ensures size > 0 && c.deliveries == [] ==> TakeBytes(c, size).0 == Err(Net(Broken))
    ensures size > 0 && c.deliveries != [] ==>
              var (d, r) := (c.deliveries[0], TakeBytes(c, size).0);
              && (r.Ok? <==> d.most >= size && |c.pending| >= size)
              && (r == Err(Net(TimedOut)) <==> (d.most == 0 || c.pending == []) && d.err == Some(TimedOut))
              && (r == Err(Net(Broken)) <==> (d.most == 0 || c.pending == []) && d.err == Some(Broken))
              && r != Err(Oversized)
              && TakeBytes(c, size).1.deliveries == c.deliveries[1..]
              && |TakeBytes(c, size).1.pending| == |c.pending| - Min(Min(d.most, size), |c.pending|)
  {
  }

  /** The receiving end as the program holds it: every call advances the stream in place. */
  class Reader {
    var pending: seq<byte>
    var deliveries: seq<Delivery>

    constructor (pending: seq<byte>, deliveries: seq<Delivery>)
      ensures Value() == Inbound(pending, deliveries)
    {
      this.pending, this.deliveries := pending, deliveries;
    }

    ghost function Value(): Inbound
      reads this
    {
      Inbound(pending, deliveries)
    }

    method ReadBytes(size: nat) returns (r: Result<seq<byte>, ReadError>)
      modifies this
      ensures (r, Value()) == TakeBytes(old(Value()), size)
    {
      if size == 0 {
        return Ok([]);
      }
      if deliveries == [] {
        return Err(Net(Broken));
      }
      var d := deliveries[0];
      var n := Min(Min(d.most, size), |pending|);
      var buff := pending[..n];
      pending, deliveries := pending[n..], deliveries[1..];
      if n == 0 && d.err.Some? {
        return Err(Net(d.err.value));
      }
      if n != size {
        return Err(ShortRead);
      }
      return Ok(buff);
    }

    method ReadFrame() returns (r: Result<Frame, ReadError>)
      modifies this
      ensures (r, Value()) == TakeFrame(old(Value()))
    {
      TakeBytesExact(Value(), HEADER_LEN);
      var header := ReadBytes(HEADER_LEN);
      if header.Err? {
        return Err(header.error);
      }
      var hdr := DecodeHeader(header.value);
      if hdr.payloadLen > MAX_PAYLOAD_LEN {
        return Err(Oversized);
      }
      var payload := ReadBytes(hdr.payloadLen);
      if payload.Err? {
        return Err(payload.error);
      }
      return Ok(Frame(hdr.channelID, hdr.isCommand, payload.value));
    }
  }

  // ---------------------------------------------------------------- streams of frames

  /** Every Read call hands over all it is asked for, as far as a frame can ask. */
  predicate Prompt(ds: seq<Delivery>) {
    forall i :: 0 <= i < |ds| ==> ds[i].most >= MAX_PAYLOAD_LEN
  }

  /** One frame at the head of the stream: it is read whole, or an error is reported;
      no third outcome, and nothing behind the frame is touched. */
  lemma {:induction false} TakeFrameFromStream(c: Inbound, f: Frame, rest: seq<byte>)
    requires Sendable(f)
    requires c.pending == Encode(f) + rest
    ensures var (r, c') := TakeFrame(c);
            && (r.Ok? ==> r.value == Masked(f) && c'.pending == rest)
            && (r.Err? ==> exists k :: 0 <= k < |Encode(f)| && c'.pending == c.pending[k..])
  {
    HeaderRoundTrip(f);
    TakeBytesExact(c, HEADER_LEN);
    var (hdrBytes, c1) := TakeBytes(c, HEADER_LEN);
    if hdrBytes.Ok? {
      assert c.pending[..HEADER_LEN] == Encode(f)[..HEADER_LEN] == hdrBytes.value;
      assert c1.pending == c.pending[HEADER_LEN..] == f.payload + rest;
      PayloadFromStream(c1, f.payload, rest);
      var (payload, c2) := TakeBytes(c1, |f.payload|);
      if payload.Err? {
        var k :| 0 <= k < |f.payload| && c2.pending == c1.pending[k..];
        assert c2.pending == c.pending[HEADER_LEN + k..];
      }
    } else {
      var k :| 0 <= k < HEADER_LEN && k <= |c.pending| && c1.pending == c.pending[k..];
    }
  }

  lemma {:induction false} PayloadFromStream(c: Inbound, payload: seq<byte>, rest: seq<byte>)
    requires c.pending == payload + rest
    ensures var (r, c') := TakeBytes(c, |payload|);
            && (r.Ok? ==> r.value == payload && c'.pending == rest)
            && (r.Err? ==> exists k :: 0 <= k < |payload| && c'.pending == c.pending[k..])
  {
    TakeBytesExact(c, |payload|);
    var (r, c') := TakeBytes(c, |payload|);
    if r.Ok? {
      assert r.value == c.pending[..|payload|] == payload;
      assert c'.pending == c.pending[|payload|..] == rest;
    }
  }

  lemma {:induction false} TakePromptBytes(c: Inbound, size: nat)
    requires Prompt(c.deliveries) && c.deliveries != []
    requires size <= |c.pending| && size <= MAX_PAYLOAD_LEN
    ensures var (r, c') := TakeBytes(c, size);
            && r == Ok(c.pending[..size]) && c'.pending == c.pending[size..]
            && Prompt(c'.deliveries) && |c'.deliveries| >= |c.deliveries| - 1
  {
  }

  lemma {:induction false} TakePromptFrame(c: Inbound, f: Frame, rest: seq<byte>)
    requires Sendable(f)
    requires c.pending == Encode(f) + rest
    requires Prompt(c.deliveries) && |c.deliveries| >= 2
    ensures var (r, c') := TakeFrame(c);
            && r == Ok(Masked(f)) && c'.pending == rest
            && Prompt(c'.deliveries) && |c'.deliveries| >= |c.deliveries| - 2
  {
    HeaderRoundTrip(f);
    TakePromptBytes(c, HEADER_LEN);
    var c1 := TakeBytes(c, HEADER_LEN).1;
    assert c.pending[..HEADER_LEN] == Encode(f)[..HEADER_LEN];
    assert c1.pending == f.payload + rest;
    TakePromptBytes(c1, |f.payload|);
    assert c1.pending[..|f.payload|] == f.payload && c1.pending[|f.payload|..] == rest;
  }

  datatype FramesRead = FramesRead(got: seq<Frame>, err: Option<ReadError>, after: Inbound)

  /** Read n frames, stopping at the first error. */
  function TakeFrames(c: Inbound, n: nat): FramesRead
    decreases n
  {
    if n == 0 then FramesRead([], None, c)
    else
      var (r, c1) := TakeFrame(c);
      match r
      case Err(e) => FramesRead([], Some(e), c1)
      case Ok(f) =>
        var more := TakeFrames(c1, n - 1);
        more.(got := [f] + more.got)
  }

  function MaskedAll(fs: seq<Frame>): seq<Frame> {
    seq(|fs|, i requires 0 <= i < |fs| => Masked(fs[i]))
  }

  /** What is left when reading stopped inside (or right before) the first of the frames. */
  ghost predicate StoppedInFirst(fs: seq<Frame>, rest: seq<byte>, pending: seq<byte>) {
    && fs != []
    && exists k :: 0 <= k < |Encode(fs[0])| && pending == (EncodeAll(fs) + rest)[k..]
  }

  /** A reading of the stream EncodeAll(fs) + rest: the frames got are the frames sent, in order,
      up to the first error; without an error the stream stands exactly behind the last frame;
      with one, it stands inside the frame that failed. */
  ghost predicate ReadsBack(r: FramesRead, fs: seq<Frame>, rest: seq<byte>) {
    && |r.got| <= |fs|
    && r.got == MaskedAll(fs)[..|r.got|]
    && (r.err.None? ==> |r.got| == |fs| && r.after.pending == rest)
    && (r.err.Some? ==> StoppedInFirst(fs[|r.got|..], rest, r.after.pending))
  }

  lemma {:induction false} ReadsBackCons(more: FramesRead, fs: seq<Frame>, rest: seq<byte>)
    requires fs != [] && ReadsBack(more, fs[1..], rest)
    ensures ReadsBack(more.(got := [Masked(fs[0])] + more.got), fs, rest)
  {
    assert MaskedAll(fs) == [Masked(fs[0])] + MaskedAll(fs[1..]);
    assert fs[1 + |more.got|..] == fs[1..][|more.got|..];
  }

  /** Round trip over a whole stream, for every way its bytes are delivered. */
  lemma {:induction false} FrameStreamRoundTrip(c: Inbound, fs: seq<Frame>, rest: seq<byte>)
    requires forall i :: 0 <= i < |fs| ==> Sendable(fs[i])
    requires c.pending == EncodeAll(fs) + rest
    ensures ReadsBack(TakeFrames(c, |fs|), fs, rest)
    decreases |fs|
  {
    if fs == [] {
      assert EncodeAll(fs) + rest == rest;
    } else {
      var tail := EncodeAll(fs[1..]) + rest;
      assert c.pending == Encode(fs[0]) + tail;
      TakeFrameFromStream(c, fs[0], tail);
      var (r, c1) := TakeFrame(c);
      if r.Ok? {
        FrameStreamRoundTrip(c1, fs[1..], rest);
        ReadsBackCons(TakeFrames(c1, |fs| - 1), fs, rest);
      } else {
        var k :| 0 <= k < |Encode(fs[0])| && c1.pending == c.pending[k..];
        assert StoppedInFirst(fs[0..], rest, c1.pending) by {
          assert fs[0..] == fs;
        }
      }
    }
  }

  lemma {:induction false} TakeFramesCons(c: Inbound, n: nat, f: Frame, c1: Inbound)
    requires n > 0 && TakeFrame(c) == (Ok(f), c1)
    ensures TakeFrames(c, n).got == [f] + TakeFrames(c1, n - 1).got
    ensures TakeFrames(c, n).err == TakeFrames(c1, n - 1).err
    ensures TakeFrames(c, n).after == TakeFrames(c1, n - 1).after
  {
  }

  /** Delivered promptly, the whole stream of frames is read. */
  lemma {:induction false} PromptStreamIsRead(c: Inbound, fs: seq<Frame>, rest: seq<byte>)
    requires forall i :: 0 <= i < |fs| ==> Sendable(fs[i])
    requires c.pending == EncodeAll(fs) + rest
    requires Prompt(c.deliveries) && |c.deliveries| >= 2 * |fs|
    ensures TakeFrames(c, |fs|).err.None? && TakeFrames(c, |fs|).got == MaskedAll(fs)
    decreases |fs|
  {
    if fs != [] {
      FirstOfMany(fs, rest);
      hide *;
      var tail := EncodeAll(fs[1..]) + rest;
      var c1 := TakeFrame(c).1;
      TakePromptFrame(c, fs[0], tail);
      PromptStreamIsRead(c1, fs[1..], rest);
      TakeFramesCons(c, |fs|, Masked(fs[0]), c1);
    }
  }

  lemma {:induction false} FirstOfMany(fs: seq<Frame>, rest: seq<byte>)
    requires fs != []
    ensures EncodeAll(fs) + rest == Encode(fs[0]) + (EncodeAll(fs[1..]) + rest)
    ensures MaskedAll(fs) == [Masked(fs[0])] + MaskedAll(fs[1..])
  {
    hide Encode, Masked;
  }

  /** A frame the sender may build but no receiver takes: the length check refuses it. */
  lemma {:induction false} OversizedIsRefused(c: Inbound, f: Frame, rest: seq<byte>)
    requires MAX_PAYLOAD_LEN < |f.payload| < 0x1_0000_0000
    requires c.pending == Encode(f) + rest && c.deliveries != [] && c.deliveries[0].most >= HEADER_LEN
    ensures TakeFrame(c).0 == Err(Oversized)
  {
    HeaderRoundTrip(f);
    assert c.pending[..HEADER_LEN] == Encode(f)[..HEADER_LEN];
  }
}
