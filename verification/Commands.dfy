/** Reading broker commands, processing them, and what becomes of each
    (internal/reverse/connection/command_reader.go, command_processor.go, connection.go). */
module Commands {
  import opened Common
  import opened Frames

  /** "CONNECT" */
  const CONNECT: seq<byte> := [0x43, 0x4F, 0x4E, 0x4E, 0x45, 0x43, 0x54]
  /** "RESET" */
  const RESET: seq<byte> := [0x52, 0x45, 0x53, 0x45, 0x54]

  const MAX_COMM_TIMEOUTS := 6

  datatype CommandError =
    | ReadingCommand(cause: ReadError)
    | ReadingPayload(cause: ReadError)
    | ExpectedCommand
    | ExpectedRequest
    | ResetReceived
    | UnusedCommand
    | EmptyRequest
    | FetchFailed

  datatype Command = Command(
    channelID: uint16,
    name: seq<byte>,
    request: seq<byte>,
    metrics: Option<seq<byte>>,
    err: Option<CommandError>,
    ignore: bool,
    fatal: bool,
    reset: bool)

  const BLANK := Command(0, [], [], None, None, false, false, false)

  // ---------------------------------------------------------------- reading

  datatype FrameEvent = Whole | Timeout | Failure

  /** The reader of one connection: its stream, the timeout counter, and every frame read so far. */
  datatype ReaderState = ReaderState(conn: Inbound, commTimeouts: nat, history: seq<FrameEvent>)

  function EventOf(r: Result<Frame, ReadError>): FrameEvent {
    match r
    case Ok(_) => Whole
    case Err(e) => if e == Net(TimedOut) then Timeout else Failure
  }

  /** Read one frame; a timeout is counted, a whole frame clears the count. */
  function NextFrame(st: ReaderState): (Result<Frame, ReadError>, ReaderState) {
    var (r, conn') := TakeFrame(st.conn);
    var timeouts :=
      match EventOf(r)
      case Whole => 0
      case Timeout => st.commTimeouts + 1
      case Failure => st.commTimeouts;
    (r, ReaderState(conn', timeouts, st.history + [EventOf(r)]))
  }

  /** The command reported for a failed frame read, given the timeouts counted with it. */
  function FailedRead(e: ReadError, err: CommandError, timeouts: nat): Command {
    var tolerated := e == Net(TimedOut) && timeouts <= MAX_COMM_TIMEOUTS;
    BLANK.(err := Some(err), reset := !tolerated, ignore := tolerated)
  }

  /** readCommand */
  function ReadCommand(st: ReaderState): (Command, ReaderState) {
    var (first, st1) := NextFrame(st);
    match first
    case Err(e) => (FailedRead(e, ReadingCommand(e), st1.commTimeouts), st1)
    case Ok(f) =>
      if !f.isCommand then (BLANK.(err := Some(ExpectedCommand)), st1)
      else
        var cmd := BLANK.(channelID := f.channelID, name := f.payload);
        if cmd.name != CONNECT then (cmd, st1)
        else
          var (second, st2) := NextFrame(st1);
          match second
          case Err(e) => (FailedRead(e, ReadingPayload(e), st2.commTimeouts), st2)
          case Ok(g) =>
            if g.isCommand then (cmd.(err := Some(ExpectedRequest)), st2)
            else (cmd.(request := g.payload), st2)
  }

  /** The first n commands of a connection. */
  function ReadCommands(st: ReaderState, n: nat): (r: (seq<Command>, ReaderState))
    ensures |r.0| == n
    decreases n
  {
    if n == 0 then ([], st)
    else
      var (cmd, st1) := ReadCommand(st);
      var (cmds, st2) := ReadCommands(st1, n - 1);
      ([cmd] + cmds, st2)
  }

  lemma {:induction false} ReadCommandsSnoc(st: ReaderState, n: nat)
    ensures var (cmds, st1) := ReadCommands(st, n);
            var (cmd, st2) := ReadCommand(st1);
            ReadCommands(st, n + 1) == (cmds + [cmd], st2)
    decreases n
  {
    if n == 0 {
      var (cmd, st1) := ReadCommand(st);
      assert ReadCommands(st1, 0) == ([], st1);
      assert [cmd] + [] == [] + [cmd];
    } else {
      var (cmd, st1) := ReadCommand(st);
      ReadCommandsSnoc(st1, n - 1);
      var (cmds, st2) := ReadCommands(st1, n - 1);
      var (last, _) := ReadCommand(st2);
      assert [cmd] + (cmds + [last]) == ([cmd] + cmds) + [last];
    }
  }

  // ---------------------------------------------------------------- processing

  /** What fetching the metrics from the agent gives. */
  type Fetch = Option<seq<byte>>

  /** processCommand */
  function ProcessCommand(cmd: Command, fetched: Fetch): Command {
    if cmd.err.Some? then cmd
    else if cmd.name == RESET then cmd.(err := Some(ResetReceived), ignore := false, reset := true)
    else if cmd.name != CONNECT then cmd.(err := Some(UnusedCommand), ignore := true)
    else if |cmd.request| == 0 then cmd.(err := Some(EmptyRequest))
    else if fetched.None? then cmd.(err := Some(FetchFailed))
    else cmd.(metrics := fetched)
  }

  /** What Start does with a processed command, in the order it tests the fields. */
  datatype Verdict = Ignored | Reset | Fatal | SkippedError | Answer

  function Dispatch(c: Command): Verdict {
    if c.ignore then Ignored
    else if c.err.None? then Answer
    else if c.reset then Reset
    else if c.fatal then Fatal
    else SkippedError
  }

  // ---------------------------------------------------------------- timeouts

  /** Timed-out frame reads since the last whole frame (or since connecting). */
  function TimeoutsSince(history: seq<FrameEvent>): nat {
    if history == [] then 0
    else
      var last := |history| - 1;
      if history[last] == Whole then 0
      else TimeoutsSince(history[..last]) + if history[last] == Timeout then 1 else 0
  }

  predicate Counted(st: ReaderState) {
    st.commTimeouts == TimeoutsSince(st.history)
  }

  function Connected(conn: Inbound): ReaderState {
    ReaderState(conn, 0, [])
  }

  lemma {:induction false} NextFrameCounts(st: ReaderState)
    requires Counted(st)
    ensures Counted(NextFrame(st).1)
  {
    var history := NextFrame(st).1.history;
    assert history[..|history| - 1] == st.history;
  }

  lemma {:induction false} ReadCommandCounts(st: ReaderState)
    requires Counted(st)
    ensures Counted(ReadCommand(st).1)
  {
    NextFrameCounts(st);
    NextFrameCounts(NextFrame(st).1);
  }

  /** After any number of commands of one connection the counter is the number of timed-out
      frame reads since the last whole frame. */
  lemma {:induction false} TimeoutsAreCounted(st: ReaderState, n: nat)
    requires Counted(st)
    ensures Counted(ReadCommands(st, n).1)
    decreases n
  {
    if n > 0 {
      ReadCommandCounts(st);
      TimeoutsAreCounted(ReadCommand(st).1, n - 1);
    }
  }

  /** The results of n frame reads, one after the other. */
  function FrameReads(c: Inbound, n: nat): seq<Result<Frame, ReadError>>
    decreases n
  {
    if n == 0 then [] else FrameReads(c, n - 1) + [TakeFrame(AfterReads(c, n - 1)).0]
  }

  function AfterReads(c: Inbound, n: nat): Inbound
    decreases n
  {
    if n == 0 then c else TakeFrame(AfterReads(c, n - 1)).1
  }

  /** How many of the reads timed out, counting back to the last that brought a whole frame. */
  function TimedOutInARow(results: seq<Result<Frame, ReadError>>): nat {
    if results == [] then 0
    else
      var last, before := results[|results| - 1], results[..|results| - 1];
      match last
      case Ok(_) => 0
      case Err(e) => TimedOutInARow(before) + if e == Net(TimedOut) then 1 else 0
  }

  /** The reader has done exactly these frame reads, and its counter is that of their time-outs. */
  ghost predicate Reading(c: Inbound, st: ReaderState) {
    var m := |st.history|;
    st.conn == AfterReads(c, m) && st.commTimeouts == TimedOutInARow(FrameReads(c, m))
  }

  lemma {:induction false} NextFrameReads(c: Inbound, st: ReaderState)
    requires Reading(c, st)
    ensures Reading(c, NextFrame(st).1) && |NextFrame(st).1.history| == |st.history| + 1
  {
    hide TakeFrame;
    var m := |st.history|;
    assert FrameReads(c, m + 1)[..m] == FrameReads(c, m) by { FrameReadsLength(c, m); }
    FrameReadsLength(c, m);
  }

  lemma {:induction false} FrameReadsLength(c: Inbound, n: nat)
    ensures |FrameReads(c, n)| == n
    decreases n
  {
    hide TakeFrame;
    if n > 0 {
      FrameReadsLength(c, n - 1);
    }
  }

  /** Stated on the reads alone: after n commands the reader has done between n and 2n frame reads, and
      the counter is how many of them timed out since the last whole frame, or since connecting. */
  lemma {:induction false} CounterIsOfTheReads(c: Inbound, n: nat)
    ensures var st := ReadCommands(Connected(c), n).1;
            && n <= |st.history| <= 2 * n
            && st.conn == AfterReads(c, |st.history|)
            && st.commTimeouts == TimedOutInARow(FrameReads(c, |st.history|))
  {
    ReadingStays(c, n);
  }

  lemma {:induction false} ReadingStays(c: Inbound, n: nat)
    ensures var st := ReadCommands(Connected(c), n).1;
            Reading(c, st) && n <= |st.history| <= 2 * n
    decreases n
  {
    if n > 0 {
      hide *;
      ReadingStays(c, n - 1);
      ReadCommandsSnoc(Connected(c), n - 1);
      ReadCommandReads(c, ReadCommands(Connected(c), n - 1).1);
    }
  }

  lemma {:induction false} ReadCommandReads(c: Inbound, st: ReaderState)
    requires Reading(c, st)
    ensures Reading(c, ReadCommand(st).1)
    ensures |st.history| + 1 <= |ReadCommand(st).1.history| <= |st.history| + 2
  {
    NextFrameReads(c, st);
    NextFrameReads(c, NextFrame(st).1);
    hide NextFrame, Reading;
  }

  /** A broker that stays silent: every read runs into its deadline. */
  predicate Silent(c: Inbound) {
    forall i :: 0 <= i < |c.deliveries| ==> c.deliveries[i] == Delivery(0, Some(TimedOut))
  }

  lemma {:induction false} SilentCommand(st: ReaderState)
    requires Silent(st.conn) && st.conn.deliveries != []
    ensures var (cmd, st1) := ReadCommand(st);
            && Silent(st1.conn) && |st1.conn.deliveries| == |st.conn.deliveries| - 1
            && st1.commTimeouts == st.commTimeouts + 1
            && cmd.err.Some? && cmd.reset == (st.commTimeouts >= 6) && cmd.ignore == (st.commTimeouts < 6)
  {
    assert st.conn.pending[0..] == st.conn.pending;
  }

  /** From a silent broker the first six commands are ignored, and every one from the seventh on
      resets. */
  lemma {:induction false} SeventhTimeoutResets(st: ReaderState, n: nat)
    requires Silent(st.conn) && n <= |st.conn.deliveries|
    ensures forall i :: 0 <= i < n ==>
              && (ReadCommands(st, n).0[i].reset <==> i + st.commTimeouts >= 6)
              && (ReadCommands(st, n).0[i].ignore <==> i + st.commTimeouts < 6)
    decreases n
  {
    if n > 0 {
      SilentCommand(st);
      var (cmd, st1) := ReadCommand(st);
      ReadCommandsCons(st, cmd, st1, n - 1);
      hide ReadCommand, ReadCommands, Silent;
      SeventhTimeoutResets(st1, n - 1);
    }
  }

  /** The names of the two commands, letter by letter. */
  lemma {:induction false} CommandNames()
    ensures |CONNECT| == 7 && forall i :: 0 <= i < 7 ==> CONNECT[i] == "CONNECT"[i] as int
    ensures |RESET| == 5 && forall i :: 0 <= i < 5 ==> RESET[i] == "RESET"[i] as int
  {
  }

  // ---------------------------------------------------------------- classification

  /** What the reader met on the stream when it went for a command. */
  datatype Meeting =
    | Lost(error: ReadError, timeouts: nat)      // a frame read failed; timeouts counted by then
    | Stray                                      // a frame out of place
    | Named(channelID: uint16, name: seq<byte>)  // a command other than CONNECT
    | Asked(channelID: uint16, request: seq<byte>)

  function Met(st: ReaderState): Meeting {
    var (first, c1) := TakeFrame(st.conn);
    match first
    case Err(e) => Lost(e, TimeoutsSince(st.history + [EventOf(first)]))
    case Ok(f) =>
      if !f.isCommand then Stray
      else if f.payload != CONNECT then Named(f.channelID, f.payload)
      else
        match TakeFrame(c1).0
        case Err(e) => Lost(e, if e == Net(TimedOut) then 1 else 0)
        case Ok(g) => if g.isCommand then Stray else Asked(f.channelID, g.payload)
  }

  /** A read command, processed with any outcome of the fetch, is treated by what was met on the
      stream alone; it is answered exactly for a CONNECT with a non-empty request whose metrics
      could be fetched; timeouts reset from the seventh in a row on; nothing is ever fatal. */
  lemma {:induction false} Classification(st: ReaderState, fetched: Fetch)
    requires Counted(st)
    ensures var r := ProcessCommand(ReadCommand(st).0, fetched);
            var m := Met(st);
            && (Dispatch(r) == Ignored <==>
                  || (m.Lost? && m.error == Net(TimedOut) && m.timeouts <= MAX_COMM_TIMEOUTS)
                  || (m.Named? && m.name != RESET))
            && (Dispatch(r) == Reset <==>
                  || (m.Lost? && (m.error != Net(TimedOut) || m.timeouts > MAX_COMM_TIMEOUTS))
                  || (m.Named? && m.name == RESET))
            && (Dispatch(r) == SkippedError <==>
                  m.Stray? || (m.Asked? && (m.request == [] || fetched.None?)))
            && (Dispatch(r) == Answer <==> m.Asked? && m.request != [] && fetched.Some?)
            && Dispatch(r) != Fatal
  {
    NextFrameCounts(st);
    var (first, st1) := NextFrame(st);
    if first.Ok? {
      var e := NextFrame(st1).0;
      assert (st1.history + [EventOf(e)])[..|st1.history|] == st1.history;
    }
  }

  /** The four fates exclude each other in the fields themselves, and an answer carries the
      channel of its CONNECT frame and fetched data: sending without data never happens. */
  lemma {:induction false} AnswersCarryTheirChannel(st: ReaderState, fetched: Fetch)
    ensures var r := ProcessCommand(ReadCommand(st).0, fetched);
            && !(r.ignore && r.reset) && !r.fatal
            && (r.ignore || r.reset ==> r.err.Some?)
            && (r.err.None? ==>
                  && Met(st) == Asked(r.channelID, r.request)
                  && r.metrics == fetched && r.metrics.Some?)
  {
  }

  // ---------------------------------------------------------------- prompt streams

  /** The commands in a list of frames; a CONNECT still waiting for its request gives none. */
  function ParseFrames(fs: seq<Frame>): seq<Command> {
    if fs == [] then []
    else if !fs[0].isCommand then [BLANK.(err := Some(ExpectedCommand))] + ParseFrames(fs[1..])
    else
      var cmd := BLANK.(channelID := fs[0].channelID, name := fs[0].payload);
      if cmd.name != CONNECT then [cmd] + ParseFrames(fs[1..])
      else if |fs| == 1 then []
      else
        var whole := if fs[1].isCommand then cmd.(err := Some(ExpectedRequest)) else cmd.(request := fs[1].payload);
        [whole] + ParseFrames(fs[2..])
  }

  /** A broker that sends these frames, promptly delivered, whatever follows them. */
  ghost predicate Delivers(c: Inbound, fs: seq<Frame>) {
    && (forall i :: 0 <= i < |fs| ==> Sendable(fs[i]))
    && Prompt(c.deliveries) && |c.deliveries| >= 2 * |fs|
    && EncodeAll(fs) <= c.pending
  }

  lemma {:induction false} DeliversNext(c: Inbound, fs: seq<Frame>)
    requires Delivers(c, fs) && fs != []
    ensures TakeFrame(c).0 == Ok(Masked(fs[0])) && Delivers(TakeFrame(c).1, fs[1..])
  {
    hide TakeFrame, Encode, Masked, Sendable;
    var rest := c.pending[|EncodeAll(fs)|..];
    var tail := EncodeAll(fs[1..]) + rest;
    assert c.pending == EncodeAll(fs) + rest == Encode(fs[0]) + tail;
    TakePromptFrame(c, fs[0], tail);
  }

  /** How many of the frames the first command takes. */
  function FramesUsed(fs: seq<Frame>): nat
    requires ParseFrames(fs) != []
  {
    if fs[0].isCommand && fs[0].payload == CONNECT then 2 else 1
  }

  lemma {:induction false} PromptCommand(st: ReaderState, fs: seq<Frame>)
    requires Delivers(st.conn, fs) && ParseFrames(MaskedAll(fs)) != []
    ensures var n := FramesUsed(MaskedAll(fs));
            && n <= |fs|
            && ReadCommand(st).0 == ParseFrames(MaskedAll(fs))[0]
            && Delivers(ReadCommand(st).1.conn, fs[n..])
            && ParseFrames(MaskedAll(fs))[1..] == ParseFrames(MaskedAll(fs[n..]))
  {
    hide TakeFrame, Delivers, FailedRead;
    var ms := MaskedAll(fs);
    DeliversNext(st.conn, fs);
    var st1 := NextFrame(st).1;
    if FramesUsed(ms) == 1 {
      assert ms[1..] == MaskedAll(fs[1..]);
    } else {
      DeliversNext(st1.conn, fs[1..]);
      assert fs[1..][1..] == fs[2..] && ms[2..] == MaskedAll(fs[2..]);
    }
  }

  /** From a prompt stream of frames exactly the commands in the frames are read. */
  lemma {:induction false} PromptCommands(st: ReaderState, fs: seq<Frame>)
    requires Delivers(st.conn, fs)
    ensures ReadCommands(st, |ParseFrames(MaskedAll(fs))|).0 == ParseFrames(MaskedAll(fs))
    decreases |fs|
  {
    var cmds := ParseFrames(MaskedAll(fs));
    if cmds != [] {
      PromptCommand(st, fs);
      hide ReadCommand, ParseFrames, Delivers;
      var (cmd, st1) := ReadCommand(st);
      PromptCommands(st1, fs[FramesUsed(MaskedAll(fs))..]);
      ReadCommandsCons(st, cmd, st1, |cmds| - 1);
    }
  }

  lemma {:induction false} ReadCommandsCons(st: ReaderState, cmd: Command, st1: ReaderState, n: nat)
    requires ReadCommand(st) == (cmd, st1)
    ensures ReadCommands(st, n + 1).0 == [cmd] + ReadCommands(st1, n).0
  {
  }

  // ---------------------------------------------------------------- tolerated timeouts

  /** The coming Read call times out before it hands over anything. */
  predicate TimesOutAtOnce(c: Inbound) {
    c.deliveries != [] && c.deliveries[0] == Delivery(0, Some(TimedOut))
  }

  /** Where a timeout leaves a stream that stood at a frame: there still exactly if nothing was
      handed over before; else the header is gone and the stream stands at the payload. */
  lemma {:induction false} TimedOutFrame(c: Inbound, f: Frame, rest: seq<byte>)
    requires Sendable(f) && c.pending == Encode(f) + rest && TakeFrame(c).0 == Err(Net(TimedOut))
    ensures TakeFrame(c).1.pending == c.pending <==> TimesOutAtOnce(c)
    ensures !TimesOutAtOnce(c) ==> TakeFrame(c).1.pending == f.payload + rest
  {
    HeaderRoundTrip(f);
    var (header, c1) := TakeBytes(c, HEADER_LEN);
    if header.Ok? {
      TakeBytesExact(c, HEADER_LEN);
      assert c.pending[..HEADER_LEN] == Encode(f)[..HEADER_LEN] == header.value;
      assert c1.pending == c.pending[HEADER_LEN..] == f.payload + rest;
      NothingTaken(c1, |f.payload|);
    } else {
      NothingTaken(c, HEADER_LEN);
    }
  }

  lemma {:induction false} NothingTaken(c: Inbound, size: nat)
    requires TakeBytes(c, size).0 == Err(Net(TimedOut))
    ensures TakeBytes(c, size).1.pending == c.pending
    ensures c.pending != [] ==> TimesOutAtOnce(c)
  {
    assert c.pending[0..] == c.pending;
  }

  predicate IsConnect(f: Frame) {
    f.isCommand && f.payload == CONNECT
  }

  /** Where a tolerated timeout leaves the reader, on a stream of whole frames: still at the command
      it went for, exactly if the timeout came before any of its bytes; otherwise inside its frame
      or, once the CONNECT frame is read, at the request frame or inside it. */
  lemma {:induction false} ToleratedTimeout(st: ReaderState, f: Frame, g: Frame, rest: seq<byte>)
    requires Sendable(f) && Sendable(g) && st.conn.pending == Encode(f) + (Encode(g) + rest)
    requires ReadCommand(st).0.ignore
    ensures var (first, c1) := TakeFrame(st.conn);
            var pending := ReadCommand(st).1.conn.pending;
            && (pending == st.conn.pending <==> TimesOutAtOnce(st.conn))
            && (first.Err? && !TimesOutAtOnce(st.conn) ==> pending == f.payload + (Encode(g) + rest))
            && (first.Ok? ==> IsConnect(f))
            && (first.Ok? && TimesOutAtOnce(c1) ==> pending == Encode(g) + rest)
            && (first.Ok? && !TimesOutAtOnce(c1) ==> pending == g.payload + rest)
  {
    var (first, c1) := TakeFrame(st.conn);
    if first.Err? {
      TimedOutFrame(st.conn, f, Encode(g) + rest);
    } else {
      TakeFrameFromStream(st.conn, f, Encode(g) + rest);
      TimedOutFrame(c1, g, rest);
      HeaderRoundTrip(f);
      HeaderRoundTrip(g);
      TimeoutTakesNothing(st.conn);
    }
  }

  lemma {:induction false} TimeoutTakesNothing(c: Inbound)
    ensures TimesOutAtOnce(c) ==> TakeFrame(c) == (Err(Net(TimedOut)), Inbound(c.pending, c.deliveries[1..]))
  {
    assert c.pending[0..] == c.pending;
  }

  /** A timeout before a command loses nothing: with the frames delivered promptly afterwards all
      their commands are read. */
  lemma {:induction false} TimeoutBeforeACommand(st: ReaderState, fs: seq<Frame>)
    requires TimesOutAtOnce(st.conn) && st.commTimeouts < MAX_COMM_TIMEOUTS
    requires Delivers(Inbound(st.conn.pending, st.conn.deliveries[1..]), fs)
    ensures var cmds := ParseFrames(MaskedAll(fs));
            && ReadCommand(st).0.ignore
            && ReadCommands(st, |cmds| + 1).0 == [ReadCommand(st).0] + cmds
  {
    TimeoutTakesNothing(st.conn);
    var (cmd, st1) := ReadCommand(st);
    PromptCommands(st1, fs);
    hide ParseFrames, Delivers;
    ReadCommandsCons(st, cmd, st1, |ParseFrames(MaskedAll(fs))|);
  }

  /** The command of a CONNECT frame and its request. */
  function Asking(f: Frame, g: Frame): Command {
    BLANK.(channelID := f.channelID % 0x8000, name := CONNECT, request := g.payload)
  }

  /** A timeout between a whole CONNECT frame and its request forgets the CONNECT: in its place the
      request is reported as out of place; the commands behind it are read. */
  lemma {:induction false} TimeoutForgetsAConnect(st: ReaderState, fs: seq<Frame>)
    requires |fs| >= 2 && IsConnect(fs[0]) && !fs[1].isCommand && Sendable(fs[0])
    requires st.conn.pending == EncodeAll(fs)
    requires TakeFrame(st.conn).0.Ok? && TimesOutAtOnce(TakeFrame(st.conn).1)
    requires var c1 := TakeFrame(st.conn).1; Delivers(Inbound(c1.pending, c1.deliveries[1..]), fs[1..])
    ensures var later := ParseFrames(MaskedAll(fs[2..]));
            && ReadCommand(st).0.ignore
            && ReadCommands(st, |later| + 2).0
               == [ReadCommand(st).0, BLANK.(err := Some(ExpectedCommand))] + later
            && ParseFrames(MaskedAll(fs)) == [Asking(fs[0], fs[1])] + later
  {
    hide *;
    EncodedFirst(fs);
    ConnectIsForgotten(st, fs[0], EncodeAll(fs[1..]));
    ParsedWithoutConnect(fs);
    var (cmd, st1) := ReadCommand(st);
    PromptCommands(st1, fs[1..]);
    ReadCommandsCons(st, cmd, st1, |ParseFrames(MaskedAll(fs[1..]))|);
    PutTwo(cmd, BLANK.(err := Some(ExpectedCommand)), ParseFrames(MaskedAll(fs[2..])));
  }

  lemma {:induction false} EncodedFirst(fs: seq<Frame>)
    requires fs != []
    ensures EncodeAll(fs) == Encode(fs[0]) + EncodeAll(fs[1..])
  {
  }

  lemma {:induction false} PutTwo<T>(a: T, b: T, rest: seq<T>)
    ensures [a] + ([b] + rest) == [a, b] + rest && |[b] + rest| == |rest| + 1
  {
  }

  lemma {:induction false} ConnectIsForgotten(st: ReaderState, f: Frame, rest: seq<byte>)
    requires IsConnect(f) && Sendable(f) && st.conn.pending == Encode(f) + rest
    requires TakeFrame(st.conn).0.Ok? && TimesOutAtOnce(TakeFrame(st.conn).1)
    ensures var (c1, after) := (TakeFrame(st.conn).1, ReadCommand(st).1.conn);
            && ReadCommand(st).0.ignore
            && after == Inbound(c1.pending, c1.deliveries[1..])
  {
    TakeFrameFromStream(st.conn, f, rest);
    TimeoutTakesNothing(TakeFrame(st.conn).1);
    hide TakeFrame, Encode, TimesOutAtOnce;
  }

  lemma {:induction false} ParsedWithoutConnect(fs: seq<Frame>)
    requires |fs| >= 2 && IsConnect(fs[0]) && !fs[1].isCommand
    ensures var later := ParseFrames(MaskedAll(fs[2..]));
            && ParseFrames(MaskedAll(fs[1..])) == [BLANK.(err := Some(ExpectedCommand))] + later
            && ParseFrames(MaskedAll(fs)) == [Asking(fs[0], fs[1])] + later
  {
    var ms := MaskedAll(fs);
    assert MaskedAll(fs[1..])[1..] == MaskedAll(fs[2..]) == ms[2..];
    assert ParseFrames(ms) == [Asking(fs[0], fs[1])] + ParseFrames(ms[2..]);
  }
}
