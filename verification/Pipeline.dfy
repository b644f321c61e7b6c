/** One connection at work: a reader and a processor goroutine joined by unbuffered channels,
    consumed by Start. Every interleaving of the three, one step per channel hand-off, read,
    processing or test of the context
    (internal/reverse/connection/connection.go, command_reader.go, command_processor.go). */
module Pipeline {
  import opened Common
  import opened Frames
  import opened Responses
  import opened Commands

  /** What the outside decides, the same for every schedule: the stream, the fetch of each
      command, how the connection takes writes, and the introduction already written. */
  datatype Env = Env(start: ReaderState, fetch: nat -> Fetch, link: Link, intro: seq<byte>)

  datatype ReaderPhase = Reading | Offering(cmd: Command) | ReaderStopped
  datatype ProcessorPhase = Waiting | Processing(cmd: Command) | Delivering(result: Command) | ProcessorStopped
  datatype Ending = Cancelled | Drained | ResetSeen | FatalSeen | WriteFailed
  datatype ConsumerPhase = Receiving | Received(result: Command) | Handling(result: Command) | Left(why: Ending)

  datatype State = State(
    reader: ReaderPhase,
    stream: ReaderState,       // the reader's side of the connection
    read: seq<Command>,        // every command read so far
    processor: ProcessorPhase,
    taken: nat,                // commands the processor received
    consumer: ConsumerPhase,
    delivered: seq<Command>,   // results Start received
    handled: nat,              // results Start finished with
    out: Output,               // Start's side of the connection
    ctxDone: bool,             // the context given to Start
    cmdDone: bool)             // the connection's own context, cancelled by Start

  function Init(env: Env): State {
    State(Reading, env.start, [], Waiting, 0, Receiving, [], 0, Output(env.intro, env.link), false, false)
  }

  predicate Stopping(s: State) {
    s.ctxDone || s.cmdDone
  }

  // ---------------------------------------------------------------- steps

  datatype Step =
    | Read | HandCommand | StopReader
    | Process | HandResult | StopProcessor | EndOfCommands
    | TestContext | Handle | EndOfResults
    | CancelContext

  predicate Enabled(s: State, step: Step) {
    match step
    case Read => s.reader == Reading
    case HandCommand => s.reader.Offering? && s.processor == Waiting
    case StopReader => s.reader.Offering? && Stopping(s)
    case Process => s.processor.Processing?
    case HandResult => s.processor.Delivering? && s.consumer == Receiving
    case StopProcessor => s.processor.Delivering? && Stopping(s)
    case EndOfCommands => s.processor == Waiting && s.reader == ReaderStopped
    case TestContext => s.consumer.Received?
    case Handle => s.consumer.Handling?
    case EndOfResults => s.consumer == Receiving && s.processor == ProcessorStopped
    case CancelContext => !s.ctxDone
  }

  /** What handling one result does to the output, and whether Start goes on receiving. */
  function HandleResult(o: Output, r: Command): (Output, Option<Ending>) {
    match Dispatch(r)
    case Ignored => (o, None)
    case SkippedError => (o, None)
    case Reset => (o, Some(ResetSeen))
    case Fatal => (o, Some(FatalSeen))
    case Answer =>
      var s := WriteFrames(o.link, ResponseFrames(r.channelID, ResponseData(r.metrics)));
      (Output(o.written + s.bytes, s.link), if s.ok then None else Some(WriteFailed))
  }

  function Do(env: Env, s: State, step: Step): State
    requires Enabled(s, step)
  {
    match step
    case Read =>
      var (cmd, stream') := ReadCommand(s.stream);
      s.(reader := Offering(cmd), stream := stream', read := s.read + [cmd])
    case HandCommand => s.(reader := Reading, processor := Processing(s.reader.cmd), taken := s.taken + 1)
    case StopReader => s.(reader := ReaderStopped)
    case Process =>
      s.(processor := Delivering(ProcessCommand(s.processor.cmd, env.fetch(Max(s.taken - 1, 0)))))
    case HandResult =>
      var r := s.processor.result;
      s.(processor := Waiting, consumer := Received(r), delivered := s.delivered + [r])
    case StopProcessor => s.(processor := ProcessorStopped)
    case EndOfCommands => s.(processor := ProcessorStopped)
    case TestContext =>
      s.(consumer := if s.ctxDone then Left(Cancelled) else Handling(s.consumer.result))
    case Handle =>
      var (out', ending) := HandleResult(s.out, s.consumer.result);
      if ending.None? then s.(consumer := Receiving, handled := s.handled + 1, out := out')
      else s.(consumer := Left(ending.value), handled := s.handled + 1, out := out', cmdDone := true)
    case EndOfResults => s.(consumer := Left(Drained))
    case CancelContext => s.(ctxDone := true)
  }

  /** The steps can be taken one after the other from s. */
  predicate Schedule(env: Env, s: State, steps: seq<Step>)
    decreases |steps|
  {
    steps == [] || (Enabled(s, steps[0]) && Schedule(env, Do(env, s, steps[0]), steps[1..]))
  }

  function Exec(env: Env, s: State, steps: seq<Step>): State
    requires Schedule(env, s, steps)
    decreases |steps|
  {
    if steps == [] then s else Exec(env, Do(env, s, steps[0]), steps[1..])
  }

  // ---------------------------------------------------------------- the sequential program

  /** processCommand mapped over the commands, each with its own fetch. */
  function Results(env: Env, cmds: seq<Command>): seq<Command> {
    seq(|cmds|, i requires 0 <= i < |cmds| => ProcessCommand(cmds[i], env.fetch(i)))
  }

  /** Start, run on a list of results without any concurrency. */
  function Play(o: Output, rs: seq<Command>): (Output, Option<Ending>)
    decreases |rs|
  {
    if rs == [] then (o, None)
    else
      var (o', ending) := HandleResult(o, rs[0]);
      if ending.Some? then (o', ending) else Play(o', rs[1..])
  }

  lemma {:induction false} PlaySnoc(o: Output, rs: seq<Command>, r: Command)
    requires Play(o, rs).1.None?
    ensures Play(o, rs + [r]) == HandleResult(Play(o, rs).0, r)
    decreases |rs|
  {
    if rs == [] {
      var (o', ending) := HandleResult(o, r);
      assert ([] + [r])[1..] == [];
      assert Play(o', []) == (o', None);
    } else {
      assert (rs + [r])[1..] == rs[1..] + [r];
      PlaySnoc(HandleResult(o, rs[0]).0, rs[1..], r);
    }
  }

  // ---------------------------------------------------------------- invariant

  ghost predicate ReaderInv(env: Env, s: State) {
    && ReadCommands(env.start, |s.read|) == (s.read, s.stream)
    && (s.reader.Offering? ==> s.read != [] && s.reader.cmd == s.read[|s.read| - 1])
    && |s.read| == s.taken + (if s.reader == Reading then 0 else 1)
    && (s.reader == ReaderStopped ==> Stopping(s))
  }

  ghost predicate ProcessorInv(env: Env, s: State) {
    && s.taken <= |s.read|
    && |s.delivered| <= s.taken <= |s.delivered| + 1
    && s.delivered == Results(env, s.read[..|s.delivered|])
    && (s.processor == Waiting ==> s.taken == |s.delivered|)
    && (s.processor.Processing? ==> s.taken == |s.delivered| + 1 && s.processor.cmd == s.read[s.taken - 1])
    && (s.processor.Delivering? ==>
          && s.taken == |s.delivered| + 1
          && s.processor.result == ProcessCommand(s.read[s.taken - 1], env.fetch(s.taken - 1)))
    && (s.processor == ProcessorStopped ==> Stopping(s))
  }

  ghost predicate ConsumerInv(env: Env, s: State) {
    var busy := s.consumer.Received? || s.consumer.Handling?;
    && |s.delivered| == s.handled + (if busy || s.consumer == Left(Cancelled) then 1 else 0)
    && (busy ==> s.consumer.result == s.delivered[s.handled])
    && Play(Output(env.intro, env.link), s.delivered[..s.handled])
       == (s.out, if s.consumer.Left? && s.consumer.why in {ResetSeen, FatalSeen, WriteFailed}
                  then Some(s.consumer.why) else None)
    && (s.handled > 0 ==> Play(Output(env.intro, env.link), s.delivered[..s.handled - 1]).1.None?)
    && (s.cmdDone ==> s.consumer.Left?)
    && (s.consumer.Left? ==> Stopping(s))
  }

  ghost predicate Inv(env: Env, s: State) {
    ReaderInv(env, s) && ProcessorInv(env, s) && ConsumerInv(env, s)
  }

  lemma {:induction false} ReaderStep(env: Env, s: State, step: Step)
    requires Inv(env, s) && Enabled(s, step)
    ensures ReaderInv(env, Do(env, s, step))
  {
    hide ReadCommand, ReadCommands, ProcessCommand, HandleResult, ProcessorInv, ConsumerInv;
    if step == Read {
      ReadCommandsSnoc(env.start, |s.read|);
    }
  }

  lemma {:induction false} ProcessorStep(env: Env, s: State, step: Step)
    requires Inv(env, s) && Enabled(s, step)
    ensures ProcessorInv(env, Do(env, s, step))
  {
    hide ReadCommand, ReadCommands, HandleResult, Play, ConsumerInv;
    if step == HandResult {
      DeliveryStep(env, s);
    } else {
      assert Do(env, s, step).read[..|s.delivered|] == s.read[..|s.delivered|];
    }
  }

  lemma {:induction false} DeliveryStep(env: Env, s: State)
    requires ProcessorInv(env, s) && Enabled(s, HandResult)
    ensures ProcessorInv(env, Do(env, s, HandResult))
  {
    assert s.read[..s.taken][..|s.delivered|] == s.read[..|s.delivered|];
    assert Do(env, s, HandResult).delivered == Results(env, s.read[..s.taken]);
  }

  lemma {:induction false} ConsumerStep(env: Env, s: State, step: Step)
    requires ConsumerInv(env, s) && (s.processor == ProcessorStopped ==> Stopping(s)) && Enabled(s, step)
    ensures ConsumerInv(env, Do(env, s, step))
  {
    if step == Handle {
      HandleStep(env, s);
    } else {
      hide ReadCommand, ReadCommands, ProcessCommand, HandleResult, Play, ReaderInv, ProcessorInv, Results;
      var delivered := Do(env, s, step).delivered;
      assert s.delivered <= delivered;
      assert delivered[..s.handled] == s.delivered[..s.handled];
      assert s.handled > 0 ==> delivered[..s.handled - 1] == s.delivered[..s.handled - 1];
    }
  }

  lemma {:induction false} HandleStep(env: Env, s: State)
    requires ConsumerInv(env, s) && Enabled(s, Handle)
    ensures ConsumerInv(env, Do(env, s, Handle))
  {
    PlaySnoc(Output(env.intro, env.link), s.delivered[..s.handled], s.delivered[s.handled]);
    assert s.delivered[..s.handled + 1] == s.delivered[..s.handled] + [s.delivered[s.handled]];
  }

  /** No step of anybody breaks the invariant. */
  lemma {:induction false} InvStep(env: Env, s: State, step: Step)
    requires Inv(env, s) && Enabled(s, step)
    ensures Inv(env, Do(env, s, step))
  {
    ReaderStep(env, s, step);
    ProcessorStep(env, s, step);
    ConsumerStep(env, s, step);
  }

  lemma {:induction false} InvAlways(env: Env, s: State, steps: seq<Step>)
    requires Inv(env, s) && Schedule(env, s, steps)
    ensures Inv(env, Exec(env, s, steps))
    decreases |steps|
  {
    if steps != [] {
      InvStep(env, s, steps[0]);
      InvAlways(env, Do(env, s, steps[0]), steps[1..]);
    }
  }

  lemma {:induction false} InitInv(env: Env)
    ensures Inv(env, Init(env))
  {
    assert Results(env, []) == [];
  }

  // ---------------------------------------------------------------- safety

  /** In every schedule: the commands are those of the stream, the results Start received are
      processCommand mapped over them, in order, and at most two commands are on the way. */
  lemma {:induction false} PipelineRefinement(env: Env, steps: seq<Step>)
    requires Schedule(env, Init(env), steps)
    ensures var s := Exec(env, Init(env), steps);
            && s.read == ReadCommands(env.start, |s.read|).0
            && s.delivered <= Results(env, s.read)
            && |s.read| - |s.delivered| <= 2
  {
    InitInv(env);
    InvAlways(env, Init(env), steps);
    var s := Exec(env, Init(env), steps);
    assert Results(env, s.read)[..|s.delivered|] == Results(env, s.read[..|s.delivered|]);
  }

  lemma {:induction false} ReadNeverFatal(st: ReaderState, n: nat)
    ensures forall cmd <- ReadCommands(st, n).0 :: !cmd.fatal
    decreases n
  {
    if n > 0 {
      ReadNeverFatal(ReadCommand(st).1, n - 1);
    }
  }

  lemma {:induction false} ResultsNeverFatal(env: Env, n: nat)
    ensures forall r <- Results(env, ReadCommands(env.start, n).0) :: !r.fatal
  {
    ReadNeverFatal(env.start, n);
    var cmds := ReadCommands(env.start, n).0;
    var rs := Results(env, cmds);
    forall r | r in rs
      ensures !r.fatal
    {
      var i :| 0 <= i < |rs| && rs[i] == r;
      assert cmds[i] in cmds && r == ProcessCommand(cmds[i], env.fetch(i));
    }
  }

  lemma {:induction false} PlayNeverFatal(o: Output, rs: seq<Command>)
    requires forall r <- rs :: !r.fatal
    ensures Play(o, rs).1 != Some(FatalSeen)
    decreases |rs|
  {
    if rs != [] {
      PlayNeverFatal(HandleResult(o, rs[0]).0, rs[1..]);
    }
  }

  /** What one connection has put on the wire, in any schedule, is what Start run on its own
      writes for the first `handled` commands of the stream; and it never ends fatally. */
  lemma {:induction false} WireOutput(env: Env, steps: seq<Step>)
    requires Schedule(env, Init(env), steps)
    ensures var s := Exec(env, Init(env), steps);
            var rs := Results(env, ReadCommands(env.start, s.handled).0);
            && Play(Output(env.intro, env.link), rs).0 == s.out
            && (Play(Output(env.intro, env.link), rs).1.Some? <==>
                  s.consumer == Left(ResetSeen) || s.consumer == Left(WriteFailed))
            && s.consumer != Left(FatalSeen)
  {
    var s, rs := Handled(env, steps);
  }

  lemma {:induction false} ReadCommandsPrefix(st: ReaderState, m: nat, n: nat)
    requires m <= n
    ensures ReadCommands(st, m).0 == ReadCommands(st, n).0[..m]
    decreases m
  {
    hide ReadCommand;
    if m > 0 {
      var (cmd, st') := ReadCommand(st);
      ReadCommandsCons(st, cmd, st', m - 1);
      ReadCommandsCons(st, cmd, st', n - 1);
      ReadCommandsPrefix(st', m - 1, n - 1);
      FirstOfCons(cmd, ReadCommands(st', n - 1).0, m - 1);
    }
  }

  lemma {:induction false} FirstOfCons(cmd: Command, cmds: seq<Command>, n: nat)
    requires n <= |cmds|
    ensures ([cmd] + cmds)[..n + 1] == [cmd] + cmds[..n]
  {
  }

  /** The bytes one result puts on the wire when nothing fails. */
  function AnswerBytes(r: Command): seq<byte> {
    if Dispatch(r) == Answer then EncodeAll(ResponseFrames(r.channelID, ResponseData(r.metrics))) else []
  }

  function Answers(rs: seq<Command>): seq<byte> {
    if rs == [] then [] else AnswerBytes(rs[0]) + Answers(rs[1..])
  }

  /** Why the loop of Start ends at a result, and what it has written of its answer by then. */
  predicate EndsAt(r: Command, why: Ending, last: seq<byte>) {
    match why
    case ResetSeen => Dispatch(r) == Reset && last == []
    case FatalSeen => Dispatch(r) == Fatal && last == []
    case WriteFailed => Dispatch(r) == Answer && last <= AnswerBytes(r)
    case _ => false
  }

  predicate GoesOn(r: Command) {
    Dispatch(r) != Reset && Dispatch(r) != Fatal
  }

  /** Output o' is o with the first k answers, whole and in order, and then `last`. The results
      before the k-th do not end the loop; the k-th does, or there is none. */
  ghost predicate Wrote(o: Output, rs: seq<Command>, o': Output, ending: Option<Ending>, k: nat, last: seq<byte>) {
    && k <= |rs|
    && o'.written == o.written + Answers(rs[..k]) + last
    && (forall j :: 0 <= j < k ==> GoesOn(rs[j]))
    && match ending
       case None => k == |rs| && last == []
       case Some(why) => k < |rs| && EndsAt(rs[k], why, last)
  }

  lemma {:induction false} HandleWrites(o: Output, r: Command)
    ensures var (o', ending) := HandleResult(o, r);
            && (ending.None? ==> GoesOn(r) && o'.written == o.written + AnswerBytes(r))
            && (ending.Some? ==> exists last :: o'.written == o.written + last && EndsAt(r, ending.value, last))
  {
    if Dispatch(r) == Answer {
      WritesAPrefix(o.link, ResponseFrames(r.channelID, ResponseData(r.metrics)));
    } else {
      assert o.written == o.written + [];
    }
  }

  lemma {:induction false} WroteCons(o: Output, rs: seq<Command>, o1: Output, o': Output, ending: Option<Ending>, k: nat, last: seq<byte>)
    requires rs != [] && GoesOn(rs[0]) && o1.written == o.written + AnswerBytes(rs[0])
    requires Wrote(o1, rs[1..], o', ending, k, last)
    ensures Wrote(o, rs, o', ending, k + 1, last)
  {
    hide AnswerBytes, Dispatch;
    AnswersCons(rs, k);
    assert o.written + AnswerBytes(rs[0]) + Answers(rs[1..][..k]) == o.written + Answers(rs[..k + 1]);
  }

  lemma {:induction false} AnswersCons(rs: seq<Command>, k: nat)
    requires k < |rs|
    ensures Answers(rs[..k + 1]) == AnswerBytes(rs[0]) + Answers(rs[1..][..k])
  {
    assert rs[..k + 1][1..] == rs[1..][..k];
  }

  /** The output is what was there and the responses to the answerable commands, each whole and in
      order, up to the first result that ends the loop: a reset, before which none is missing, or
      an answer whose write failed, which alone may be cut short. */
  lemma {:induction false} PlayWritesAnswers(o: Output, rs: seq<Command>)
    ensures exists k, last :: Wrote(o, rs, Play(o, rs).0, Play(o, rs).1, k, last)
    decreases |rs|
  {
    var (o', ending) := Play(o, rs);
    if rs == [] {
      assert Wrote(o, rs, o', ending, 0, []);
    } else {
      HandleWrites(o, rs[0]);
      var (o1, ending1) := HandleResult(o, rs[0]);
      if ending1.Some? {
        var last :| o1.written == o.written + last && EndsAt(rs[0], ending1.value, last);
        assert Wrote(o, rs, o', ending, 0, last);
      } else {
        PlayWritesAnswers(o1, rs[1..]);
        var k, last :| Wrote(o1, rs[1..], o', ending, k, last);
        WroteCons(o, rs, o1, o', ending, k, last);
      }
    }
  }

  /** Whether Start left the loop of the connection because of the last result it handled. */
  predicate EndedByResult(s: State) {
    s.consumer == Left(ResetSeen) || s.consumer == Left(WriteFailed)
  }

  /** Written so far, for the results handled: the answers to all of them, whole and in order, none
      of them a reset; but if Start left because of the last one, the answers to all others, and
      behind them what that one put on the wire: nothing if it is a reset, and of an answer whose
      write failed some of its bytes. */
  ghost predicate OnWire(env: Env, s: State, rs: seq<Command>, last: seq<byte>) {
    var ending := if EndedByResult(s) then Some(s.consumer.why) else None;
    (ending.Some? ==> rs != []) && Wrote(Output(env.intro, env.link), rs, s.out, ending, Whole(rs, ending), last)
  }

  /** How many of the results are answered whole when only the last may have ended the loop. */
  function Whole(rs: seq<Command>, ending: Option<Ending>): nat
    requires ending.Some? ==> rs != []
  {
    if ending.Some? then |rs| - 1 else |rs|
  }

  lemma {:induction false} PlayedWhole(o: Output, rs: seq<Command>)
    requires Play(o, rs).1.None?
    ensures Wrote(o, rs, Play(o, rs).0, None, |rs|, [])
  {
    PlayWritesAnswers(o, rs);
    hide Play, GoesOn, Answers, EndsAt;
    var k: nat, last: seq<byte> :| Wrote(o, rs, Play(o, rs).0, Play(o, rs).1, k, last);
  }

  lemma {:induction false} LastEnds(o: Output, before: seq<Command>, o1: Output, r: Command, o': Output, why: Ending, last: seq<byte>)
    requires Wrote(o, before, o1, None, |before|, [])
    requires o'.written == o1.written + last && EndsAt(r, why, last)
    ensures Wrote(o, before + [r], o', Some(why), |before|, last)
  {
    hide GoesOn, EndsAt, Answers;
    var rs := before + [r];
    assert rs[..|before|] == before == before[..|before|];
  }

  lemma {:induction false} EndsWithTheLast(o: Output, rs: seq<Command>) returns (last: seq<byte>)
    requires rs != [] ==> Play(o, rs[..|rs| - 1]).1.None?
    ensures Play(o, rs).1.Some? ==> rs != []
    ensures Wrote(o, rs, Play(o, rs).0, Play(o, rs).1, Whole(rs, Play(o, rs).1), last)
  {
    var (o', ending) := Play(o, rs);
    if ending.None? {
      PlayedWhole(o, rs);
      last := [];
    } else {
      var before, r := rs[..|rs| - 1], rs[|rs| - 1];
      assert before + [r] == rs;
      PlaySnoc(o, before, r);
      hide Play, Wrote, HandleResult, EndsAt;
      PlayedWhole(o, before);
      HandleWrites(Play(o, before).0, r);
      last :| o'.written == Play(o, before).0.written + last && EndsAt(r, ending.value, last);
      LastEnds(o, before, Play(o, before).0, r, o', ending.value, last);
    }
  }

  /** End to end, in every schedule: behind the introduction the connection carries exactly the
      answers to the commands handled, of which only the last, after a failed write, can be cut. */
  lemma {:induction false} OnlyAnswersAreWritten(env: Env, steps: seq<Step>)
    requires Schedule(env, Init(env), steps)
    ensures var s := Exec(env, Init(env), steps);
            exists last :: OnWire(env, s, Results(env, ReadCommands(env.start, s.handled).0), last)
  {
    var s, rs := Handled(env, steps);
    var o := Output(env.intro, env.link);
    hide Exec, Schedule, Init, ReadCommands, Results, Play, Inv, Wrote;
    var last := EndsWithTheLast(o, rs);
    assert OnWire(env, s, rs, last);
  }

  /** The state after a schedule, and the results handled in it, as the sequential program takes them. */
  lemma {:induction false} Handled(env: Env, steps: seq<Step>) returns (s: State, rs: seq<Command>)
    requires Schedule(env, Init(env), steps)
    ensures s == Exec(env, Init(env), steps) && Inv(env, s)
    ensures rs == Results(env, ReadCommands(env.start, s.handled).0) && |rs| == s.handled
    ensures rs == s.delivered[..s.handled]
    ensures Play(Output(env.intro, env.link), rs)
         == (s.out, if EndedByResult(s) then Some(s.consumer.why) else None)
    ensures rs != [] ==> Play(Output(env.intro, env.link), rs[..|rs| - 1]).1.None?
    ensures EndedByResult(s) ==> rs != []
    ensures s.consumer != Left(FatalSeen)
  {
    InitInv(env);
    InvAlways(env, Init(env), steps);
    s := Exec(env, Init(env), steps);
    ReadCommandsPrefix(env.start, s.handled, |s.read|);
    rs := Results(env, ReadCommands(env.start, s.handled).0);
    assert s.delivered[..s.handled] == rs;
    assert rs != [] ==> rs[..|rs| - 1] == s.delivered[..s.handled - 1];
    ResultsNeverFatal(env, s.handled);
    PlayNeverFatal(Output(env.intro, env.link), rs);
  }

  /** Which commands are answered, and with what: the i-th command of the stream puts bytes on the
      wire only if it was met as a CONNECT with a non-empty request whose metrics were fetched;
      they are the frames of those metrics under the channel id of that very CONNECT frame. */
  lemma {:induction false} AnsweredWithItsOwnMetrics(env: Env, n: nat, i: nat)
    requires Counted(env.start) && i < n
    ensures var r := Results(env, ReadCommands(env.start, n).0)[i];
            var m := Met(ReadCommands(env.start, i).1);
            if m.Asked? && m.request != [] && env.fetch(i).Some?
            then AnswerBytes(r) == EncodeAll(ResponseFrames(m.channelID, env.fetch(i).value))
            else AnswerBytes(r) == []
  {
    ReadCommandsSnoc(env.start, i);
    ReadCommandsPrefix(env.start, i + 1, n);
    TimeoutsAreCounted(env.start, i);
    var st := ReadCommands(env.start, i).1;
    var cmd := ReadCommand(st).0;
    assert ReadCommands(env.start, n).0[i] == cmd;
    hide ReadCommands, Met;
    Classification(st, env.fetch(i));
    AnswersCarryTheirChannel(st, env.fetch(i));
    hide ReadCommand;
  }

  /** Two runs of the same connection differ only in how far they got: for any two schedules
      the bytes written by one are a prefix of the bytes written by the other. */
  lemma {:induction false} ScheduleIndependence(env: Env, steps: seq<Step>, steps': seq<Step>)
    requires Schedule(env, Init(env), steps) && Schedule(env, Init(env), steps')
    ensures var s := Exec(env, Init(env), steps);
            var s' := Exec(env, Init(env), steps');
            s.handled <= s'.handled ==> s.out.written <= s'.out.written
  {
    var s := Exec(env, Init(env), steps);
    var s' := Exec(env, Init(env), steps');
    WireOutput(env, steps);
    WireOutput(env, steps');
    if s.handled <= s'.handled {
      ReadCommandsPrefix(env.start, s.handled, s'.handled);
      var rs := Results(env, ReadCommands(env.start, s.handled).0);
      var rs' := Results(env, ReadCommands(env.start, s'.handled).0);
      assert rs == rs'[..s.handled];
      PlayGrows(Output(env.intro, env.link), rs, rs'[s.handled..]);
      assert rs' == rs + rs'[s.handled..];
    }
  }

  lemma {:induction false} PlayGrows(o: Output, rs: seq<Command>, more: seq<Command>)
    ensures Play(o, rs).0.written <= Play(o, rs + more).0.written
    decreases |rs| + |more|
  {
    if rs != [] {
      assert (rs + more)[1..] == rs[1..] + more;
      PlayGrows(HandleResult(o, rs[0]).0, rs[1..], more);
    } else if more != [] {
      assert rs + more == more;
      PlayGrows(HandleResult(o, more[0]).0, [], more[1..]);
      assert [] + more[1..] == more[1..];
    }
  }

  // ---------------------------------------------------------------- progress

  predicate AllStopped(s: State) {
    s.reader == ReaderStopped && s.processor == ProcessorStopped && s.consumer.Left?
  }

  /** A step of one of the three that can be taken. */
  function Someone(s: State): Step {
    if s.reader == Reading then Read
    else if s.processor.Processing? then Process
    else if s.consumer.Received? then TestContext
    else if s.consumer.Handling? then Handle
    else if s.processor == Waiting then (if s.reader.Offering? then HandCommand else EndOfCommands)
    else if s.processor.Delivering? then (if s.consumer == Receiving then HandResult else StopProcessor)
    else if s.consumer == Receiving then EndOfResults
    else StopReader
  }

  /** There is no deadlock: until all three have stopped, one of them can move. */
  lemma {:induction false} NeverStuck(env: Env, s: State)
    requires Inv(env, s) && !AllStopped(s)
    ensures Enabled(s, Someone(s)) && Someone(s) != CancelContext
  {
  }

  /** What is left to do once the connection is being stopped. */
  function Remaining(s: State): nat {
    var consumer := match s.consumer case Handling(_) => 3 case Receiving => 2 case Received(_) => 1 case Left(_) => 0;
    var processor := match s.processor case Waiting => 3 case Processing(_) => 2 case Delivering(_) => 1 case ProcessorStopped => 0;
    var reader := match s.reader case Reading => 2 case Offering(_) => 1 case ReaderStopped => 0;
    12 * consumer + 3 * processor + reader + if s.ctxDone then 0 else 1
  }

  lemma {:induction false} LeftWhenDone(env: Env, s: State)
    requires Inv(env, s)
    ensures s.cmdDone ==> s.consumer.Left?
  {
  }

  /** A step that is Start's alone. */
  predicate OfStart(step: Step) {
    step.TestContext? || step.Handle? || step.EndOfResults? || step.CancelContext?
  }

  lemma {:induction false} EveryStepCounts(env: Env, s: State, step: Step)
    requires Inv(env, s) && Stopping(s) && Enabled(s, step)
    ensures Stopping(Do(env, s, step)) && Remaining(Do(env, s, step)) < Remaining(s)
  {
    LeftWhenDone(env, s);
    hide Inv;
    if OfStart(step) {
      StepOfStartCounts(env, s, step);
    } else {
      OtherStepCounts(env, s, step);
    }
  }

  lemma {:induction false} StepOfStartCounts(env: Env, s: State, step: Step)
    requires (s.cmdDone ==> s.consumer.Left?) && Stopping(s) && Enabled(s, step) && OfStart(step)
    ensures Stopping(Do(env, s, step)) && Remaining(Do(env, s, step)) < Remaining(s)
  {
    hide HandleResult;
  }

  lemma {:induction false} OtherStepCounts(env: Env, s: State, step: Step)
    requires Stopping(s) && Enabled(s, step) && !OfStart(step)
    ensures Stopping(Do(env, s, step)) && Remaining(Do(env, s, step)) < Remaining(s)
  {
    hide ReadCommand, ProcessCommand;
  }

  /** After cancellation every step of anybody brings the end nearer, so that both goroutines
      and Start have stopped after at most 48 steps, in every schedule that does not pause. */
  lemma {:induction false} StopsAfterCancellation(env: Env, s: State, steps: seq<Step>)
    requires Inv(env, s) && Stopping(s) && Schedule(env, s, steps)
    ensures |steps| <= Remaining(s) <= 48
    ensures var end := Exec(env, s, steps);
            (forall step :: Enabled(end, step) ==> step == CancelContext) ==> AllStopped(end)
    decreases |steps|
  {
    if steps == [] {
      if !AllStopped(s) {
        NeverStuck(env, s);
      }
    } else {
      InvStep(env, s, steps[0]);
      EveryStepCounts(env, s, steps[0]);
      StopsAfterCancellation(env, Do(env, s, steps[0]), steps[1..]);
    }
  }

  // ---------------------------------------------------------------- uncancelled runs

  /** The result for the i-th command of the stream. */
  function ResultOf(env: Env, i: nat): Command {
    ProcessCommand(ReadCommand(ReadCommands(env.start, i).1).0, env.fetch(i))
  }

  /** The n-th command is the first whose result resets the connection. */
  ghost predicate FirstReset(env: Env, n: nat) {
    Dispatch(ResultOf(env, n)) == Reset && forall j :: 0 <= j < n ==> GoesOn(ResultOf(env, j))
  }

  predicate Resets(cmd: Command) {
    cmd.err.Some? && cmd.reset && !cmd.ignore
  }

  /** When the deliveries have run out the connection is broken, and that resets. */
  lemma {:induction false} ResetIsRead(st: ReaderState) returns (m: nat)
    ensures m <= |st.conn.deliveries| && Resets(ReadCommand(ReadCommands(st, m).1).0)
    decreases |st.conn.deliveries|
  {
    if st.conn.deliveries == [] {
      m := 0;
    } else {
      var st1 := ReadCommand(st).1;
      ReadTakesADelivery(st);
      m := ResetIsRead(st1);
      m := m + 1;
    }
  }

  lemma {:induction false} ReadTakesADelivery(st: ReaderState)
    requires st.conn.deliveries != []
    ensures |ReadCommand(st).1.conn.deliveries| < |st.conn.deliveries|
  {
  }

  lemma {:induction false} ResultAt(env: Env, n: nat, i: nat)
    requires i < n
    ensures Results(env, ReadCommands(env.start, n).0)[i] == ResultOf(env, i)
    ensures !ResultOf(env, i).fatal
  {
    hide ReadCommand, ProcessCommand;
    CommandAt(env.start, n, i);
    hide ReadCommands;
    AnswersCarryTheirChannel(ReadCommands(env.start, i).1, env.fetch(i));
  }

  lemma {:induction false} CommandAt(st: ReaderState, n: nat, i: nat)
    requires i < n
    ensures ReadCommands(st, n).0[i] == ReadCommand(ReadCommands(st, i).1).0
  {
    hide ReadCommand, ReadCommands;
    ReadCommandsSnoc(st, i);
    ReadCommandsPrefix(st, i + 1, n);
    assert ReadCommands(st, n).0[..i + 1][i] == ReadCommands(st, n).0[i];
  }

  lemma {:induction false} SomeReset(env: Env) returns (m: nat)
    ensures m <= |env.start.conn.deliveries| && Dispatch(ResultOf(env, m)) == Reset
  {
    m := ResetIsRead(env.start);
    hide ReadCommands, ReadCommand;
  }

  /** Every connection has a first reset: at the latest when nothing more is delivered. */
  lemma {:induction false} ResetComes(env: Env) returns (n: nat)
    ensures n <= |env.start.conn.deliveries| && FirstReset(env, n)
  {
    var m := SomeReset(env);
    hide ResultOf, ReadCommands, ReadCommand;
    n := 0;
    while Dispatch(ResultOf(env, n)) != Reset
      invariant n <= m && forall j :: 0 <= j < n ==> GoesOn(ResultOf(env, j))
      decreases m - n
    {
      ResultAt(env, n + 1, n);
      n := n + 1;
    }
  }

  /** Writes that answering takes. */
  function WritesOf(rs: seq<Command>): nat {
    if rs == [] then 0
    else
      (if Dispatch(rs[0]) == Answer then |ResponseFrames(rs[0].channelID, ResponseData(rs[0].metrics))| else 0)
      + WritesOf(rs[1..])
  }

  lemma {:induction false} WritesUsed(link: Link, fs: seq<Frame>)
    ensures link.okWrites >= |fs| ==>
              WriteFrames(link, fs).ok && WriteFrames(link, fs).link.okWrites == link.okWrites - |fs|
    decreases |fs|
  {
    if fs != [] && link.okWrites >= |fs| {
      WritesUsed(link.(okWrites := link.okWrites - 1), fs[1..]);
    }
  }

  /** With enough writes none fails. */
  lemma {:induction false} NoWriteFails(o: Output, rs: seq<Command>, k: nat)
    requires k <= |rs| && o.link.okWrites >= WritesOf(rs)
    ensures Play(o, rs[..k]).1 != Some(WriteFailed)
    decreases k
  {
    if k > 0 {
      var r := rs[0];
      WritesUsed(o.link, ResponseFrames(r.channelID, ResponseData(r.metrics)));
      assert rs[..k][0] == r && rs[..k][1..] == rs[1..][..k - 1];
      hide WriteFrames;
      if HandleResult(o, r).1.None? {
        NoWriteFails(HandleResult(o, r).0, rs[1..], k - 1);
      }
    }
  }

  /** Exactly so many writes are needed: of results none of which ends the connection by itself, a
      write fails if and only if the link takes fewer. */
  lemma {:induction false} WritesNeeded(o: Output, rs: seq<Command>)
    requires forall r <- rs :: GoesOn(r)
    ensures Play(o, rs).1 == (if o.link.okWrites < WritesOf(rs) then Some(WriteFailed) else None)
    decreases |rs|
  {
    if rs != [] {
      var r, rest := rs[0], rs[1..];
      assert GoesOn(r) && forall q <- rest :: q in rs;
      var fs := ResponseFrames(r.channelID, ResponseData(r.metrics));
      WritesUsed(o.link, fs);
      WritesAPrefix(o.link, fs);
      hide WriteFrames, ResponseFrames, ResponseData, GoesOn;
      var (o', ending) := HandleResult(o, r);
      if ending.None? {
        WritesNeeded(o', rest);
      }
    }
  }

  /** Not cancelled from outside: Start left the loop, if it did, because of a result. */
  predicate Uncancelled(s: State) {
    !s.ctxDone && (s.consumer.Left? ==> s.consumer.why in {ResetSeen, FatalSeen, WriteFailed})
  }

  /** The steps done so far. */
  function Progress(s: State): nat
  {
    |s.read|
    + s.taken + Max(0, s.taken - if s.processor.Processing? then 1 else 0)
    + |s.delivered| + Max(0, |s.delivered| - if s.consumer.Received? then 1 else 0)
    + s.handled
    + (if s.reader == ReaderStopped then 1 else 0) + (if s.processor == ProcessorStopped then 1 else 0)
  }

  lemma {:induction false} StepProgresses(env: Env, s: State, step: Step)
    requires Inv(env, s) && Uncancelled(s) && Enabled(s, step) && step != CancelContext
    ensures Uncancelled(Do(env, s, step)) && Progress(Do(env, s, step)) == Progress(s) + 1
  {
    CountsAgree(env, s);
    hide Inv;
    if OfStart(step) {
      StepOfStartProgresses(env, s, step);
    } else {
      OtherStepProgresses(env, s, step);
    }
  }

  /** What the tallies of the three have to do with each other. */
  predicate Tallied(s: State) {
    && (s.cmdDone ==> s.consumer.Left?)
    && (s.processor == ProcessorStopped ==> Stopping(s))
    && (s.processor == Waiting ==> s.taken == |s.delivered|)
    && (s.processor.Processing? ==> s.taken == |s.delivered| + 1)
    && (s.consumer.Received? ==> |s.delivered| == s.handled + 1)
  }

  lemma {:induction false} CountsAgree(env: Env, s: State)
    requires Inv(env, s)
    ensures Tallied(s)
  {
  }

  lemma {:induction false} StepOfStartProgresses(env: Env, s: State, step: Step)
    requires Tallied(s) && Uncancelled(s) && Enabled(s, step) && step != CancelContext && OfStart(step)
    ensures Uncancelled(Do(env, s, step)) && Progress(Do(env, s, step)) == Progress(s) + 1
  {
    if step == Handle {
      HandleEnds(s);
    }
    hide HandleResult;
  }

  lemma {:induction false} OtherStepProgresses(env: Env, s: State, step: Step)
    requires Tallied(s) && Uncancelled(s) && Enabled(s, step) && !OfStart(step)
    ensures Uncancelled(Do(env, s, step)) && Progress(Do(env, s, step)) == Progress(s) + 1
  {
    hide ReadCommand, ProcessCommand;
  }

  lemma {:induction false} HandleEnds(s: State)
    requires s.consumer.Handling?
    ensures var ending := HandleResult(s.out, s.consumer.result).1;
            ending.Some? ==> ending.value in {ResetSeen, FatalSeen, WriteFailed}
  {
  }

  lemma {:induction false} ProgressIsSteps(env: Env, s: State, steps: seq<Step>)
    requires Inv(env, s) && Uncancelled(s) && Schedule(env, s, steps) && CancelContext !in steps
    ensures var end := Exec(env, s, steps);
            Inv(env, end) && Uncancelled(end) && Progress(end) == Progress(s) + |steps|
    decreases |steps|
  {
    if steps != [] {
      InvStep(env, s, steps[0]);
      StepProgresses(env, s, steps[0]);
      hide Inv, Uncancelled, Progress;
      ProgressIsSteps(env, Do(env, s, steps[0]), steps[1..]);
    }
  }

  /** Nothing can happen any more, but for a cancellation. */
  ghost predicate Stuck(s: State) {
    forall step :: Enabled(s, step) ==> step == CancelContext
  }

  /** A schedule never gets past the first reset. */
  lemma {:induction false} HandledToTheReset(env: Env, n: nat, steps: seq<Step>)
    requires Schedule(env, Init(env), steps) && FirstReset(env, n)
    ensures var s := Exec(env, Init(env), steps);
            && s.handled <= n + 1
            && (s.consumer == Left(ResetSeen) ==> s.handled == n + 1)
            && (s.consumer == Left(WriteFailed) ==> s.handled <= n)
  {
    var s, rs := Handled(env, steps);
    var last := EndsWithTheLast(Output(env.intro, env.link), rs);
    forall j | 0 <= j < |rs| ensures rs[j] == ResultOf(env, j) {
      ResultAt(env, s.handled, j);
    }
    if rs != [] {
      var before := rs[..|rs| - 1];
      PlayedWhole(Output(env.intro, env.link), before);
      hide Exec, Schedule, Init, ReadCommands, ResultOf, Play, Inv, Results, Answers;
      assert forall j :: 0 <= j < |before| ==> before[j] == ResultOf(env, j) && GoesOn(before[j]);
      assert forall j :: 0 <= j < |before| ==> GoesOn(ResultOf(env, j));
      assert |before| < n ==> rs[|before|] == ResultOf(env, |before|);
    }
  }

  /** The n-th command is the first to reset, and the connection takes the writes of all answers
      before it. */
  ghost predicate AnswerableTo(env: Env, n: nat) {
    FirstReset(env, n) && env.link.okWrites >= WritesOf(Results(env, ReadCommands(env.start, n).0))
  }

  /** Every run that nobody cancels, with enough writes, is over after so many steps, and when it is
      over it has answered every command before the first reset, whole and in order. */
  lemma {:induction false} UncancelledRunsAnswerAll(env: Env, n: nat, steps: seq<Step>)
    requires Schedule(env, Init(env), steps) && CancelContext !in steps
    ensures AnswerableTo(env, n) ==>
              var s := Exec(env, Init(env), steps);
              && |steps| <= 6 * n + 17
              && (Stuck(s) ==>
                    && AllStopped(s) && s.consumer == Left(ResetSeen)
                    && s.out.written == env.intro + Answers(Results(env, ReadCommands(env.start, n).0)))
  {
    if AnswerableTo(env, n) {
      InitInv(env);
      ProgressIsSteps(env, Init(env), steps);
      HandledToTheReset(env, n, steps);
      var s := Exec(env, Init(env), steps);
      ProgressBound(env, s, n);
      StuckIsReset(env, n, steps);
    }
  }

  lemma {:induction false} ProgressBound(env: Env, s: State, n: nat)
    requires Inv(env, s) && s.handled <= n + 1 && Uncancelled(s)
    ensures Progress(s) <= 6 * n + 17
  {
  }

  lemma {:induction false} StuckIsReset(env: Env, n: nat, steps: seq<Step>)
    requires Schedule(env, Init(env), steps)
    ensures var s := Exec(env, Init(env), steps);
            AnswerableTo(env, n) && Uncancelled(s) && Stuck(s) ==>
              && AllStopped(s) && s.consumer == Left(ResetSeen)
              && s.out.written == env.intro + Answers(Results(env, ReadCommands(env.start, n).0))
  {
    var s, rs := Handled(env, steps);
    if AnswerableTo(env, n) && Uncancelled(s) && Stuck(s) {
      StoppedWhenStuck(env, s);
      HandledToTheReset(env, n, steps);
      hide *;
      AnsweredAll(env, n, s, rs);
    }
  }

  lemma {:induction false} StoppedWhenStuck(env: Env, s: State)
    requires Inv(env, s) && Uncancelled(s) && Stuck(s)
    ensures AllStopped(s) && s.consumer.why in {ResetSeen, FatalSeen, WriteFailed}
  {
    if !AllStopped(s) {
      NeverStuck(env, s);
    }
  }

  lemma {:induction false} AnsweredAll(env: Env, n: nat, s: State, rs: seq<Command>)
    requires AnswerableTo(env, n) && s.consumer.Left? && s.consumer.why in {ResetSeen, WriteFailed}
    requires rs == Results(env, ReadCommands(env.start, s.handled).0) && |rs| == s.handled
    requires Play(Output(env.intro, env.link), rs) == (s.out, Some(s.consumer.why))
    requires rs != [] ==> Play(Output(env.intro, env.link), rs[..|rs| - 1]).1.None?
    requires if s.consumer.why == ResetSeen then s.handled == n + 1 else s.handled <= n
    ensures s.consumer.why == ResetSeen
    ensures s.out.written == env.intro + Answers(Results(env, ReadCommands(env.start, n).0))
  {
    hide ReadCommands, Results, Play, FirstReset, Answers, GoesOn;
    var o, all := Output(env.intro, env.link), Results(env, ReadCommands(env.start, n).0);
    if s.consumer.why == WriteFailed {
      PrefixOfResults(env, s.handled, n);
      NoWriteFails(o, all, s.handled);
    } else {
      PrefixOfResults(env, n, n + 1);
      var last := EndsWithTheLast(o, rs);
      assert rs[..n] == all;
    }
  }

  lemma {:induction false} PrefixOfResults(env: Env, m: nat, n: nat)
    requires m <= n
    ensures |Results(env, ReadCommands(env.start, n).0)| == n
    ensures Results(env, ReadCommands(env.start, m).0) == Results(env, ReadCommands(env.start, n).0)[..m]
  {
    ReadCommandsPrefix(env.start, m, n);
    hide ReadCommands, ProcessCommand;
  }

  /** With a broker whose frames arrive promptly: every run that nobody cancels ends, having
      answered exactly the commands in those frames up to the first reset among them, and all of
      them before anything else if there is none. */
  lemma {:induction false} PromptBrokerIsAnswered(env: Env, fs: seq<Frame>, n: nat, steps: seq<Step>)
    requires Schedule(env, Init(env), steps) && CancelContext !in steps
    ensures var s := Exec(env, Init(env), steps);
            Delivers(env.start.conn, fs) && AnswerableTo(env, n) && Stuck(s) ==>
              var rs := Results(env, ParseFrames(MaskedAll(fs)));
              exists answers :: s.out.written == env.intro + answers
                && if n <= |rs| then answers == Answers(rs[..n]) else Answers(rs) <= answers
  {
    if Delivers(env.start.conn, fs) && AnswerableTo(env, n) {
      UncancelledRunsAnswerAll(env, n, steps);
      hide *;
      var m := |ParseFrames(MaskedAll(fs))|;
      PromptCommands(env.start, fs);
      FirstAnswers(env, n, m);
    }
  }

  /** The answers to the first n results, against those to the first m. */
  lemma {:induction false} FirstAnswers(env: Env, n: nat, m: nat)
    ensures var all, rs := Results(env, ReadCommands(env.start, n).0), Results(env, ReadCommands(env.start, m).0);
            if n <= |rs| then Answers(all) == Answers(rs[..n]) else Answers(rs) <= Answers(all)
  {
    if n <= m {
      PrefixOfResults(env, n, m);
    } else {
      PrefixOfResults(env, m, n);
      var all := Results(env, ReadCommands(env.start, n).0);
      assert all == all[..m] + all[m..];
      hide Results, ReadCommands, Answers;
      AnswersSplit(all[..m], all[m..]);
    }
  }

  lemma {:induction false} AnswersSplit(rs: seq<Command>, more: seq<Command>)
    ensures Answers(rs + more) == Answers(rs) + Answers(more)
  {
    hide AnswerBytes;
    if rs == [] {
      assert rs + more == more;
    } else {
      assert (rs + more)[1..] == rs[1..] + more;
      AnswersSplit(rs[1..], more);
    }
  }
}
