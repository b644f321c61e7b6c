/** The Connection object: its counters, updated by connecting, by reading commands and by
    answering them (internal/reverse/connection/connection.go, command_reader.go,
    command_processor.go). Each method is proved against the functions of the other modules. */
module Connections {
  import opened Common
  import opened Frames
  import opened Responses
  import opened Commands
  import Backoff
  import Pipeline

  datatype ConnState = New | Idle | Active

  /** What one turn of Start meets: the dial, and once connected the results its pipeline hands
      over (all it will ever hand over, if the context is cancelled) and how writes go. */
  datatype Round = Round(
    drift: Backoff.Drift,
    ctxDone: bool,
    dial: Backoff.Dial,
    intro: seq<byte>,
    link: Link,
    results: seq<Command>,
    doneAfter: bool)  // the context is done when the loop over the results is left

  // ---------------------------------------------------------------- Start on values

  /** How many results are answered before the loop of Start ends. */
  function Answered(o: Output, rs: seq<Command>): nat
    decreases |rs|
  {
    if rs == [] then 0
    else
      var (o', ending) := Pipeline.HandleResult(o, rs[0]);
      if ending.Some? then 0 else (if Dispatch(rs[0]) == Answer then 1 else 0) + Answered(o', rs[1..])
  }

  /** The run after so many responses sent. */
  function AfterSends(r: Backoff.Run, n: nat): Backoff.Run {
    if n == 0 then r else Backoff.Run(r.phase, Backoff.FRESH, r.events + seq(n, _ => Backoff.Sent))
  }

  lemma {:induction false} OneMoreSend(r: Backoff.Run, n: nat, maxConnRetry: int)
    ensures Backoff.Do(AfterSends(r, n), maxConnRetry, Backoff.SendResponse) == AfterSends(r, n + 1)
  {
    assert seq(n, _ => Backoff.Sent) + [Backoff.Sent] == seq(n + 1, _ => Backoff.Sent);
    assert r.events + [] == r.events;
  }

  /** The run so far, what each connection was sent, and what Start returned, if it did. */
  datatype Story = Story(run: Backoff.Run, outs: seq<Output>, finished: Option<Backoff.Outcome>)

  /** Connect, and answer what the connection brings until it ends. */
  function TellRound(r: Backoff.Run, maxConnRetry: int, round: Round): Story {
    var r1 := Backoff.Do(r, maxConnRetry, Backoff.TryConnect(round.drift, round.ctxDone, round.dial));
    match Backoff.ConnectOnce(r.retry, maxConnRetry, round.drift, round.ctxDone, round.dial).result
    case GiveUp(_) => Story(r1, [], Some(Backoff.RefreshCheck))
    case ContextDone => Story(r1, [], Some(Backoff.Nil))
    case TryAgain => Story(r1, [], None)
    case Connected =>
      var (o, ending) := Pipeline.Play(Output(round.intro, round.link), round.results);
      var r2 := AfterSends(r1, Answered(Output(round.intro, round.link), round.results));
      match ending
      case Some(ResetSeen) =>
        if round.doneAfter then Story(Backoff.Do(r2, maxConnRetry, Backoff.Cancel), [o], Some(Backoff.Nil))
        else Story(Backoff.Do(r2, maxConnRetry, Backoff.LoseConnection), [o], None)
      case Some(WriteFailed) =>
        Story(Backoff.Do(r2, maxConnRetry, Backoff.FailToSend), [o], Some(Backoff.RefreshCheck))
      case Some(FatalSeen) => Story(Backoff.Do(r2, maxConnRetry, Backoff.FailFatally), [o], Some(Backoff.FatalError))
      case _ => Story(Backoff.Do(r2, maxConnRetry, Backoff.Cancel), [o], Some(Backoff.Nil))
  }

  /** Round after round, until one finishes Start. */
  function Tell(r: Backoff.Run, maxConnRetry: int, rounds: seq<Round>): Story
    decreases |rounds|
  {
    if rounds == [] then Story(r, [], None)
    else
      var told := TellRound(r, maxConnRetry, rounds[0]);
      if told.finished.Some? then told
      else
        var rest := Tell(told.run, maxConnRetry, rounds[1..]);
        rest.(outs := told.outs + rest.outs)
  }

  // ---------------------------------------------------------------- what answers do to the run

  /** The results that are answered. */
  ghost function AnswerIndices(rs: seq<Command>): set<nat> {
    set i | 0 <= i < |rs| && Dispatch(rs[i]) == Answer
  }

  lemma {:induction false} AnswersCons(r: Command, rs: seq<Command>)
    ensures |AnswerIndices([r] + rs)| == |AnswerIndices(rs)| + if Dispatch(r) == Answer then 1 else 0
    decreases |rs|
  {
    hide Dispatch;
    if rs == [] {
      assert AnswerIndices([r] + rs) == if Dispatch(r) == Answer then {0} else {};
      assert AnswerIndices(rs) == {};
    } else {
      var before, x := rs[..|rs| - 1], rs[|rs| - 1];
      AnswersCons(r, before);
      AnswersSnoc(before, x);
      AnswersSnoc([r] + before, x);
      assert rs == before + [x] && [r] + rs == [r] + before + [x];
    }
  }

  lemma {:induction false} AnswersSnoc(rs: seq<Command>, x: Command)
    ensures |AnswerIndices(rs + [x])| == |AnswerIndices(rs)| + if Dispatch(x) == Answer then 1 else 0
  {
    hide Dispatch;
    assert AnswerIndices(rs + [x]) == AnswerIndices(rs) + if Dispatch(x) == Answer then {|rs|} else {};
  }

  /** As many sends are counted as there are answers among the results before the one that ends the
      loop, all of which were answered whole. */
  lemma {:induction false} AnsweredIsCounted(o: Output, rs: seq<Command>) returns (k: nat, last: seq<byte>)
    ensures var (o', ending) := Pipeline.Play(o, rs);
            && Pipeline.Wrote(o, rs, o', ending, k, last)
            && Answered(o, rs) == |AnswerIndices(rs[..k])|
    decreases |rs|
  {
    if rs == [] {
      k, last := 0, [];
      assert AnswerIndices(rs[..0]) == {};
    } else {
      var (o1, ending1) := Pipeline.HandleResult(o, rs[0]);
      Pipeline.HandleWrites(o, rs[0]);
      if ending1.Some? {
        k := 0;
        last :| o1.written == o.written + last && Pipeline.EndsAt(rs[0], ending1.value, last);
        assert AnswerIndices(rs[..0]) == {};
      } else {
        hide Pipeline.HandleResult, Dispatch;
        k, last := AnsweredIsCounted(o1, rs[1..]);
        Pipeline.WroteCons(o, rs, o1, Pipeline.Play(o, rs).0, Pipeline.Play(o, rs).1, k, last);
        assert rs[..k + 1] == [rs[0]] + rs[1..][..k];
        AnswersCons(rs[0], rs[1..][..k]);
        k := k + 1;
      }
    }
  }

  /** A connection that answered starts afresh: the attempts are cleared, and the next connect dials at
      once, without a sleep and whatever the limit. One that did not keeps its attempts and delay. */
  lemma {:induction false} AnsweringClearsTheAttempts(r: Backoff.Run, maxConnRetry: int, round: Round, next: Round)
    requires Backoff.ConnectOnce(r.retry, maxConnRetry, round.drift, round.ctxDone, round.dial).result == Backoff.Connected
    ensures var told := TellRound(r, maxConnRetry, round);
            var n := Answered(Output(round.intro, round.link), round.results);
            var a := Backoff.ConnectOnce(told.run.retry, maxConnRetry, next.drift, next.ctxDone, next.dial);
            && (n > 0 ==> told.run.retry == Backoff.Retry(0, 1) && a.events == [Backoff.Dialed] && !a.result.ContextDone?)
            && var dialled := Backoff.ConnectOnce(r.retry, maxConnRetry, round.drift, round.ctxDone, round.dial);
               (n == 0 ==> told.run.retry == dialled.retry)
  {
    hide Pipeline.Play, Answered, Backoff.NextDelay;
  }

  /** An answer that did not end the loop is counted. */
  lemma {:induction false} AnswersBeforeTheEnd(o: Output, rs: seq<Command>, i: nat)
    requires i < |rs| && Dispatch(rs[i]) == Answer && Pipeline.Play(o, rs[..i + 1]).1.None?
    ensures Answered(o, rs) > 0
    decreases i
  {
    assert rs[..i + 1][0] == rs[0] && rs[..i + 1][1..] == rs[1..][..i];
    if i > 0 {
      AnswersBeforeTheEnd(Pipeline.HandleResult(o, rs[0]).0, rs[1..], i - 1);
    }
  }

  /** The same from the results: some answer was sent, and the loop went on. */
  lemma {:induction false} AnAnswerClears(r: Backoff.Run, maxConnRetry: int, round: Round, next: Round, i: nat)
    requires Backoff.ConnectOnce(r.retry, maxConnRetry, round.drift, round.ctxDone, round.dial).result == Backoff.Connected
    requires i < |round.results| && Dispatch(round.results[i]) == Answer
    requires Pipeline.Play(Output(round.intro, round.link), round.results[..i + 1]).1.None?
    ensures var told := TellRound(r, maxConnRetry, round);
            && told.run.retry == Backoff.Retry(0, 1)
            && Backoff.ConnectOnce(told.run.retry, maxConnRetry, next.drift, next.ctxDone, next.dial).events == [Backoff.Dialed]
  {
    hide *;
    AnswersBeforeTheEnd(Output(round.intro, round.link), round.results, i);
    AnsweringClearsTheAttempts(r, maxConnRetry, round, next);
  }

  /** Were a result ever marked fatal, it would end Start at once with a fatal error. */
  lemma {:induction false} FatalResultEndsStart(r: Backoff.Run, maxConnRetry: int, round: Round, cmd: Command)
    requires Backoff.ConnectOnce(r.retry, maxConnRetry, round.drift, round.ctxDone, round.dial).result == Backoff.Connected
    requires cmd.err.Some? && !cmd.ignore && !cmd.reset && cmd.fatal && round.results == [cmd]
    ensures var told := TellRound(r, maxConnRetry, round);
            && told.finished == Some(Backoff.FatalError) && told.run.phase == Backoff.Finished(Backoff.FatalError)
            && told.outs == [Output(round.intro, round.link)]
    ensures Verdict(Pipeline.FatalSeen, round.doneAfter) == Some(Backoff.FatalError)
  {
    hide Backoff.ConnectOnce;
  }

  /** The run is finished exactly when the story is, with the same outcome. */
  lemma {:induction false} StoryAndRunAgree(r: Backoff.Run, maxConnRetry: int, rounds: seq<Round>)
    requires r.phase == Backoff.Connecting
    ensures var story := Tell(r, maxConnRetry, rounds);
            story.run.phase == if story.finished.Some? then Backoff.Finished(story.finished.value) else Backoff.Connecting
    decreases |rounds|
  {
    if rounds != [] {
      RoundAndRunAgree(r, maxConnRetry, rounds[0]);
      hide TellRound;
      var told := TellRound(r, maxConnRetry, rounds[0]);
      if told.finished.None? {
        StoryAndRunAgree(told.run, maxConnRetry, rounds[1..]);
      }
    }
  }

  lemma {:induction false} RoundAndRunAgree(r: Backoff.Run, maxConnRetry: int, round: Round)
    requires r.phase == Backoff.Connecting
    ensures var told := TellRound(r, maxConnRetry, round);
            told.run.phase == if told.finished.Some? then Backoff.Finished(told.finished.value) else Backoff.Connecting
  {
    hide Pipeline.Play, Answered, Backoff.NextDelay;
  }

  // ---------------------------------------------------------------- Start over its pipelines

  /** The pipeline of one connection and a schedule of it. */
  datatype Serving = Serving(env: Pipeline.Env, steps: seq<Pipeline.Step>)

  ghost function Outcome(v: Serving): Pipeline.State
    requires Pipeline.Schedule(v.env, Pipeline.Init(v.env), v.steps)
  {
    Pipeline.Exec(v.env, Pipeline.Init(v.env), v.steps)
  }

  /** The results of the round are those Start handled in a schedule of the round's connection that
      it has left; a context cancelled in it stays so. */
  ghost predicate ServedBy(round: Round, v: Serving) {
    && Pipeline.Schedule(v.env, Pipeline.Init(v.env), v.steps)
    && v.env.intro == round.intro && v.env.link == round.link
    && var s := Outcome(v);
       && s.consumer.Left? && (s.ctxDone ==> round.doneAfter)
       && s.handled <= |s.delivered| && round.results == s.delivered[..s.handled]
  }

  /** Every round whose dial succeeds is served by a pipeline. */
  ghost predicate AllServed(rounds: seq<Round>, served: seq<Serving>) {
    && |rounds| == |served|
    && forall i :: 0 <= i < |rounds| && rounds[i].dial == Backoff.Established ==> ServedBy(rounds[i], served[i])
  }

  function Dialled(r: Backoff.Run, maxConnRetry: int, round: Round): Backoff.Connect {
    Backoff.ConnectOnce(r.retry, maxConnRetry, round.drift, round.ctxDone, round.dial).result
  }

  /** What Start returns, if it does, after a connection its pipeline was left for this reason. */
  function Verdict(why: Pipeline.Ending, doneAfter: bool): Option<Backoff.Outcome> {
    match why
    case ResetSeen => if doneAfter then Some(Backoff.Nil) else None
    case WriteFailed => Some(Backoff.RefreshCheck)
    case FatalSeen => Some(Backoff.FatalError)
    case Cancelled => Some(Backoff.Nil)
    case Drained => Some(Backoff.Nil)
  }

  /** The outputs of exactly the connected rounds, as their schedules left them, up to the round that
      finishes Start; and how it finishes: by giving up, by a cancelled context while waiting to dial,
      or as the pipeline of that round ended. */
  ghost function OverPipelines(r: Backoff.Run, maxConnRetry: int, rounds: seq<Round>, served: seq<Serving>)
    : (seq<Output>, Option<Backoff.Outcome>)
    requires AllServed(rounds, served)
    decreases |rounds|
  {
    if rounds == [] then ([], None)
    else
      var round, next := rounds[0], TellRound(r, maxConnRetry, rounds[0]).run;
      assert AllServed(rounds[1..], served[1..]);
      match Dialled(r, maxConnRetry, round)
      case GiveUp(_) => ([], Some(Backoff.RefreshCheck))
      case ContextDone => ([], Some(Backoff.Nil))
      case TryAgain => OverPipelines(next, maxConnRetry, rounds[1..], served[1..])
      case Connected =>
        ConnectedIsDialled(r, maxConnRetry, round);
        assert ServedBy(round, served[0]);
        var s := Outcome(served[0]);
        var finished := Verdict(s.consumer.why, round.doneAfter);
        if finished.Some? then ([s.out], finished)
        else
          var (outs, end) := OverPipelines(next, maxConnRetry, rounds[1..], served[1..]);
          ([s.out] + outs, end)
  }

  lemma {:induction false} ConnectedIsDialled(r: Backoff.Run, maxConnRetry: int, round: Round)
    ensures Dialled(r, maxConnRetry, round) == Backoff.Connected ==> round.dial == Backoff.Established
  {
  }

  lemma {:induction false} RoundOnTheWire(round: Round, v: Serving)
    requires ServedBy(round, v)
    ensures var s := Outcome(v);
            && Pipeline.Play(Output(round.intro, round.link), round.results)
               == (s.out, if Pipeline.EndedByResult(s) then Some(s.consumer.why) else None)
            && s.consumer.why != Pipeline.FatalSeen
  {
    var s, rs := Pipeline.Handled(v.env, v.steps);
    hide Pipeline.Play, Pipeline.Exec, Pipeline.Schedule, Pipeline.Inv;
  }

  /** One round over its pipeline: its output, if it got connected, is that of the connection, and
      Start goes on exactly after a reset with the context not done. */
  lemma {:induction false} RoundTold(r: Backoff.Run, maxConnRetry: int, round: Round, v: Serving)
    requires Dialled(r, maxConnRetry, round) == Backoff.Connected && ServedBy(round, v)
    ensures var (told, s) := (TellRound(r, maxConnRetry, round), Outcome(v));
            && told.outs == [s.out]
            && told.finished == Verdict(s.consumer.why, round.doneAfter)
            && s.consumer.why != Pipeline.FatalSeen
  {
    RoundOnTheWire(round, v);
    hide Pipeline.Play, Answered, Backoff.Do, Backoff.ConnectOnce, AfterSends, Outcome, ServedBy;
  }

  /** What Start does over the pipelines of its connections, each in any schedule: its outputs are
      those of exactly the connections it got, one each and in order, and it returns what the last
      of its rounds says; never a fatal error. */
  lemma {:induction false} StartOverPipelines(r: Backoff.Run, maxConnRetry: int, rounds: seq<Round>, served: seq<Serving>)
    requires AllServed(rounds, served)
    ensures var story := Tell(r, maxConnRetry, rounds);
            && (story.outs, story.finished) == OverPipelines(r, maxConnRetry, rounds, served)
            && story.finished != Some(Backoff.FatalError)
    decreases |rounds|
  {
    if rounds != [] {
      var round, told := rounds[0], TellRound(r, maxConnRetry, rounds[0]);
      assert AllServed(rounds[1..], served[1..]);
      StartOverPipelines(told.run, maxConnRetry, rounds[1..], served[1..]);
      ConnectedIsDialled(r, maxConnRetry, round);
      if Dialled(r, maxConnRetry, round) == Backoff.Connected {
        assert ServedBy(round, served[0]);
        hide ServedBy, Outcome, AllServed, Backoff.Do, Backoff.ConnectOnce;
        RoundTold(r, maxConnRetry, round, served[0]);
        hide TellRound;
      } else {
        hide ServedBy, Outcome, AllServed, Backoff.Do, Backoff.ConnectOnce;
        var later := Tell(told.run, maxConnRetry, rounds[1..]).outs;
        assert [] + later == later;
      }
    }
  }

  class Connection {
    var state: ConnState
    var delay: nat
    var commTimeouts: nat
    var connAttempts: nat
    const maxConnRetry: int
    ghost var steps: seq<Backoff.Step>

    /** The run of the retry machine so far. */
    ghost function History(): Backoff.Run
      reads this
    {
      Backoff.Exec(Backoff.START, maxConnRetry, steps)
    }

    /** The fields are those of a run of the retry machine. */
    ghost predicate Valid()
      reads this
    {
      && Backoff.Schedule(Backoff.START, maxConnRetry, steps)
      && History().retry == Backoff.Retry(connAttempts, delay)
    }

    constructor (maxConnRetry: int)
      ensures Valid() && History() == Backoff.START && this.maxConnRetry == maxConnRetry
      ensures state == New && commTimeouts == 0
    {
      this.maxConnRetry := maxConnRetry;
      state, delay, commTimeouts, connAttempts := New, 1, 0, 0;
      steps := [];
    }

    ghost method Record(step: Backoff.Step)
      requires Backoff.Schedule(Backoff.START, maxConnRetry, steps) && Backoff.Enabled(History(), step)
      modifies this`steps
      ensures Backoff.Schedule(Backoff.START, maxConnRetry, steps)
      ensures History() == Backoff.Do(old(History()), maxConnRetry, step)
    {
      Backoff.ExecSnoc(Backoff.START, maxConnRetry, steps, step);
      steps := steps + [step];
    }

    method GetNextDelay(currDelay: nat, drift: Backoff.Drift) returns (next: nat)
      ensures next == Backoff.NextDelay(currDelay, drift)
      ensures 1 <= currDelay <= Backoff.MAX_DELAY_SECONDS ==> 1 <= next <= Backoff.MAX_DELAY_SECONDS
    {
      if currDelay == Backoff.MAX_DELAY_SECONDS {
        return Backoff.MIN_DELAY_STEP;
      }
      next := currDelay;
      if next < Backoff.MAX_DELAY_SECONDS {
        next := next + drift;
      }
      if next > Backoff.MAX_DELAY_SECONDS {
        next := Backoff.MAX_DELAY_SECONDS;
      }
    }

    /** connect: everything but the bytes of the handshake. */
    method Connect(drift: Backoff.Drift, ctxDone: bool, dial: Backoff.Dial) returns (result: Backoff.Connect)
      requires Valid() && History().phase == Backoff.Connecting
      modifies this
      ensures Valid()
      ensures History() == Backoff.Do(old(History()), maxConnRetry, Backoff.TryConnect(drift, ctxDone, dial))
      ensures result == Backoff.ConnectOnce(old(History()).retry, maxConnRetry, drift, ctxDone, dial).result
      ensures result == Backoff.Connected ==> state == Idle && commTimeouts == 0
      ensures result != Backoff.Connected ==> state == old(state) && commTimeouts == old(commTimeouts)
    {
      Record(Backoff.TryConnect(drift, ctxDone, dial));
      if connAttempts > 0 {
        if maxConnRetry != Backoff.UNLIMITED && connAttempts >= maxConnRetry {
          return Backoff.GiveUp(Backoff.AttemptsExhausted);
        }
        if ctxDone {
          return Backoff.ContextDone;
        }
        delay := GetNextDelay(delay, drift);
        if connAttempts % Backoff.CONFIG_RETRY_LIMIT == 0 {
          return Backoff.GiveUp(Backoff.CheckRefresh);
        }
      }
      connAttempts := connAttempts + 1;
      match dial {
        case Established =>
          state := Idle;
          commTimeouts := 0;
          return Backoff.Connected;
        case DialTimeout(temporary) =>
          return if temporary then Backoff.TryAgain else Backoff.GiveUp(Backoff.DialNotTemporary);
        case DialFailed =>
          return Backoff.TryAgain;
        case IntroFailed =>
          return Backoff.TryAgain;
      }
    }

    method ResetConnectionAttempts()
      requires Valid() && History().phase == Backoff.Serving
      modifies this
      ensures Valid() && History() == Backoff.Do(old(History()), maxConnRetry, Backoff.SendResponse)
      ensures state == old(state) && commTimeouts == old(commTimeouts)
    {
      Backoff.BackoffBounds(Backoff.START, maxConnRetry, steps);
      Record(Backoff.SendResponse);
      if connAttempts > 0 {
        delay := 1;
        connAttempts := 0;
      }
    }

    // -------------------------------------------------------------- commands

    /** The part of readCommand that follows a frame read, for either of its frames. */
    method ReadFrame(r: Reader, ghost history: seq<FrameEvent>) returns (frame: Result<Frame, ReadError>)
      modifies r, this`commTimeouts
      ensures NextFrame(ReaderState(old(r.Value()), old(commTimeouts), history))
           == (frame, ReaderState(r.Value(), commTimeouts, history + [EventOf(frame)]))
    {
      frame := r.ReadFrame();
      if frame.Ok? {
        commTimeouts := 0;
      } else if frame.error == Net(TimedOut) {
        commTimeouts := commTimeouts + 1;
      }
    }

    method FrameFailed(e: ReadError, err: CommandError) returns (cmd: Command)
      ensures cmd == FailedRead(e, err, commTimeouts)
    {
      var reset, ignore := true, false;
      if e == Net(TimedOut) {
        if commTimeouts <= MAX_COMM_TIMEOUTS {
          reset, ignore := false, true;
        }
      }
      cmd := BLANK.(err := Some(err), reset := reset, ignore := ignore);
    }

    /** readCommand */
    method ReadCommand(r: Reader, ghost history: seq<FrameEvent>) returns (cmd: Command, ghost history': seq<FrameEvent>)
      modifies r, this`commTimeouts
      ensures Commands.ReadCommand(ReaderState(old(r.Value()), old(commTimeouts), history))
           == (cmd, ReaderState(r.Value(), commTimeouts, history'))
    {
      var cmdPkt := ReadFrame(r, history);
      history' := history + [EventOf(cmdPkt)];
      if cmdPkt.Err? {
        cmd := FrameFailed(cmdPkt.error, ReadingCommand(cmdPkt.error));
        return;
      }
      if !cmdPkt.value.isCommand {
        cmd := BLANK.(err := Some(ExpectedCommand));
        return;
      }
      cmd := BLANK.(channelID := cmdPkt.value.channelID, name := cmdPkt.value.payload);
      if cmd.name == CONNECT {
        var reqPkt := ReadFrame(r, history');
        history' := history' + [EventOf(reqPkt)];
        if reqPkt.Err? {
          cmd := FrameFailed(reqPkt.error, ReadingPayload(reqPkt.error));
          return;
        }
        if reqPkt.value.isCommand {
          cmd := cmd.(err := Some(ExpectedRequest));
          return;
        }
        cmd := cmd.(request := reqPkt.value.payload);
      }
    }

    /** processCommand, given what fetching would bring. */
    method ProcessCommand(cmd: Command, fetched: Fetch) returns (result: Command)
      ensures result == Commands.ProcessCommand(cmd, fetched)
    {
      result := cmd;
      if result.err.Some? {
        return;
      }
      if result.name == RESET {
        result := result.(err := Some(ResetReceived));
        result := result.(ignore := false);
        result := result.(reset := true);
        return;
      }
      if result.name != CONNECT {
        result := result.(ignore := true);
        result := result.(err := Some(UnusedCommand));
        return;
      }
      if |result.request| == 0 {
        result := result.(err := Some(EmptyRequest));
        return;
      }
      if fetched.None? {
        result := result.(err := Some(FetchFailed));
        return;
      }
      result := result.(metrics := fetched);
    }

    // -------------------------------------------------------------- Start

    /** The loop of Start over the results of one connection. Each response sent clears the
        attempts; a reset or a failed write ends the loop. */
    method Consume(results: seq<Command>, conn: Outbound) returns (ending: Option<Pipeline.Ending>)
      requires Valid() && History().phase == Backoff.Serving
      modifies this, conn
      ensures Valid()
      ensures (conn.out, ending) == Pipeline.Play(old(conn.out), results)
      ensures History() == AfterSends(old(History()), Answered(old(conn.out), results))
      ensures state == if Answered(old(conn.out), results) > 0 then Active else old(state)
    {
      hide Backoff.Do, Backoff.Exec, Backoff.Schedule;
      ghost var n := 0;
      for i := 0 to |results|
        invariant Valid() && History() == AfterSends(old(History()), n)
        invariant state == if n > 0 then Active else old(state)
        invariant Pipeline.Play(conn.out, results[i..]) == Pipeline.Play(old(conn.out), results)
        invariant n + Answered(conn.out, results[i..]) == Answered(old(conn.out), results)
      {
        var result := results[i];
        assert results[i..][0] == result && results[i..][1..] == results[i + 1..];
        if result.ignore {
          continue;
        }
        if result.err.Some? {
          if result.reset {
            return Some(Pipeline.ResetSeen);
          }
          if result.fatal {
            return Some(Pipeline.FatalSeen);
          }
          continue;
        }
        var ok := conn.SendMetricData(result.channelID, result.metrics);
        if !ok {
          return Some(Pipeline.WriteFailed);
        }
        state := Active;
        ResetConnectionAttempts();
        OneMoreSend(old(History()), n, maxConnRetry);
        n := n + 1;
      }
      assert results[|results|..] == [];
      return None;
    }

    /** One turn of the loop of Start. */
    method Turn(round: Round) returns (finished: Option<Backoff.Outcome>, outs: seq<Output>)
      requires Valid() && History().phase == Backoff.Connecting
      modifies this
      ensures Valid() && Story(History(), outs, finished) == TellRound(old(History()), maxConnRetry, round)
      ensures finished.None? ==> History().phase == Backoff.Connecting
    {
      hide Pipeline.Play, Answered, Backoff.Exec, Backoff.Schedule;
      outs := [];
      var result := Connect(round.drift, round.ctxDone, round.dial);
      if result.GiveUp? {
        return Some(Backoff.RefreshCheck), outs;
      }
      if result == Backoff.ContextDone {
        return Some(Backoff.Nil), outs;
      }
      if result == Backoff.TryAgain {
        return None, outs;
      }
      var conn := new Outbound(round.link);
      conn.out := conn.out.(written := round.intro);
      var ending := Consume(round.results, conn);
      outs := [conn.out];
      if ending == Some(Pipeline.ResetSeen) && !round.doneAfter {
        Record(Backoff.LoseConnection);
        finished := None;
      } else if ending == Some(Pipeline.WriteFailed) {
        Record(Backoff.FailToSend);
        finished := Some(Backoff.RefreshCheck);
      } else if ending == Some(Pipeline.FatalSeen) {
        Record(Backoff.FailFatally);
        finished := Some(Backoff.FatalError);
      } else {
        Record(Backoff.Cancel);
        finished := Some(Backoff.Nil);
      }
    }

    /** Start, for as many turns as given: what Tell says, so that whatever the turns bring the
        bounds of the retry machine hold between any two responses. */
    method Start(rounds: seq<Round>) returns (finished: Option<Backoff.Outcome>, outs: seq<Output>)
      requires Valid() && History() == Backoff.START
      modifies this
      ensures Valid() && Story(History(), outs, finished) == Tell(Backoff.START, maxConnRetry, rounds)
      ensures connAttempts <= Backoff.CONFIG_RETRY_LIMIT
      ensures Backoff.DialsSinceSend(History().events) <= Backoff.DialLimit(maxConnRetry)
      ensures Backoff.SleptSinceSend(History().events) <= 18
    {
      hide TellRound, Backoff.Exec, Backoff.Schedule;
      hide Backoff.DialsSinceSend, Backoff.SleptSinceSend, Backoff.DialLimit, Backoff.SleepsInRange;
      outs, finished := [], None;
      ghost var story := Tell(Backoff.START, maxConnRetry, rounds);
      for i := 0 to |rounds|
        invariant Valid() && History().phase == Backoff.Connecting && finished.None?
        invariant var rest := Tell(History(), maxConnRetry, rounds[i..]);
                  story == rest.(outs := outs + rest.outs)
      {
        assert rounds[i..][0] == rounds[i] && rounds[i..][1..] == rounds[i + 1..];
        var sent;
        finished, sent := Turn(rounds[i]);
        outs := outs + sent;
        if finished.Some? {
          break;
        }
      }
      Backoff.StartInv(maxConnRetry);
      Backoff.BackoffBounds(Backoff.START, maxConnRetry, steps);
    }
  }
}
