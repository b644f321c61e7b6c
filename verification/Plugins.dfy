/** One plugin shared by any number of threads that run it and drain its metrics
    (internal/plugins/plugin.go). Each step is one section under the plugin's lock. */
module Plugins {
  import opened Common

  type Metrics = map<string, string>
  type Thread = nat

  // ---------------------------------------------------------------- the protocol

  /** The fields under the lock. Before the first run there is no last end. */
  datatype Fields = Fields(
    running: bool,
    lastEnd: Option<int>,
    metrics: Option<Metrics>,
    prevMetrics: Option<Metrics>)

  datatype Event =
    | Started(thread: Thread, now: int)
    | Ended(thread: Thread, now: int)
    | Parsed(metrics: Metrics)
    | Drained(metrics: Metrics)

  /** The plugin, the threads between starting and ending a run, the time, and the history. */
  datatype State = State(fields: Fields, runners: set<Thread>, clock: int, log: seq<Event>)

  datatype Step =
    | TryStart(thread: Thread, now: int)
    | Parse(thread: Thread, metrics: Metrics)
    | Finish(thread: Thread, now: int)
    | Drain

  datatype Refusal = TTLNotExpired | AlreadyRunning

  /** The first section of exec: what refuses a run. */
  function Refused(f: Fields, runTTL: int, now: int): Option<Refusal> {
    if runTTL > 0 && f.lastEnd.Some? && now - f.lastEnd.value < runTTL then Some(TTLNotExpired)
    else if f.running then Some(AlreadyRunning)
    else None
  }

  /** drain: the metrics, and the fields after it. */
  function DrainFields(f: Fields): (Metrics, Fields) {
    match f.metrics
    case None => (if f.prevMetrics.None? then map[] else f.prevMetrics.value, f)
    case Some(m) => (m, f.(metrics := None, prevMetrics := Some(m)))
  }

  predicate Enabled(s: State, step: Step) {
    match step
    case TryStart(thread, now) => thread !in s.runners && now >= s.clock
    case Parse(thread, _) => thread in s.runners
    case Finish(thread, now) => thread in s.runners && now >= s.clock
    case Drain => true
  }

  function Do(s: State, runTTL: int, step: Step): State {
    match step
    case TryStart(thread, now) =>
      if Refused(s.fields, runTTL, now).Some? then s.(clock := now)
      else
        State(s.fields.(running := true), s.runners + {thread}, now, s.log + [Started(thread, now)])
    case Parse(_, metrics) =>
      s.(fields := s.fields.(metrics := Some(metrics)), log := s.log + [Parsed(metrics)])
    case Finish(thread, now) =>
      State(s.fields.(running := false, lastEnd := Some(now)), s.runners - {thread}, now, s.log + [Ended(thread, now)])
    case Drain =>
      var (m, f) := DrainFields(s.fields);
      s.(fields := f, log := s.log + [Drained(m)])
  }

  predicate Schedule(s: State, runTTL: int, steps: seq<Step>)
    decreases |steps|
  {
    steps == [] || (Enabled(s, steps[0]) && Schedule(Do(s, runTTL, steps[0]), runTTL, steps[1..]))
  }

  function Exec(s: State, runTTL: int, steps: seq<Step>): State
    decreases |steps|
  {
    if steps == [] then s else Exec(Do(s, runTTL, steps[0]), runTTL, steps[1..])
  }

  const FRESH := Fields(false, None, None, None)

  // ---------------------------------------------------------------- what holds in every schedule

  /** The metrics of the latest parse: what one register, written by parsing and read by
      draining, would hold. */
  function Register(log: seq<Event>): Metrics {
    if log == [] then map[]
    else
      var last := |log| - 1;
      if log[last].Parsed? then log[last].metrics else Register(log[..last])
  }

  /** The i-th event keeps to the protocol: a drain returns the register; a start comes after all
      runs so far have ended, the time to live after the end of each. */
  predicate ProperAt(log: seq<Event>, runTTL: int, i: nat)
    requires i < |log|
  {
    && (log[i].Drained? ==> log[i].metrics == Register(log[..i]))
    && (log[i].Started? ==>
          && Open(log[..i]) == 0
          && (runTTL > 0 ==> forall j :: 0 <= j < i && log[j].Ended? ==> log[i].now - log[j].now >= runTTL))
  }

  predicate Proper(log: seq<Event>, runTTL: int) {
    forall i :: 0 <= i < |log| ==> ProperAt(log, runTTL, i)
  }

  /** Runs started and not ended. */
  function Open(log: seq<Event>): int {
    if log == [] then 0
    else
      var last := |log| - 1;
      Open(log[..last]) + (match log[last] case Started(_, _) => 1 case Ended(_, _) => -1 case _ => 0)
  }

  /** Some run ended then. */
  predicate EndedAt(log: seq<Event>, now: int) {
    exists j :: 0 <= j < |log| && log[j].Ended? && log[j].now == now
  }

  predicate Inv(s: State, runTTL: int) {
    && Open(s.log) == |s.runners| == (if s.fields.running then 1 else 0)
    && (forall j :: 0 <= j < |s.log| && s.log[j].Ended? ==>
          s.fields.lastEnd.Some? && s.log[j].now <= s.fields.lastEnd.value)
    && (s.fields.lastEnd.Some? ==> s.fields.lastEnd.value <= s.clock && EndedAt(s.log, s.fields.lastEnd.value))
    && DrainFields(s.fields).0 == Register(s.log)
    && Proper(s.log, runTTL)
  }

  lemma {:induction false} AppendEvent(log: seq<Event>, runTTL: int, e: Event)
    ensures Register(log + [e]) == if e.Parsed? then e.metrics else Register(log)
    ensures Open(log + [e]) == Open(log) + (match e case Started(_, _) => 1 case Ended(_, _) => -1 case _ => 0)
    ensures Proper(log, runTTL) && ProperAt(log + [e], runTTL, |log|) ==> Proper(log + [e], runTTL)
    ensures (log + [e])[..|log|] == log
    ensures forall now :: EndedAt(log, now) ==> EndedAt(log + [e], now)
    ensures e.Ended? ==> EndedAt(log + [e], e.now)
  {
    var log' := log + [e];
    assert forall j :: 0 <= j < |log| ==> log'[j] == log[j];
    assert e.Ended? ==> log'[|log|].Ended?;
    assert log'[..|log|] == log;
    if Proper(log, runTTL) && ProperAt(log', runTTL, |log|) {
      forall i | 0 <= i < |log'| ensures ProperAt(log', runTTL, i) {
        if i < |log| {
          assert ProperAt(log, runTTL, i) && log'[..i] == log[..i];
        }
      }
    }
  }

  lemma {:induction false} StepKeepsInv(s: State, runTTL: int, step: Step)
    requires Inv(s, runTTL) && Enabled(s, step)
    ensures Inv(Do(s, runTTL, step), runTTL)
  {
    hide Proper, Register, Open, EndedAt;
    match step
    case TryStart(thread, now) =>
      if Refused(s.fields, runTTL, now).None? {
        AppendEvent(s.log, runTTL, Started(thread, now));
      }
    case Parse(_, metrics) =>
      AppendEvent(s.log, runTTL, Parsed(metrics));
    case Finish(thread, now) =>
      AppendEvent(s.log, runTTL, Ended(thread, now));
    case Drain =>
      AppendEvent(s.log, runTTL, Drained(DrainFields(s.fields).0));
  }

  lemma {:induction false} InvAlways(s: State, runTTL: int, steps: seq<Step>)
    requires Inv(s, runTTL) && Schedule(s, runTTL, steps)
    ensures Inv(Exec(s, runTTL, steps), runTTL)
    decreases |steps|
  {
    if steps != [] {
      StepKeepsInv(s, runTTL, steps[0]);
      InvAlways(Do(s, runTTL, steps[0]), runTTL, steps[1..]);
    }
  }

  /** With any number of threads in any schedule: at most one is running the plugin; every run
      starts at least the time to live after every earlier one ended; and every drain returns
      the metrics of the latest parse, empty before the first. */
  lemma {:induction false} RunProtocol(clock: int, runTTL: int, steps: seq<Step>)
    requires Schedule(State(FRESH, {}, clock, []), runTTL, steps)
    ensures var s := Exec(State(FRESH, {}, clock, []), runTTL, steps);
            && |s.runners| <= 1
            && Proper(s.log, runTTL)
  {
    InvAlways(State(FRESH, {}, clock, []), runTTL, steps);
  }

  /** In every schedule a thread that asks to run is granted it exactly if all runs have ended, the
      time to live ago where there is one; and asking in vain leaves no trace but the time. */
  lemma {:induction false} StartIsGrantedIff(clock: int, runTTL: int, steps: seq<Step>, thread: Thread, now: int)
    requires Schedule(State(FRESH, {}, clock, []), runTTL, steps)
    requires Enabled(Exec(State(FRESH, {}, clock, []), runTTL, steps), TryStart(thread, now))
    ensures var s := Exec(State(FRESH, {}, clock, []), runTTL, steps);
            var s' := Do(s, runTTL, TryStart(thread, now));
            var rested := runTTL > 0 ==> forall j :: 0 <= j < |s.log| && s.log[j].Ended? ==> now - s.log[j].now >= runTTL;
            && (Open(s.log) == 0 && rested ==>
                  s'.log == s.log + [Started(thread, now)] && s'.runners == {thread} && s'.fields.running)
            && (!(Open(s.log) == 0 && rested) ==> s' == s.(clock := now))
            && (s'.fields.metrics, s'.fields.prevMetrics) == (s.fields.metrics, s.fields.prevMetrics)
  {
    InvAlways(State(FRESH, {}, clock, []), runTTL, steps);
    var s := Exec(State(FRESH, {}, clock, []), runTTL, steps);
    hide Proper, Register, Open, Exec, Schedule;
    var rested := runTTL > 0 ==> forall j :: 0 <= j < |s.log| && s.log[j].Ended? ==> now - s.log[j].now >= runTTL;
    assert rested <==> runTTL <= 0 || s.fields.lastEnd.None? || now - s.fields.lastEnd.value >= runTTL;
    assert |s.runners| == 0 <==> s.runners == {};
  }

  /** Schedules are built step by step. */
  lemma {:induction false} OneMoreStep(s: State, runTTL: int, steps: seq<Step>, step: Step)
    ensures Schedule(s, runTTL, steps + [step])
       <==> Schedule(s, runTTL, steps) && Enabled(Exec(s, runTTL, steps), step)
    ensures Exec(s, runTTL, steps + [step]) == Do(Exec(s, runTTL, steps), runTTL, step)
    decreases |steps|
  {
    hide Do, Enabled;
    var all := steps + [step];
    if steps == [] {
      assert all == [step] && all[1..] == [];
      assert Exec(s, runTTL, all) == Exec(Do(s, runTTL, step), runTTL, []);
      assert Schedule(Do(s, runTTL, step), runTTL, []);
    } else {
      assert all[0] == steps[0] && all[1..] == steps[1..] + [step];
      OneMoreStep(Do(s, runTTL, steps[0]), runTTL, steps[1..], step);
    }
  }

  /** In every schedule each parse, end and drain is recorded, a drain with the metrics of the latest
      parse; a drain leaves no metrics, and repeats itself until the next parse. */
  lemma {:induction false} StepsAreRecorded(clock: int, runTTL: int, steps: seq<Step>, step: Step)
    requires Schedule(State(FRESH, {}, clock, []), runTTL, steps) && !step.TryStart?
    ensures var s := Exec(State(FRESH, {}, clock, []), runTTL, steps);
            var s' := Do(s, runTTL, step);
            && (step.Parse? ==> s'.log == s.log + [Parsed(step.metrics)])
            && (step.Finish? ==> s'.log == s.log + [Ended(step.thread, step.now)])
            && (step.Drain? ==> s'.log == s.log + [Drained(Register(s.log))])
            && (step.Drain? ==> s'.fields.metrics.None? && DrainFields(s'.fields) == (Register(s.log), s'.fields))
            && (step.Finish? ==> !s'.fields.running && s'.fields.lastEnd == Some(step.now) && s'.clock == step.now)
  {
    InvAlways(State(FRESH, {}, clock, []), runTTL, steps);
    hide Proper, Register, Open, Exec, Schedule;
  }

  // ---------------------------------------------------------------- output lines

  /** The blocks handed to the parser: a blank line ends one, and so does the end of the output. */
  function Blocks(lines: seq<string>, buffer: seq<string>): seq<seq<string>> {
    if lines == [] then [buffer]
    else if lines[0] == "" then [buffer] + Blocks(lines[1..], [])
    else Blocks(lines[1..], buffer + [lines[0]])
  }

  function NonBlank(lines: seq<string>): seq<string> {
    if lines == [] then []
    else if lines[0] == "" then NonBlank(lines[1..])
    else [lines[0]] + NonBlank(lines[1..])
  }

  function LastBlock(lines: seq<string>, buffer: seq<string>): seq<string> {
    var bs := Blocks(lines, buffer);
    if bs == [] then [] else bs[|bs| - 1]
  }

  /** Every line but the blank ones reaches the parser, once and in order. */
  lemma {:induction false} BlocksLoseNoLine(lines: seq<string>, buffer: seq<string>)
    ensures Concat(Blocks(lines, buffer)) == buffer + NonBlank(lines)
  {
    if lines == [] {
      assert Concat([buffer]) == buffer + Concat<string>([]);
    } else if lines[0] == "" {
      BlocksLoseNoLine(lines[1..], []);
      var rest := Blocks(lines[1..], []);
      assert ([buffer] + rest)[1..] == rest;
    } else {
      BlocksLoseNoLine(lines[1..], buffer + [lines[0]]);
    }
  }

  /** A blank line behind some text. */
  predicate BlankAfterText(lines: seq<string>) {
    exists i, j :: 0 <= i < j < |lines| && lines[i] != "" && lines[j] == ""
  }

  predicate HasBlank(lines: seq<string>) {
    exists j :: 0 <= j < |lines| && lines[j] == ""
  }

  lemma {:induction false} HasBlankRest(lines: seq<string>)
    requires lines != []
    ensures HasBlank(lines) <==> lines[0] == "" || HasBlank(lines[1..])
  {
    if lines[0] != "" && HasBlank(lines) {
      var j :| 0 <= j < |lines| && lines[j] == "";
      assert lines[1..][j - 1] == "";
    }
    if j :| 0 <= j < |lines| - 1 && lines[1..][j] == "" {
      assert lines[j + 1] == "";
    }
  }

  lemma {:induction false} LastBlockIs(lines: seq<string>, buffer: seq<string>)
    ensures !HasBlank(lines) ==> LastBlock(lines, buffer) == buffer + NonBlank(lines)
    ensures HasBlank(lines) ==> |LastBlock(lines, buffer)| <= |NonBlank(lines)|
  {
    if lines != [] {
      HasBlankRest(lines);
      if lines[0] == "" {
        BlocksAreSome(lines[1..], []);
        LastBlockIs(lines[1..], []);
      } else {
        LastBlockIs(lines[1..], buffer + [lines[0]]);
      }
    }
  }

  lemma {:induction false} BlocksAreSome(lines: seq<string>, buffer: seq<string>)
    ensures Blocks(lines, buffer) != []
  {
    if lines != [] && lines[0] != "" {
      BlocksAreSome(lines[1..], buffer + [lines[0]]);
    }
  }

  /** Each parse replaces the metrics of the one before: what is left after a run is the last
      block, and that is all of the output exactly if no blank line follows some text. */
  lemma {:induction false} LastBlockIsAllIff(lines: seq<string>)
    ensures LastBlock(lines, []) == NonBlank(lines) <==> !BlankAfterText(lines)
  {
    if lines != [] {
      var rest := lines[1..];
      if lines[0] == "" {
        LastBlockIsAllIff(rest);
        BlocksAreSome(rest, []);
        if i, j :| 0 <= i < j < |lines| && lines[i] != "" && lines[j] == "" {
          assert rest[i - 1] != "" && rest[j - 1] == "";
        }
        if i, j :| 0 <= i < j < |rest| && rest[i] != "" && rest[j] == "" {
          assert lines[i + 1] != "" && lines[j + 1] == "";
        }
      } else {
        assert [] + [lines[0]] == [lines[0]];
        LastBlockIs(rest, [lines[0]]);
        if j :| 0 <= j < |rest| && rest[j] == "" {
          assert lines[0] != "" && lines[j + 1] == "";
        } else {
          assert forall j :: 0 < j < |lines| ==> lines[j] == rest[j - 1];
        }
      }
    }
  }

  /** The block left after a run is what follows the last blank line, or everything without one. */
  lemma {:induction false} LastBlockIsTheTail(lines: seq<string>, buffer: seq<string>, i: nat)
    requires i <= |lines| && forall j :: i <= j < |lines| ==> lines[j] != ""
    requires i > 0 ==> lines[i - 1] == ""
    ensures LastBlock(lines, buffer) == if i == 0 then buffer + lines else lines[i..]
    decreases |lines|
  {
    if lines != [] {
      var rest := lines[1..];
      if lines[0] == "" {
        BlocksAreSome(rest, []);
        LastBlockIsTheTail(rest, [], i - 1);
        assert [] + rest == rest;
      } else if i == 0 {
        LastBlockIsTheTail(rest, buffer + [lines[0]], 0);
        assert buffer + [lines[0]] + rest == buffer + lines;
      } else {
        LastBlockIsTheTail(rest, buffer + [lines[0]], i - 1);
      }
    }
  }

  /** So a blank line at the very end leaves nothing. */
  lemma {:induction false} BlankEndLeavesNothing(lines: seq<string>)
    requires lines != [] && lines[|lines| - 1] == ""
    ensures LastBlock(lines, []) == []
  {
    LastBlockIsTheTail(lines, [], |lines|);
  }

  // ---------------------------------------------------------------- the plugin

  class Plugin {
    const runTTL: int
    var fields: Fields
    var clock: int

    constructor (runTTL: int, clock: int)
      ensures fields == FRESH && this.clock == clock && this.runTTL == runTTL
    {
      this.runTTL, this.clock, fields := runTTL, clock, FRESH;
    }

    /** drain */
    method Drain() returns (metrics: Metrics)
      modifies this`fields
      ensures (metrics, fields) == DrainFields(old(fields))
    {
      if fields.metrics.None? {
        if fields.prevMetrics.None? {
          metrics := map[];
        } else {
          metrics := fields.prevMetrics.value;
        }
      } else {
        metrics := fields.metrics.value;
        fields := fields.(metrics := None);
        fields := fields.(prevMetrics := Some(metrics));
      }
    }

    /** parsePluginOutput: no lines, or lines that do not parse (None), give empty metrics. */
    method ParsePluginOutput(lines: seq<string>, parse: seq<string> -> Option<Metrics>)
      modifies this`fields
      ensures fields == old(fields).(metrics := Some(ParseResult(lines, parse)))
    {
      if |lines| == 0 {
        fields := fields.(metrics := Some(map[]));
        return;
      }
      var metrics := parse(lines);
      if metrics.None? {
        fields := fields.(metrics := Some(map[]));
        return;
      }
      fields := fields.(metrics := metrics);
    }

    /** exec, alone: refused, or the whole output split and parsed and the run ended. */
    method Run(now: int, end: int, lines: seq<string>, parse: seq<string> -> Option<Metrics>)
      returns (refused: Option<Refusal>)
      modifies this
      ensures refused == Refused(old(fields), runTTL, now)
      ensures refused.Some? ==> fields == old(fields)
      ensures refused.None? ==>
                fields == Fields(false, Some(end), Some(ParseResult(LastBlock(lines, []), parse)), old(fields).prevMetrics)
      ensures clock == if refused.Some? then now else end
    {
      clock := now;
      if runTTL > 0 {
        if fields.lastEnd.Some? && now - fields.lastEnd.value < runTTL {
          return Some(TTLNotExpired);
        }
      }
      if fields.running {
        return Some(AlreadyRunning);
      }
      fields := fields.(running := true);
      var buffer: seq<string> := [];
      for i := 0 to |lines|
        invariant LastBlock(lines[i..], buffer) == LastBlock(lines, [])
        invariant fields == old(fields).(running := true, metrics := fields.metrics)
      {
        var line := lines[i];
        assert lines[i..][0] == line && lines[i..][1..] == lines[i + 1..];
        if line == "" {
          BlocksAreSome(lines[i + 1..], []);
          ParsePluginOutput(buffer, parse);
          buffer := [];
          continue;
        }
        buffer := buffer + [line];
      }
      assert lines[|lines|..] == [];
      ParsePluginOutput(buffer, parse);
      fields := fields.(lastEnd := Some(end));
      fields := fields.(running := false);
      clock := end;
      return None;
    }
  }

  function ParseResult(lines: seq<string>, parse: seq<string> -> Option<Metrics>): Metrics {
    if lines == [] || parse(lines).None? then map[] else parse(lines).value
  }

  /** The metrics left by a run: those that what follows the last blank line parses to; none, if
      nothing follows it or it does not parse. */
  lemma {:induction false} RunLeaves(lines: seq<string>, i: nat, parse: seq<string> -> Option<Metrics>)
    requires i <= |lines| && forall j :: i <= j < |lines| ==> lines[j] != ""
    requires i > 0 ==> lines[i - 1] == ""
    ensures i == |lines| ==> ParseResult(LastBlock(lines, []), parse) == map[]
    ensures parse(lines[i..]) == None ==> ParseResult(LastBlock(lines, []), parse) == map[]
    ensures i < |lines| && parse(lines[i..]).Some? ==> Some(ParseResult(LastBlock(lines, []), parse)) == parse(lines[i..])
  {
    LastBlockIsTheTail(lines, [], i);
    assert [] + lines == lines == lines[0..];
    assert i == |lines| ==> lines[i..] == [];
  }
}
