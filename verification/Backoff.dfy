/** Retrying and backing off: every run of Start as the attempts, sleeps and sends it makes
    (internal/reverse/connection/connection.go). Times are whole seconds. */
module Backoff {
  import opened Common

  const MAX_DELAY_SECONDS := 10
  const MIN_DELAY_STEP := 1
  const MAX_DELAY_STEP := 7
  const CONFIG_RETRY_LIMIT := 3

  /** No limit on the attempts but the configuration refresh. */
  const UNLIMITED := -1

  /** A random step: rand.Intn(MaxDelayStep - MinDelayStep) + MinDelayStep. */
  type Drift = d: nat | MIN_DELAY_STEP <= d < MAX_DELAY_STEP witness 1

  datatype Retry = Retry(attempts: nat, delay: nat)

  const FRESH := Retry(0, 1)

  /** getNextDelay */
  function NextDelay(delay: nat, drift: Drift): nat {
    if delay == MAX_DELAY_SECONDS then MIN_DELAY_STEP
    else if delay < MAX_DELAY_SECONDS then Min(delay + drift, MAX_DELAY_SECONDS)
    else MAX_DELAY_SECONDS
  }

  datatype Dial = Established | DialTimeout(temporary: bool) | DialFailed | IntroFailed

  datatype Event =
    | Slept(attempt: nat, seconds: nat)  // slept after so many attempts
    | Dialed
    | Sent                               // a response was sent

  datatype GivingUp = AttemptsExhausted | CheckRefresh | DialNotTemporary

  datatype Connect = Connected | TryAgain | GiveUp(reason: GivingUp) | ContextDone

  datatype Attempt = Attempt(retry: Retry, events: seq<Event>, result: Connect)

  /** The dialling half of connect. */
  function DialOnce(s: Retry, events: seq<Event>, dial: Dial): Attempt {
    Attempt(s.(attempts := s.attempts + 1), events + [Dialed],
            match dial
            case Established => Connected
            case DialTimeout(temporary) => if temporary then TryAgain else GiveUp(DialNotTemporary)
            case DialFailed => TryAgain
            case IntroFailed => TryAgain)
  }

  /** connect */
  function ConnectOnce(s: Retry, maxConnRetry: int, drift: Drift, ctxDone: bool, dial: Dial): Attempt {
    if s.attempts == 0 then DialOnce(s, [], dial)
    else if maxConnRetry != UNLIMITED && s.attempts >= maxConnRetry then Attempt(s, [], GiveUp(AttemptsExhausted))
    else
      var slept := [Slept(s.attempts, s.delay)];
      if ctxDone then Attempt(s, slept, ContextDone)
      else
        var s' := s.(delay := NextDelay(s.delay, drift));
        if s.attempts % CONFIG_RETRY_LIMIT == 0 then Attempt(s', slept, GiveUp(CheckRefresh))
        else DialOnce(s', slept, dial)
  }

  /** The delays: a random step of 1 to 6 seconds more, 10 seconds at most, and 1 second after 10. */
  lemma {:induction false} NextDelayIs(delay: nat, drift: Drift)
    ensures 1 <= drift <= 6
    ensures delay < 10 ==> NextDelay(delay, drift) == if delay + drift > 10 then 10 else delay + drift
    ensures delay == 10 ==> NextDelay(delay, drift) == 1
    ensures delay > 10 ==> NextDelay(delay, drift) == 10
  {
  }

  /** When one connect sleeps and when it dials: it sleeps, the delay there is, exactly before a retry
      that the limit allows; it dials exactly at the first attempt, or after a sleep in which the
      context was not cancelled and before which fewer than three attempts (or three more) failed. */
  lemma {:induction false} ConnectSleepsAndDials(s: Retry, maxConnRetry: int, drift: Drift, ctxDone: bool, dial: Dial)
    ensures var a := ConnectOnce(s, maxConnRetry, drift, ctxDone, dial);
            var allowed := maxConnRetry == -1 || s.attempts < maxConnRetry;
            var sleeps := s.attempts > 0 && allowed;
            var dials := s.attempts == 0 || (sleeps && !ctxDone && s.attempts % 3 != 0);
            && a.events == (if sleeps then [Slept(s.attempts, s.delay)] else []) + (if dials then [Dialed] else [])
            && a.retry.attempts == s.attempts + (if dials then 1 else 0)
            && a.retry.delay == (if sleeps && !ctxDone then NextDelay(s.delay, drift) else s.delay)
            && (a.result == ContextDone <==> sleeps && ctxDone)
            && (a.result == Connected <==> dials && dial == Established)
            && (a.result == TryAgain <==> dials && dial in {DialTimeout(true), DialFailed, IntroFailed})
  {
  }

  // ---------------------------------------------------------------- runs of Start

  /** What Start returns: nil, or an error asking for a check refresh, or a fatal one. */
  datatype Outcome = Nil | RefreshCheck | FatalError

  datatype Phase = Connecting | Serving | Finished(outcome: Outcome)

  datatype Run = Run(phase: Phase, retry: Retry, events: seq<Event>)

  datatype Step =
    | TryConnect(drift: Drift, ctxDone: bool, dial: Dial)
    | SendResponse      // sendMetricData succeeded
    | LoseConnection    // the connection is reset
    | FailToSend        // sendMetricData failed
    | FailFatally       // a result marked fatal
    | Cancel            // the context is done

  const START := Run(Connecting, FRESH, [])

  predicate Enabled(r: Run, step: Step) {
    match step
    case TryConnect(_, _, _) => r.phase == Connecting
    case Cancel => !r.phase.Finished?
    case _ => r.phase == Serving
  }

  function Do(r: Run, maxConnRetry: int, step: Step): Run {
    match step
    case TryConnect(drift, ctxDone, dial) =>
      var a := ConnectOnce(r.retry, maxConnRetry, drift, ctxDone, dial);
      Run(match a.result
          case Connected => Serving
          case TryAgain => Connecting
          case GiveUp(_) => Finished(RefreshCheck)
          case ContextDone => Finished(Nil),
          a.retry, r.events + a.events)
    case SendResponse => r.(retry := FRESH, events := r.events + [Sent])
    case LoseConnection => r.(phase := Connecting)
    case FailToSend => r.(phase := Finished(RefreshCheck))
    case FailFatally => r.(phase := Finished(FatalError))
    case Cancel => r.(phase := Finished(Nil))
  }

  /** A connection is served exactly after a dial that got through, and the context can only end Start
      in a connect that would have slept. What happens is recorded in order. */
  lemma {:induction false} ServedIffConnected(r: Run, maxConnRetry: int, drift: Drift, ctxDone: bool, dial: Dial)
    ensures var (a, r') := (ConnectOnce(r.retry, maxConnRetry, drift, ctxDone, dial),
                            Do(r, maxConnRetry, TryConnect(drift, ctxDone, dial)));
            && (r'.phase == Serving <==> Dialed in a.events && dial == Established)
            && (r'.phase == Connecting <==> Dialed in a.events && dial in {DialTimeout(true), DialFailed, IntroFailed})
            && (r'.phase == Finished(Nil) <==> ctxDone && exists i, seconds :: Slept(i, seconds) in a.events)
            && r'.phase != Finished(FatalError)
            && r'.events == r.events + a.events && r'.retry == a.retry
  {
    ConnectSleepsAndDials(r.retry, maxConnRetry, drift, ctxDone, dial);
    assert Slept(r.retry.attempts, r.retry.delay) in [Slept(r.retry.attempts, r.retry.delay)];
  }

  predicate Schedule(r: Run, maxConnRetry: int, steps: seq<Step>)
    decreases |steps|
  {
    steps == [] || (Enabled(r, steps[0]) && Schedule(Do(r, maxConnRetry, steps[0]), maxConnRetry, steps[1..]))
  }

  function Exec(r: Run, maxConnRetry: int, steps: seq<Step>): Run
    decreases |steps|
  {
    if steps == [] then r else Exec(Do(r, maxConnRetry, steps[0]), maxConnRetry, steps[1..])
  }

  // ---------------------------------------------------------------- bounds

  /** Dials since the last successful send. */
  function DialsSinceSend(events: seq<Event>): nat {
    if events == [] then 0
    else
      var last := |events| - 1;
      match events[last]
      case Sent => 0
      case Dialed => DialsSinceSend(events[..last]) + 1
      case Slept(_, _) => DialsSinceSend(events[..last])
  }

  /** Seconds slept since the last successful send. */
  function SleptSinceSend(events: seq<Event>): nat {
    if events == [] then 0
    else
      var last := |events| - 1;
      match events[last]
      case Sent => 0
      case Dialed => SleptSinceSend(events[..last])
      case Slept(_, seconds) => SleptSinceSend(events[..last]) + seconds
  }

  function DialLimit(maxConnRetry: int): nat {
    if maxConnRetry == UNLIMITED then CONFIG_RETRY_LIMIT else Min(CONFIG_RETRY_LIMIT, Max(1, maxConnRetry))
  }

  predicate DelayInRange(attempt: nat, delay: nat) {
    1 <= attempt <= CONFIG_RETRY_LIMIT && attempt <= delay <= Min(MAX_DELAY_SECONDS, 6 * attempt - 5)
  }

  predicate SleepsInRange(events: seq<Event>) {
    forall i :: 0 <= i < |events| && events[i].Slept? ==> DelayInRange(events[i].attempt, events[i].seconds)
  }

  /** At most this much was slept before the a-th attempt failed. */
  function SleptBefore(attempts: nat): nat {
    if attempts <= 1 then 0 else if attempts == 2 then 1 else 8
  }

  predicate Inv(r: Run, maxConnRetry: int) {
    && r.retry.attempts == DialsSinceSend(r.events) <= DialLimit(maxConnRetry)
    && SleepsInRange(r.events)
    && (if r.phase.Finished? then SleptSinceSend(r.events) <= 18
        else
          && SleptSinceSend(r.events) <= SleptBefore(r.retry.attempts)
          && if r.retry.attempts == 0 then r.retry.delay == 1 else DelayInRange(r.retry.attempts, r.retry.delay))
  }

  lemma {:induction false} AppendEvent(events: seq<Event>, e: Event)
    ensures DialsSinceSend(events + [e]) == (match e case Sent => 0 case Dialed => DialsSinceSend(events) + 1 case Slept(_, _) => DialsSinceSend(events))
    ensures SleptSinceSend(events + [e]) == (match e case Sent => 0 case Dialed => SleptSinceSend(events) case Slept(_, d) => SleptSinceSend(events) + d)
    ensures SleepsInRange(events) && (e.Slept? ==> DelayInRange(e.attempt, e.seconds)) ==> SleepsInRange(events + [e])
  {
    assert (events + [e])[..|events|] == events;
  }

  /** The tallies after one connect: at most one sleep, then at most one dial. */
  lemma {:induction false} AppendAttempt(events: seq<Event>, s: Retry, maxConnRetry: int, drift: Drift, ctxDone: bool, dial: Dial)
    requires SleepsInRange(events)
    requires if s.attempts == 0 then s.delay == 1 else DelayInRange(s.attempts, s.delay)
    ensures var a := ConnectOnce(s, maxConnRetry, drift, ctxDone, dial);
            && DialsSinceSend(events + a.events) == DialsSinceSend(events) + a.retry.attempts - s.attempts
            && SleptSinceSend(events + a.events) == SleptSinceSend(events)
                 + (if s.attempts == 0 || a.result == GiveUp(AttemptsExhausted) then 0 else s.delay)
            && SleepsInRange(events + a.events)
  {
    hide DialsSinceSend, SleptSinceSend, SleepsInRange;
    var a := ConnectOnce(s, maxConnRetry, drift, ctxDone, dial);
    if a.events == [] {
      assert events + a.events == events;
    } else {
      AppendEvent(events, a.events[0]);
      if |a.events| == 1 {
        assert a.events == [a.events[0]];
      } else {
        AppendEvent(events + [a.events[0]], Dialed);
        assert events + a.events == events + [a.events[0]] + [Dialed];
      }
    }
  }

  /** One connect on the counters alone. */
  lemma {:induction false} RetryStaysInRange(s: Retry, maxConnRetry: int, drift: Drift, ctxDone: bool, dial: Dial)
    requires s.attempts <= DialLimit(maxConnRetry)
    requires if s.attempts == 0 then s.delay == 1 else DelayInRange(s.attempts, s.delay)
    ensures var a := ConnectOnce(s, maxConnRetry, drift, ctxDone, dial);
            var slept := SleptBefore(s.attempts)
                         + if s.attempts == 0 || a.result == GiveUp(AttemptsExhausted) then 0 else s.delay;
            && a.retry.attempts <= DialLimit(maxConnRetry)
            && slept <= 18
            && (a.result == Connected || a.result == TryAgain ==>
                  DelayInRange(a.retry.attempts, a.retry.delay) && slept <= SleptBefore(a.retry.attempts))
  {
  }

  lemma {:induction false} ConnectKeepsInv(r: Run, maxConnRetry: int, step: Step)
    requires Inv(r, maxConnRetry) && Enabled(r, step) && step.TryConnect?
    ensures Inv(Do(r, maxConnRetry, step), maxConnRetry)
  {
    AppendAttempt(r.events, r.retry, maxConnRetry, step.drift, step.ctxDone, step.dial);
    RetryStaysInRange(r.retry, maxConnRetry, step.drift, step.ctxDone, step.dial);
    hide DialsSinceSend, SleptSinceSend, SleepsInRange, ConnectOnce, SleptBefore, DialLimit;
  }

  lemma {:induction false} StepKeepsInv(r: Run, maxConnRetry: int, step: Step)
    requires Inv(r, maxConnRetry) && Enabled(r, step)
    ensures Inv(Do(r, maxConnRetry, step), maxConnRetry)
  {
    if step.TryConnect? {
      ConnectKeepsInv(r, maxConnRetry, step);
    } else if step.SendResponse? {
      AppendEvent(r.events, Sent);
    }
  }

  /** Over every run of Start: never more than three attempts, nor more dials between successful
      sends than allowed; each sleep in its range; at most 18 seconds asleep between sends. */
  lemma {:induction false} BackoffBounds(r: Run, maxConnRetry: int, steps: seq<Step>)
    requires Inv(r, maxConnRetry) && Schedule(r, maxConnRetry, steps)
    ensures var end := Exec(r, maxConnRetry, steps);
            && Inv(end, maxConnRetry)
            && end.retry.attempts <= CONFIG_RETRY_LIMIT
            && DialsSinceSend(end.events) <= DialLimit(maxConnRetry)
            && SleptSinceSend(end.events) <= 18
            && SleepsInRange(end.events)
    decreases |steps|
  {
    if steps != [] {
      StepKeepsInv(r, maxConnRetry, steps[0]);
      BackoffBounds(Do(r, maxConnRetry, steps[0]), maxConnRetry, steps[1..]);
    }
  }

  /** In a run of Start the limits are met exactly: with the context not done, a connect gives up
      without dialling if and only if all the dials allowed have been made since the last send. */
  lemma {:induction false} DialsUpToTheLimit(r: Run, maxConnRetry: int, drift: Drift, dial: Dial)
    requires Inv(r, maxConnRetry) && r.phase == Connecting
    ensures var a := ConnectOnce(r.retry, maxConnRetry, drift, false, dial);
            && (Dialed in a.events <==> DialsSinceSend(r.events) < DialLimit(maxConnRetry))
            && (Dialed !in a.events ==> a.result.GiveUp? && Do(r, maxConnRetry, TryConnect(drift, false, dial)).phase == Finished(RefreshCheck))
  {
    hide DialsSinceSend, SleptSinceSend, SleepsInRange;
    ConnectSleepsAndDials(r.retry, maxConnRetry, drift, false, dial);
  }

  lemma {:induction false} StartInv(maxConnRetry: int)
    ensures Inv(START, maxConnRetry)
  {
  }

  lemma {:induction false} ExecSnoc(r: Run, maxConnRetry: int, steps: seq<Step>, step: Step)
    requires Schedule(r, maxConnRetry, steps) && Enabled(Exec(r, maxConnRetry, steps), step)
    ensures Schedule(r, maxConnRetry, steps + [step])
    ensures Exec(r, maxConnRetry, steps + [step]) == Do(Exec(r, maxConnRetry, steps), maxConnRetry, step)
    decreases |steps|
  {
    if steps == [] {
      var r' := Do(r, maxConnRetry, step);
      assert ([] + [step])[1..] == [];
      assert Schedule(r', maxConnRetry, []) && Exec(r', maxConnRetry, []) == r';
    } else {
      assert (steps + [step])[1..] == steps[1..] + [step];
      ExecSnoc(Do(r, maxConnRetry, steps[0]), maxConnRetry, steps[1..], step);
    }
  }

  /** A dial that fails, after the longest random step. */
  const FAILING := TryConnect(6, false, DialFailed)

  /** The slowest run without an answer, after so many failed dials. */
  predicate Slowest(r: Run, dials: nat) {
    && r.phase == Connecting
    && r.retry == Retry(dials, if dials <= 1 then 1 else if dials == 2 then 7 else 10)
    && DialsSinceSend(r.events) == dials <= 3
    && SleptSinceSend(r.events) == SleptBefore(dials)
    && SleepsInRange(r.events)
  }

  lemma {:induction false} SlowestStep(r: Run, dials: nat)
    requires dials < 3 && Slowest(r, dials)
    ensures Enabled(r, FAILING) && Slowest(Do(r, UNLIMITED, FAILING), dials + 1)
  {
    AppendAttempt(r.events, r.retry, UNLIMITED, 6, false, DialFailed);
    hide DialsSinceSend, SleptSinceSend, SleepsInRange;
  }

  lemma {:induction false} SlowestRun(dials: nat) returns (steps: seq<Step>)
    requires dials <= 3
    ensures |steps| == dials && Schedule(START, UNLIMITED, steps)
    ensures Slowest(Exec(START, UNLIMITED, steps), dials)
  {
    if dials == 0 {
      steps := [];
      hide Inv, ConnectOnce;
    } else {
      var before := SlowestRun(dials - 1);
      hide *;
      SlowestStep(Exec(START, UNLIMITED, before), dials - 1);
      ExecSnoc(START, UNLIMITED, before, FAILING);
      steps := before + [FAILING];
    }
  }

  /** The bounds are reached: a connection never answered dials three times, sleeps 1, 7 and 10
      seconds, and then asks for a check refresh. */
  lemma {:induction false} BoundsAreReached()
    ensures exists steps ::
              && Schedule(START, UNLIMITED, steps)
              && var end := Exec(START, UNLIMITED, steps);
                 end.phase == Finished(RefreshCheck) && DialsSinceSend(end.events) == 3 && SleptSinceSend(end.events) == 18
  {
    var steps := SlowestRun(3);
    var r := Exec(START, UNLIMITED, steps);
    AppendAttempt(r.events, r.retry, UNLIMITED, 6, false, DialFailed);
    hide DialsSinceSend, SleptSinceSend, Schedule, Exec, SleepsInRange;
    ExecSnoc(START, UNLIMITED, steps, FAILING);
    assert Schedule(START, UNLIMITED, steps + [FAILING]);
  }
}
