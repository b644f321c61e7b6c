/** Collecting metrics from the conduits: one goroutine each, one buffered channel, one merge
    (internal/server/handlers.go). */
module FanIn {
  type Metrics = map<string, string>

  datatype Conduit = Builtin | Plugin | Receiver | Statsd | Prometheus | Unknown

  /** Asking for none asks for all. */
  function Asked(conduits: seq<Conduit>): seq<Conduit> {
    if conduits == [] then [Builtin, Plugin, Receiver, Statsd, Prometheus] else conduits
  }

  /** The conduits a goroutine is started for. */
  function Launched(conduits: seq<Conduit>, haveStatsd: bool): (ls: seq<Conduit>)
    ensures |ls| <= |conduits|
  {
    if conduits == [] then []
    else
      var c := conduits[0];
      (if c == Unknown || (c == Statsd && !haveStatsd) then [] else [c]) + Launched(conduits[1..], haveStatsd)
  }

  function Times(conduits: seq<Conduit>, c: Conduit): nat {
    if conduits == [] then 0 else (if conduits[0] == c then 1 else 0) + Times(conduits[1..], c)
  }

  lemma {:induction false} TimesCons(first: Conduit, ls: seq<Conduit>, c: Conduit)
    ensures Times([first] + ls, c) == (if first == c then 1 else 0) + Times(ls, c)
    ensures [] + ls == ls
  {
    assert ([first] + ls)[1..] == ls;
  }

  /** A goroutine is started for each time a conduit is asked for, the same one twice included; none
      for a name that is not a conduit, nor for StatsD without its server. Asking for none starts
      one for each of the five. */
  lemma {:induction false} LaunchedAre(conduits: seq<Conduit>, haveStatsd: bool, c: Conduit)
    ensures Times(Launched(conduits, haveStatsd), c)
         == if c == Unknown || (c == Statsd && !haveStatsd) then 0 else Times(conduits, c)
    ensures Times(Asked([]), c) == if c == Unknown then 0 else 1
    ensures conduits != [] ==> Asked(conduits) == conduits
  {
    OneOfEach(conduits, c);
    hide Asked;
    if conduits != [] {
      TimesCons(conduits[0], Launched(conduits[1..], haveStatsd), c);
      LaunchedAre(conduits[1..], haveStatsd, c);
    }
  }

  lemma {:induction false} OneOfEach(conduits: seq<Conduit>, c: Conduit)
    ensures Times(Asked([]), c) == if c == Unknown then 0 else 1
    ensures conduits != [] ==> Asked(conduits) == conduits
  {
    var all := [Builtin, Plugin, Receiver, Statsd, Prometheus];
    assert all[1..] == [Plugin, Receiver, Statsd, Prometheus];
    assert all[1..][1..] == [Receiver, Statsd, Prometheus];
    assert [Receiver, Statsd, Prometheus][1..] == [Statsd, Prometheus];
    assert [Statsd, Prometheus][1..] == [Prometheus];
    assert [Prometheus][1..] == [];
    assert Times([Prometheus], c) == if c == Prometheus then 1 else 0;
    assert Times([Statsd, Prometheus], c) == if c in [Statsd, Prometheus] then 1 else 0;
    assert Times([Receiver, Statsd, Prometheus], c) == if c in [Receiver, Statsd, Prometheus] then 1 else 0;
  }

  // ---------------------------------------------------------------- the goroutines

  /** Running its collector; holding metrics for the channel; returned. */
  datatype Phase = Collecting | Sending | Done

  /** The goroutines, and who has sent, in the order of the channel's buffer. Nobody receives
      before all are done. */
  datatype State = State(phases: seq<Phase>, channel: seq<nat>)

  datatype Step = Flush(i: nat) | Send(i: nat)

  predicate Enabled(s: State, capacity: nat, step: Step) {
    match step
    case Flush(i) => i < |s.phases| && s.phases[i] == Collecting
    case Send(i) => i < |s.phases| && s.phases[i] == Sending && |s.channel| < capacity
  }

  /** Nothing is sent when nothing was flushed. */
  function Do(flushed: seq<Metrics>, s: State, step: Step): State
    requires step.i < |s.phases| == |flushed|
  {
    match step
    case Flush(i) => s.(phases := s.phases[i := if flushed[i] == map[] then Done else Sending])
    case Send(i) => State(s.phases[i := Done], s.channel + [i])
  }

  predicate Schedule(flushed: seq<Metrics>, capacity: nat, s: State, steps: seq<Step>)
    requires |s.phases| == |flushed|
    decreases |steps|
  {
    steps == []
    || (Enabled(s, capacity, steps[0]) && Schedule(flushed, capacity, Do(flushed, s, steps[0]), steps[1..]))
  }

  function Exec(flushed: seq<Metrics>, capacity: nat, s: State, steps: seq<Step>): (end: State)
    requires |s.phases| == |flushed| && Schedule(flushed, capacity, s, steps)
    ensures |end.phases| == |flushed|
    decreases |steps|
  {
    if steps == [] then s else Exec(flushed, capacity, Do(flushed, s, steps[0]), steps[1..])
  }

  function Init(n: nat): State {
    State(seq(n, _ => Collecting), [])
  }

  predicate AllDone(s: State) {
    forall i :: 0 <= i < |s.phases| ==> s.phases[i] == Done
  }

  // ---------------------------------------------------------------- invariant

  function Weight(p: Phase, collecting: nat): nat {
    match p case Collecting => collecting case Sending => 1 case Done => 0
  }

  /** With a weight of 1 for collecting: how many are not done; with 2: the steps left. */
  function Load(phases: seq<Phase>, collecting: nat): nat {
    if phases == [] then 0 else Weight(phases[0], collecting) + Load(phases[1..], collecting)
  }

  lemma {:induction false} LoadUpdate(phases: seq<Phase>, collecting: nat, i: nat, p: Phase)
    requires i < |phases|
    ensures Load(phases[i := p], collecting)
         == Load(phases, collecting) - Weight(phases[i], collecting) + Weight(p, collecting)
    ensures Load(phases, collecting) >= Weight(phases[i], collecting)
  {
    if i > 0 {
      assert phases[i := p][1..] == phases[1..][i - 1 := p];
      LoadUpdate(phases[1..], collecting, i - 1, p);
    } else {
      assert phases[i := p][1..] == phases[1..];
    }
  }

  lemma {:induction false} LoadInit(n: nat, collecting: nat)
    ensures Load(Init(n).phases, collecting) == n * collecting
  {
    if n > 0 {
      assert Init(n).phases[1..] == Init(n - 1).phases;
      LoadInit(n - 1, collecting);
    }
  }

  /** The channel holds numbers of conduits. */
  predicate InRange(flushed: seq<Metrics>, channel: seq<nat>) {
    forall c :: 0 <= c < |channel| ==> channel[c] < |flushed|
  }

  predicate Inv(flushed: seq<Metrics>, s: State) {
    && |s.phases| == |flushed|
    && |s.channel| + Load(s.phases, 1) <= |flushed|
    && InRange(flushed, s.channel)
    && (forall c :: 0 <= c < |s.channel| ==> s.phases[s.channel[c]] == Done)
    && (forall i :: 0 <= i < |flushed| && s.phases[i] == Sending ==> flushed[i] != map[])
    && (forall i :: 0 <= i < |flushed| && s.phases[i] == Done ==> flushed[i] == map[] || i in s.channel)
  }

  lemma {:induction false} InitInv(flushed: seq<Metrics>)
    ensures Inv(flushed, Init(|flushed|))
  {
    LoadInit(|flushed|, 1);
  }

  lemma {:induction false} StepKeepsInv(flushed: seq<Metrics>, capacity: nat, s: State, step: Step)
    requires Inv(flushed, s) && Enabled(s, capacity, step)
    ensures Inv(flushed, Do(flushed, s, step))
    ensures Load(Do(flushed, s, step).phases, 2) < Load(s.phases, 2)
    ensures s.channel <= Do(flushed, s, step).channel
  {
    var p := if step.Send? || flushed[step.i] == map[] then Done else Sending;
    LoadUpdate(s.phases, 1, step.i, p);
    LoadUpdate(s.phases, 2, step.i, p);
  }

  lemma {:induction false} InvAlways(flushed: seq<Metrics>, capacity: nat, s: State, steps: seq<Step>)
    requires Inv(flushed, s) && Schedule(flushed, capacity, s, steps)
    ensures Inv(flushed, Exec(flushed, capacity, s, steps))
    ensures |steps| + Load(Exec(flushed, capacity, s, steps).phases, 2) <= Load(s.phases, 2)
    decreases |steps|
  {
    if steps != [] {
      StepKeepsInv(flushed, capacity, s, steps[0]);
      InvAlways(flushed, capacity, Do(flushed, s, steps[0]), steps[1..]);
    }
  }

  /** In every schedule: no goroutine that holds metrics ever finds the channel full, whose capacity
      is the number of conduits asked for; until all are done one of them can move; and all are
      done after at most two steps each, so that waiting for them ends. */
  lemma {:induction false} NobodyBlocks(conduits: seq<Conduit>, haveStatsd: bool, flushed: seq<Metrics>, capacity: nat, steps: seq<Step>)
    requires |flushed| == |Launched(Asked(conduits), haveStatsd)| && capacity == |Asked(conduits)|
    requires Schedule(flushed, capacity, Init(|flushed|), steps)
    ensures var s := Exec(flushed, capacity, Init(|flushed|), steps);
            && (forall i :: 0 <= i < |s.phases| && s.phases[i] == Sending ==> Enabled(s, capacity, Send(i)))
            && (AllDone(s) <==> forall step :: !Enabled(s, capacity, step))
            && |steps| <= 2 * |flushed|
  {
    var init := Init(|flushed|);
    InitInv(flushed);
    LoadInit(|flushed|, 2);
    InvAlways(flushed, capacity, init, steps);
    hide Exec, Schedule, Init, Asked;
    var s := Exec(flushed, capacity, init, steps);
    NoSendIsBlocked(flushed, capacity, s);
    DoneWhenStuck(flushed, capacity, s);
  }

  lemma {:induction false} NoSendIsBlocked(flushed: seq<Metrics>, capacity: nat, s: State)
    requires Inv(flushed, s) && |flushed| <= capacity
    ensures forall i :: 0 <= i < |s.phases| && s.phases[i] == Sending ==> Enabled(s, capacity, Send(i))
  {
    forall i | 0 <= i < |s.phases| && s.phases[i] == Sending ensures |s.channel| < capacity {
      LoadUpdate(s.phases, 1, i, Done);
    }
  }

  lemma {:induction false} DoneWhenStuck(flushed: seq<Metrics>, capacity: nat, s: State)
    requires Inv(flushed, s) && |flushed| <= capacity
    ensures AllDone(s) <==> forall step :: !Enabled(s, capacity, step)
  {
    NoSendIsBlocked(flushed, capacity, s);
    hide Inv, Load;
    if !AllDone(s) {
      var i :| 0 <= i < |s.phases| && s.phases[i] != Done;
      assert Enabled(s, capacity, Flush(i)) || Enabled(s, capacity, Send(i));
    }
  }

  // ---------------------------------------------------------------- the merge

  /** The channel emptied into one map, a later entry replacing an earlier one. */
  function Merge(flushed: seq<Metrics>, channel: seq<nat>): Metrics
    requires InRange(flushed, channel)
  {
    if channel == [] then map[]
    else Merge(flushed, channel[..|channel| - 1]) + flushed[channel[|channel| - 1]]
  }

  /** The keys are those sent, and each value is that of the last sender that has the key. */
  lemma {:induction false} MergeTakesTheLast(flushed: seq<Metrics>, channel: seq<nat>, k: string)
    requires InRange(flushed, channel)
    ensures k in Merge(flushed, channel) <==> exists c :: 0 <= c < |channel| && k in flushed[channel[c]]
    ensures k in Merge(flushed, channel) ==>
              exists c :: 0 <= c < |channel| && k in flushed[channel[c]] && Merge(flushed, channel)[k] == flushed[channel[c]][k]
    ensures channel != [] && k in flushed[channel[|channel| - 1]] ==>
              k in Merge(flushed, channel) && Merge(flushed, channel)[k] == flushed[channel[|channel| - 1]][k]
  {
    if channel != [] {
      var n := |channel| - 1;
      var before := channel[..n];
      MergeTakesTheLast(flushed, before, k);
      if k in flushed[channel[n]] {
        assert Merge(flushed, channel)[k] == flushed[channel[n]][k];
      } else if k in Merge(flushed, before) {
        var c :| 0 <= c < n && k in flushed[before[c]] && Merge(flushed, before)[k] == flushed[before[c]][k];
        assert Merge(flushed, channel)[k] == flushed[channel[c]][k];
      }
      if c :| 0 <= c < |channel| && k in flushed[channel[c]] {
        assert c < n ==> before[c] == channel[c];
      }
    }
  }

  /** What GetMetrics returns after a schedule. */
  function Collected(flushed: seq<Metrics>, capacity: nat, steps: seq<Step>): Metrics
    requires Schedule(flushed, capacity, Init(|flushed|), steps)
  {
    InitInv(flushed);
    InvAlways(flushed, capacity, Init(|flushed|), steps);
    Merge(flushed, Exec(flushed, capacity, Init(|flushed|), steps).channel)
  }

  /** A schedule to the end. */
  predicate Complete(flushed: seq<Metrics>, capacity: nat, steps: seq<Step>) {
    && Schedule(flushed, capacity, Init(|flushed|), steps)
    && AllDone(Exec(flushed, capacity, Init(|flushed|), steps))
  }

  lemma {:induction false} CollectedAt(flushed: seq<Metrics>, capacity: nat, steps: seq<Step>, k: string)
    requires Complete(flushed, capacity, steps)
    ensures k in Collected(flushed, capacity, steps) <==> exists i :: 0 <= i < |flushed| && k in flushed[i]
    ensures k in Collected(flushed, capacity, steps) ==>
              exists i :: 0 <= i < |flushed| && k in flushed[i] && Collected(flushed, capacity, steps)[k] == flushed[i][k]
  {
    InitInv(flushed);
    InvAlways(flushed, capacity, Init(|flushed|), steps);
    var s := Exec(flushed, capacity, Init(|flushed|), steps);
    MergeTakesTheLast(flushed, s.channel, k);
    if i :| 0 <= i < |flushed| && k in flushed[i] {
      assert s.phases[i] == Done;
      var c :| 0 <= c < |s.channel| && s.channel[c] == i;
    }
  }

  /** Some conduit flushed `k`. */
  predicate Flushed(flushed: seq<Metrics>, k: string) {
    exists i :: 0 <= i < |flushed| && k in flushed[i]
  }

  /** Some conduit flushed `k` with the value `v`. */
  predicate FlushedAs(flushed: seq<Metrics>, k: string, v: string) {
    exists i :: 0 <= i < |flushed| && k in flushed[i] && flushed[i][k] == v
  }

  /** The keys are all that were flushed, and each value comes from a conduit that has the key. */
  ghost predicate Covers(flushed: seq<Metrics>, m: Metrics) {
    forall k :: (k in m <==> Flushed(flushed, k)) && (k in m ==> FlushedAs(flushed, k, m[k]))
  }

  /** However the goroutines are scheduled, the merged keys are the union of the flushed ones and
      every value comes from a conduit that has it. */
  lemma {:induction false} CollectsTheUnion(flushed: seq<Metrics>, capacity: nat, steps: seq<Step>)
    requires Complete(flushed, capacity, steps)
    ensures Covers(flushed, Collected(flushed, capacity, steps))
  {
    var m := Collected(flushed, capacity, steps);
    forall k ensures (k in m <==> Flushed(flushed, k)) && (k in m ==> FlushedAs(flushed, k, m[k])) {
      CollectedAt(flushed, capacity, steps, k);
    }
  }

  /** Two conduits that flush the same key agree on its value. */
  predicate Agree(flushed: seq<Metrics>) {
    forall i, j, k :: 0 <= i < |flushed| && 0 <= j < |flushed| && k in flushed[i] && k in flushed[j]
      ==> flushed[i][k] == flushed[j][k]
  }

  lemma {:induction false} AgreedValue(flushed: seq<Metrics>, k: string, v: string, v': string)
    requires Agree(flushed) && FlushedAs(flushed, k, v) && FlushedAs(flushed, k, v')
    ensures v == v'
  {
  }

  lemma {:induction false} CoversIsUnique(flushed: seq<Metrics>, m: Metrics, m': Metrics)
    requires Agree(flushed) && Covers(flushed, m) && Covers(flushed, m')
    ensures m == m'
  {
    hide Agree, Flushed, FlushedAs;
    assert forall k :: k in m <==> k in m';
    forall k | k in m ensures m[k] == m'[k] {
      AgreedValue(flushed, k, m[k], m'[k]);
    }
  }

  lemma {:induction false} AgreeingIsIndependent(flushed: seq<Metrics>, capacity: nat, steps: seq<Step>, steps': seq<Step>)
    requires Agree(flushed) && Complete(flushed, capacity, steps) && Complete(flushed, capacity, steps')
    ensures Collected(flushed, capacity, steps) == Collected(flushed, capacity, steps')
  {
    CollectsTheUnion(flushed, capacity, steps);
    CollectsTheUnion(flushed, capacity, steps');
    CoversIsUnique(flushed, Collected(flushed, capacity, steps), Collected(flushed, capacity, steps'));
  }

  // ---------------------------------------------------------------- choosing who is last

  /** Everybody but conduit `last` runs to its end; it then sends. */
  lemma {:induction false} OthersFirst(flushed: seq<Metrics>, capacity: nat, s: State, last: nat) returns (steps: seq<Step>)
    requires Inv(flushed, s) && |flushed| <= capacity && last < |flushed| && flushed[last] != map[]
    requires s.phases[last] == Sending
    ensures Schedule(flushed, capacity, s, steps)
    ensures var end := Exec(flushed, capacity, s, steps);
            AllDone(end) && end.channel != [] && end.channel[|end.channel| - 1] == last
    decreases Load(s.phases, 2)
  {
    if j :| 0 <= j < |s.phases| && j != last && s.phases[j] != Done {
      LoadUpdate(s.phases, 1, j, Done);
      var step := if s.phases[j] == Collecting then Flush(j) else Send(j);
      StepKeepsInv(flushed, capacity, s, step);
      var rest := OthersFirst(flushed, capacity, Do(flushed, s, step), last);
      steps := [step] + rest;
      assert steps[1..] == rest;
    } else {
      LoadUpdate(s.phases, 1, last, Done);
      steps := [Send(last)];
      var end := Do(flushed, s, Send(last));
      assert steps[1..] == [];
      assert Exec(flushed, capacity, end, []) == end;
    }
  }

  lemma {:induction false} SomebodyLast(flushed: seq<Metrics>, capacity: nat, last: nat, k: string) returns (steps: seq<Step>)
    requires |flushed| <= capacity && last < |flushed| && k in flushed[last]
    ensures Complete(flushed, capacity, steps)
    ensures k in Collected(flushed, capacity, steps) && Collected(flushed, capacity, steps)[k] == flushed[last][k]
  {
    var init := Init(|flushed|);
    InitInv(flushed);
    StepKeepsInv(flushed, capacity, init, Flush(last));
    var s := Do(flushed, init, Flush(last));
    var rest := OthersFirst(flushed, capacity, s, last);
    steps := [Flush(last)] + rest;
    assert steps[1..] == rest;
    var end := Exec(flushed, capacity, init, steps);
    assert end == Exec(flushed, capacity, s, rest);
    InvAlways(flushed, capacity, init, steps);
    MergeTakesTheLast(flushed, end.channel, k);
  }

  /** The result is the same in every schedule exactly if conduits with a key in common agree on
      its value; disjoint keys are the simplest case. */
  lemma {:induction false} IndependentIffAgree(flushed: seq<Metrics>, capacity: nat)
    requires |flushed| <= capacity
    ensures (forall steps, steps' :: Complete(flushed, capacity, steps) && Complete(flushed, capacity, steps')
               ==> Collected(flushed, capacity, steps) == Collected(flushed, capacity, steps'))
        <==> Agree(flushed)
  {
    if Agree(flushed) {
      forall steps, steps' | Complete(flushed, capacity, steps) && Complete(flushed, capacity, steps')
        ensures Collected(flushed, capacity, steps) == Collected(flushed, capacity, steps')
      {
        AgreeingIsIndependent(flushed, capacity, steps, steps');
      }
    }
    if !Agree(flushed) {
      var i, j, k :| && 0 <= i < |flushed| && 0 <= j < |flushed| && k in flushed[i] && k in flushed[j]
                     && flushed[i][k] != flushed[j][k];
      var steps := SomebodyLast(flushed, capacity, i, k);
      var steps' := SomebodyLast(flushed, capacity, j, k);
      assert Collected(flushed, capacity, steps) != Collected(flushed, capacity, steps');
    }
  }

  /** The merging loop of GetMetrics. */
  method MergeChannel(flushed: seq<Metrics>, channel: seq<nat>) returns (metrics: Metrics)
    requires InRange(flushed, channel)
    ensures metrics == Merge(flushed, channel)
  {
    metrics := map[];
    for c := 0 to |channel|
      invariant metrics == Merge(flushed, channel[..c])
    {
      assert channel[..c + 1][..c] == channel[..c];
      var cm := flushed[channel[c]];
      ghost var before := metrics;
      var keys := cm.Keys;
      while keys != {}
        invariant keys <= cm.Keys
        invariant metrics == before + map k | k in cm && k !in keys :: cm[k]
        decreases keys
      {
        var k :| k in keys;
        metrics := metrics[k := cm[k]];
        keys := keys - {k};
      }
      assert (map k | k in cm :: cm[k]) == cm;
    }
    assert channel[..|channel|] == channel;
  }
}
