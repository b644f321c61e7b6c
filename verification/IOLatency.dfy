/** Tracking block I/O operations from insert over issue to completion
    (plugins/linux/io/io_latency/io_latency.go), from already parsed trace events. */
module IOLatency {
  /** Device, and the sectors that identify an operation on it. */
  datatype Key = Key(dev: string, sectors: string)

  const MAX_AGE: real := 310.0

  datatype Event =
    | Insert(key: Key, whence: real)
    | Issue(key: Key, whence: real)
    | Complete(key: Key, whence: real)
    | Cleanup

  datatype Kind = QueueTime | TotalTime | DeviceTime
  datatype Latency = Latency(dev: string, kind: Kind, duration: real)

  // ---------------------------------------------------------------- one table

  /** A table entry: its time, and the number of the event that made it. The number decides
      nothing; it says which entry is which. */
  datatype Entry = Entry(whence: real, id: nat)

  /** What became of an entry that is in its table no more. */
  datatype Fate = Overwritten | AgedOut | Consumed(completion: nat)

  /** A table with its history: the entries ever made and what became of them. */
  datatype Table = Table(live: map<Key, Entry>, ids: set<nat>, fates: map<nat, Fate>)

  function Put(tb: Table, k: Key, whence: real, n: nat): Table {
    Table(tb.live[k := Entry(whence, n)], tb.ids + {n},
          if k in tb.live then tb.fates[tb.live[k].id := Overwritten] else tb.fates)
  }

  function Take(tb: Table, k: Key, n: nat): Table {
    if k !in tb.live then tb
    else Table(tb.live - {k}, tb.ids, tb.fates[tb.live[k].id := Consumed(n)])
  }

  function Drop(tb: Table, keys: set<Key>): Table {
    var gone := set k | k in tb.live && k in keys :: tb.live[k].id;
    Table(tb.live - keys, tb.ids, tb.fates + map id | id in gone :: AgedOut)
  }

  /** Entries in the table are distinct, made by an event, and without a fate; an entry made and
      not in the table has one; and no completion consumed two. */
  ghost predicate Accounted(tb: Table, seen: nat) {
    && tb.fates.Keys <= tb.ids
    && (forall id :: id in tb.ids ==> id < seen)
    && (forall k :: k in tb.live ==> tb.live[k].id in tb.ids && tb.live[k].id !in tb.fates)
    && (forall k, k' :: k in tb.live && k' in tb.live && tb.live[k].id == tb.live[k'].id ==> k == k')
    && (forall id :: id in tb.ids ==> id in tb.fates || exists k :: k in tb.live && tb.live[k].id == id)
    && (forall id :: id in tb.fates && tb.fates[id].Consumed? ==> tb.fates[id].completion < seen)
    && (forall id, id' :: id in tb.fates && id' in tb.fates && tb.fates[id].Consumed? && tb.fates[id] == tb.fates[id']
          ==> id == id')
  }

  lemma {:induction false} PutAccounts(tb: Table, k: Key, whence: real, seen: nat)
    requires Accounted(tb, seen)
    ensures Accounted(Put(tb, k, whence, seen), seen + 1)
  {
    var tb' := Put(tb, k, whence, seen);
    forall id | id in tb'.ids && id !in tb'.fates
      ensures exists j :: j in tb'.live && tb'.live[j].id == id
    {
      if id == seen {
        assert tb'.live[k].id == id;
      } else {
        var j :| j in tb.live && tb.live[j].id == id;
        assert tb'.live[j].id == id;
      }
    }
  }

  lemma {:induction false} TakeAccounts(tb: Table, k: Key, seen: nat)
    requires Accounted(tb, seen)
    ensures Accounted(Take(tb, k, seen), seen + 1)
  {
    var tb' := Take(tb, k, seen);
    forall id | id in tb'.ids && id !in tb'.fates
      ensures exists j :: j in tb'.live && tb'.live[j].id == id
    {
      var j :| j in tb.live && tb.live[j].id == id;
      assert tb'.live[j].id == id;
    }
  }

  lemma {:induction false} DropAccounts(tb: Table, keys: set<Key>, seen: nat)
    requires Accounted(tb, seen)
    ensures Accounted(Drop(tb, keys), seen)
  {
    var tb' := Drop(tb, keys);
    forall id | id in tb'.ids && id !in tb'.fates
      ensures exists j :: j in tb'.live && tb'.live[j].id == id
    {
      var j :| j in tb.live && tb.live[j].id == id;
      assert j !in keys;
      assert tb'.live[j].id == id;
    }
    forall k | k in tb'.live ensures tb'.live[k].id !in tb'.fates {
      assert forall j :: j in tb.live && j in keys ==> tb.live[j].id != tb.live[k].id;
    }
  }

  // ---------------------------------------------------------------- the tracker

  /** Both tables; for each issue in its table, the insert it found; the newest time; the
      latencies recorded; the number of events so far. */
  datatype Tables = Tables(
    inserts: Table,
    issues: Table,
    found: map<Key, Entry>,
    maxWhence: real,
    log: seq<Latency>,
    seen: nat)

  const NONE := Table(map[], {}, map[])
  const EMPTY := Tables(NONE, NONE, map[], 0.0, [], 0)

  predicate Aged(t: Tables, whence: real) {
    t.maxWhence - whence > MAX_AGE
  }

  /** Whose inserts cleanupTables deletes: old ones, and those under the keys of old issues. */
  function CleanedUp(t: Tables): set<Key> {
    set k | k in t.inserts.live &&
      (Aged(t, t.inserts.live[k].whence) || (k in t.issues.live && Aged(t, t.issues.live[k].whence)))
  }

  function Record(log: seq<Latency>, tb: Table, k: Key, kind: Kind, whence: real): seq<Latency> {
    if k in tb.live then log + [Latency(k.dev, kind, whence - tb.live[k].whence)] else log
  }

  /** handleLogLine, when the time is not zero; cleanupTables. */
  function Handle(t: Tables, e: Event): Tables {
    match e
    case Cleanup =>
      t.(inserts := Drop(t.inserts, CleanedUp(t)))
    case Insert(k, whence) =>
      t.(inserts := Put(t.inserts, k, whence, t.seen))
    case Issue(k, whence) =>
      if k !in t.inserts.live then t
      else
        t.(issues := Put(t.issues, k, whence, t.seen),
           found := t.found[k := t.inserts.live[k]],
           log := Record(t.log, t.inserts, k, QueueTime, whence))
    case Complete(k, whence) =>
      t.(inserts := Take(t.inserts, k, t.seen),
         issues := Take(t.issues, k, t.seen),
         log := Record(Record(t.log, t.inserts, k, TotalTime, whence), t.issues, k, DeviceTime, whence))
  }

  /** One event, whole: a time of zero only counts for the newest time. */
  function Step(t: Tables, e: Event): Tables {
    var newest := if e.Cleanup? || e.whence <= t.maxWhence then t.maxWhence else e.whence;
    var t1 := t.(maxWhence := newest);
    var t2 := if !e.Cleanup? && e.whence == 0.0 then t1 else Handle(t1, e);
    t2.(seen := t.seen + 1)
  }

  function Run(t: Tables, events: seq<Event>): Tables
    decreases |events|
  {
    if events == [] then t else Run(Step(t, events[0]), events[1..])
  }

  // ---------------------------------------------------------------- accounting

  ghost predicate AllAccounted(t: Tables) {
    Accounted(t.inserts, t.seen) && Accounted(t.issues, t.seen)
  }

  /** No issue ever ages out. */
  predicate IssuesNeverAge(t: Tables) {
    forall id :: id in t.issues.fates ==> t.issues.fates[id] != AgedOut
  }

  lemma {:induction false} Later(tb: Table, seen: nat)
    requires Accounted(tb, seen)
    ensures Accounted(tb, seen + 1)
  {
  }

  lemma {:induction false} StepAccounts(t: Tables, e: Event)
    requires AllAccounted(t)
    ensures AllAccounted(Step(t, e))
  {
    hide Accounted, Drop, CleanedUp, Record, Put, Take;
    Later(t.inserts, t.seen);
    Later(t.issues, t.seen);
    match e
    case Cleanup =>
      DropAccounts(t.inserts, CleanedUp(t), t.seen);
      Later(Drop(t.inserts, CleanedUp(t)), t.seen);
    case Insert(k, whence) =>
      PutAccounts(t.inserts, k, whence, t.seen);
    case Issue(k, whence) =>
      PutAccounts(t.issues, k, whence, t.seen);
    case Complete(k, whence) =>
      TakeAccounts(t.inserts, k, t.seen);
      TakeAccounts(t.issues, k, t.seen);
  }

  lemma {:induction false} StepAgesNoIssue(t: Tables, e: Event)
    requires IssuesNeverAge(t)
    ensures IssuesNeverAge(Step(t, e))
  {
    hide Drop, CleanedUp, Record;
  }

  /** Over every sequence of events each insert, and each recorded issue, is exactly one of live,
      overwritten, aged out or consumed, and a completion consumes at most one of either; but an
      issue is never aged out. */
  lemma {:induction false} EverythingIsAccounted(t: Tables, events: seq<Event>)
    requires AllAccounted(t) && IssuesNeverAge(t)
    ensures AllAccounted(Run(t, events)) && IssuesNeverAge(Run(t, events))
    decreases |events|
  {
    if events != [] {
      StepAccounts(t, events[0]);
      StepAgesNoIssue(t, events[0]);
      hide AllAccounted, IssuesNeverAge, Step;
      EverythingIsAccounted(Step(t, events[0]), events[1..]);
    }
  }

  predicate Counted(e: Event) {
    e.Insert? && e.whence != 0.0
  }

  /** The inserts accounted for are all of them: every insert event with a time. */
  lemma {:induction false} EveryInsertCounts(t: Tables, events: seq<Event>)
    ensures var t' := Run(t, events);
            && t'.seen == t.seen + |events|
            && forall n :: n in t'.inserts.ids <==>
                 n in t.inserts.ids || (t.seen <= n < t'.seen && Counted(events[n - t.seen]))
    decreases |events|
  {
    if events != [] {
      var t1 := Step(t, events[0]);
      assert t1.seen == t.seen + 1 && t1.inserts.ids == t.inserts.ids + if Counted(events[0]) then {t.seen} else {};
      hide Step;
      EveryInsertCounts(t1, events[1..]);
      assert forall i :: 0 < i < |events| ==> events[i] == events[1..][i - 1];
    }
  }

  /** The issue event is recorded: it has a time, and there is an insert under its key. */
  predicate IssueCounted(t: Tables, e: Event) {
    e.Issue? && e.whence != 0.0 && e.key in t.inserts.live
  }

  lemma {:induction false} StepIssues(t: Tables, e: Event)
    ensures Step(t, e).seen == t.seen + 1
    ensures Step(t, e).issues.ids == t.issues.ids + if IssueCounted(t, e) then {t.seen} else {}
  {
    hide CleanedUp, Record, Drop;
  }

  /** The issues accounted for are the issue events that found an insert. */
  lemma {:induction false} WhichIssuesCount(t: Tables, events: seq<Event>)
    ensures var t' := Run(t, events);
            && t'.seen == t.seen + |events|
            && forall n :: n in t'.issues.ids <==>
                 n in t.issues.ids
                 || (t.seen <= n < t'.seen && IssueCounted(Run(t, events[..n - t.seen]), events[n - t.seen]))
    decreases |events|
  {
    if events != [] {
      var e, rest := events[0], events[1..];
      var t1 := Step(t, e);
      StepIssues(t, e);
      WhichIssuesCount(t1, rest);
      assert Run(t, events[..0]) == t;
      hide Step, IssueCounted;
      forall i | 0 < i < |events| ensures events[i] == rest[i - 1] && Run(t, events[..i]) == Run(t1, rest[..i - 1]) {
        assert events[..i][0] == e && events[..i][1..] == rest[..i - 1];
      }
    }
  }

  // ---------------------------------------------------------------- latencies

  /** Times never go back below the newest seen. */
  predicate NonDecreasing(newest: real, events: seq<Event>)
    decreases |events|
  {
    events == []
    || (events[0] == Cleanup && NonDecreasing(newest, events[1..]))
    || (events[0] != Cleanup && events[0].whence >= newest && NonDecreasing(events[0].whence, events[1..]))
  }

  predicate InThePast(t: Tables) {
    && (forall k :: k in t.inserts.live ==> t.inserts.live[k].whence <= t.maxWhence)
    && (forall k :: k in t.issues.live ==> t.issues.live[k].whence <= t.maxWhence)
    && (forall i :: 0 <= i < |t.log| ==> t.log[i].duration >= 0.0)
  }

  lemma {:induction false} StepInThePast(t: Tables, e: Event)
    requires InThePast(t) && (e != Cleanup ==> e.whence >= t.maxWhence)
    ensures InThePast(Step(t, e))
    ensures Step(t, e).maxWhence == if e == Cleanup then t.maxWhence else e.whence
  {
    hide CleanedUp;
  }

  /** With times that do not decrease no latency is negative. */
  lemma {:induction false} LatenciesAreNonNegative(t: Tables, events: seq<Event>)
    requires InThePast(t) && NonDecreasing(t.maxWhence, events)
    ensures InThePast(Run(t, events))
    decreases |events|
  {
    if events != [] {
      hide InThePast, Step;
      StepInThePast(t, events[0]);
      LatenciesAreNonNegative(Step(t, events[0]), events[1..]);
    }
  }

  /** An issue in the table has logged its queue time, from the insert it found; and that insert
      is still there under the same key unless it met its fate. */
  predicate LinkedAt(t: Tables, k: Key)
    requires k in t.issues.live
  {
    && k in t.found
    && Latency(k.dev, QueueTime, t.issues.live[k].whence - t.found[k].whence) in t.log
    && (t.found[k].id in t.inserts.fates || (k in t.inserts.live && t.inserts.live[k] == t.found[k]))
  }

  predicate Linked(t: Tables) {
    forall k :: k in t.issues.live ==> LinkedAt(t, k)
  }

  lemma {:induction false} StepKeepsLinked(t: Tables, e: Event)
    requires Linked(t)
    ensures Linked(Step(t, e))
  {
    var t' := Step(t, e);
    hide CleanedUp;
    forall k | k in t'.issues.live ensures LinkedAt(t', k) {
      if k in t.issues.live {
        assert LinkedAt(t, k);
      }
    }
  }

  lemma {:induction false} AlwaysLinked(t: Tables, events: seq<Event>)
    requires Linked(t)
    ensures Linked(Run(t, events))
    decreases |events|
  {
    if events != [] {
      StepKeepsLinked(t, events[0]);
      hide Linked, Step;
      AlwaysLinked(Step(t, events[0]), events[1..]);
    }
  }

  /** At a completion that logs a total and a device time, with the queue time logged at the issue:
      total = queue + device exactly if the insert has the time the issue found; which is so
      whenever that insert was neither replaced nor aged out in between. */
  lemma {:induction false} TotalIsQueuePlusDevice(events: seq<Event>, k: Key, whence: real)
    requires whence != 0.0
    requires var t := Run(EMPTY, events); k in t.inserts.live && k in t.issues.live
    ensures var t := Run(EMPTY, events);
            k in t.found &&
            var total := whence - t.inserts.live[k].whence;
            var device := whence - t.issues.live[k].whence;
            var queue := t.issues.live[k].whence - t.found[k].whence;
            && Latency(k.dev, QueueTime, queue) in t.log
            && Step(t, Complete(k, whence)).log
               == t.log + [Latency(k.dev, TotalTime, total), Latency(k.dev, DeviceTime, device)]
            && (total == queue + device <==> t.inserts.live[k].whence == t.found[k].whence)
            && (t.found[k].id !in t.inserts.fates ==> total == queue + device)
  {
    var t := Run(EMPTY, events);
    AlwaysLinked(EMPTY, events);
    hide Run;
    assert LinkedAt(t, k);
  }

  /** A completion alone: it logs the time since the insert and since the issue, in this order, each if
      there is one, and takes both from their tables. At time zero it does nothing. */
  lemma {:induction false} CompletionIs(t: Tables, k: Key, whence: real)
    ensures var t' := Step(t, Complete(k, whence));
            var total := if k in t.inserts.live then [Latency(k.dev, TotalTime, whence - t.inserts.live[k].whence)] else [];
            var device := if k in t.issues.live then [Latency(k.dev, DeviceTime, whence - t.issues.live[k].whence)] else [];
            if whence == 0.0 then
              (t'.inserts, t'.issues, t'.log) == (t.inserts, t.issues, t.log)
            else
              && t'.log == t.log + total + device
              && t'.inserts.live == t.inserts.live - {k} && t'.issues.live == t.issues.live - {k}
  {
  }

  /** An operation from its insert to its completion logs the time in the queue, the time in all and
      the time in the device, and leaves nothing behind. */
  lemma {:induction false} OneOperation(k: Key, inserted: real, issued: real, completed: real)
    requires inserted != 0.0 && issued != 0.0 && completed != 0.0
    ensures var t := Run(EMPTY, [Insert(k, inserted), Issue(k, issued), Complete(k, completed)]);
            && t.inserts.live == map[] == t.issues.live
            && t.log == [Latency(k.dev, QueueTime, issued - inserted), Latency(k.dev, TotalTime, completed - inserted),
                         Latency(k.dev, DeviceTime, completed - issued)]
  {
    var events := [Insert(k, inserted), Issue(k, issued), Complete(k, completed)];
    var t1 := Step(EMPTY, events[0]);
    var t2 := Step(t1, events[1]);
    var t3 := Step(t2, events[2]);
    assert events[1..][1..] == events[2..] && events[2..][1..] == [];
    assert Run(EMPTY, events) == Run(t1, events[1..]) == Run(t2, events[2..]) == Run(t3, []) == t3;
    CompletionIs(t2, k, completed);
    assert t2.inserts.live == map[k := Entry(inserted, 0)] && t2.issues.live == map[k := Entry(issued, 1)];
    assert t2.inserts.live - {k} == map[];
  }

  // ---------------------------------------------------------------- cleaning up

  /** Cleaning up the issues misses them: every issue stays, aged or not, so that the issues left
      are all recent only if they were so before. */
  lemma {:induction false} CleanupKeepsIssues(t: Tables)
    ensures Step(t, Cleanup).issues == t.issues
    ensures (forall k :: k in Step(t, Cleanup).issues.live ==> !Aged(t, Step(t, Cleanup).issues.live[k].whence))
        <==> (forall k :: k in t.issues.live ==> !Aged(t, t.issues.live[k].whence))
  {
  }

  /** And it hits the inserts instead: one that has not aged is dropped exactly if the issue under
      its key has. */
  lemma {:induction false} CleanupDropsIff(t: Tables, k: Key)
    requires k in t.inserts.live && t.maxWhence - t.inserts.live[k].whence <= 310.0
    ensures var t' := Step(t, Cleanup);
            && (k !in t'.inserts.live <==> k in t.issues.live && t.maxWhence - t.issues.live[k].whence > 310.0)
            && (k in t'.inserts.live ==> t'.inserts.live[k] == t.inserts.live[k])
  {
  }

  /** So it happens: an operation inserted just now is forgotten if an old issue of the same
      sectors was never completed. */
  lemma {:induction false} CleanupLosesAFreshInsert(k: Key, first: real, issued: real, again: real)
    requires 0.0 < first <= issued && again - issued > 310.0
    ensures var events := [Insert(k, first), Issue(k, issued), Insert(k, again)];
            var t := Run(EMPTY, events);
            && k in t.inserts.live && t.inserts.live[k].whence == t.maxWhence == again
            && k !in Step(t, Cleanup).inserts.live && k in Step(t, Cleanup).issues.live
  {
    var events := [Insert(k, first), Issue(k, issued), Insert(k, again)];
    var t1 := Step(EMPTY, events[0]);
    var t2 := Step(t1, events[1]);
    var t3 := Step(t2, events[2]);
    assert events[1..][1..] == events[2..] && events[2..][1..] == [];
    assert Run(EMPTY, events) == Run(t1, events[1..]) == Run(t2, events[2..]) == Run(t3, []) == t3;
  }

  // ---------------------------------------------------------------- the program's tables

  function Times(tb: Table): map<Key, real> {
    map k | k in tb.live :: tb.live[k].whence
  }

  lemma {:induction false} TimesPut(t: Tables, k: Key, whence: real)
    ensures Times(Put(t.inserts, k, whence, t.seen)) == Times(t.inserts)[k := whence]
    ensures Times(Put(t.issues, k, whence, t.seen)) == Times(t.issues)[k := whence]
    ensures k in t.inserts.live ==> t.inserts.live[k].whence == Times(t.inserts)[k]
    ensures k in t.issues.live ==> t.issues.live[k].whence == Times(t.issues)[k]
  {
  }

  lemma {:induction false} TimesTake(t: Tables, k: Key)
    ensures Times(Take(t.inserts, k, t.seen)) == Times(t.inserts) - {k}
    ensures Times(Take(t.issues, k, t.seen)) == Times(t.issues) - {k}
    ensures k in t.inserts.live <==> k in Times(t.inserts)
    ensures k in t.issues.live <==> k in Times(t.issues)
  {
  }

  /** One latency, when there is a time to measure from. */
  function Measured(log: seq<Latency>, times: map<Key, real>, k: Key, kind: Kind, whence: real): seq<Latency> {
    if k in times then log + [Latency(k.dev, kind, whence - times[k])] else log
  }

  lemma {:induction false} StepOnTimes(t: Tables, e: Event)
    requires e != Cleanup
    ensures var t' := Step(t, e);
            var (ins, iss) := (Times(t.inserts), Times(t.issues));
            var (ins', iss', log') := (Times(t'.inserts), Times(t'.issues), t'.log);
            && t'.maxWhence == (if e.whence > t.maxWhence then e.whence else t.maxWhence)
            && if e.whence == 0.0 then (ins', iss', log') == (ins, iss, t.log)
               else match e
                    case Insert(k, whence) => (ins', iss', log') == (ins[k := whence], iss, t.log)
                    case Issue(k, whence) =>
                      (ins', iss', log') == (ins, if k in ins then iss[k := whence] else iss,
                                             Measured(t.log, ins, k, QueueTime, whence))
                    case Complete(k, whence) =>
                      (ins', iss', log') == (ins - {k}, iss - {k},
                        Measured(Measured(t.log, ins, k, TotalTime, whence), iss, k, DeviceTime, whence))
                    case Cleanup => true
  {
    TimesPut(t, e.key, e.whence);
    TimesTake(t, e.key);
    hide CleanedUp, Drop, Put, Take, Times;
  }

  /** The tables as they are kept: times only. */
  class Tracker {
    var inserts: map<Key, real>
    var issues: map<Key, real>
    var maxWhence: real
    var latencies: seq<Latency>
    ghost var tables: Tables

    ghost predicate Valid()
      reads this
    {
      && inserts == Times(tables.inserts) && issues == Times(tables.issues)
      && maxWhence == tables.maxWhence && latencies == tables.log
    }

    constructor ()
      ensures Valid() && tables == EMPTY
    {
      inserts, issues, maxWhence, latencies := map[], map[], 0.0, [];
      tables := EMPTY;
    }

    method TrackLatency(dev: string, kind: Kind, duration: real)
      modifies this`latencies
      ensures latencies == old(latencies) + [Latency(dev, kind, duration)]
    {
      latencies := latencies + [Latency(dev, kind, duration)];
    }

    /** The completion case of handleLogLine. */
    method CompleteOperation(k: Key, whence: real)
      modifies this`inserts, this`issues, this`latencies
      ensures inserts == old(inserts) - {k} && issues == old(issues) - {k}
      ensures latencies
           == Measured(Measured(old(latencies), old(inserts), k, TotalTime, whence), old(issues), k, DeviceTime, whence)
    {
      if k in inserts {
        TrackLatency(k.dev, TotalTime, whence - inserts[k]);
        inserts := inserts - {k};
      }
      if k in issues {
        TrackLatency(k.dev, DeviceTime, whence - issues[k]);
        issues := issues - {k};
      }
    }

    /** handleLogLine, from its parsed fields on. */
    method HandleLogLine(e: Event)
      requires Valid() && e != Cleanup
      modifies this
      ensures Valid() && tables == Step(old(tables), e)
    {
      StepOnTimes(tables, e);
      hide Step, Times;
      tables := Step(tables, e);
      if e.whence > maxWhence {
        maxWhence := e.whence;
      }
      if e.whence == 0.0 {
        return;
      }
      match e {
        case Insert(k, whence) =>
          inserts := inserts[k := whence];
        case Issue(k, whence) =>
          if k in inserts {
            issues := issues[k := whence];
            TrackLatency(k.dev, QueueTime, whence - inserts[k]);
          }
        case Complete(k, whence) =>
          CompleteOperation(k, whence);
        case Cleanup =>
          assert false;
      }
    }

    /** Either loop of cleanupTables: both look through a table of times and delete from the inserts. */
    method DeleteAged(times: map<Key, real>)
      modifies this`inserts
      ensures inserts
           == map k | k in old(inserts) && !(k in times && maxWhence - times[k] > MAX_AGE) :: old(inserts)[k]
    {
      var keys := times.Keys;
      while keys != {}
        invariant keys <= times.Keys
        invariant inserts == map k | k in old(inserts)
                                     && !(k in times && k !in keys && maxWhence - times[k] > MAX_AGE) :: old(inserts)[k]
        decreases keys
      {
        var k :| k in keys;
        if maxWhence - times[k] > MAX_AGE {
          inserts := inserts - {k};
        }
        keys := keys - {k};
      }
    }

    /** cleanupTables */
    method CleanupTables()
      requires Valid()
      modifies this
      ensures Valid() && tables == Step(old(tables), Cleanup)
    {
      hide Step, Times;
      DeleteAged(inserts);
      DeleteAged(issues);
      CleanupTimes(tables);
      tables := Step(tables, Cleanup);
    }
  }

  lemma {:induction false} CleanupTimes(t: Tables)
    ensures var t' := Step(t, Cleanup);
            var times, issued := Times(t.inserts), Times(t.issues);
            && Times(t'.inserts) == (map k | k in times && !(t.maxWhence - times[k] > MAX_AGE)
                  && !(k in issued && t.maxWhence - issued[k] > MAX_AGE) :: times[k])
            && t' == t.(inserts := t'.inserts, seen := t.seen + 1)
  {
  }
}
