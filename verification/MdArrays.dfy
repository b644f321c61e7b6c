/** Disk timings of software RAID arrays, summed from their member disks while ranging over a map
    (internal/builtins/collector/linux/procfs/disk.go). */
module MdArrays {

  const U64: nat := 0x1_0000_0000_0000_0000

  type u64 = n: nat | n < U64

  /** The counters an array takes over from its members. */
  datatype Field = ReadTime | WriteTime | InProgress | IOTime | DiscardTime

  datatype Timings = Timings(readms: u64, writems: u64, currIO: u64, ioms: u64, discardms: u64, haveKernel418: bool) {
    function Get(f: Field): u64 {
      match f
      case ReadTime => readms
      case WriteTime => writems
      case InProgress => currIO
      case IOTime => ioms
      case DiscardTime => discardms
    }
  }

  type Stats = map<string, Timings>

  /** The member lists of mdstat, and the device names that pass the include and exclude
      expressions. */
  datatype Setup = Setup(lists: map<string, seq<string>>, included: set<string>)

  /** `^md[0-9]+` matches. */
  predicate MdName(id: string) {
    |id| >= 3 && id[..2] == "md" && '0' <= id[2] <= '9'
  }

  predicate Aggregates(setup: Setup, id: string) {
    id in setup.included && MdName(id) && id in setup.lists
  }

  // ---------------------------------------------------------------- what the loop computes

  function Add(x: u64, y: u64): u64 {
    (x + y) % U64
  }

  function Plus(own: Timings, ds: Timings): Timings {
    Timings(Add(own.readms, ds.readms), Add(own.writems, ds.writems), Add(own.currIO, ds.currIO),
            Add(own.ioms, ds.ioms),
            if own.haveKernel418 then Add(own.discardms, ds.discardms) else own.discardms,
            own.haveKernel418)
  }

  /** The record of `id` takes over the counters of the members that have a record. */
  function Absorb(stats: Stats, id: string, devs: seq<string>): (after: Stats)
    requires id in stats
    ensures after.Keys == stats.Keys
    ensures forall k :: k in stats && k != id ==> after[k] == stats[k]
    decreases |devs|
  {
    if devs == [] then stats
    else
      var before := Absorb(stats, id, devs[..|devs| - 1]);
      var dev := devs[|devs| - 1];
      if dev in before then before[id := Plus(before[id], before[dev])] else before
  }

  function Visit(setup: Setup, stats: Stats, id: string): (after: Stats)
    requires id in stats
    ensures after.Keys == stats.Keys
    ensures forall k :: k in stats && k != id ==> after[k] == stats[k]
  {
    if Aggregates(setup, id) then Absorb(stats, id, setup.lists[id]) else stats
  }

  /** Names of devices that have a record. */
  predicate Known(stats: Stats, order: seq<string>) {
    forall i :: 0 <= i < |order| ==> order[i] in stats
  }

  /** The records after the devices in `order` were visited. */
  function After(setup: Setup, stats: Stats, order: seq<string>): (after: Stats)
    requires Known(stats, order)
    ensures after.Keys == stats.Keys
    decreases |order|
  {
    if order == [] then stats
    else Visit(setup, After(setup, stats, order[..|order| - 1]), order[|order| - 1])
  }

  /** What was emitted for the included ones, each right after its visit. */
  function Emitted(setup: Setup, stats: Stats, order: seq<string>): Stats
    requires Known(stats, order)
    decreases |order|
  {
    if order == [] then map[]
    else
      var id := order[|order| - 1];
      var before := Emitted(setup, stats, order[..|order| - 1]);
      if id in setup.included then before[id := After(setup, stats, order)[id]] else before
  }

  predicate NoDuplicates(s: seq<string>) {
    forall i, j :: 0 <= i < j < |s| ==> s[i] != s[j]
  }

  /** One of the orders in which a map with these keys may be ranged over. */
  predicate IsOrder(order: seq<string>, keys: set<string>) {
    && NoDuplicates(order)
    && (forall i :: 0 <= i < |order| ==> order[i] in keys)
    && (forall k :: k in keys ==> k in order)
  }

  // ---------------------------------------------------------------- sums

  /** The sum of a counter over the members that have a record, not reduced. */
  function Total(stats: Stats, devs: seq<string>, f: Field): nat {
    if devs == [] then 0
    else
      var dev := devs[|devs| - 1];
      Total(stats, devs[..|devs| - 1], f) + if dev in stats then stats[dev].Get(f) else 0
  }

  /** An array that does not list itself ends with its own value plus the sum over its members with
      records, modulo 2^64; the discard time only where the kernel reports it for the array. */
  lemma {:induction false} AbsorbIsASum(stats: Stats, id: string, devs: seq<string>, f: Field)
    requires id in stats && id !in devs
    ensures Absorb(stats, id, devs)[id].haveKernel418 == stats[id].haveKernel418
    ensures Absorb(stats, id, devs)[id].Get(f)
         == if f == DiscardTime && !stats[id].haveKernel418 then stats[id].Get(f)
            else (stats[id].Get(f) + Total(stats, devs, f)) % U64
    decreases |devs|
  {
    if devs != [] {
      var init := devs[..|devs| - 1];
      var dev := devs[|devs| - 1];
      assert dev != id && id !in init;
      AbsorbIsASum(stats, id, init, f);
      if dev in stats {
        ModAdd(stats[id].Get(f) + Total(stats, init, f), stats[dev].Get(f));
      }
    }
  }

  lemma {:induction false} ModAdd(x: nat, y: nat)
    ensures (x % U64 + y) % U64 == (x + y) % U64
  {
    assert x == x / U64 * U64 + x % U64;
    var q := x / U64;
    var r := x % U64;
    assert x + y == q * U64 + (r + y);
    ModMultiple(q, r + y);
  }

  lemma {:induction false} ModMultiple(q: nat, r: nat)
    ensures (q * U64 + r) % U64 == r % U64
  {
    if q > 0 {
      ModMultiple(q - 1, r);
      assert q * U64 + r == ((q - 1) * U64 + r) + U64;
    }
  }

  /** Only the records of the array and of its members matter. */
  lemma {:induction false} AbsorbReadsMembers(stats: Stats, stats': Stats, id: string, devs: seq<string>)
    requires id in stats && stats.Keys == stats'.Keys && stats[id] == stats'[id]
    requires forall dev :: dev in devs && dev in stats ==> stats[dev] == stats'[dev]
    ensures Absorb(stats, id, devs)[id] == Absorb(stats', id, devs)[id]
    decreases |devs|
  {
    if devs != [] {
      AbsorbReadsMembers(stats, stats', id, devs[..|devs| - 1]);
      var dev := devs[|devs| - 1];
      assert dev in devs;
    }
  }

  // ---------------------------------------------------------------- orders

  /** An array that has at least one member with a record. */
  predicate Loaded(setup: Setup, keys: set<string>, id: string) {
    Aggregates(setup, id) && exists i :: 0 <= i < |setup.lists[id]| && setup.lists[id][i] in keys
  }

  /** No array that is aggregated lists another one that is. */
  predicate Flat(setup: Setup, keys: set<string>) {
    forall a, b :: a in keys && Aggregates(setup, a) && b in keys && b in setup.lists[a] && b != a
      ==> !Loaded(setup, keys, b)
  }

  lemma {:induction false} NothingToAbsorb(stats: Stats, id: string, devs: seq<string>)
    requires id in stats
    requires forall i :: 0 <= i < |devs| ==> devs[i] !in stats
    ensures Absorb(stats, id, devs) == stats
    decreases |devs|
  {
    if devs != [] {
      NothingToAbsorb(stats, id, devs[..|devs| - 1]);
    }
  }

  /** The record of a device changes only on its own visit, and only if it is a loaded array. */
  lemma {:induction false} ChangedOnlyByItsVisit(setup: Setup, stats: Stats, order: seq<string>, id: string)
    requires Known(stats, order) && id in stats
    requires id !in order || !Loaded(setup, stats.Keys, id)
    ensures After(setup, stats, order)[id] == stats[id]
    decreases |order|
  {
    if order != [] {
      var init, last := order[..|order| - 1], order[|order| - 1];
      ChangedOnlyByItsVisit(setup, stats, init, id);
      assert last in order;
      if last == id && Aggregates(setup, id) {
        NothingToAbsorb(After(setup, stats, init), id, setup.lists[id]);
      }
    }
  }

  /** What is emitted for a device is its record right after its visit. */
  lemma {:induction false} EmittedOnVisit(setup: Setup, stats: Stats, order: seq<string>, i: nat)
    requires Known(stats, order) && NoDuplicates(order) && i < |order| && order[i] in setup.included
    ensures order[i] in Emitted(setup, stats, order)
    ensures Emitted(setup, stats, order)[order[i]] == Visit(setup, After(setup, stats, order[..i]), order[i])[order[i]]
    decreases |order|
  {
    var init := order[..|order| - 1];
    if i < |init| {
      EmittedOnVisit(setup, stats, init, i);
      assert init[..i] == order[..i];
    }
  }

  lemma {:induction false} EmitsOnlyIncluded(setup: Setup, stats: Stats, order: seq<string>)
    requires Known(stats, order)
    ensures forall k :: k in Emitted(setup, stats, order) ==> k in setup.included && k in order
    decreases |order|
  {
    if order != [] {
      EmitsOnlyIncluded(setup, stats, order[..|order| - 1]);
    }
  }

  /** Every included device, each array as if it were the only one. */
  function Alone(setup: Setup, stats: Stats): Stats {
    map k | k in stats && k in setup.included :: Visit(setup, stats, k)[k]
  }

  lemma {:induction false} EmittedAlone(setup: Setup, stats: Stats, order: seq<string>, k: string)
    requires IsOrder(order, stats.Keys) && Flat(setup, stats.Keys) && k in stats && k in setup.included
    ensures k in Emitted(setup, stats, order) && Emitted(setup, stats, order)[k] == Visit(setup, stats, k)[k]
  {
    var i :| 0 <= i < |order| && order[i] == k;
    EmittedOnVisit(setup, stats, order, i);
    var before := After(setup, stats, order[..i]);
    ChangedOnlyByItsVisit(setup, stats, order[..i], k);
    if Aggregates(setup, k) {
      forall dev | dev in setup.lists[k] && dev in stats ensures before[dev] == stats[dev] {
        if dev != k {
          ChangedOnlyByItsVisit(setup, stats, order[..i], dev);
        }
      }
      AbsorbReadsMembers(before, stats, k, setup.lists[k]);
    }
  }

  /** Without nested arrays every order of visits emits the same: each included device once, each
      array as if it were the only one. */
  lemma {:induction false} EveryOrderEmitsTheSame(setup: Setup, stats: Stats, order: seq<string>)
    requires IsOrder(order, stats.Keys) && Flat(setup, stats.Keys)
    ensures Emitted(setup, stats, order) == Alone(setup, stats)
  {
    EmitsOnlyIncluded(setup, stats, order);
    forall k | k in stats && k in setup.included
      ensures k in Emitted(setup, stats, order) && Emitted(setup, stats, order)[k] == Visit(setup, stats, k)[k]
    {
      EmittedAlone(setup, stats, order, k);
    }
  }

  /** An array, by its name: "md", a digit and anything. */
  predicate NamesArray(id: string) {
    exists d :: d in "0123456789" && "md" + [d] <= id
  }

  lemma {:induction false} MdNameIs(id: string)
    ensures MdName(id) <==> NamesArray(id)
  {
    var digits := "0123456789";
    if MdName(id) {
      assert digits[id[2] as int - '0' as int] == id[2];
      assert "md" + [id[2]] <= id;
    }
  }

  /** Without nested arrays, whatever the order, each counter emitted for a device that is not
      excluded: of an array by name with a member list, its own and those of the members with records,
      modulo 2^64; of any other device just its own. Nothing is emitted for excluded devices. */
  lemma {:induction false} EmittedValue(setup: Setup, stats: Stats, order: seq<string>, id: string, f: Field)
    requires IsOrder(order, stats.Keys) && Flat(setup, stats.Keys) && id in stats
    ensures id in Emitted(setup, stats, order) <==> id in setup.included
    ensures id in setup.included && NamesArray(id) && id in setup.lists && id !in setup.lists[id] ==>
              Emitted(setup, stats, order)[id].Get(f)
              == if f == DiscardTime && !stats[id].haveKernel418 then stats[id].Get(f)
                 else (stats[id].Get(f) + Total(stats, setup.lists[id], f)) % 0x1_0000_0000_0000_0000
    ensures id in setup.included && !(NamesArray(id) && id in setup.lists) ==>
              Emitted(setup, stats, order)[id] == stats[id]
  {
    EmitsOnlyIncluded(setup, stats, order);
    MdNameIs(id);
    if id in setup.included {
      EmittedAlone(setup, stats, order, id);
      hide *;
      VisitOf(setup, stats, id, f);
    }
  }

  lemma {:induction false} VisitOf(setup: Setup, stats: Stats, id: string, f: Field)
    requires id in stats && id in setup.included
    ensures !(MdName(id) && id in setup.lists) ==> Visit(setup, stats, id)[id] == stats[id]
    ensures MdName(id) && id in setup.lists && id !in setup.lists[id] ==>
              Visit(setup, stats, id)[id].Get(f)
              == if f == DiscardTime && !stats[id].haveKernel418 then stats[id].Get(f)
                 else (stats[id].Get(f) + Total(stats, setup.lists[id], f)) % 0x1_0000_0000_0000_0000
  {
    hide MdName;
    if id in setup.lists && id !in setup.lists[id] {
      AbsorbIsASum(stats, id, setup.lists[id], f);
    }
  }

  /** One member, counter by counter: reading, writing, in progress, busy; and the discard time where
      the array has one. */
  lemma {:induction false} OneMember(stats: Stats, id: string, dev: string)
    requires id in stats && dev in stats && id != dev
    ensures var (own, ds, after) := (stats[id], stats[dev], Absorb(stats, id, [dev])[id]);
            && (after.readms - own.readms - ds.readms) % 0x1_0000_0000_0000_0000 == 0
            && (after.writems - own.writems - ds.writems) % 0x1_0000_0000_0000_0000 == 0
            && (after.currIO - own.currIO - ds.currIO) % 0x1_0000_0000_0000_0000 == 0
            && (after.ioms - own.ioms - ds.ioms) % 0x1_0000_0000_0000_0000 == 0
            && (own.haveKernel418 ==> (after.discardms - own.discardms - ds.discardms) % 0x1_0000_0000_0000_0000 == 0)
            && (!own.haveKernel418 ==> after.discardms == own.discardms)
            && after.haveKernel418 == own.haveKernel418
    ensures (stats[id].Get(ReadTime), stats[id].Get(WriteTime)) == (stats[id].readms, stats[id].writems)
    ensures (stats[id].Get(InProgress), stats[id].Get(IOTime), stats[id].Get(DiscardTime))
         == (stats[id].currIO, stats[id].ioms, stats[id].discardms)
  {
    assert [dev][..0] == [];
    assert Absorb(stats, id, []) == stats;
    var (own, ds) := (stats[id], stats[dev]);
    assert Absorb(stats, id, [dev])[id] == Plus(own, ds);
    SumWraps(own.readms, ds.readms);
    SumWraps(own.writems, ds.writems);
    SumWraps(own.currIO, ds.currIO);
    SumWraps(own.ioms, ds.ioms);
    SumWraps(own.discardms, ds.discardms);
  }

  lemma {:induction false} SumWraps(x: u64, y: u64)
    ensures Add(x, y) < U64 && (Add(x, y) - x - y) % U64 == 0
  {
    if x + y < U64 {
      assert Add(x, y) == x + y;
    } else {
      assert Add(x, y) == x + y - U64;
    }
  }

  // ---------------------------------------------------------------- nested arrays

  /** As the kernel prints member lists: no device twice, no array within itself. */
  predicate Proper(setup: Setup) {
    forall id :: id in setup.lists ==> NoDuplicates(setup.lists[id]) && id !in setup.lists[id]
  }

  /** Raising a counter of one device by one raises the sum by one if the device is listed. */
  lemma {:induction false} TotalRaised(stats: Stats, stats': Stats, devs: seq<string>, dev: string, f: Field)
    requires stats.Keys == stats'.Keys && dev in stats && NoDuplicates(devs)
    requires stats'[dev].Get(f) == stats[dev].Get(f) + 1
    requires forall k :: k in stats && k != dev ==> stats'[k] == stats[k]
    ensures Total(stats', devs, f) == Total(stats, devs, f) + if dev in devs then 1 else 0
    decreases |devs|
  {
    if devs != [] {
      TotalRaised(stats, stats', devs[..|devs| - 1], dev, f);
      assert dev in devs <==> dev in devs[..|devs| - 1] || dev == devs[|devs| - 1];
    }
  }

  /** All counters zero, but for one millisecond of reading on `x`. */
  function OneRead(keys: set<string>, x: string): Stats {
    map k | k in keys :: Timings(if k == x then 1 else 0, 0, 0, 0, 0, false)
  }

  lemma {:induction false} ZerosTotal(zeros: Stats, devs: seq<string>)
    requires forall k :: k in zeros ==> zeros[k].readms == 0
    ensures Total(zeros, devs, ReadTime) == 0
    decreases |devs|
  {
    if devs != [] {
      ZerosTotal(zeros, devs[..|devs| - 1]);
    }
  }

  lemma {:induction false} TotalOfOne(keys: set<string>, x: string, devs: seq<string>)
    requires x in keys && NoDuplicates(devs)
    ensures Total(OneRead(keys, x), devs, ReadTime) == if x in devs then 1 else 0
  {
    var zeros := OneRead(keys, x)[x := Timings(0, 0, 0, 0, 0, false)];
    ZerosTotal(zeros, devs);
    TotalRaised(zeros, OneRead(keys, x), devs, x, ReadTime);
  }

  /** Some order for any finite set of keys. */
  lemma {:induction false} SomeOrder(keys: set<string>) returns (order: seq<string>)
    ensures IsOrder(order, keys)
    decreases |keys|
  {
    if keys == {} {
      order := [];
    } else {
      var k :| k in keys;
      var rest := SomeOrder(keys - {k});
      order := rest + [k];
    }
  }

  lemma {:induction false} TwoOrders(keys: set<string>, a: string, b: string) returns (order: seq<string>, order': seq<string>)
    requires a in keys && b in keys && a != b
    ensures IsOrder(order, keys) && IsOrder(order', keys)
    ensures |order| >= 2 && |order'| >= 2 && order[0] == a && order'[..2] == [b, a]
  {
    var rest := SomeOrder(keys - {a, b});
    order, order' := [a, b] + rest, [b, a] + rest;
  }

  lemma {:induction false} OrderIsKnown(stats: Stats, order: seq<string>)
    requires IsOrder(order, stats.Keys)
    ensures NoDuplicates(order) && Known(stats, order)
  {
  }

  /** If array `a` lists array `b`, and `b` lists a device `x` with a record, visiting `b` before `a`
      counts the reading of `x` once more for `a`. */
  lemma {:induction false} NestedOrdersDiffer(setup: Setup, keys: set<string>, a: string, b: string, x: string)
    returns (stats: Stats, order: seq<string>, order': seq<string>)
    requires Proper(setup) && {a, b, x} <= keys && a != b
    requires Aggregates(setup, a) && Aggregates(setup, b) && b in setup.lists[a] && x in setup.lists[b]
    ensures stats.Keys == keys && IsOrder(order, keys) && IsOrder(order', keys)
    ensures a in Emitted(setup, stats, order) && a in Emitted(setup, stats, order')
    ensures Emitted(setup, stats, order)[a] != Emitted(setup, stats, order')[a]
  {
    stats := OneRead(keys, x);
    order, order' := TwoOrders(keys, a, b);
    hide IsOrder, Emitted, Absorb, OneRead, NoDuplicates;
    OrderIsKnown(stats, order);
    OrderIsKnown(stats, order');
    EmittedFirst(setup, stats, order, a);
    EmittedSecond(setup, stats, order', b, a);
    NestedCountsTwice(setup, keys, a, b, x);
  }

  lemma {:induction false} EmittedFirst(setup: Setup, stats: Stats, order: seq<string>, a: string)
    requires Known(stats, order) && NoDuplicates(order) && order != [] && order[0] == a && Aggregates(setup, a)
    ensures a in Emitted(setup, stats, order)
    ensures Emitted(setup, stats, order)[a] == Absorb(stats, a, setup.lists[a])[a]
  {
    EmittedOnVisit(setup, stats, order, 0);
    assert order[..0] == [];
  }

  lemma {:induction false} EmittedSecond(setup: Setup, stats: Stats, order: seq<string>, b: string, a: string)
    requires Known(stats, order) && NoDuplicates(order) && |order| >= 2 && order[..2] == [b, a]
    requires Aggregates(setup, a) && Aggregates(setup, b) && {a, b} <= stats.Keys
    ensures a in Emitted(setup, stats, order)
    ensures Emitted(setup, stats, order)[a] == Absorb(Absorb(stats, b, setup.lists[b]), a, setup.lists[a])[a]
  {
    assert order[0] == order[..2][0] == b && order[1] == order[..2][1] == a;
    EmittedOnVisit(setup, stats, order, 1);
    assert order[..1] == [b] && [b][..0] == [];
    assert After(setup, stats, [b]) == Absorb(stats, b, setup.lists[b]);
  }

  lemma {:induction false} NestedCountsTwice(setup: Setup, keys: set<string>, a: string, b: string, x: string)
    requires Proper(setup) && {a, b, x} <= keys && a != b
    requires a in setup.lists && b in setup.lists && b in setup.lists[a] && x in setup.lists[b]
    ensures var stats := OneRead(keys, x);
            Absorb(stats, a, setup.lists[a])[a] != Absorb(Absorb(stats, b, setup.lists[b]), a, setup.lists[a])[a]
  {
    var stats := OneRead(keys, x);
    var later := Absorb(stats, b, setup.lists[b]);
    TotalOfOne(keys, x, setup.lists[b]);
    AbsorbIsASum(stats, b, setup.lists[b], ReadTime);
    assert later[b].readms == 1 && stats[b].readms == 0;
    TotalOfOne(keys, x, setup.lists[a]);
    TotalRaised(stats, later, setup.lists[a], b, ReadTime);
    AbsorbIsASum(stats, a, setup.lists[a], ReadTime);
    AbsorbIsASum(later, a, setup.lists[a], ReadTime);
  }

  /** For a machine with these devices and member lists, what is emitted is independent of the order
      for all counter values exactly if no array lists another array that has members with records. */
  lemma {:induction false} OrderIrrelevantIffFlat(setup: Setup, keys: set<string>)
    requires Proper(setup)
    ensures Flat(setup, keys)
        <==> forall stats: Stats, order, order' :: stats.Keys == keys && IsOrder(order, keys) && IsOrder(order', keys)
               ==> Emitted(setup, stats, order) == Emitted(setup, stats, order')
  {
    if Flat(setup, keys) {
      forall stats: Stats, order, order' | stats.Keys == keys && IsOrder(order, keys) && IsOrder(order', keys)
        ensures Emitted(setup, stats, order) == Emitted(setup, stats, order')
      {
        EveryOrderEmitsTheSame(setup, stats, order);
        EveryOrderEmitsTheSame(setup, stats, order');
      }
    } else {
      var a, b :| && a in keys && Aggregates(setup, a) && b in keys && b in setup.lists[a] && b != a
                  && Loaded(setup, keys, b);
      var i :| 0 <= i < |setup.lists[b]| && setup.lists[b][i] in keys;
      var stats, order, order' := NestedOrdersDiffer(setup, keys, a, b, setup.lists[b][i]);
    }
  }

  // ---------------------------------------------------------------- the loop

  class DStats {
    var readms: u64
    var writems: u64
    var currIO: u64
    var ioms: u64
    var discardms: u64
    const haveKernel418: bool

    constructor (t: Timings)
      ensures Value() == t
    {
      readms, writems, currIO, ioms, discardms := t.readms, t.writems, t.currIO, t.ioms, t.discardms;
      haveKernel418 := t.haveKernel418;
    }

    function Value(): Timings
      reads this
    {
      Timings(readms, writems, currIO, ioms, discardms, haveKernel418)
    }

    /** The sums of one member, `ds` possibly being the array itself. */
    method AddTimings(ds: DStats)
      modifies this
      ensures Value() == Plus(old(Value()), old(ds.Value()))
    {
      readms := Add(readms, ds.readms);
      writems := Add(writems, ds.writems);
      currIO := Add(currIO, ds.currIO);
      ioms := Add(ioms, ds.ioms);
      if haveKernel418 {
        discardms := Add(discardms, ds.discardms);
      }
    }
  }

  /** Each line of diskstats gets a record of its own. */
  ghost predicate Separate(disks: map<string, DStats>) {
    forall j, k :: j in disks && k in disks && j != k ==> disks[j] != disks[k]
  }

  ghost function Snapshot(disks: map<string, DStats>): (s: Stats)
    reads disks.Values
    ensures s.Keys == disks.Keys
  {
    map k | k in disks :: disks[k].Value()
  }

  lemma {:induction false} StartOfOrder(setup: Setup, stats: Stats)
    ensures IsOrder([], stats.Keys - stats.Keys) && Known(stats, [])
    ensures After(setup, stats, []) == stats && Emitted(setup, stats, []) == map[]
  {
  }

  lemma {:induction false} OneMoreVisit(setup: Setup, stats: Stats, order: seq<string>, id: string, left: set<string>)
    requires IsOrder(order, stats.Keys - left) && left <= stats.Keys && id in left
    ensures Known(stats, order) && Known(stats, order + [id]) && IsOrder(order + [id], stats.Keys - (left - {id}))
    ensures After(setup, stats, order + [id]) == Visit(setup, After(setup, stats, order), id)
    ensures Emitted(setup, stats, order + [id])
         == if id in setup.included then Emitted(setup, stats, order)[id := After(setup, stats, order + [id])[id]]
            else Emitted(setup, stats, order)
  {
    assert (order + [id])[..|order|] == order;
  }

  lemma {:induction false} NoMembers(stats: Stats, id: string, devs: seq<string>)
    requires id in stats && devs == []
    ensures Absorb(stats, id, devs) == stats
  {
  }

  lemma {:induction false} OneMoreMember(stats: Stats, id: string, devs: seq<string>, i: nat)
    requires id in stats && i < |devs|
    ensures var before := Absorb(stats, id, devs[..i]);
            Absorb(stats, id, devs[..i + 1])
            == if devs[i] in stats then before[id := Plus(before[id], before[devs[i]])] else before
  {
    assert devs[..i + 1][..i] == devs[..i];
  }

  /** The inner loop of Collect. */
  method AbsorbMembers(disks: map<string, DStats>, id: string, devs: seq<string>)
    requires id in disks && Separate(disks)
    modifies disks[id]
    ensures Snapshot(disks) == Absorb(old(Snapshot(disks)), id, devs)
  {
    hide Absorb, Plus;
    ghost var stats := Snapshot(disks);
    assert Absorb(stats, id, devs[..0]) == stats by { NoMembers(stats, id, devs[..0]); }
    for i := 0 to |devs|
      invariant Snapshot(disks) == Absorb(stats, id, devs[..i])
    {
      OneMoreMember(stats, id, devs, i);
      if devs[i] in disks {
        disks[id].AddTimings(disks[devs[i]]);
      }
    }
    assert devs[..|devs|] == devs;
  }

  /** The loop of Collect over the devices, in whichever order the map yields them. Without nested
      arrays the emitted values do not depend on it. */
  method Collect(setup: Setup, disks: map<string, DStats>) returns (metrics: Stats, ghost order: seq<string>)
    requires Separate(disks)
    modifies disks.Values
    ensures IsOrder(order, disks.Keys)
    ensures metrics == Emitted(setup, old(Snapshot(disks)), order)
    ensures Snapshot(disks) == After(setup, old(Snapshot(disks)), order)
    ensures Flat(setup, disks.Keys) ==> metrics == Alone(setup, old(Snapshot(disks)))
  {
    hide After, Emitted, IsOrder, NoDuplicates, Known, Absorb, Flat, Alone;
    ghost var stats := Snapshot(disks);
    StartOfOrder(setup, stats);
    metrics, order := map[], [];
    var left := disks.Keys;
    while left != {}
      invariant left <= disks.Keys && IsOrder(order, stats.Keys - left) && Known(stats, order)
      invariant metrics == Emitted(setup, stats, order)
      invariant Snapshot(disks) == After(setup, stats, order)
      decreases left
    {
      var devID :| devID in left;
      OneMoreVisit(setup, stats, order, devID, left);
      left := left - {devID};
      order := order + [devID];
      if devID in setup.included {
        if MdName(devID) && devID in setup.lists {
          AbsorbMembers(disks, devID, setup.lists[devID]);
        }
        metrics := metrics[devID := disks[devID].Value()];
      }
    }
    assert stats.Keys - left == stats.Keys;
    if Flat(setup, disks.Keys) {
      EveryOrderEmitsTheSame(setup, stats, order);
    }
  }
}
