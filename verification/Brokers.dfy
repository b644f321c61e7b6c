/** Choosing a broker for a new check (internal/check/bundle/broker.go). Times in nanoseconds. */
module Brokers {
  import opened Common

  const THRESHOLD := 10_000_000_000

  /** A broker with what probing it gives: its response time, or not valid. */
  datatype Broker = Broker(cid: string, enterprise: bool, probe: Option<int>)

  datatype Failure = InvalidCheckType | InvalidList | EmptyList | NoEnterprise | NoneValid

  /** validBrokers, haveEnterprise and threshold. */
  datatype Pass = Pass(valid: map<string, Broker>, haveEnterprise: bool, threshold: int)

  function Consider(p: Pass, b: Broker): Pass {
    if b.probe.None? || b.probe.value > p.threshold then p
    else if b.probe.value == p.threshold then
      p.(valid := p.valid[b.cid := b], haveEnterprise := p.haveEnterprise || b.enterprise)
    else
      Pass(map[b.cid := b], b.enterprise, b.probe.value)
  }

  /** The single pass over a list. */
  function PassOver(list: seq<Broker>): Pass {
    if list == [] then Pass(map[], false, THRESHOLD)
    else Consider(PassOver(list[..|list| - 1]), list[|list| - 1])
  }

  // ---------------------------------------------------------------- what the pass finds

  /** Valid, within ten seconds, and no valid broker of the list is faster. */
  predicate Fastest(list: seq<Broker>, i: int) {
    && 0 <= i < |list| && list[i].probe.Some? && list[i].probe.value <= THRESHOLD
    && forall j :: 0 <= j < |list| && list[j].probe.Some? ==> list[i].probe.value <= list[j].probe.value
  }

  /** The last of the fastest brokers with its CID. */
  predicate LastFastest(list: seq<Broker>, i: int) {
    Fastest(list, i) && forall j :: i < j < |list| && list[j].cid == list[i].cid ==> !Fastest(list, j)
  }

  /** The threshold is the least response time, or ten seconds. */
  ghost predicate LeastTime(list: seq<Broker>, threshold: int) {
    && threshold <= THRESHOLD
    && (forall j :: 0 <= j < |list| && list[j].probe.Some? ==> threshold <= list[j].probe.value)
    && (threshold == THRESHOLD || exists j :: 0 <= j < |list| && list[j].probe == Some(threshold))
  }

  /** Broker i answered in exactly this time. */
  predicate At(list: seq<Broker>, time: int, i: int) {
    0 <= i < |list| && list[i].probe == Some(time)
  }

  predicate LastAt(list: seq<Broker>, time: int, i: int) {
    At(list, time, i) && forall j :: i < j < |list| && list[j].cid == list[i].cid ==> !At(list, time, j)
  }

  lemma {:induction false} FastestTakesTheLeastTime(list: seq<Broker>, threshold: int)
    requires LeastTime(list, threshold)
    ensures forall i :: Fastest(list, i) <==> At(list, threshold, i)
    ensures forall i :: LastFastest(list, i) <==> LastAt(list, threshold, i)
  {
    forall i ensures Fastest(list, i) <==> At(list, threshold, i) {
      if j :| 0 <= j < |list| && list[j].probe == Some(threshold) {
        assert Fastest(list, i) ==> list[i].probe.value <= list[j].probe.value;
      }
    }
  }

  ghost predicate KeepsFrom(list: seq<Broker>, p: Pass, cid: string, i: int)
    requires cid in p.valid
  {
    LastAt(list, p.threshold, i) && p.valid[cid] == list[i] && list[i].cid == cid
  }

  ghost predicate Keeps(list: seq<Broker>, p: Pass) {
    && (forall cid :: cid in p.valid ==> exists i :: KeepsFrom(list, p, cid, i))
    && (forall i :: At(list, p.threshold, i) ==> list[i].cid in p.valid)
    && (p.haveEnterprise <==> exists i :: At(list, p.threshold, i) && list[i].enterprise)
  }

  lemma {:induction false} PassKeeps(list: seq<Broker>)
    ensures LeastTime(list, PassOver(list).threshold)
    ensures Keeps(list, PassOver(list))
  {
    if list != [] {
      var before, b := list[..|list| - 1], list[|list| - 1];
      PassKeeps(before);
      assert list == before + [b];
      var p := PassOver(before);
      hide Keeps, LeastTime, Consider;
      ConsiderTime(before, b, p);
      ConsiderKeeps(before, b, p);
    }
  }

  lemma {:induction false} ConsiderTime(list: seq<Broker>, b: Broker, p: Pass)
    requires LeastTime(list, p.threshold)
    ensures LeastTime(list + [b], Consider(p, b).threshold)
  {
    var all := list + [b];
    if j :| 0 <= j < |list| && list[j].probe == Some(p.threshold) {
      assert all[j].probe == Some(p.threshold);
    }
    assert all[|list|] == b;
  }

  lemma {:induction false} ConsiderKeeps(list: seq<Broker>, b: Broker, p: Pass)
    requires LeastTime(list, p.threshold) && Keeps(list, p)
    ensures Keeps(list + [b], Consider(p, b))
  {
    var all, p', n := list + [b], Consider(p, b), |list|;
    var t := p'.threshold;
    assert forall i :: 0 <= i < n ==> all[i] == list[i];
    assert forall i :: At(all, t, i) <==> (t == p.threshold && At(list, t, i)) || (i == n && b.probe == Some(t));
    hide LeastTime, At;
    forall cid | cid in p'.valid ensures exists i :: KeepsFrom(all, p', cid, i) {
      if b.probe == Some(t) && cid == b.cid {
        assert KeepsFrom(all, p', cid, n);
      } else {
        var i :| KeepsFrom(list, p, cid, i);
        InRange(list, p.threshold, i);
        assert KeepsFrom(all, p', cid, i);
      }
    }
    forall i | At(all, t, i) ensures all[i].cid in p'.valid {
    }
    if i :| At(list, t, i) && list[i].enterprise && t == p.threshold {
      InRange(list, t, i);
      assert At(all, t, i) && all[i].enterprise;
    }
    assert b.probe == Some(t) && b.enterprise ==> At(all, t, n) && all[n].enterprise;
  }

  lemma {:induction false} InRange(list: seq<Broker>, time: int, i: int)
    requires At(list, time, i)
    ensures 0 <= i < |list|
  {
  }

  predicate DistinctCIDs(list: seq<Broker>) {
    forall i, j :: 0 <= i < j < |list| ==> list[i].cid != list[j].cid
  }

  /** With distinct CIDs the candidates are exactly the fastest brokers. */
  lemma {:induction false} CandidatesAreTheFastest(list: seq<Broker>)
    requires DistinctCIDs(list)
    ensures forall b :: b in PassOver(list).valid.Values <==> exists i :: Fastest(list, i) && list[i] == b
  {
    PassKeeps(list);
    var p := PassOver(list);
    FastestTakesTheLeastTime(list, p.threshold);
    hide LeastTime, Fastest, LastFastest, PassOver;
    forall b ensures b in p.valid.Values <==> exists i :: At(list, p.threshold, i) && list[i] == b {
      if b in p.valid.Values {
        var cid :| cid in p.valid && p.valid[cid] == b;
        var i :| KeepsFrom(list, p, cid, i);
        assert At(list, p.threshold, i) && list[i] == b;
      }
      if i :| At(list, p.threshold, i) && list[i] == b {
        var j :| KeepsFrom(list, p, b.cid, j);
        assert i == j;
      }
    }
  }

  // ---------------------------------------------------------------- choosing

  ghost predicate AnyFastest(list: seq<Broker>) {
    exists i :: Fastest(list, i)
  }

  ghost predicate FastEnterprise(list: seq<Broker>) {
    exists i :: Fastest(list, i) && list[i].enterprise
  }

  /** An enterprise broker that is the last of its CID among the fastest. */
  ghost predicate KeptEnterprise(list: seq<Broker>) {
    exists i :: LastFastest(list, i) && list[i].enterprise
  }

  /** What may be chosen. In multi-agent mode only an enterprise broker; otherwise any of the
      fastest that was kept, the last of its CID, and an enterprise one if there is one; unless
      none such was kept. */
  ghost predicate Chosen(list: seq<Broker>, multiAgent: bool, r: Result<Broker, Failure>) {
    if !FastEnterprise(list) && multiAgent then r == Err(NoEnterprise)
    else
      match r
      case Err(e) =>
        && e == NoneValid
        && !(if FastEnterprise(list) then KeptEnterprise(list) else AnyFastest(list))
      case Ok(b) =>
        && (b.enterprise <==> FastEnterprise(list))
        && exists i :: LastFastest(list, i) && list[i] == b
  }

  /** selectBroker: any of the remaining candidates. */
  method SelectBroker(checkType: string, brokers: Option<seq<Broker>>, multiAgent: bool) returns (r: Result<Broker, Failure>)
    ensures checkType == "" ==> r == Err(InvalidCheckType)
    ensures checkType != "" && brokers.None? ==> r == Err(InvalidList)
    ensures checkType != "" && brokers == Some([]) ==> r == Err(EmptyList)
    ensures checkType != "" && brokers.Some? && brokers.value != [] ==> Chosen(brokers.value, multiAgent, r)
  {
    if checkType == "" {
      return Err(InvalidCheckType);
    }
    if brokers.None? {
      return Err(InvalidList);
    }
    var list := brokers.value;
    if |list| == 0 {
      return Err(EmptyList);
    }
    var valid: map<string, Broker> := map[];
    var haveEnterprise := false;
    var threshold := THRESHOLD;
    for n := 0 to |list|
      invariant Pass(valid, haveEnterprise, threshold) == PassOver(list[..n])
    {
      var broker := list[n];
      assert list[..n + 1][..n] == list[..n];
      if broker.probe.None? {
        continue;
      }
      var dur := broker.probe.value;
      if dur > threshold {
        continue;
      }
      if dur == threshold {
        valid := valid[broker.cid := broker];
      } else {
        if |valid| > 0 {
          valid := map[];
        }
        haveEnterprise := false;
        threshold := dur;
        valid := valid[broker.cid := broker];
      }
      if broker.enterprise {
        haveEnterprise := true;
      }
    }
    assert list[..|list|] == list;
    PassKeeps(list);
    r := Choose(list, Pass(valid, haveEnterprise, threshold), multiAgent);
  }

  /** The second half of selectBroker, from the pass on. */
  method Choose(list: seq<Broker>, p: Pass, multiAgent: bool) returns (r: Result<Broker, Failure>)
    requires LeastTime(list, p.threshold) && Keeps(list, p)
    ensures Chosen(list, multiAgent, r)
  {
    FastestTakesTheLeastTime(list, p.threshold);
    hide Fastest, LastFastest, LeastTime;
    if !p.haveEnterprise && multiAgent {
      return Err(NoEnterprise);
    }
    var candidates := p.valid;
    if p.haveEnterprise {
      candidates := map cid | cid in p.valid && p.valid[cid].enterprise :: p.valid[cid];
    }
    if |candidates| == 0 {
      assert candidates == map[];
      assert forall cid :: cid in p.valid && p.haveEnterprise && p.valid[cid].enterprise ==> cid in candidates;
      NothingKept(list, p);
      return Err(NoneValid);
    }
    var k :| k in candidates;
    ghost var i :| KeepsFrom(list, p, k, i);
    assert LastAt(list, p.threshold, i) && list[i] == candidates[k];
    return Ok(candidates[k]);
  }

  lemma {:induction false} NothingKept(list: seq<Broker>, p: Pass)
    requires Keeps(list, p)
    ensures p.valid == map[] ==> forall i :: !At(list, p.threshold, i)
    ensures (forall cid :: cid in p.valid ==> !p.valid[cid].enterprise) ==>
              forall i :: LastAt(list, p.threshold, i) ==> !list[i].enterprise
  {
    forall i | LastAt(list, p.threshold, i) ensures list[i].cid in p.valid && p.valid[list[i].cid] == list[i] {
      var j :| KeepsFrom(list, p, list[i].cid, j);
      assert i == j;
    }
  }

  /** With distinct CIDs a choice fails only when there is no candidate (or no enterprise one in
      multi-agent mode). */
  lemma {:induction false} DistinctKeepEnterprise(list: seq<Broker>)
    requires DistinctCIDs(list)
    ensures KeptEnterprise(list) <==> FastEnterprise(list)
  {
    if i :| Fastest(list, i) && list[i].enterprise {
      assert LastFastest(list, i);
    }
  }

  /** When a choice succeeds: with an enterprise broker among the fastest exactly if one of those is
      the last of its CID; with none exactly if any broker is valid and fast enough. */
  lemma {:induction false} ChoiceSucceedsIff(list: seq<Broker>, multiAgent: bool, r: Result<Broker, Failure>)
    requires Chosen(list, multiAgent, r)
    ensures FastEnterprise(list) ==> (r.Ok? <==> KeptEnterprise(list)) && (r.Err? ==> r == Err(NoneValid))
    ensures !FastEnterprise(list) && multiAgent ==> r == Err(NoEnterprise)
    ensures !FastEnterprise(list) && !multiAgent ==> (r.Ok? <==> AnyFastest(list)) && (r.Err? ==> r == Err(NoneValid))
  {
    hide Fastest, LastFastest;
    if r.Ok? {
      assert exists i :: Fastest(list, i) && LastFastest(list, i) && list[i] == r.value by {
        LastAreFastest(list);
      }
    }
  }

  lemma {:induction false} LastAreFastest(list: seq<Broker>)
    ensures forall i :: LastFastest(list, i) ==> Fastest(list, i) && 0 <= i < |list|
  {
  }

  /** Without distinct CIDs it can fail though an enterprise broker is among the fastest: one entry
      per CID is kept, and haveEnterprise remembers a broker that was replaced. */
  lemma {:induction false} SameCIDLosesEnterprise(cid: string, dur: nat, multiAgent: bool, r: Result<Broker, Failure>)
    requires dur <= THRESHOLD
    requires Chosen([Broker(cid, true, Some(dur)), Broker(cid, false, Some(dur))], multiAgent, r)
    ensures FastEnterprise([Broker(cid, true, Some(dur)), Broker(cid, false, Some(dur))])
    ensures r == Err(NoneValid)
  {
    var list := [Broker(cid, true, Some(dur)), Broker(cid, false, Some(dur))];
    assert Fastest(list, 0) && list[0].enterprise;
    assert Fastest(list, 1);
    ChoiceSucceedsIff(list, multiAgent, r);
  }

  /** In times alone: what is chosen answered within ten seconds and no valid broker answered sooner;
      and outside multi-agent mode, with no enterprise broker as fast, one answer in time is enough. */
  lemma {:induction false} ChosenIsFast(list: seq<Broker>, multiAgent: bool, r: Result<Broker, Failure>)
    requires Chosen(list, multiAgent, r)
    ensures r.Ok? ==>
              && r.value in list && r.value.probe.Some? && r.value.probe.value <= 10_000_000_000
              && forall b <- list :: b.probe.Some? ==> r.value.probe.value <= b.probe.value
    ensures !multiAgent && (forall b <- list :: !b.enterprise) ==>
              (r.Ok? <==> exists b <- list :: b.probe.Some? && b.probe.value <= 10_000_000_000)
  {
    if r.Ok? {
      var i :| LastFastest(list, i) && list[i] == r.value;
    }
    if j :| 0 <= j < |list| && list[j].probe.Some? && list[j].probe.value <= 10_000_000_000 {
      var i := Quickest(list, j);
      assert Fastest(list, i);
      ChoiceSucceedsIff(list, multiAgent, r);
    }
  }

  lemma {:induction false} Quickest(list: seq<Broker>, j: nat) returns (i: nat)
    requires j < |list| && list[j].probe.Some?
    ensures i < |list| && list[i].probe.Some? && list[i].probe.value <= list[j].probe.value
    ensures forall k :: 0 <= k < |list| && list[k].probe.Some? ==> list[i].probe.value <= list[k].probe.value
    decreases |list|
  {
    var init, last := list[..|list| - 1], list[|list| - 1];
    if k :| 0 <= k < |init| && init[k].probe.Some? && (j < |init| ==> k == j) {
      i := Quickest(init, k);
      if last.probe.Some? && last.probe.value < list[i].probe.value {
        i := |init|;
      } else {
        assert forall k :: 0 <= k < |init| ==> list[k] == init[k];
      }
    } else {
      i := j;
      assert forall k :: 0 <= k < |init| ==> list[k] == init[k];
    }
  }
}
