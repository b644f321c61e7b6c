/** The reverse configurations, the search for the broker instance that owns the check, and the
    loop that keeps a connection to it (internal/check/reverse.go, internal/reverse/reverse.go). */
module Supervisor {
  import opened Common
  import Backoff

  datatype Config = Config(cn: string, url: string, brokerID: string)

  type Configs = map<string, Config>

  /** A reverse URL of the check with what resolving it gives: the CN of its certificate, or no
      usable configuration. */
  datatype ReverseURL = ReverseURL(url: string, cn: Option<string>)

  datatype Failure = NotInitialized | NoURLs | BadURL | FetchFailed | NoOwnerFound | InvalidOwner | RequestFailed | NoConfigs

  // ---------------------------------------------------------------- configurations

  predicate Resolvable(urls: seq<ReverseURL>) {
    forall i :: 0 <= i < |urls| ==> urls[i].cn.Some?
  }

  /** Every configuration is stored under its own CN. */
  predicate WellKeyed(cfgs: Configs) {
    forall cn :: cn in cfgs ==> cfgs[cn].cn == cn
  }

  /** Configuration of the last URL that resolves to each CN. */
  ghost predicate ConfiguredBy(cfgs: Configs, brokerID: string, urls: seq<ReverseURL>) {
    && (forall i :: 0 <= i < |urls| && urls[i].cn.Some? ==> urls[i].cn.value in cfgs)
    && (forall cn :: cn in cfgs ==> exists i :: LastFor(urls, cn, i) && cfgs[cn] == Config(cn, urls[i].url, brokerID))
  }

  ghost predicate LastFor(urls: seq<ReverseURL>, cn: string, i: int) {
    && 0 <= i < |urls| && urls[i].cn == Some(cn)
    && forall j :: i < j < |urls| ==> urls[j].cn != Some(cn)
  }

  /** The configurations the URLs give, a later one replacing an earlier one of the same CN. */
  function ConfigsOf(brokerID: string, urls: seq<ReverseURL>): Configs {
    if urls == [] then map[]
    else
      var last := urls[|urls| - 1];
      var before := ConfigsOf(brokerID, urls[..|urls| - 1]);
      if last.cn.None? then before
      else before[last.cn.value := Config(last.cn.value, last.url, brokerID)]
  }

  /** They are one configuration for each CN resolved to, that of the last URL. */
  lemma {:induction false} ConfigsAreTheLast(brokerID: string, urls: seq<ReverseURL>)
    ensures ConfiguredBy(ConfigsOf(brokerID, urls), brokerID, urls)
  {
    if urls != [] {
      var n := |urls| - 1;
      ConfigsAreTheLast(brokerID, urls[..n]);
      var before := ConfigsOf(brokerID, urls[..n]);
      var cfgs := ConfigsOf(brokerID, urls);
      hide ConfigsOf;
      forall cn | cn in cfgs
        ensures exists i :: LastFor(urls, cn, i) && cfgs[cn] == Config(cn, urls[i].url, brokerID)
      {
        if urls[n].cn == Some(cn) {
          assert LastFor(urls, cn, n);
        } else {
          var i :| LastFor(urls[..n], cn, i) && before[cn] == Config(cn, urls[..n][i].url, brokerID);
          assert LastFor(urls, cn, i);
        }
      }
    }
  }

  /** They are stored under their own CN, and there are some when every URL resolves. */
  lemma {:induction false} ConfigsAreWellKeyed(brokerID: string, urls: seq<ReverseURL>)
    ensures WellKeyed(ConfigsOf(brokerID, urls))
    ensures urls != [] && Resolvable(urls) ==> ConfigsOf(brokerID, urls) != map[]
  {
    if urls != [] {
      ConfigsAreWellKeyed(brokerID, urls[..|urls| - 1]);
      if Resolvable(urls) {
        assert urls[|urls| - 1].cn.value in ConfigsOf(brokerID, urls);
      }
    }
  }

  class Check {
    var revConfigs: Option<Configs>
    var broker: Option<string>
    var urls: Option<seq<ReverseURL>>

    constructor ()
      ensures revConfigs.None? && broker.None? && urls.None?
    {
      revConfigs, broker, urls := None, None, None;
    }

    /** setReverseConfigs */
    method SetReverseConfigs() returns (err: Option<Failure>)
      modifies this`revConfigs
      ensures err.None? <==> broker.Some? && urls.Some? && urls.value != [] && Resolvable(urls.value)
      ensures revConfigs == if err.None? then Some(ConfigsOf(broker.value, urls.value)) else None
    {
      revConfigs := None;
      if broker.None? || urls.None? {
        return Some(NotInitialized);
      }
      if |urls.value| == 0 {
        return Some(NoURLs);
      }
      var cfgs: Configs := map[];
      for i := 0 to |urls.value|
        invariant revConfigs.None?
        invariant Resolvable(urls.value[..i])
        invariant cfgs == ConfigsOf(broker.value, urls.value[..i])
      {
        var rURL := urls.value[i];
        if rURL.cn.None? {
          return Some(BadURL);
        }
        assert urls.value[..i + 1][..i] == urls.value[..i];
        cfgs := cfgs[rURL.cn.value := Config(rURL.cn.value, rURL.url, broker.value)];
      }
      assert urls.value[..|urls.value|] == urls.value;
      revConfigs := Some(cfgs);
      return None;
    }

    /** RefreshReverseConfig and GetReverseConfigs, given the API's broker and URLs (None: an error). */
    method Refresh(reply: Option<(string, seq<ReverseURL>)>) returns (r: Option<Configs>)
      modifies this
      ensures r == Refreshed(reply)
    {
      if reply.None? {
        return None;
      }
      broker, urls := Some(reply.value.0), Some(reply.value.1);
      var err := SetReverseConfigs();
      return revConfigs;
    }
  }

  function Refreshed(reply: Option<(string, seq<ReverseURL>)>): Option<Configs> {
    if reply.Some? && reply.value.1 != [] && Resolvable(reply.value.1)
    then Some(ConfigsOf(reply.value.0, reply.value.1)) else None
  }

  // ---------------------------------------------------------------- the owner

  /** What an instance answers when asked who owns the check. */
  datatype Reply =
    | Failed                // the request could not be made or failed
    | TimedOut
    | Owner                 // 204: the instance itself
    | Elsewhere(cn: string) // 302 to a host; "" without a usable location
    | Unusable              // any other status

  /** The instances in the order visited, each with its reply. */
  type Replies = seq<(string, Reply)>

  datatype Search = Aborted | Nobody | Named(cn: string)

  function NamedBy(name: string, reply: Reply): string {
    match reply
    case Owner => name
    case Elsewhere(cn) => cn
    case _ => ""
  }

  /** The first non-empty name, unless a failed request comes first. */
  function Ask(replies: Replies): Search {
    if replies == [] then Nobody
    else
      var (name, reply) := replies[0];
      if reply == Failed then Aborted
      else if NamedBy(name, reply) != "" then Named(NamedBy(name, reply))
      else Ask(replies[1..])
  }

  ghost function Sole(cfgs: Configs): string
    requires |cfgs| == 1
    ensures Sole(cfgs) in cfgs
    ensures forall cn :: cn in cfgs ==> cn == Sole(cfgs)
  {
    var cn :| cn in cfgs.Keys;
    assert |cfgs.Keys - {cn}| == 0;
    assert forall other :: other in cfgs && other != cn ==> other in cfgs.Keys - {cn};
    cn
  }

  ghost function PrimaryOf(cfgs: Configs, replies: Replies): Result<string, Failure> {
    if |cfgs| == 1 then Ok(Sole(cfgs))
    else
      match Ask(replies)
      case Aborted => Err(RequestFailed)
      case Nobody => Err(NoOwnerFound)
      case Named(cn) => if cn in cfgs then Ok(cn) else Err(InvalidOwner)
  }

  /** FindPrimaryBrokerInstance */
  method FindPrimaryBrokerInstance(cfgs: Configs, replies: Replies) returns (r: Result<string, Failure>)
    ensures r == PrimaryOf(cfgs, replies)
    ensures r.Ok? ==> r.value in cfgs
  {
    if |cfgs| == 1 {
      var name :| name in cfgs;
      return Ok(name);
    }
    var primaryCN := "";
    for i := 0 to |replies|
      invariant primaryCN == ""
      invariant Ask(replies[i..]) == Ask(replies)
    {
      var (name, reply) := replies[i];
      assert replies[i..][0] == replies[i] && replies[i..][1..] == replies[i + 1..];
      match reply {
        case Failed => return Err(RequestFailed);
        case TimedOut => continue;
        case Owner => primaryCN := name;
        case Elsewhere(cn) => primaryCN := cn;
        case Unusable =>
      }
      if primaryCN != "" {
        assert Ask(replies) == Named(primaryCN);
        break;
      }
    }
    if primaryCN == "" {
      assert Ask([]) == Nobody;
      return Err(NoOwnerFound);
    }
    if primaryCN !in cfgs {
      return Err(InvalidOwner);
    }
    return Ok(primaryCN);
  }

  /** A reply that names nobody and does not end the search. */
  predicate Mute(name: string, reply: Reply) {
    reply == TimedOut || reply == Unusable || reply == Elsewhere("") || (reply == Owner && name == "")
  }

  lemma {:induction false} MuteAreSkipped(replies: Replies, i: nat)
    requires i <= |replies| && forall j :: 0 <= j < i ==> Mute(replies[j].0, replies[j].1)
    ensures Ask(replies) == Ask(replies[i..])
    decreases i
  {
    if i > 0 {
      MuteAreSkipped(replies[1..], i - 1);
      assert replies[1..][i - 1..] == replies[i..];
    } else {
      assert replies[0..] == replies;
    }
  }

  /** Of several instances, the first that is not mute decides: one that is the owner names itself, a
      redirect names the host it points to, which must have a configuration, and a failed request
      ends the search. If all are mute, nobody is found. */
  lemma {:induction false} FirstWordDecides(cfgs: Configs, replies: Replies, i: nat)
    requires |cfgs| != 1 && i <= |replies|
    requires forall j :: 0 <= j < i ==> Mute(replies[j].0, replies[j].1)
    requires i < |replies| ==> !Mute(replies[i].0, replies[i].1)
    ensures i == |replies| ==> PrimaryOf(cfgs, replies) == Err(NoOwnerFound)
    ensures i < |replies| ==>
              match replies[i].1
              case Owner =>
                PrimaryOf(cfgs, replies) == if replies[i].0 in cfgs then Ok(replies[i].0) else Err(InvalidOwner)
              case Elsewhere(cn) => PrimaryOf(cfgs, replies) == if cn in cfgs then Ok(cn) else Err(InvalidOwner)
              case Failed => PrimaryOf(cfgs, replies) == Err(RequestFailed)
              case _ => false
  {
    MuteAreSkipped(replies, i);
    if i < |replies| {
      assert replies[i..][0] == replies[i];
    }
  }

  /** A lone instance is the owner, without being asked. */
  lemma {:induction false} LoneInstanceOwns(cfg: Config, cn: string, replies: Replies)
    ensures PrimaryOf(map[cn := cfg], replies) == Ok(cn)
  {
    assert |map[cn := cfg]| == 1;
  }

  /** The owner an asked instance names, or "". */
  function NameAt(replies: Replies, i: nat): string
    requires i < |replies|
  {
    NamedBy(replies[i].0, replies[i].1)
  }

  predicate SomeFailed(replies: Replies) {
    exists i :: 0 <= i < |replies| && replies[i].1 == Failed
  }

  predicate SomeNamed(replies: Replies, owner: string) {
    exists i :: 0 <= i < |replies| && NameAt(replies, i) == owner
  }

  /** The replies name one owner at most, and none at all if a request failed. */
  predicate Concordant(replies: Replies) {
    && (forall i, j :: 0 <= i < |replies| && 0 <= j < |replies| && NameAt(replies, i) != "" && NameAt(replies, j) != ""
          ==> NameAt(replies, i) == NameAt(replies, j))
    && (SomeFailed(replies) ==> forall i :: 0 <= i < |replies| ==> NameAt(replies, i) == "")
  }

  /** What concordant replies give, whatever their order. */
  ghost predicate Gives(replies: Replies, found: Search) {
    match found
    case Aborted => SomeFailed(replies)
    case Nobody => !SomeFailed(replies) && forall i :: 0 <= i < |replies| ==> NameAt(replies, i) == ""
    case Named(owner) => owner != "" && SomeNamed(replies, owner)
  }

  lemma {:induction false} AskGives(replies: Replies)
    ensures Gives(replies, Ask(replies))
  {
    if replies != [] {
      var rest := replies[1..];
      AskGives(rest);
      assert forall i :: 0 <= i < |rest| ==> rest[i] == replies[i + 1] && NameAt(rest, i) == NameAt(replies, i + 1);
      assert NameAt(replies, 0) == NamedBy(replies[0].0, replies[0].1);
      assert forall i :: 0 < i < |replies| ==> replies[i] == rest[i - 1];
    }
  }

  lemma {:induction false} AlsoIn(replies: Replies, order: Replies, i: nat) returns (j: nat)
    requires multiset(order) == multiset(replies) && i < |order|
    ensures j < |replies| && replies[j] == order[i] && NameAt(replies, j) == NameAt(order, i)
  {
    assert order[i] in multiset(order);
    assert order[i] in replies;
    j :| j < |replies| && replies[j] == order[i];
  }

  lemma {:induction false} SomeInAnyOrder(replies: Replies, order: Replies, owner: string)
    requires multiset(order) == multiset(replies)
    ensures SomeFailed(order) ==> SomeFailed(replies)
    ensures SomeNamed(order, owner) ==> SomeNamed(replies, owner)
  {
    if i :| 0 <= i < |order| && order[i].1 == Failed {
      var j := AlsoIn(replies, order, i);
    }
    if i :| 0 <= i < |order| && NameAt(order, i) == owner {
      var j := AlsoIn(replies, order, i);
    }
  }

  lemma {:induction false} GivesOne(replies: Replies, order: Replies, found: Search, found': Search)
    requires Concordant(replies) && multiset(order) == multiset(replies)
    requires Gives(replies, found) && Gives(order, found')
    ensures found == found'
  {
    var owner := if found.Named? then found.cn else "";
    var owner' := if found'.Named? then found'.cn else "";
    SomeInAnyOrder(replies, order, owner');
    SomeInAnyOrder(order, replies, owner);
    hide NameAt;
  }

  /** The replies with the i-th first. */
  function AskedFirst(replies: Replies, i: nat): (order: Replies)
    requires i < |replies|
    ensures multiset(order) == multiset(replies)
    ensures order != [] && order[0] == replies[i]
  {
    assert replies == replies[..i] + ([replies[i]] + replies[i + 1..]);
    [replies[i]] + (replies[..i] + replies[i + 1..])
  }

  lemma {:induction false} FirstDecides(replies: Replies, i: nat)
    requires i < |replies|
    ensures replies[i].1 == Failed ==> Ask(AskedFirst(replies, i)) == Aborted
    ensures NameAt(replies, i) != "" ==> Ask(AskedFirst(replies, i)) == Named(NameAt(replies, i))
  {
    hide AskedFirst;
  }

  /** The search gives the same in every order of the instances, in which a map may yield them,
      exactly if the replies name one owner at most, and none beside a failed request. */
  lemma {:induction false} OwnerDoesNotDependOnOrderIff(replies: Replies)
    ensures (forall order :: multiset(order) == multiset(replies) ==> Ask(order) == Ask(replies)) <==> Concordant(replies)
  {
    if Concordant(replies) {
      forall order | multiset(order) == multiset(replies) ensures Ask(order) == Ask(replies) {
        AskGives(order);
        AskGives(replies);
        GivesOne(replies, order, Ask(replies), Ask(order));
      }
    } else {
      var i, j := Discord(replies);
      var first, second := AskedFirst(replies, i), AskedFirst(replies, j);
      FirstDecides(replies, i);
      FirstDecides(replies, j);
      hide Ask, NameAt, AskedFirst, Concordant;
      assert Ask(first) != Ask(second);
    }
  }

  /** Two replies of which each would end the search in its own way. */
  lemma {:induction false} Discord(replies: Replies) returns (i: nat, j: nat)
    requires !Concordant(replies)
    ensures i < |replies| && j < |replies| && NameAt(replies, j) != ""
    ensures replies[i].1 == Failed || (NameAt(replies, i) != "" && NameAt(replies, i) != NameAt(replies, j))
  {
    hide NameAt;
    if SomeFailed(replies) && exists k :: 0 <= k < |replies| && NameAt(replies, k) != "" {
      i :| i < |replies| && replies[i].1 == Failed;
      j :| j < |replies| && NameAt(replies, j) != "";
    } else {
      i, j :| && i < |replies| && j < |replies| && NameAt(replies, i) != "" && NameAt(replies, j) != ""
              && NameAt(replies, i) != NameAt(replies, j);
    }
  }

  // ---------------------------------------------------------------- the loop

  /** What one turn of the loop meets. */
  datatype Turn = Turn(
    ctxDone: bool,
    refresh: Option<(string, seq<ReverseURL>)>,
    replies: Replies,
    outcome: Backoff.Outcome)  // of the connection, if one is opened

  datatype Event =
    | RefreshAsked
    | ConfigsRefreshed(cfgs: Configs)
    | Opened(owner: string, cfg: Config)
    | OwnerNotConfigured  // the branch for an owner missing from the map

  datatype Ending = Returned | FailedWith(failure: Failure)

  /** configs and refreshCheck, whether the context is cancelled, and all that happened. */
  datatype Loop = Loop(configs: Configs, refreshCheck: bool, cancelled: bool, log: seq<Event>, ended: Option<Ending>)

  ghost function Connect(s: Loop, turn: Turn): Loop {
    match PrimaryOf(s.configs, turn.replies)
    case Err(e) =>
      if e == NoOwnerFound then s.(refreshCheck := true, log := s.log + [RefreshAsked])
      else s.(ended := Some(FailedWith(e)))
    case Ok(owner) =>
      if owner !in s.configs then s.(refreshCheck := true, log := s.log + [OwnerNotConfigured, RefreshAsked])
      else
        var s1 := s.(log := s.log + [Opened(owner, s.configs[owner])]);
        match turn.outcome
        case Nil => s1
        case RefreshCheck => s1.(refreshCheck := true, log := s1.log + [RefreshAsked])
        case FatalError => s1.(cancelled := true)
  }

  ghost function TurnOnce(s: Loop, turn: Turn): Loop {
    if turn.ctxDone || s.cancelled then s.(cancelled := true, ended := Some(Returned))
    else if s.refreshCheck then
      match Refreshed(turn.refresh)
      case None => s.(ended := Some(FailedWith(FetchFailed)))
      case Some(cfgs) =>
        Connect(s.(configs := cfgs, refreshCheck := false, log := s.log + [ConfigsRefreshed(cfgs)]), turn)
    else Connect(s, turn)
  }

  ghost function Turns(s: Loop, turns: seq<Turn>): Loop
    decreases |turns|
  {
    if turns == [] || s.ended.Some? then s else Turns(TurnOnce(s, turns[0]), turns[1..])
  }

  lemma {:induction false} OneMoreTurn(s: Loop, turns: seq<Turn>, turn: Turn)
    ensures Turns(s, []) == s
    ensures Turns(s, turns + [turn])
         == if Turns(s, turns).ended.Some? then Turns(s, turns) else TurnOnce(Turns(s, turns), turn)
    decreases |turns|
  {
    hide TurnOnce;
    if turns == [] {
      assert turns + [turn] == [turn] && [turn][1..] == [];
      assert Turns(TurnOnce(s, turn), []) == TurnOnce(s, turn);
    } else if s.ended.None? {
      assert (turns + [turn])[0] == turns[0] && (turns + [turn])[1..] == turns[1..] + [turn];
      OneMoreTurn(TurnOnce(s, turns[0]), turns[1..], turn);
    }
  }

  function Begin(initial: Configs): Loop {
    Loop(initial, false, false, [], None)
  }

  class Reverse {
    var configs: Option<Configs>
    var chk: Check
    var log: seq<Event>
    ghost var last: Loop

    constructor (configs: Option<Configs>, chk: Check)
      ensures this.configs == configs && this.chk == chk
    {
      this.configs, this.chk, log := configs, chk, [];
      last := Begin(map[]);
    }

    /** Start, for the given turns; None if the loop is still going after them. */
    method Start(turns: seq<Turn>) returns (ended: Option<Ending>)
      modifies this, chk
      ensures old(configs).None? || old(configs).value == map[] ==> ended == Some(FailedWith(NoConfigs))
      ensures old(configs).Some? && old(configs).value != map[] ==>
                && last == Turns(Begin(old(configs).value), turns)
                && ended == last.ended && configs == Some(last.configs) && log == last.log
    {
      if configs.None? || |configs.value| == 0 {
        return Some(FailedWith(NoConfigs));
      }
      last, log := Begin(configs.value), [];
      ended := None;
      var refreshCheck, cancelled := false, false;
      for i := 0 to |turns|
        invariant chk == old(chk)
        invariant configs == Some(last.configs) && refreshCheck == last.refreshCheck && cancelled == last.cancelled
        invariant ended.None? && last.ended.None? && log == last.log
        invariant Turns(last, turns[i..]) == Turns(Begin(old(configs).value), turns)
      {
        var turn := turns[i];
        assert turns[i..][0] == turn && turns[i..][1..] == turns[i + 1..];
        last := TurnOnce(last, turn);
        if turn.ctxDone || cancelled {
          ended := Some(Returned);
          break;
        }
        if refreshCheck {
          var cfgs := chk.Refresh(turn.refresh);
          if cfgs.None? {
            ended := Some(FailedWith(FetchFailed));
            break;
          }
          configs := cfgs;
          refreshCheck := false;
          log := log + [ConfigsRefreshed(cfgs.value)];
        }
        var primary := FindPrimaryBrokerInstance(configs.value, turn.replies);
        if primary.Err? {
          if primary.error == NoOwnerFound {
            refreshCheck := true;
            log := log + [RefreshAsked];
            continue;
          }
          ended := Some(FailedWith(primary.error));
          break;
        }
        if primary.value !in configs.value {
          assert false;   // the owner found is always a key, so the refresh for a missing one is never asked
        }
        var cfg := configs.value[primary.value];
        log := log + [Opened(primary.value, cfg)];
        match turn.outcome {
          case Nil =>
          case RefreshCheck =>
            refreshCheck := true;
            log := log + [RefreshAsked];
          case FatalError => cancelled := true;
        }
      }
    }
  }

  // ---------------------------------------------------------------- freshness

  /** The map in force after these events. */
  function CurrentMap(initial: Configs, log: seq<Event>): Configs {
    if log == [] then initial
    else
      var last := log[|log| - 1];
      if last.ConfigsRefreshed? then last.cfgs else CurrentMap(initial, log[..|log| - 1])
  }

  /** A refresh was asked for and none has succeeded since. */
  function RefreshPending(log: seq<Event>): bool {
    if log == [] then false
    else
      var last := log[|log| - 1];
      last == RefreshAsked || (!last.ConfigsRefreshed? && RefreshPending(log[..|log| - 1]))
  }

  /** The i-th event, if it opens a connection, uses the configuration stored for the owner in the
      map in force, with no refresh pending; and no event is the missing-owner branch. */
  predicate FreshAt(initial: Configs, log: seq<Event>, i: nat)
    requires i < |log|
  {
    var cfgs := CurrentMap(initial, log[..i]);
    && log[i] != OwnerNotConfigured
    && (log[i].Opened? ==>
          && !RefreshPending(log[..i])
          && log[i].owner in cfgs && log[i].cfg == cfgs[log[i].owner] && log[i].cfg.cn == log[i].owner)
  }

  predicate Fresh(initial: Configs, log: seq<Event>) {
    forall i :: 0 <= i < |log| ==> FreshAt(initial, log, i)
  }

  predicate Inv(initial: Configs, s: Loop) {
    && s.configs == CurrentMap(initial, s.log) && WellKeyed(s.configs)
    && s.refreshCheck == RefreshPending(s.log)
    && Fresh(initial, s.log)
  }

  lemma {:induction false} AppendEvent(initial: Configs, log: seq<Event>, e: Event)
    ensures CurrentMap(initial, log + [e]) == if e.ConfigsRefreshed? then e.cfgs else CurrentMap(initial, log)
    ensures RefreshPending(log + [e]) == (e == RefreshAsked || (!e.ConfigsRefreshed? && RefreshPending(log)))
    ensures Fresh(initial, log) && FreshAt(initial, log + [e], |log|) ==> Fresh(initial, log + [e])
    ensures FreshAt(initial, log + [e], |log|) <==>
              var cfgs := CurrentMap(initial, log);
              && e != OwnerNotConfigured
              && (e.Opened? ==> !RefreshPending(log) && e.owner in cfgs && e.cfg == cfgs[e.owner] && e.cfg.cn == e.owner)
  {
    var log' := log + [e];
    assert log'[..|log|] == log;
    if Fresh(initial, log) && FreshAt(initial, log', |log|) {
      forall i | 0 <= i < |log'| ensures FreshAt(initial, log', i) {
        if i < |log| {
          assert FreshAt(initial, log, i) && log'[..i] == log[..i];
        }
      }
    }
  }

  lemma {:induction false} ConnectKeepsInv(initial: Configs, s: Loop, turn: Turn)
    requires Inv(initial, s) && !s.refreshCheck
    ensures Inv(initial, Connect(s, turn))
  {
    var primary := PrimaryOf(s.configs, turn.replies);
    hide CurrentMap, RefreshPending, Fresh, FreshAt;
    AppendEvent(initial, s.log, RefreshAsked);
    if primary.Ok? {
      var opening := Opened(primary.value, s.configs[primary.value]);
      AppendEvent(initial, s.log, opening);
      AppendEvent(initial, s.log + [opening], RefreshAsked);
    }
  }

  lemma {:induction false} TurnKeepsInv(initial: Configs, s: Loop, turn: Turn)
    requires Inv(initial, s)
    ensures Inv(initial, TurnOnce(s, turn))
  {
    if !(turn.ctxDone || s.cancelled) {
      if s.refreshCheck {
        if turn.refresh.Some? && Refreshed(turn.refresh).Some? {
          ConfigsAreWellKeyed(turn.refresh.value.0, turn.refresh.value.1);
          var cfgs := Refreshed(turn.refresh).value;
          AppendEvent(initial, s.log, ConfigsRefreshed(cfgs));
          ConnectKeepsInv(initial,
            s.(configs := cfgs, refreshCheck := false, log := s.log + [ConfigsRefreshed(cfgs)]), turn);
        }
      } else {
        ConnectKeepsInv(initial, s, turn);
      }
    }
  }

  /** Over any number of turns: every connection opened uses a configuration stored under the
      owner's CN in the current map; once a refresh is asked for, none is opened until it
      succeeded; and the found owner is never missing from the map. */
  lemma {:induction false} ConnectionsAreFresh(initial: Configs, s: Loop, turns: seq<Turn>)
    requires Inv(initial, s)
    ensures Inv(initial, Turns(s, turns))
    decreases |turns|
  {
    if turns != [] && s.ended.None? {
      TurnKeepsInv(initial, s, turns[0]);
      ConnectionsAreFresh(initial, TurnOnce(s, turns[0]), turns[1..]);
    }
  }

  lemma {:induction false} FromTheStart(initial: Configs, turns: seq<Turn>)
    requires WellKeyed(initial)
    ensures Fresh(initial, Turns(Begin(initial), turns).log)
  {
    ConnectionsAreFresh(initial, Begin(initial), turns);
  }

  // ---------------------------------------------------------------- one turn

  /** The configurations a turn works with: refreshed first, if that was asked for. */
  function InForce(s: Loop, turn: Turn): Option<Configs> {
    if s.refreshCheck then Refreshed(turn.refresh) else Some(s.configs)
  }

  /** A refresh succeeds exactly if there are URLs and all resolve, and gives for each CN the
      configuration of the last URL that resolves to it. */
  lemma {:induction false} RefreshedIs(reply: Option<(string, seq<ReverseURL>)>)
    ensures Refreshed(reply).Some? <==>
              reply.Some? && reply.value.1 != [] && forall i :: 0 <= i < |reply.value.1| ==> reply.value.1[i].cn.Some?
    ensures Refreshed(reply).Some? ==> ConfiguredBy(Refreshed(reply).value, reply.value.0, reply.value.1)
  {
    if reply.Some? {
      ConfigsAreTheLast(reply.value.0, reply.value.1);
    }
  }

  /** A turn that is not cancelled and whose refresh, if any, succeeds. */
  predicate Works(s: Loop, turn: Turn) {
    !turn.ctxDone && !s.cancelled && InForce(s, turn).Some?
  }

  /** What a turn does: a cancelled one returns; a refresh that fails ends the loop; otherwise the
      refreshed map, if a refresh was pending, is in force from then on. */
  lemma {:induction false} TurnRefreshes(s: Loop, turn: Turn)
    ensures var s' := TurnOnce(s, turn);
            && (turn.ctxDone || s.cancelled ==> s'.ended == Some(Returned) && s'.log == s.log && s'.cancelled)
            && (!turn.ctxDone && !s.cancelled && InForce(s, turn).None? ==>
                  s'.ended == Some(FailedWith(FetchFailed)) && s'.log == s.log)
            && (Works(s, turn) ==> s'.configs == InForce(s, turn).value)
            && (Works(s, turn) && s.refreshCheck ==>
                  |s'.log| > |s.log| && s'.log[|s.log|] == ConfigsRefreshed(InForce(s, turn).value))
            && s.log <= s'.log
  {
  }

  /** The search and the connection of a turn: an owner found is connected to, with its own
      configuration; a refresh is then pending exactly if the connection asked for one, or nobody was
      found; a fatal connection cancels; and any other failure of the search ends the loop. */
  lemma {:induction false} TurnConnects(s: Loop, turn: Turn)
    requires Works(s, turn)
    ensures var (s', cfgs) := (TurnOnce(s, turn), InForce(s, turn).value);
            match PrimaryOf(cfgs, turn.replies)
            case Ok(owner) =>
              && Opened(owner, cfgs[owner]) in s'.log[|s.log|..]
              && s'.refreshCheck == (turn.outcome == Backoff.RefreshCheck)
              && s'.cancelled == (turn.outcome == Backoff.FatalError)
              && s'.ended == s.ended
            case Err(e) =>
              && (forall event <- s'.log[|s.log|..] :: !event.Opened?)
              && (e == NoOwnerFound ==> s'.refreshCheck && s'.ended == s.ended)
              && (e != NoOwnerFound ==> s'.ended == Some(FailedWith(e)))
              && !s'.cancelled
  {
    hide PrimaryOf, Refreshed;
    var cfgs := InForce(s, turn).value;
    var refreshed := if s.refreshCheck then [ConfigsRefreshed(cfgs)] else [];
    var s1 := Loop(cfgs, false, s.cancelled, s.log + refreshed, s.ended);
    assert s.log + [] == s.log;
    assert TurnOnce(s, turn) == Connect(s1, turn);
    hide TurnOnce;
    ConnectAdds(s1, turn);
    var added := Connect(s1, turn).log[|s1.log|..];
    assert Connect(s1, turn).log[|s.log|..] == refreshed + added;
    assert forall e <- refreshed :: !e.Opened?;
  }

  lemma {:induction false} ConnectAdds(s: Loop, turn: Turn)
    requires !s.refreshCheck && !s.cancelled
    ensures var s' := Connect(s, turn);
            s.log <= s'.log &&
            match PrimaryOf(s.configs, turn.replies)
            case Ok(owner) =>
              && Opened(owner, s.configs[owner]) in s'.log[|s.log|..]
              && s'.refreshCheck == (turn.outcome == Backoff.RefreshCheck)
              && s'.cancelled == (turn.outcome == Backoff.FatalError)
              && s'.ended == s.ended
            case Err(e) =>
              && (forall event <- s'.log[|s.log|..] :: !event.Opened?)
              && (e == NoOwnerFound ==> s'.refreshCheck && s'.ended == s.ended)
              && (e != NoOwnerFound ==> s'.ended == Some(FailedWith(e)))
              && !s'.cancelled
  {
    var primary := PrimaryOf(s.configs, turn.replies);
    assert primary.Ok? ==> primary.value in s.configs;
    hide PrimaryOf;
    if primary.Ok? {
      assert Connect(s, turn).log[|s.log|] == Opened(primary.value, s.configs[primary.value]);
      assert Connect(s, turn).log[|s.log|..][0] == Opened(primary.value, s.configs[primary.value]);
    }
  }

  /** After a connection that failed fatally the next turn returns. */
  lemma {:induction false} FatalEndsTheLoop(s: Loop, turn: Turn, next: Turn)
    requires Works(s, turn) && PrimaryOf(InForce(s, turn).value, turn.replies).Ok? && turn.outcome == Backoff.FatalError
    ensures TurnOnce(TurnOnce(s, turn), next).ended == Some(Returned)
    ensures TurnOnce(TurnOnce(s, turn), next).log == TurnOnce(s, turn).log
  {
    hide *;
    TurnConnects(s, turn);
    TurnRefreshes(TurnOnce(s, turn), next);
  }

  // ---------------------------------------------------------------- no connection before the refresh

  lemma {:induction false} PendingUntilRefreshed(log: seq<Event>, more: seq<Event>)
    requires RefreshPending(log) && forall e <- more :: !e.ConfigsRefreshed?
    ensures RefreshPending(log + more)
    decreases |more|
  {
    if more == [] {
      assert log + more == log;
    } else {
      var before, last := more[..|more| - 1], more[|more| - 1];
      PendingUntilRefreshed(log, before);
      assert log + more == (log + before) + [last];
      assert (log + more)[..|log + more| - 1] == log + before;
    }
  }

  lemma {:induction false} LogGrows(s: Loop, turns: seq<Turn>)
    ensures s.log <= Turns(s, turns).log
    decreases |turns|
  {
    if turns != [] && s.ended.None? {
      TurnRefreshes(s, turns[0]);
      LogGrows(TurnOnce(s, turns[0]), turns[1..]);
    }
  }

  /** Once a turn has asked for a refresh, because its connection did or nobody owned the check, no
      connection is opened in any number of turns without a successful refresh before it. */
  lemma {:induction false} RefreshComesFirst(initial: Configs, s: Loop, turn: Turn, turns: seq<Turn>, i: nat)
    requires Inv(initial, s) && Works(s, turn) && s.ended.None?
    requires var primary := PrimaryOf(InForce(s, turn).value, turn.replies);
             primary == Err(NoOwnerFound) || (primary.Ok? && turn.outcome == Backoff.RefreshCheck)
    requires var (s1, log) := (TurnOnce(s, turn), Turns(TurnOnce(s, turn), turns).log);
             |s1.log| <= i < |log| && log[i].Opened?
    ensures var (s1, log) := (TurnOnce(s, turn), Turns(TurnOnce(s, turn), turns).log);
            exists j :: |s1.log| <= j < i && log[j].ConfigsRefreshed?
  {
    var s1 := TurnOnce(s, turn);
    var log := Turns(s1, turns).log;
    TurnConnects(s, turn);
    TurnKeepsInv(initial, s, turn);
    ConnectionsAreFresh(initial, s1, turns);
    LogGrows(s1, turns);
    assert RefreshPending(s1.log) && FreshAt(initial, log, i);
    assert !RefreshPending(log[..i]);
    hide *;
    RefreshedBetween(s1.log, log, i);
  }

  lemma {:induction false} RefreshedBetween(before: seq<Event>, log: seq<Event>, i: nat)
    requires before <= log && |before| <= i < |log| && RefreshPending(before) && !RefreshPending(log[..i])
    ensures exists j :: |before| <= j < i && log[j].ConfigsRefreshed?
  {
    var between := log[|before|..i];
    assert log[..i] == before + between;
    hide RefreshPending;
    if forall k :: |before| <= k < i ==> !log[k].ConfigsRefreshed? {
      PendingUntilRefreshed(before, between);
      assert false;
    }
  }
}
