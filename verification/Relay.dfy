/**
  The relay loop: try a channel, and on a retryable failure exclude it and try
  another, moving on to the next group of an "auto" token when the current one
  is used up; refund the pre-consumed quota when every attempt has failed.

  What lies outside the process, the channel cache, the breaker, the set-up of a
  channel and the upstream calls, is an arbitrary `World` that answers every
  question once.  What `Relay` does is stated against these answers: which
  channel every attempt uses, when there is another attempt, and why a run ends.
*/
module Relay {
  import opened Wrappers
  import opened ChannelPick
  import AutoGroups

  // ---- Errors --------------------------------------------------------------

  /** What the retry policy looks at in an error. */
  datatype ApiError = ApiError(channelError: bool, skipRetry: bool, skipCode: bool, disables: bool, status: int)

  /** The operator's settings about status codes. */
  datatype Policy = Policy(retryStatus: int -> bool, fallbackStatus: int -> bool)

  datatype Classification = Classification(retryable: bool, forceRetry: bool)

  predicate AlwaysSkipStatus(status: int) {
    status == 504 || status == 524
  }

  predicate RetryableStatus(policy: Policy, status: int) {
    status < 100 || status > 599 || policy.retryStatus(status)
  }

  /** An error after which another channel may be tried. */
  predicate Retryable(policy: Policy, err: ApiError) {
    err.channelError
    || (&& !err.skipRetry && !err.skipCode && err.status != 504 && err.status != 524
        && (err.disables || err.status < 200 || err.status > 299)
        && (err.status < 100 || err.status > 599 || policy.retryStatus(err.status)))
  }

  /** ClassifyRelayError */
  function Classify(policy: Policy, err: ApiError): (r: Classification)
    ensures r.retryable <==> Retryable(policy, err)
    ensures r.forceRetry <==> err.channelError
  {
    if err.channelError then Classification(true, true)
    else if err.skipRetry || err.skipCode || AlwaysSkipStatus(err.status) then Classification(false, false)
    else if err.disables then Classification(RetryableStatus(policy, err.status), false)
    else if 200 <= err.status < 300 then Classification(false, false)
    else Classification(RetryableStatus(policy, err.status), false)
  }

  // ---- The request's own state ---------------------------------------------

  /** What is fixed for the length of a request. */
  datatype Config = Config(
    retryTimes: int,
    auto: bool,                 // the token's group is "auto"
    groups: seq<string>,        // the groups an auto token walks through
    crossGroupRetry: bool,
    specificChannel: bool,      // the caller asked for one channel by id
    channels: set<int>,         // every channel there is
    loopChannels: set<int>,     // channels already on the relay path of this request
    policy: Policy)
  {
    predicate Valid() {
      && (forall i, j | 0 <= i < j < |groups| :: groups[i] != groups[j])
      && (forall i | 0 <= i < |groups| :: groups[i] != "")
      && forall id | id in channels :: id > 0
    }
  }

  /** What an upstream call comes back with: an error or none, and whether a byte has gone to the client. */
  datatype Reply = Reply(err: Option<ApiError>, wrote: bool)

  /** The answers from outside, by the number of the selection (and the group it looks at) or of the call they belong to. */
  datatype World = World(
    pick: (nat, nat, nat, set<int>) -> Result<Option<int>, ()>,  // the choice in a group, by retry count and excluded channels
    broken: nat -> set<int>,              // the channels whose breaker is open
    setup: nat -> Option<ApiError>,       // setting up the selected channel
    preflight: nat -> Option<ApiError>,   // the relay-loop guard and the request body
    upstream: nat -> Reply,
    cleared: nat -> bool)                 // the affinity is forgotten when it may be

  /** The choice in a group is a channel that exists and is not excluded. */
  ghost predicate Real(world: World, channels: set<int>) {
    forall n, i, retry, excluded ::
      var r := world.pick(n, i, retry, excluded);
      r.Ok? && r.value.Some? ==> r.value.value in channels && r.value.value !in excluded
  }

  predicate Within(s: Snapshot, channels: set<int>) {
    && (forall i | 0 <= i < |s.exact| :: s.exact[i] in channels)
    && (forall i | 0 <= i < |s.normalized| :: s.normalized[i] in channels)
  }

  /** The choices are those of GetRandomSatisfiedChannel on the channel cache as it is at each selection, without stray channels. */
  ghost predicate FromCache(world: World, channels: set<int>, cache: (nat, nat) -> Snapshot, roll: (nat, nat) -> nat) {
    forall n, i, retry, excluded ::
      Within(cache(n, i), channels) && Answers(cache(n, i), retry, excluded, roll(n, i), world.pick(n, i, retry, excluded))
  }

  /** Choosing from the cache is choosing real channels. */
  lemma CachedIsReal(world: World, channels: set<int>, cache: (nat, nat) -> Snapshot, roll: (nat, nat) -> nat)
    requires FromCache(world, channels, cache, roll)
    ensures Real(world, channels)
  {
    forall n, i, retry, excluded
      ensures var r := world.pick(n, i, retry, excluded);
              r.Ok? && r.value.Some? ==> r.value.value in channels && r.value.value !in excluded
    {
      var r := world.pick(n, i, retry, excluded);
      if r.Ok? && r.value.Some? {
        assert Running(cache(n, i), excluded, r.value.value);
      }
    }
  }

  /**
    Where a request stands between two statements of the loop: its walk through
    the groups, the group of its channel, its retry count and a pending reset of
    it, the channels it will not use again, its pin, and how many selections it
    has made.
   */
  datatype Pass = Pass(index: Option<nat>, group: string, retry: int, reset: bool, excluded: set<int>, pinned: bool, selections: nat) {
    /** The group the next selection starts from. */
    function Start(): nat {
      if index.Some? then index.value else 0
    }
  }

  /** The groups the gateway computes for an auto token are as the walk needs them. */
  lemma AutoGroupsAreValid(cfg: Config, preferred: seq<string>, configured: seq<string>, usable: set<string>)
    requires cfg.groups == AutoGroups.AutoGroupsOf(preferred, configured, usable)
    requires forall id | id in cfg.channels :: id > 0
    ensures cfg.Valid()
  {
    AutoGroups.AutoGroupsAreUsable(preferred, configured, usable);
    forall i | 0 <= i < |cfg.groups| ensures cfg.groups[i] != "" {
      assert cfg.groups[i] in cfg.groups;
    }
  }

  class RetryParam {
    var retry: int
    var resetNextTry: bool
    var excluded: set<int>

    constructor ()
      ensures retry == 0 && !resetNextTry && excluded == {}
    {
      retry, resetNextTry, excluded := 0, false, {};
    }

    method SetRetry(r: int)
      modifies this`retry
      ensures retry == r
    {
      retry := r;
    }

    function NextRetry(): int
      reads this
    {
      if resetNextTry then retry else retry + 1
    }

    /** A pending reset is used up instead of counting one more retry. */
    method IncreaseRetry()
      modifies this`retry, this`resetNextTry
      ensures !resetNextTry && retry == old(NextRetry())
    {
      if resetNextTry {
        resetNextTry := false;
        return;
      }
      retry := retry + 1;
    }

    method ResetRetryNextTry()
      modifies this`resetNextTry
      ensures resetNextTry
    {
      resetNextTry := true;
    }

    method ExcludeChannel(id: int)
      modifies this`excluded
      ensures excluded == if id <= 0 then old(excluded) else old(excluded) + {id}
    {
      if id <= 0 {
        return;
      }
      excluded := excluded + {id};
    }
  }

  /** The request context. */
  class Context {
    const cfg: Config
    const world: World
    var groupIndex: Option<nat>   // where the walk through the groups stands
    var group: string             // the group the current channel came from
    var written: bool             // some byte has gone to the client
    var pinned: bool              // channel affinity forbids a retry
    var calls: nat                // the upstream calls made; before the first there is no channel metadata
    var selections: nat

    constructor (cfg: Config, world: World, groupIndex: Option<nat>, group: string, pinned: bool)
      ensures this.cfg == cfg && this.world == world
      ensures this.groupIndex == groupIndex && this.group == group && this.pinned == pinned
      ensures !written && calls == 0 && selections == 0
    {
      this.cfg, this.world, this.groupIndex, this.group, this.pinned := cfg, world, groupIndex, group, pinned;
      written, calls, selections := false, 0, 0;
    }
  }

  function At(c: Context, p: RetryParam): Pass
    reads c, p
  {
    Pass(c.groupIndex, c.group, p.retry, p.resetNextTry, p.excluded, c.pinned, c.selections)
  }

  // ---- Selecting a channel -------------------------------------------------

  /** What a selection must not choose: failed before, on the relay path already, or cooling down. */
  function Excluding(cfg: Config, world: World, s: Pass): set<int> {
    s.excluded + cfg.loopChannels + world.broken(s.selections)
  }

  /** A selection: where it started, and the group and the channel it chose. */
  datatype Pick = Pick(before: Pass, at: nat, channel: int)

  /** The retry count a group is asked with: a group that is new starts from zero. */
  function PriorityRetry(s: Pass, at: nat): nat {
    if at > s.Start() || s.retry < 0 then 0 else s.retry
  }

  /** What the choice in group `at` comes to. */
  function Choice(cfg: Config, world: World, s: Pass, at: nat): Result<Option<int>, ()> {
    world.pick(s.selections, at, PriorityRetry(s, at), Excluding(cfg, world, s))
  }

  /** There is nothing to choose in any group from where the walk stands up to group `at`. */
  ghost predicate NobodyUpTo(cfg: Config, world: World, s: Pass, at: nat) {
    forall i | s.Start() <= i < at :: Choice(cfg, world, s, i) == Ok(None)
  }

  /** The channel is right for its group, and the groups passed over had none. */
  ghost predicate IsPick(cfg: Config, world: World, k: Pick) {
    && (if cfg.auto then k.before.Start() <= k.at < |cfg.groups| && NobodyUpTo(cfg, world, k.before, k.at) else k.at == 0)
    && Choice(cfg, world, k.before, k.at) == Ok(Some(k.channel))
  }

  /** The channel was in the running, in the right tier, and drawn by weight; and nothing was in the groups passed over. */
  lemma PickIsRight(cfg: Config, world: World, cache: (nat, nat) -> Snapshot, roll: (nat, nat) -> nat, k: Pick)
    requires FromCache(world, cfg.channels, cache, roll) && IsPick(cfg, world, k)
    ensures var n, excluded := k.before.selections, Excluding(cfg, world, k.before);
            && Fits(cache(n, k.at), PriorityRetry(k.before, k.at), excluded, roll(n, k.at), k.channel)
            && (cfg.auto ==> forall i | k.before.Start() <= i < k.at :: Nobody(cache(n, i), excluded))
  {
    var s, n, excluded := k.before, k.before.selections, Excluding(cfg, world, k.before);
    assert Answers(cache(n, k.at), PriorityRetry(s, k.at), excluded, roll(n, k.at), Choice(cfg, world, s, k.at));
    if cfg.auto {
      forall i | s.Start() <= i < k.at ensures Nobody(cache(n, i), excluded) {
        assert Answers(cache(n, i), PriorityRetry(s, i), excluded, roll(n, i), Choice(cfg, world, s, i));
      }
    }
  }

  /** The group's retries are used up with this one. */
  predicate LastOfGroup(cfg: Config, k: Pick) {
    cfg.crossGroupRetry && (if k.at > k.before.Start() then 0 else k.before.retry) >= cfg.retryTimes
  }

  /** The walk after a selection: at the chosen group with its count, or past it with a fresh one. */
  function AfterPick(cfg: Config, k: Pick): (s: Pass)
    ensures s.selections == k.before.selections + 1 && s.pinned == k.before.pinned && s.excluded == k.before.excluded
  {
    var s := k.before.(selections := k.before.selections + 1);
    if !cfg.auto || k.at >= |cfg.groups| then s
    else if LastOfGroup(cfg, k) then s.(group := cfg.groups[k.at], index := Some(k.at + 1), retry := 0, reset := true)
    else s.(group := cfg.groups[k.at], index := Some(k.at), retry := if k.at > s.Start() then 0 else s.retry)
  }

  /** There is nothing to choose in the token's group, or in any group the walk has left. */
  ghost predicate NothingToPick(cfg: Config, world: World, s: Pass) {
    if cfg.auto then NobodyUpTo(cfg, world, s, |cfg.groups|)
    else Choice(cfg, world, s, 0) == Ok(None)
  }

  /** The choice fails in the first group that has anything to choose. */
  ghost predicate CacheIsBroken(cfg: Config, world: World, s: Pass, at: nat) {
    && (if cfg.auto then s.Start() <= at < |cfg.groups| && NobodyUpTo(cfg, world, s, at) else at == 0)
    && Choice(cfg, world, s, at).Err?
  }

  /** Only the relay path stands in the way. */
  predicate OnlyTheLoop(cfg: Config, world: World, s: Pass) {
    s.excluded == {} && world.broken(s.selections) == {} && cfg.loopChannels != {} && (cfg.auto ==> cfg.groups != [])
  }

  datatype SelectError = NoUsableGroup | CacheError | NothingLeft | LoopGuard

  /** What the groups had to offer: a pick, nothing, no group at all, or an inconsistent cache. */
  ghost predicate Offered(cfg: Config, world: World, s: Pass, r: Result<Option<Pick>, SelectError>) {
    match r
    case Ok(Some(k)) => k.before == s && IsPick(cfg, world, k) && k.channel in cfg.channels && k.channel !in s.excluded
    case Ok(None) => NothingToPick(cfg, world, s) && (cfg.auto ==> cfg.groups != [])
    case Err(NoUsableGroup) => cfg.auto && cfg.groups == []
    case Err(CacheError) => exists at :: CacheIsBroken(cfg, world, s, at)
    case Err(_) => false
  }

  /** CacheGetRandomSatisfiedChannel for a token whose group is not "auto". */
  method SelectFromTokenGroup(c: Context, p: RetryParam, excluded: set<int>) returns (r: Result<Option<Pick>, SelectError>)
    requires !c.cfg.auto && Real(c.world, c.cfg.channels) && excluded == Excluding(c.cfg, c.world, At(c, p))
    ensures Offered(c.cfg, c.world, At(c, p), r)
  {
    var picked := c.world.pick(c.selections, 0, if p.retry < 0 then 0 else p.retry, excluded);
    if picked.Err? {
      assert CacheIsBroken(c.cfg, c.world, At(c, p), 0);
      return Err(CacheError);
    }
    r := Ok(if picked.value.None? then None else Some(Pick(At(c, p), 0, picked.value.value)));
  }

  /** Records the chosen group, and prepares the next retry. */
  method Settle(c: Context, p: RetryParam, k: Pick, priorityRetry: int)
    requires c.cfg.auto && k.before.Start() <= k.at < |c.cfg.groups|
    requires At(c, p) == k.before || (k.at > k.before.Start() && At(c, p) == k.before.(retry := 0, index := Some(k.at)))
    requires priorityRetry == (if k.at > k.before.Start() then 0 else k.before.retry) == p.retry
    modifies c`groupIndex, c`group, p`retry, p`resetNextTry
    ensures At(c, p).(selections := c.selections + 1) == AfterPick(c.cfg, k)
  {
    c.group := c.cfg.groups[k.at];
    if c.cfg.crossGroupRetry && priorityRetry >= c.cfg.retryTimes {
      c.groupIndex := Some(k.at + 1);
      p.SetRetry(0);
      p.ResetRetryNextTry();
    } else {
      c.groupIndex := Some(k.at);
    }
  }

  /** Leaves a group with nothing to offer behind. */
  method PassOver(c: Context, p: RetryParam, i: nat, ghost before: Pass)
    requires before.Start() <= i && NobodyUpTo(c.cfg, c.world, before, i) && Choice(c.cfg, c.world, before, i) == Ok(None)
    requires At(c, p) == before || At(c, p) == before.(retry := 0, index := Some(i))
    modifies c`groupIndex, p`retry
    ensures At(c, p) == before.(retry := 0, index := Some(i + 1)) && NobodyUpTo(c.cfg, c.world, before, i + 1)
  {
    c.groupIndex := Some(i + 1);
    p.SetRetry(0);
  }

  /**
    CacheGetRandomSatisfiedChannel for an "auto" token: try the groups from the
    current one on, advance past those with nothing to offer, and move on for the
    next retry when this group's retries are used up.
   */
  method SelectFromAutoGroups(c: Context, p: RetryParam, excluded: set<int>) returns (r: Result<Option<Pick>, SelectError>)
    requires c.cfg.auto && Real(c.world, c.cfg.channels) && excluded == Excluding(c.cfg, c.world, At(c, p))
    modifies c`groupIndex, c`group, p`retry, p`resetNextTry
    ensures Offered(c.cfg, c.world, old(At(c, p)), r)
    ensures r.Ok? && r.value.Some? ==> At(c, p).(selections := c.selections + 1) == AfterPick(c.cfg, r.value.value)
  {
    var groups := c.cfg.groups;
    if |groups| == 0 {
      return Err(NoUsableGroup);
    }
    var before, startGroupIndex := At(c, p), if c.groupIndex.Some? then c.groupIndex.value else 0;
    var i := startGroupIndex;
    while i < |groups|
      invariant startGroupIndex <= i
      invariant NobodyUpTo(c.cfg, c.world, before, i)
      invariant At(c, p) == if i == startGroupIndex then before else before.(retry := 0, index := Some(i))
    {
      var priorityRetry := p.retry;
      if i > startGroupIndex {
        priorityRetry := 0;
      }
      var picked := c.world.pick(c.selections, i, if priorityRetry < 0 then 0 else priorityRetry, excluded);
      if picked.Err? {
        assert CacheIsBroken(c.cfg, c.world, before, i);
        return Err(CacheError);
      }
      if picked.value.None? {
        PassOver(c, p, i, before);
        i := i + 1;
        continue;
      }
      var k := Pick(before, i, picked.value.value);
      Settle(c, p, k, priorityRetry);
      return Ok(Some(k));
    }
    r := Ok(None);
  }

  /** Nothing was in the running, perhaps because of the relay loop alone, or the cache is inconsistent. */
  ghost predicate FoundNothing(cfg: Config, world: World, s: Pass, loop: bool) {
    || (NothingToPick(cfg, world, s) && (loop <==> OnlyTheLoop(cfg, world, s)))
    || (!loop && exists at :: CacheIsBroken(cfg, world, s, at))
  }

  /** CacheGetRandomSatisfiedChannel: a right channel, or nothing was left or the cache is inconsistent. */
  method SelectChannel(c: Context, p: RetryParam) returns (r: Result<Option<Pick>, SelectError>)
    requires Real(c.world, c.cfg.channels)
    modifies c`groupIndex, c`group, c`selections, p`retry, p`resetNextTry
    ensures r.Ok? && r.value.Some? ==> Offered(c.cfg, c.world, old(At(c, p)), r) && At(c, p) == AfterPick(c.cfg, r.value.value)
    ensures r.Err? || r.value.None? ==> FoundNothing(c.cfg, c.world, old(At(c, p)), r == Err(LoopGuard))
  {
    var broken := c.world.broken(c.selections);
    var excluded := p.excluded + c.cfg.loopChannels + broken;
    if c.cfg.auto {
      r := SelectFromAutoGroups(c, p, excluded);
    } else {
      r := SelectFromTokenGroup(c, p, excluded);
    }
    c.selections := c.selections + 1;
    if r == Ok(None) {
      r := WhenNothing(c.cfg, p.excluded, broken);
    }
  }

  /** What a selection that chose nothing returns: the relay loop is to blame only if nothing else is excluded. */
  method WhenNothing(cfg: Config, failed: set<int>, broken: set<int>) returns (r: Result<Option<Pick>, SelectError>)
    ensures r == Ok(None) <==> failed == {} && broken == {} && cfg.loopChannels == {} && !cfg.auto
    ensures r.Err? ==> r.error == if failed == {} && broken == {} && cfg.loopChannels != {} then LoopGuard else NothingLeft
    ensures r.Ok? ==> r.value.None?
  {
    var excluded := failed + cfg.loopChannels + broken;
    if excluded != {} {
      if failed == {} && broken == {} && cfg.loopChannels != {} {
        return Err(LoopGuard);
      }
      return Err(NothingLeft);
    }
    if cfg.auto {
      return Err(NothingLeft);
    }
    return Ok(None);
  }

  // ---- Getting a usable channel --------------------------------------------

  /** ShouldRetryChannelSetupError */
  predicate SetupErrorIsRetryable(policy: Policy, err: ApiError) {
    !err.skipRetry && Classify(policy, err).retryable
  }

  const GET_CHANNEL_FAILED := ApiError(false, true, false, false, 500)
  const RELAY_LOOP := ApiError(false, true, false, false, 508)

  /** The channel that was picked could not be set up, and another one may be tried. */
  predicate SetupFailed(cfg: Config, world: World, k: Pick) {
    var err := world.setup(k.before.selections);
    err.Some? && !err.value.skipRetry && Retryable(cfg.policy, err.value) && !k.before.pinned
  }

  /** Where the next selection starts after that. */
  function AfterFailedSetup(cfg: Config, k: Pick): Pass {
    var s := AfterPick(cfg, k);
    s.(excluded := s.excluded + {k.channel})
  }

  /** The selections of one pass, in order. */
  datatype Trail = Begun(start: Pass) | Then(front: Trail, last: Pick) {
    function First(): Pass {
      if Begun? then start else front.First()
    }

    /** The set-up of the last channel failed, and another one may be tried. */
    predicate Failed(cfg: Config, world: World) {
      Begun? || SetupFailed(cfg, world, last)
    }

    /** Where the selection after that starts. */
    function Next(cfg: Config): Pass {
      if Begun? then start else AfterFailedSetup(cfg, last)
    }

    /** Every selection is right, and starts where the failed set-up of the one before it left off. */
    ghost predicate Valid(cfg: Config, world: World) {
      Then? ==>
        && front.Valid(cfg, world) && front.Failed(cfg, world) && last.before == front.Next(cfg)
        && IsPick(cfg, world, last) && last.channel in cfg.channels
    }
  }

  /** The trail ends with a channel that is set up. */
  ghost predicate Reaches(cfg: Config, world: World, t: Trail, channel: int, s: Pass) {
    && t.Valid(cfg, world) && t.Then? && t.last.channel == channel
    && world.setup(t.last.before.selections).None? && s == AfterPick(cfg, t.last)
  }

  /** The last channel's set-up fails for good: its error may not be retried, or the request is pinned. */
  predicate SetupIsFinal(cfg: Config, world: World, t: Trail, err: ApiError) {
    && t.Then? && world.setup(t.last.before.selections) == Some(err)
    && (err.skipRetry || !Retryable(cfg.policy, err) || t.last.before.pinned)
  }

  /** The error of a pass that runs out of channels: that of the last set-up, unless there was none or the loop is to blame. */
  function ErrorWhenNoneLeft(world: World, t: Trail, loop: bool): (r: ApiError)
    ensures loop ==> r == ApiError(false, true, false, false, 508)
    ensures !loop && t.Begun? ==> r == ApiError(false, true, false, false, 500)
  {
    if loop then RELAY_LOOP
    else if t.Then? && world.setup(t.last.before.selections).Some? then world.setup(t.last.before.selections).value
    else GET_CHANNEL_FAILED
  }

  /** Every channel's set-up failed, and then a selection found nothing. */
  ghost predicate NoneLeft(cfg: Config, world: World, t: Trail, err: ApiError) {
    t.Failed(cfg, world)
    && exists loop :: FoundNothing(cfg, world, t.Next(cfg), loop) && err == ErrorWhenNoneLeft(world, t, loop)
  }

  /** Why there is no channel: a set-up that is final, or nothing left. */
  ghost predicate NoChannel(cfg: Config, world: World, t: Trail, err: ApiError) {
    t.Valid(cfg, world) && (SetupIsFinal(cfg, world, t, err) || NoneLeft(cfg, world, t, err))
  }

  /** The next selection of a pass chose this channel. */
  ghost predicate Continues(cfg: Config, world: World, t: Trail, k: Pick) {
    k.before == t.Next(cfg) && IsPick(cfg, world, k) && k.channel in cfg.channels && k.channel !in k.before.excluded
  }

  lemma TrailGrows(cfg: Config, world: World, t: Trail, k: Pick)
    requires t.Valid(cfg, world) && t.Failed(cfg, world) && Continues(cfg, world, t, k)
    ensures Then(t, k).Valid(cfg, world)
  {
  }

  /** One selection of a pass; `failure` is the error if it finds nothing. */
  method SelectNext(c: Context, p: RetryParam, failure: ApiError, ghost t: Trail) returns (r: Result<Pick, ApiError>)
    requires Real(c.world, c.cfg.channels) && At(c, p) == t.Next(c.cfg) && t.Failed(c.cfg, c.world)
    requires failure == ErrorWhenNoneLeft(c.world, t, false)
    modifies c`groupIndex, c`group, c`selections, p`retry, p`resetNextTry
    ensures r.Err? ==> NoneLeft(c.cfg, c.world, t, r.error)
    ensures r.Ok? ==> Continues(c.cfg, c.world, t, r.value) && At(c, p) == AfterPick(c.cfg, r.value)
  {
    var selected := SelectChannel(c, p);
    if selected.Err? {
      r := Err(if selected.error.LoopGuard? then RELAY_LOOP else failure);
      assert FoundNothing(c.cfg, c.world, t.Next(c.cfg), selected.error.LoopGuard?);
      return;
    }
    if selected.value.None? {
      assert FoundNothing(c.cfg, c.world, t.Next(c.cfg), false);
      return Err(failure);
    }
    r := Ok(selected.value.value);
  }

  /** Setting up the channel of the last selection: done, failed for good, or failed so that another may be tried. */
  method Setup(c: Context, p: RetryParam, ghost k: Pick) returns (err: Option<ApiError>, final: bool)
    requires c.cfg.Valid() && At(c, p) == AfterPick(c.cfg, k)
    ensures err == c.world.setup(k.before.selections)
    ensures err.Some? && final ==> err.value.skipRetry || !Retryable(c.cfg.policy, err.value) || k.before.pinned
    ensures err.Some? && !final ==> SetupFailed(c.cfg, c.world, k)
  {
    err := c.world.setup(c.selections - 1);
    final := err.Some? && (!SetupErrorIsRetryable(c.cfg.policy, err.value) || c.pinned);
  }

  /** The set-up loop ends because every round excludes one more of finitely many channels. */
  method PickAndSetUp(c: Context, p: RetryParam) returns (r: Result<int, ApiError>, t: Trail)
    requires c.cfg.Valid() && Real(c.world, c.cfg.channels)
    modifies c`groupIndex, c`group, c`selections, p
    ensures t.First() == old(At(c, p))
    ensures r.Ok? ==> Reaches(c.cfg, c.world, t, r.value, At(c, p))
    ensures r.Err? ==> NoChannel(c.cfg, c.world, t, r.error)
  {
    ghost var start := At(c, p);
    t := Begun(At(c, p));
    var selected := SelectNext(c, p, GET_CHANNEL_FAILED, t);
    while selected.Ok?
      invariant t.Valid(c.cfg, c.world) && t.Failed(c.cfg, c.world) && t.First() == start
      invariant selected.Ok? ==> Continues(c.cfg, c.world, t, selected.value) && At(c, p) == AfterPick(c.cfg, selected.value)
      invariant selected.Err? ==> NoneLeft(c.cfg, c.world, t, selected.error)
      decreases selected.Ok?, c.cfg.channels - p.excluded
    {
      var k := selected.value;
      TrailGrows(c.cfg, c.world, t, k);
      t := Then(t, k);
      var err, final := Setup(c, p, k);
      if err.None? {
        return Ok(k.channel), t;
      }
      if final {
        return Err(err.value), t;
      }
      p.ExcludeChannel(k.channel);
      selected := SelectNext(c, p, err.value, t);
    }
    r := Err(selected.error);
  }

  /**
    getChannel.  The first call uses the distributor's channel.  Later it is one
    that was picked and set up after others that were not, or the error is that of
    a set-up that is final, or nothing was left.
   */
  method GetChannel(c: Context, p: RetryParam, first: int) returns (r: Result<int, ApiError>, t: Trail)
    requires c.cfg.Valid() && Real(c.world, c.cfg.channels)
    modifies c`groupIndex, c`group, c`selections, p
    ensures t.First() == old(At(c, p))
    ensures c.calls == 0 ==> r == Ok(first) && t.Begun? && At(c, p) == old(At(c, p))
    ensures c.calls > 0 && r.Ok? ==> Reaches(c.cfg, c.world, t, r.value, At(c, p))
    ensures c.calls > 0 && r.Err? ==> NoChannel(c.cfg, c.world, t, r.error)
  {
    if c.calls == 0 {
      return Ok(first), Begun(At(c, p));
    }
    r, t := PickAndSetUp(c, p);
  }

  // ---- Whether to go on ----------------------------------------------------

  /** A pinned request may leave its channel after this error. */
  predicate MayLeavePin(cfg: Config, err: ApiError, retryTimes: int) {
    && Retryable(cfg.policy, err) && retryTimes > 0 && !cfg.specificChannel
    && cfg.policy.fallbackStatus(err.status) && cfg.policy.retryStatus(err.status)
  }

  /** shouldFallbackChannelAffinityForStatus: may lift the affinity pin. */
  method FallbackForStatus(c: Context, status: int, retryTimes: int) returns (ok: bool)
    requires c.calls > 0
    modifies c`pinned
    ensures ok <==> retryTimes > 0 && !c.cfg.specificChannel && c.cfg.policy.fallbackStatus(status) && c.cfg.policy.retryStatus(status)
    ensures c.pinned == (old(c.pinned) && !(ok && c.world.cleared(c.calls - 1)))
  {
    if retryTimes <= 0 || c.cfg.specificChannel {
      return false;
    }
    if !c.cfg.policy.fallbackStatus(status) || !c.cfg.policy.retryStatus(status) {
      return false;
    }
    // ClearCurrentChannelAffinityCache succeeds or not
    if c.world.cleared(c.calls - 1) {
      c.pinned := false;
    }
    return true;
  }

  /** shouldFallbackChannelAffinityForError */
  method FallbackForError(c: Context, err: ApiError, retryTimes: int) returns (ok: bool)
    requires c.calls > 0
    modifies c`pinned
    ensures ok <==> MayLeavePin(c.cfg, err, retryTimes)
    ensures c.pinned == (old(c.pinned) && !(ok && c.world.cleared(c.calls - 1)))
  {
    if !Classify(c.cfg.policy, err).retryable {
      return false;
    }
    ok := FallbackForStatus(c, err.status, retryTimes);
  }

  /** Another try with the same walk: never once a byte has been written, and beyond the retry budget only for a channel error. */
  predicate Retries(cfg: Config, err: ApiError, pinned: bool, written: bool, retryTimes: int) {
    && !written && (pinned ==> MayLeavePin(cfg, err, retryTimes)) && Retryable(cfg.policy, err)
    && (err.channelError || (retryTimes > 0 && !cfg.specificChannel))
  }

  /** shouldRetry: never once a byte has been written, and beyond the retry budget only for a forced retry. */
  method ShouldRetry(c: Context, err: ApiError, retryTimes: int) returns (retry: bool)
    requires c.calls > 0
    modifies c`pinned
    ensures retry <==> Retries(c.cfg, err, old(c.pinned), c.written, retryTimes)
    ensures c.pinned == (old(c.pinned) && !(retry && c.world.cleared(c.calls - 1)))
  {
    if c.written {
      return false;
    }
    if c.pinned {
      var fallback := FallbackForError(c, err, retryTimes);
      if !fallback {
        return false;
      }
    }
    var classification := Classify(c.cfg.policy, err);
    if classification.forceRetry {
      return true;
    }
    if !classification.retryable {
      return false;
    }
    if retryTimes <= 0 {
      return false;
    }
    if c.cfg.specificChannel {
      return false;
    }
    return true;
  }

  /** shouldAutoGroupRetryGatewayStatus */
  predicate GatewayStatus(status: int) {
    status == 502 || status == 503 || status == 524
  }

  /** The error is worth another group. */
  predicate WorthAnotherGroup(cfg: Config, err: ApiError, pinned: bool, written: bool) {
    && !written && !cfg.specificChannel && !err.skipRetry && !err.skipCode
    && (pinned ==> MayLeavePin(cfg, err, 1))
    && (Retryable(cfg.policy, err) || err.status == 502 || err.status == 503 || err.status == 524)
  }

  /** shouldRetryAutoGroupRelayError */
  method ShouldRetryAutoGroup(c: Context, err: ApiError) returns (retry: bool)
    requires c.calls > 0
    modifies c`pinned
    ensures retry <==> WorthAnotherGroup(c.cfg, err, old(c.pinned), c.written)
    ensures retry ==> c.pinned == (old(c.pinned) && !c.world.cleared(c.calls - 1))
  {
    if c.written {
      return false;
    }
    if c.cfg.specificChannel {
      return false;
    }
    if c.pinned {
      var fallback := FallbackForError(c, err, 1);
      if !fallback {
        return false;
      }
    }
    if err.skipRetry || err.skipCode {
      return false;
    }
    var classification := Classify(c.cfg.policy, err);
    if classification.forceRetry {
      return true;
    }
    return classification.retryable || GatewayStatus(err.status);
  }

  function IndexOf(groups: seq<string>, group: string): (r: Option<nat>)
    ensures r.Some? ==> r.value < |groups| && groups[r.value] == group && group !in groups[..r.value]
    ensures r.None? ==> group !in groups
  {
    if groups == [] then None
    else if groups[0] == group then Some(0)
    else
      var rest := IndexOf(groups[1..], group);
      assert rest.Some? ==> groups[..rest.value + 1] == [groups[0]] + groups[1..][..rest.value];
      if rest.Some? then Some(rest.value + 1) else None
  }

  /** nextAutoGroupRetryIndex: the group after the first of the current name, or the one the walk stands at if there is none. */
  function NextGroup(cfg: Config, group: string, groupIndex: Option<nat>): (r: Option<nat>)
    ensures r.Some? <==>
              && cfg.auto && cfg.crossGroupRetry && |cfg.groups| >= 2
              && if group != "" && group in cfg.groups then group in cfg.groups[..|cfg.groups| - 1]
                 else groupIndex.Some? && groupIndex.value < |cfg.groups|
    ensures r.Some? ==>
              if group != "" && group in cfg.groups then
                0 < r.value < |cfg.groups| && cfg.groups[r.value - 1] == group && group !in cfg.groups[..r.value - 1]
              else r == groupIndex
  {
    if !cfg.auto || !cfg.crossGroupRetry || |cfg.groups| < 2 then None
    else
      var found := if group != "" then IndexOf(cfg.groups, group) else None;
      var next := if found.Some? then Some(found.value + 1) else groupIndex;
      if next.Some? && next.value < |cfg.groups| then next else None
  }

  lemma NextGroupIsNext(cfg: Config, groupIndex: Option<nat>, at: nat)
    requires cfg.Valid() && at < |cfg.groups|
    ensures NextGroup(cfg, cfg.groups[at], groupIndex).Some? ==> NextGroup(cfg, cfg.groups[at], groupIndex).value == at + 1
  {
  }

  /** Another try in the next group. */
  predicate Switches(cfg: Config, err: ApiError, s: Pass, written: bool) {
    NextGroup(cfg, s.group, s.index).Some? && WorthAnotherGroup(cfg, err, s.pinned, written)
  }

  /** prepareAutoGroupRetryAfterRelayError: on success one more group is left behind and the retry count starts over. */
  method PrepareAutoGroupRetry(c: Context, err: ApiError, p: RetryParam) returns (prepared: bool)
    requires c.calls > 0
    modifies c`pinned, c`groupIndex, p`retry, p`resetNextTry
    ensures prepared <==> Switches(c.cfg, err, old(At(c, p)), c.written)
    ensures prepared ==>
              At(c, p) == old(At(c, p)).(index := NextGroup(c.cfg, c.group, old(c.groupIndex)), retry := 0, reset := true,
                                         pinned := old(c.pinned) && !c.world.cleared(c.calls - 1))
  {
    var next := NextGroup(c.cfg, c.group, c.groupIndex);
    if next.None? {
      return false;
    }
    var retry := ShouldRetryAutoGroup(c, err);
    if !retry {
      return false;
    }
    c.groupIndex := next;
    p.SetRetry(0);
    p.ResetRetryNextTry();
    return true;
  }

  // ---- The loop ------------------------------------------------------------

  /**
    One upstream call: where the request stood when this pass of the loop began,
    the selections it made, the channel it called, where it stood then, and what
    came back.
   */
  datatype Attempt = Attempt(before: Pass, trail: Trail, channel: int, called: Pass, reply: Reply) {
    predicate Failed() {
      reply.err.Some?
    }

    /** The retry decision: go on as before, go on in the next group, or give up. */
    predicate GoesOn(cfg: Config) {
      Failed() && (Retries(cfg, reply.err.value, called.pinned, reply.wrote, cfg.retryTimes - called.retry)
                   || Switches(cfg, reply.err.value, called, reply.wrote))
    }

    /** Where the request stands when the next pass begins, after call number `n`. */
    function Following(cfg: Config, world: World, n: nat): Pass {
      var s := called.(excluded := if channel > 0 then called.excluded + {channel} else called.excluded,
                       pinned := called.pinned && !world.cleared(n), reset := false);
      if Failed() && Retries(cfg, reply.err.value, called.pinned, reply.wrote, cfg.retryTimes - called.retry) then
        s.(retry := if called.reset then called.retry else called.retry + 1)
      else
        s.(index := NextGroup(cfg, called.group, called.index), retry := 0)
    }
  }

  /**
    The retry decision on the error's own fields.  After a call that wrote nothing
    the loop goes on if the error may be retried, with a retry left and no channel
    asked for by id unless it is a channel error, and if a pin may be left; or if
    there is a next group for an error that may be retried or is a gateway status.
   */
  lemma GoesOnExactly(cfg: Config, a: Attempt)
    requires cfg.Valid() && a.Failed()
    ensures var e, s := a.reply.err.value, a.called;
            var retryable := e.channelError || (&& !e.skipRetry && !e.skipCode && e.status !in {504, 524}
                                                && (e.disables || !(200 <= e.status < 300))
                                                && (e.status < 100 || e.status > 599 || cfg.policy.retryStatus(e.status)));
            var mayLeave := retryable && !cfg.specificChannel && cfg.policy.fallbackStatus(e.status) && cfg.policy.retryStatus(e.status);
            var left := cfg.retryTimes - s.retry;
            var hasNext := cfg.auto && cfg.crossGroupRetry && |cfg.groups| >= 2
                           && if s.group in cfg.groups then s.group != cfg.groups[|cfg.groups| - 1]
                              else s.index.Some? && s.index.value < |cfg.groups|;
            a.GoesOn(cfg) <==>
              && !a.reply.wrote
              && (|| (&& retryable && (e.channelError || (left > 0 && !cfg.specificChannel))
                      && (s.pinned ==> mayLeave && left > 0))
                  || (&& hasNext && !cfg.specificChannel && !e.skipRetry && !e.skipCode && (s.pinned ==> mayLeave)
                      && (retryable || e.status in {502, 503, 524})))
  {
    LastIsNotBefore(cfg, a.called.group);
  }

  /** Of distinct groups, one is listed before the last exactly if it is not the last. */
  lemma LastIsNotBefore(cfg: Config, group: string)
    requires cfg.Valid()
    ensures group in cfg.groups ==>
              group != "" && (group in cfg.groups[..|cfg.groups| - 1] <==> group != cfg.groups[|cfg.groups| - 1])
  {
  }

  /** Call number `n` gets its channel: the distributor's, or one that was picked and set up. */
  ghost predicate GotChannel(cfg: Config, world: World, first: int, n: nat, t: Trail, channel: int, s: Pass) {
    if n == 0 then t.Begun? && channel == first && s == t.start else Reaches(cfg, world, t, channel, s)
  }

  /** Call number `n` of a request. */
  ghost predicate IsAttempt(cfg: Config, world: World, first: int, n: nat, a: Attempt) {
    && a.trail.First() == a.before && GotChannel(cfg, world, first, n, a.trail, a.channel, a.called)
    && world.preflight(n).None? && a.reply == world.upstream(n)
  }

  /** How a pass of the loop ends. */
  datatype Verdict = NoneSelected(trail: Trail) | Stopped(trail: Trail, channel: int) | Called(attempt: Attempt)

  /** There was no channel for the pass that begins at `s`. */
  ghost predicate IsUnselected(cfg: Config, world: World, s: Pass, t: Trail, err: Option<ApiError>) {
    t.First() == s && err.Some? && NoChannel(cfg, world, t, err.value)
  }

  /** The pass that begins at `s` has a channel for call number `n`, and is stopped before the call. */
  ghost predicate IsBlocked(cfg: Config, world: World, first: int, n: nat, s: Pass, t: Trail, channel: int, err: Option<ApiError>) {
    && t.First() == s && (exists s' :: GotChannel(cfg, world, first, n, t, channel, s'))
    && err.Some? && err == world.preflight(n)
  }

  /** The upstream call: it may write to the client, and may fail. */
  method Forward(c: Context) returns (err: Option<ApiError>)
    modifies c`calls, c`written
    ensures c.calls == old(c.calls) + 1 && err == c.world.upstream(old(c.calls)).err
    ensures c.written == (old(c.written) || c.world.upstream(old(c.calls)).wrote)
  {
    var reply := c.world.upstream(c.calls);
    c.calls := c.calls + 1;
    if reply.wrote {
      c.written := true;
    }
    err := reply.err;
  }

  /** What follows a failed call: its channel is excluded, and the loop goes on exactly if the retry decision says so. */
  method Decide(c: Context, p: RetryParam, a: Attempt) returns (again: bool)
    requires a.Failed() && c.calls > 0 && At(c, p) == a.called && c.written == a.reply.wrote
    modifies c`pinned, c`groupIndex, p
    ensures again <==> a.GoesOn(c.cfg)
    ensures again ==> !c.written && At(c, p).(retry := p.NextRetry(), reset := false) == a.Following(c.cfg, c.world, c.calls - 1)
  {
    var err := a.reply.err.value;
    p.ExcludeChannel(a.channel);
    again := ShouldRetry(c, err, c.cfg.retryTimes - p.retry);
    if !again {
      again := PrepareAutoGroupRetry(c, err, p);
    }
  }

  /** One pass of the loop body, up to the loop's own increment, and whether the loop goes on. */
  method TryOnce(c: Context, p: RetryParam, first: int) returns (verdict: Verdict, err: Option<ApiError>, again: bool)
    requires c.cfg.Valid() && Real(c.world, c.cfg.channels) && !c.written
    modifies c, p
    ensures verdict.NoneSelected? ==> old(c.calls) > 0 && !again && IsUnselected(c.cfg, c.world, old(At(c, p)), verdict.trail, err)
    ensures verdict.Stopped? ==>
              !again && IsBlocked(c.cfg, c.world, first, old(c.calls), old(At(c, p)), verdict.trail, verdict.channel, err)
    ensures verdict.Called? ==>
              var a := verdict.attempt;
              && a.before == old(At(c, p)) && IsAttempt(c.cfg, c.world, first, old(c.calls), a)
              && err == a.reply.err && c.calls == old(c.calls) + 1 && (again <==> a.GoesOn(c.cfg))
              && (again ==> !c.written && At(c, p).(retry := p.NextRetry(), reset := false) == a.Following(c.cfg, c.world, old(c.calls)))
  {
    var start, n := At(c, p), c.calls;
    again := false;
    var got, t := GetChannel(c, p, first);
    if got.Err? {
      return NoneSelected(t), Some(got.error), again;
    }
    var channel := got.value;
    assert GotChannel(c.cfg, c.world, first, n, t, channel, At(c, p));
    err := c.world.preflight(c.calls);
    if err.Some? {
      return Stopped(t, channel), err, again;
    }
    err := Forward(c);
    var a := Attempt(start, t, channel, At(c, p), Reply(err, c.written));
    verdict := Called(a);
    if err.Some? {
      again := Decide(c, p, a);
    }
  }

  // ---- Runs ------------------------------------------------------------------

  /** Where a request that started at `start` stands after these attempts. */
  function Stands(cfg: Config, world: World, start: Pass, attempts: seq<Attempt>): Pass {
    if attempts == [] then start else attempts[|attempts| - 1].Following(cfg, world, |attempts| - 1)
  }

  /** The last attempt goes on, and the retry limit allows another pass. */
  predicate GoesAround(cfg: Config, world: World, start: Pass, attempts: seq<Attempt>) {
    (attempts != [] ==> attempts[|attempts| - 1].GoesOn(cfg)) && Stands(cfg, world, start, attempts).retry <= cfg.retryTimes
  }

  /** Attempts of one run: each is made because the one before it goes on, from where that left the request. */
  ghost predicate IsRun(cfg: Config, world: World, first: int, start: Pass, attempts: seq<Attempt>) {
    attempts == []
    || (var n := |attempts| - 1;
        && IsRun(cfg, world, first, start, attempts[..n]) && GoesAround(cfg, world, start, attempts[..n])
        && attempts[n].before == Stands(cfg, world, start, attempts[..n]) && IsAttempt(cfg, world, first, n, attempts[n]))
  }

  lemma RunGrows(cfg: Config, world: World, first: int, start: Pass, attempts: seq<Attempt>, a: Attempt)
    requires IsRun(cfg, world, first, start, attempts) && GoesAround(cfg, world, start, attempts)
    requires a.before == Stands(cfg, world, start, attempts) && IsAttempt(cfg, world, first, |attempts|, a)
    ensures IsRun(cfg, world, first, start, attempts + [a])
  {
    assert (attempts + [a])[..|attempts|] == attempts;
  }

  lemma {:induction false} RunPrefix(cfg: Config, world: World, first: int, start: Pass, attempts: seq<Attempt>, n: nat)
    requires IsRun(cfg, world, first, start, attempts) && n <= |attempts|
    ensures IsRun(cfg, world, first, start, attempts[..n]) && (n < |attempts| ==> GoesAround(cfg, world, start, attempts[..n]))
    decreases |attempts|
  {
    if n == |attempts| {
      assert attempts[..n] == attempts;
    } else {
      var front := attempts[..|attempts| - 1];
      RunPrefix(cfg, world, first, start, front, n);
      assert front[..n] == attempts[..n];
      assert n == |front| ==> front[..n] == front;
    }
  }

  /** Why a run ends. */
  datatype Ending =
    | NotTried                                // a negative retry limit
    | Delivered
    | GaveUp                                  // the retry decision says no
    | RanOut                                  // it says yes, but the retry limit is passed
    | Unselected(trail: Trail)                // no channel for the next pass
    | Blocked(trail: Trail, channel: int)     // stopped before the next call

  ghost predicate EndsAs(cfg: Config, world: World, first: int, start: Pass, attempts: seq<Attempt>, ending: Ending, err: Option<ApiError>) {
    var n, s := |attempts|, Stands(cfg, world, start, attempts);
    match ending
    case NotTried => n == 0 && cfg.retryTimes < 0 && err.None?
    case Delivered => n > 0 && !attempts[n - 1].Failed() && err.None?
    case GaveUp => n > 0 && attempts[n - 1].Failed() && !attempts[n - 1].GoesOn(cfg) && err == attempts[n - 1].reply.err
    case RanOut => n > 0 && attempts[n - 1].GoesOn(cfg) && s.retry > cfg.retryTimes && err == attempts[n - 1].reply.err
    case Unselected(t) => n > 0 && GoesAround(cfg, world, start, attempts) && IsUnselected(cfg, world, s, t, err)
    case Blocked(t, channel) => GoesAround(cfg, world, start, attempts) && IsBlocked(cfg, world, first, n, s, t, channel, err)
  }

  // ---- What every run keeps --------------------------------------------------

  /** A selection walks on from where it started: it stays with its retry count, or moves on and the count starts over. */
  ghost predicate Walked(cfg: Config, s: Pass, at: nat, s': Pass) {
    if !cfg.auto then s'.Start() == s.Start() && s'.retry == s.retry && s'.reset == s.reset
    else
      && s.Start() <= at < |cfg.groups| && at <= s'.Start() <= at + 1 && s'.group == cfg.groups[at]
      && (s'.Start() == s.Start() ==> s'.retry == s.retry && s'.reset == s.reset)
      && (s'.Start() > s.Start() ==> s'.retry == 0)
  }

  /** So does a whole trail, and what is excluded stays excluded. */
  lemma {:induction false} TrailWalks(cfg: Config, world: World, t: Trail)
    requires t.Valid(cfg, world) && t.Then?
    ensures Walked(cfg, t.First(), t.last.at, AfterPick(cfg, t.last)) && t.First().excluded <= t.last.before.excluded
    decreases t
  {
    if t.front.Then? {
      TrailWalks(cfg, world, t.front);
    }
  }

  /** The retry count starts over: the walk moved on, or the count did not go up. */
  predicate Restarts(s: Pass, s': Pass) {
    s'.Start() > s.Start() || s'.retry <= s.retry
  }

  /** From one pass to the next: one more retry where the walk stands, or another start further on. */
  predicate Leads(cfg: Config, n: nat, s: Pass, s': Pass) {
    && 0 <= s'.retry && !s'.reset
    && if Restarts(s, s') then cfg.auto && s'.Start() <= |cfg.groups| && (n > 0 ==> s'.Start() > s.Start())
       else s'.Start() == s.Start() && s'.retry == s.retry + 1
  }

  lemma AttemptLeads(cfg: Config, world: World, first: int, n: nat, a: Attempt)
    requires cfg.Valid() && IsAttempt(cfg, world, first, n, a) && a.GoesOn(cfg) && !a.before.reset && 0 <= a.before.retry
    ensures Leads(cfg, n, a.before, a.Following(cfg, world, n))
  {
    if n > 0 {
      TrailWalks(cfg, world, a.trail);
      if cfg.auto {
        NextGroupIsNext(cfg, a.called.index, a.trail.last.at);
      }
    }
  }

  ghost predicate AllDifferent(attempts: seq<Attempt>) {
    forall i, j | 0 <= i < j < |attempts| :: attempts[i].channel != attempts[j].channel
  }

  /** None of these channels can be chosen again. */
  ghost predicate AllSpent(attempts: seq<Attempt>, excluded: set<int>) {
    forall i | 0 <= i < |attempts| :: attempts[i].channel <= 0 || attempts[i].channel in excluded
  }

  /** A call after the first uses a channel that is not spent, and spends it. */
  lemma CallSpends(cfg: Config, world: World, first: int, n: nat, a: Attempt)
    requires cfg.Valid() && Real(world, cfg.channels) && IsAttempt(cfg, world, first, n, a)
    ensures n > 0 ==> a.channel > 0 && a.channel !in a.before.excluded
    ensures a.before.excluded <= a.Following(cfg, world, n).excluded
    ensures a.channel <= 0 || a.channel in a.Following(cfg, world, n).excluded
  {
    if n > 0 {
      TrailWalks(cfg, world, a.trail);
      var k := a.trail.last;
      assert Choice(cfg, world, k.before, k.at) == Ok(Some(k.channel));
    }
  }

  /** No channel is called twice in a run. */
  lemma {:induction false} ChannelsDiffer(cfg: Config, world: World, first: int, start: Pass, attempts: seq<Attempt>)
    requires cfg.Valid() && Real(world, cfg.channels) && IsRun(cfg, world, first, start, attempts)
    ensures AllDifferent(attempts) && AllSpent(attempts, Stands(cfg, world, start, attempts).excluded)
    decreases |attempts|
  {
    if attempts != [] {
      var n := |attempts| - 1;
      ChannelsDiffer(cfg, world, first, start, attempts[..n]);
      CallSpends(cfg, world, first, n, attempts[n]);
      assert forall i | 0 <= i < n :: attempts[..n][i] == attempts[i];
    }
  }

  /** Every attempt but the last failed before a byte was written. */
  lemma OnlyTheLastWrites(cfg: Config, world: World, first: int, start: Pass, attempts: seq<Attempt>, i: nat)
    requires IsRun(cfg, world, first, start, attempts) && i + 1 < |attempts|
    ensures attempts[i].GoesOn(cfg) && attempts[i].Failed() && !attempts[i].reply.wrote
  {
    RunPrefix(cfg, world, first, start, attempts, i + 1);
    assert attempts[..i + 1][i] == attempts[i];
  }

  /** How often the retry count started over. */
  function CountRestarts(attempts: seq<Attempt>): nat {
    var n := |attempts|;
    if n < 2 then 0
    else CountRestarts(attempts[..n - 1]) + if Restarts(attempts[n - 2].before, attempts[n - 1].before) then 1 else 0
  }

  /** The calls made so far: a full stretch for every restart, and the current stretch. */
  ghost predicate WithinBudget(calls: nat, restarts: nat, retryTimes: int, retry: int) {
    calls <= restarts * (retryTimes + 1) + retry + 1
  }

  lemma BudgetAfterRestart(calls: nat, restarts: nat, retryTimes: int, retry: int, retry': int)
    requires WithinBudget(calls, restarts, retryTimes, retry) && retry <= retryTimes && 0 <= retry'
    ensures WithinBudget(calls + 1, restarts + 1, retryTimes, retry')
    ensures calls <= (restarts + 1) * (retryTimes + 1)
  {
    assert (restarts + 1) * (retryTimes + 1) == restarts * (retryTimes + 1) + (retryTimes + 1);
  }

  predicate IsStart(s: Pass) {
    s.retry == 0 && !s.reset
  }

  /** Every restart but the first moves the walk on, and every stretch fits the retry limit. */
  lemma {:induction false} RunIsBudgeted(cfg: Config, world: World, first: int, start: Pass, attempts: seq<Attempt>)
    requires cfg.Valid() && IsStart(start) && IsRun(cfg, world, first, start, attempts) && attempts != []
    ensures var last, restarts := attempts[|attempts| - 1].before, CountRestarts(attempts);
            && 0 <= last.retry <= cfg.retryTimes && !last.reset && WithinBudget(|attempts|, restarts, cfg.retryTimes, last.retry)
            && restarts <= last.Start() + 1 && (restarts > 0 ==> cfg.auto && last.Start() <= |cfg.groups|)
            && (|attempts| == 1 ==> restarts == 0)
    decreases |attempts|
  {
    var n := |attempts| - 1;
    if n > 0 {
      var front, a := attempts[..n], attempts[n - 1];
      assert front[n - 1] == a && front != [];
      RunIsBudgeted(cfg, world, first, start, front);
      AttemptLeads(cfg, world, first, n - 1, a);
      BudgetAfterRestart(n, CountRestarts(front), cfg.retryTimes, a.before.retry, attempts[n].before.retry);
    }
  }

  /** The attempts of a run are at most retryTimes + 1 for each restart and one more, and the restarts few. */
  lemma AttemptsAreBounded(cfg: Config, world: World, first: int, start: Pass, attempts: seq<Attempt>)
    requires cfg.Valid() && cfg.retryTimes >= 0 && IsStart(start) && IsRun(cfg, world, first, start, attempts)
    ensures |attempts| <= (CountRestarts(attempts) + 1) * (cfg.retryTimes + 1)
    ensures CountRestarts(attempts) <= if cfg.auto then |cfg.groups| + 1 else 0
  {
    if attempts != [] {
      RunIsBudgeted(cfg, world, first, start, attempts);
      BudgetAfterRestart(|attempts|, CountRestarts(attempts), cfg.retryTimes, attempts[|attempts| - 1].before.retry, 0);
    }
  }

  /** The retry limit stops a run that would go on only at a channel error, with no retry left. */
  lemma RanOutIsForced(cfg: Config, world: World, first: int, start: Pass, attempts: seq<Attempt>, err: Option<ApiError>)
    requires cfg.Valid() && cfg.retryTimes >= 0 && IsRun(cfg, world, first, start, attempts)
    requires EndsAs(cfg, world, first, start, attempts, RanOut, err)
    ensures err.Some? && err.value.channelError && attempts[|attempts| - 1].called.retry >= cfg.retryTimes
  {
  }

  /**
    A run goes on past a failure that may be retried: if its last call failed
    without a byte written, with an error that another channel may cure, no pin, no
    channel asked for by id and a retry left, then what ended it is that there was
    no channel, or that the next call was stopped.
   */
  lemma NeverGivesUpEarly(cfg: Config, world: World, first: int, start: Pass, attempts: seq<Attempt>, ending: Ending, err: Option<ApiError>)
    requires attempts != [] && EndsAs(cfg, world, first, start, attempts, ending, err)
    requires var a := attempts[|attempts| - 1];
             && a.Failed() && !a.reply.wrote && !a.called.pinned && !cfg.specificChannel && a.called.retry < cfg.retryTimes
             && !a.reply.err.value.skipRetry && !a.reply.err.value.skipCode && a.reply.err.value.status !in {504, 524}
             && !(200 <= a.reply.err.value.status < 300) && cfg.policy.retryStatus(a.reply.err.value.status)
    ensures ending.Unselected? || ending.Blocked?
  {
  }

  /** A run is under way: the attempts so far are those of a run, and the request stands where they left it. */
  ghost predicate Underway(c: Context, p: RetryParam, first: int, start: Pass, attempts: seq<Attempt>)
    reads c, p
  {
    && !c.written && c.calls == |attempts| && 0 <= p.retry && !p.resetNextTry
    && IsRun(c.cfg, c.world, first, start, attempts) && At(c, p) == Stands(c.cfg, c.world, start, attempts)
    && (attempts != [] ==> attempts[|attempts| - 1].GoesOn(c.cfg))
  }

  /** The groups that are left to walk through. */
  function GroupsLeft(cfg: Config, s: Pass): nat {
    if s.Start() <= |cfg.groups| then |cfg.groups| - s.Start() else 0
  }

  /** One more attempt of a run, unless the pass ends it. */
  method Extend(c: Context, p: RetryParam, first: int, attempts: seq<Attempt>, ghost start: Pass)
    returns (longer: seq<Attempt>, ending: Option<Ending>, err: Option<ApiError>)
    requires c.cfg.Valid() && Real(c.world, c.cfg.channels) && p.retry <= c.cfg.retryTimes && Underway(c, p, first, start, attempts)
    modifies c, p
    ensures ending.Some? ==>
              IsRun(c.cfg, c.world, first, start, longer) && EndsAs(c.cfg, c.world, first, start, longer, ending.value, err)
    ensures ending.None? ==>
              && Underway(c, p, first, start, longer) && longer != [] && err == longer[|longer| - 1].reply.err
              && Leads(c.cfg, |attempts|, old(At(c, p)), At(c, p)) && |longer| == |attempts| + 1
  {
    var verdict, again;
    verdict, err, again := TryOnce(c, p, first);
    match verdict {
      case NoneSelected(t) =>
        return attempts, Some(Unselected(t)), err;
      case Stopped(t, channel) =>
        return attempts, Some(Blocked(t, channel)), err;
      case Called(a) =>
        RunGrows(c.cfg, c.world, first, start, attempts, a);
        longer := attempts + [a];
        if !again {
          return longer, Some(if err.None? then Delivered else GaveUp), err;
        }
        AttemptLeads(c.cfg, c.world, first, |attempts|, a);
        p.IncreaseRetry();
        ending := None;
    }
  }

  /** The loop itself, from the state the distributor left. */
  method TryChannels(cfg: Config, world: World, index: Option<nat>, group: string, pinned: bool, first: int)
    returns (attempts: seq<Attempt>, ending: Ending, err: Option<ApiError>)
    requires cfg.Valid() && Real(world, cfg.channels)
    ensures IsRun(cfg, world, first, Pass(index, group, 0, false, {}, pinned, 0), attempts)
    ensures EndsAs(cfg, world, first, Pass(index, group, 0, false, {}, pinned, 0), attempts, ending, err)
  {
    attempts, err := [], None;
    var c := new Context(cfg, world, index, group, pinned);
    var p := new RetryParam();
    ghost var start := At(c, p);
    while p.retry <= cfg.retryTimes
      invariant c.cfg == cfg && c.world == world && Underway(c, p, first, start, attempts)
      invariant err == if attempts == [] then None else attempts[|attempts| - 1].reply.err
      decreases attempts == [], GroupsLeft(cfg, At(c, p)), cfg.retryTimes + 1 - p.retry
    {
      var ended;
      attempts, ended, err := Extend(c, p, first, attempts, start);
      if ended.Some? {
        return attempts, ended.value, err;
      }
    }
    ending := if attempts == [] then NotTried else RanOut;
  }

  /**
    Relay, from the point where quota has been pre-consumed.  `first` is the
    channel the distributor chose, `index` and `group` what it recorded about the
    auto groups; `billing` says whether there is a billing session.

    Every run ends, and for the reason given.  No channel is called twice.  A call
    that wrote a byte is the last one.  The calls number at most retryTimes + 1 for
    each restart of the retry count and one more, and the restarts at most the
    number of groups plus one.  A run that fails refunds exactly once, a run that
    succeeds never.
   */
  method Relay(cfg: Config, world: World, index: Option<nat>, group: string, pinned: bool, first: int, billing: bool)
    returns (attempts: seq<Attempt>, ending: Ending, err: Option<ApiError>, refunds: nat)
    requires cfg.Valid() && Real(world, cfg.channels)
    ensures IsRun(cfg, world, first, Pass(index, group, 0, false, {}, pinned, 0), attempts)
    ensures EndsAs(cfg, world, first, Pass(index, group, 0, false, {}, pinned, 0), attempts, ending, err)
    ensures AllDifferent(attempts)
    ensures forall i | 0 <= i < |attempts| - 1 :: attempts[i].Failed() && !attempts[i].reply.wrote
    ensures cfg.retryTimes >= 0 ==> |attempts| <= (CountRestarts(attempts) + 1) * (cfg.retryTimes + 1)
    ensures cfg.retryTimes >= 0 ==> CountRestarts(attempts) <= if cfg.auto then |cfg.groups| + 1 else 0
    ensures refunds == if err.Some? && billing then 1 else 0
  {
    refunds := 0;
    attempts, ending, err := TryChannels(cfg, world, index, group, pinned, first);
    ghost var start := Pass(index, group, 0, false, {}, pinned, 0);
    ChannelsDiffer(cfg, world, first, start, attempts);
    forall i | 0 <= i < |attempts| - 1 ensures attempts[i].Failed() && !attempts[i].reply.wrote {
      OnlyTheLastWrites(cfg, world, first, start, attempts, i);
    }
    if cfg.retryTimes >= 0 {
      AttemptsAreBounded(cfg, world, first, start, attempts);
    }
    // the deferred function
    if err.Some? {
      if billing {
        refunds := refunds + 1;
      }
    }
  }
}
