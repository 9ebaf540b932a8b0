/**
  Choosing a channel from one group: drop the excluded ones, keep the tier of
  the right priority, and draw one by weight.
*/
module ChannelPick {
  import opened Wrappers

  datatype Info = Info(priority: int, weight: nat)

  /**
    What the channel cache holds for one group and model at one moment: the
    channels registered under the exact and under the normalized model name,
    those that cannot serve the request path, and the channel table itself.
   */
  datatype Snapshot = Snapshot(exact: seq<int>, normalized: seq<int>, unsupported: set<int>, table: map<int, Info>)

  function Filter(ids: seq<int>, drop: set<int>): (r: seq<int>)
    ensures forall id :: id in r <==> id in ids && id !in drop
  {
    if ids == [] then []
    else
      var r := Filter(ids[..|ids| - 1], drop);
      if ids[|ids| - 1] in drop then r else r + [ids[|ids| - 1]]
  }

  /** Neither excluded nor unable to serve the path. */
  predicate Left(s: Snapshot, excluded: set<int>, id: int) {
    id !in excluded && id !in s.unsupported
  }

  /** Left and registered under the exact name, or under the normalized one if none is left under the exact. */
  predicate Running(s: Snapshot, excluded: set<int>, id: int) {
    Left(s, excluded, id) && (id in s.exact || (id in s.normalized && forall e | e in s.exact :: !Left(s, excluded, e)))
  }

  /** The channels in the running; the normalized name is tried only when the exact one yields nothing. */
  function Eligible(s: Snapshot, excluded: set<int>): (r: seq<int>)
    ensures forall id :: id in r <==> Running(s, excluded, id)
  {
    var first := Filter(s.exact, excluded + s.unsupported);
    if first != [] then
      assert first[0] in first && first[0] in s.exact && Left(s, excluded, first[0]);
      first
    else
      Filter(s.normalized, excluded + s.unsupported)
  }

  /** No channel is in the running. */
  ghost predicate Nobody(s: Snapshot, excluded: set<int>) {
    forall id :: !Running(s, excluded, id)
  }

  /** A channel is in the running that the channel table does not have. */
  ghost predicate Inconsistent(s: Snapshot, excluded: set<int>) {
    exists id :: Running(s, excluded, id) && id !in s.table
  }

  function Priorities(ids: seq<int>, table: map<int, Info>): set<int> {
    set id | id in ids && id in table :: table[id].priority
  }

  /** How many priorities lie above `p`. */
  function Above(priorities: set<int>, p: int): set<int> {
    set q | q in priorities && q > p
  }

  /** Sorting the distinct priorities in descending order and indexing. */
  method NthHighest(priorities: set<int>, n: nat) returns (p: int)
    requires n < |priorities|
    ensures p in priorities && |Above(priorities, p)| == n
  {
    var left := priorities;
    var dropped := {};
    p := Highest(left);
    for i := 0 to n
      invariant left == priorities - dropped && dropped <= priorities && |dropped| == i
      invariant p in left && (forall q | q in left :: q <= p) && forall q | q in dropped :: q > p
    {
      left := left - {p};
      dropped := dropped + {p};
      assert left == priorities - dropped;
      p := Highest(left);
    }
    forall q ensures q in Above(priorities, p) <==> q in dropped {
      assert q in priorities ==> q in left || q in dropped;
    }
    assert Above(priorities, p) == dropped;
  }

  method Highest(priorities: set<int>) returns (p: int)
    requires priorities != {}
    ensures p in priorities && forall q | q in priorities :: q <= p
  {
    p := AnyOf(priorities);
    var rest := priorities - {p};
    while rest != {}
      invariant p in priorities && rest <= priorities && forall q | q in priorities && q !in rest :: q <= p
      decreases rest
    {
      var q := AnyOf(rest);
      rest := rest - {q};
      if q > p {
        p := q;
      }
    }
  }

  predicate Known(ids: seq<int>, table: map<int, Info>) {
    forall i | 0 <= i < |ids| :: ids[i] in table
  }

  function TotalWeight(ids: seq<int>, table: map<int, Info>): nat
    requires Known(ids, table)
  {
    if ids == [] then 0
    else
      TotalWeight(ids[..|ids| - 1], table) + table[ids[|ids| - 1]].weight
  }

  function Effective(ids: seq<int>, table: map<int, Info>, factor: nat, adjustment: nat): nat
    requires Known(ids, table)
  {
    if ids == [] then 0
    else
      Effective(ids[..|ids| - 1], table, factor, adjustment) + table[ids[|ids| - 1]].weight * factor + adjustment
  }

  lemma {:induction false} EffectiveTotal(ids: seq<int>, table: map<int, Info>, factor: nat, adjustment: nat)
    requires Known(ids, table)
    ensures Effective(ids, table, factor, adjustment) == TotalWeight(ids, table) * factor + |ids| * adjustment
  {
    if ids != [] {
      EffectiveTotal(ids[..|ids| - 1], table, factor, adjustment);
    }
  }

  /** Small weights are enlarged. */
  function Factor(total: nat, n: nat): nat
    requires n > 0
  {
    if 0 < total && total / n < 10 then 100 else 1
  }

  /** Without any weight all are equally likely. */
  function Adjustment(total: nat): nat {
    if total == 0 then 100 else 0
  }

  /** The sum of the effective weights of the first `n` targets. */
  function Share(targets: seq<int>, table: map<int, Info>, n: nat): nat
    requires targets != [] && Known(targets, table) && n <= |targets|
  {
    var total := TotalWeight(targets, table);
    Effective(targets[..n], table, Factor(total, |targets|), Adjustment(total))
  }

  lemma ShareStep(targets: seq<int>, table: map<int, Info>, n: nat)
    requires Known(targets, table) && n < |targets|
    ensures var total := TotalWeight(targets, table);
            Share(targets, table, n + 1)
            == Share(targets, table, n) + (table[targets[n]].weight * Factor(total, |targets|) + Adjustment(total))
    ensures Share(targets, table, 0) == 0
  {
    assert targets[..n + 1][..n] == targets[..n];
  }

  /** Of the numbers below the sum of all effective weights, each target gets as many as its own. */
  ghost predicate Lands(targets: seq<int>, table: map<int, Info>, roll: nat, i: nat) {
    && i < |targets| && Known(targets, table) && Share(targets, table, |targets|) > 0
    && Share(targets, table, i) <= roll % Share(targets, table, |targets|) < Share(targets, table, i + 1)
  }

  /** The smoothing of the weights; together they are the range of the random number. */
  method Smooth(targets: seq<int>, table: map<int, Info>) returns (totalWeight: nat, factor: nat, adjustment: nat)
    requires targets != [] && Known(targets, table)
    ensures var total := TotalWeight(targets, table);
            factor == Factor(total, |targets|) && adjustment == Adjustment(total)
    ensures totalWeight == Share(targets, table, |targets|) > 0
  {
    var sumWeight := TotalWeight(targets, table);
    factor, adjustment := 1, 0;
    if sumWeight == 0 {
      sumWeight := |targets| * 100;
      adjustment := 100;
    } else if sumWeight / |targets| < 10 {
      factor := 100;
    }
    totalWeight := sumWeight * factor;
    EffectiveTotal(targets, table, factor, adjustment);
    assert targets[..|targets|] == targets;
  }

  /**
    The weighted draw always lands on a channel: the effective weights add up to
    the range of the random number, so the "not found" error behind the loop is
    never reached.  A channel without weight is drawn only if none has any.
   */
  method Draw(targets: seq<int>, table: map<int, Info>, roll: nat) returns (i: nat)
    requires targets != [] && Known(targets, table)
    ensures Lands(targets, table, roll, i)
    ensures table[targets[i]].weight > 0 || forall j | 0 <= j < |targets| :: table[targets[j]].weight == 0
  {
    var totalWeight, factor, adjustment := Smooth(targets, table);
    if adjustment > 0 {
      WeightlessTotal(targets, table);
    }
    ghost var drawn := roll % totalWeight;
    var random: int := roll % totalWeight;
    i := 0;
    ShareStep(targets, table, 0);
    random := random - (table[targets[0]].weight * factor + adjustment);
    while random >= 0
      invariant 0 <= i < |targets|
      invariant random == drawn - Share(targets, table, i + 1)
      invariant Share(targets, table, i) <= drawn
      invariant random < 0 ==> table[targets[i]].weight * factor + adjustment > 0
      decreases |targets| - i
    {
      i := i + 1;
      ShareStep(targets, table, i);
      random := random - (table[targets[i]].weight * factor + adjustment);
    }
  }

  lemma {:induction false} WeightlessTotal(ids: seq<int>, table: map<int, Info>)
    requires Known(ids, table) && TotalWeight(ids, table) == 0
    ensures forall j | 0 <= j < |ids| :: table[ids[j]].weight == 0
  {
    if ids != [] {
      WeightlessTotal(ids[..|ids| - 1], table);
    }
  }

  /** The targets of the draw: the eligible channels of one priority. */
  function Tier(ids: seq<int>, table: map<int, Info>, priority: int): (r: seq<int>)
    requires Known(ids, table)
    ensures forall id :: id in r <==> id in ids && id in table && table[id].priority == priority
  {
    if ids == [] then []
    else
      var r := Tier(ids[..|ids| - 1], table, priority);
      var last := ids[|ids| - 1];
      if table[last].priority == priority then r + [last] else r
  }

  /** Which tier a request is served from: while anything is excluded, always the best one that is left. */
  function TierIndex(tiers: nat, retry: nat, excluding: bool): nat {
    if excluding || tiers == 0 then 0 else if retry >= tiers then tiers - 1 else retry
  }

  /** Exactly as many priorities lie above as the retry count and the exclusions call for. */
  predicate RightTier(s: Snapshot, retry: nat, excluded: set<int>, id: int) {
    var tiers := Priorities(Eligible(s, excluded), s.table);
    id in s.table && |Above(tiers, s.table[id].priority)| == TierIndex(|tiers|, retry, excluded != {})
  }

  /** While anything is excluded, nothing in the running has a higher priority. */
  ghost predicate BestIfExcluding(s: Snapshot, excluded: set<int>, id: int) {
    id in s.table
    && (excluded != {} ==> forall j | Running(s, excluded, j) && j in s.table :: s.table[j].priority <= s.table[id].priority)
  }

  /** Without weight only if nothing of its priority has any. */
  ghost predicate Weighted(s: Snapshot, excluded: set<int>, id: int) {
    id in s.table
    && (s.table[id].weight == 0 ==>
          forall j | Running(s, excluded, j) && j in s.table && s.table[j].priority == s.table[id].priority :: s.table[j].weight == 0)
  }

  /** A right choice: in the running, of the right tier, and with weight if that tier has any. */
  ghost predicate Fits(s: Snapshot, retry: nat, excluded: set<int>, roll: nat, id: int) {
    && Running(s, excluded, id) && RightTier(s, retry, excluded, id) && BestIfExcluding(s, excluded, id)
    && Weighted(s, excluded, id) && Drawn(s, excluded, roll, id)
  }

  /** The draw among the channels of its priority lands on it. */
  ghost predicate Drawn(s: Snapshot, excluded: set<int>, roll: nat, id: int) {
    && id in s.table && Known(Eligible(s, excluded), s.table)
    && var targets := Tier(Eligible(s, excluded), s.table, s.table[id].priority);
       exists i | 0 <= i < |targets| :: targets[i] == id && Lands(targets, s.table, roll, i)
  }

  lemma TopTierIsBest(s: Snapshot, retry: nat, excluded: set<int>, id: int)
    requires RightTier(s, retry, excluded, id)
    ensures BestIfExcluding(s, excluded, id)
  {
    if excluded != {} {
      var channels := Eligible(s, excluded);
      var above := Above(Priorities(channels, s.table), s.table[id].priority);
      assert above == {};
      forall j | Running(s, excluded, j) && j in s.table ensures s.table[j].priority <= s.table[id].priority {
        assert j in channels;
        PriorityOf(channels, s.table, j);
        assert s.table[j].priority !in above;
      }
    }
  }

  /** The drawn channel is weighted among all in the running, not only among the targets. */
  lemma DrawnIsWeighted(s: Snapshot, excluded: set<int>, targets: seq<int>, id: int)
    requires id in targets && Known(targets, s.table)
    requires forall j | j in Eligible(s, excluded) && j in s.table && s.table[j].priority == s.table[id].priority :: j in targets
    requires s.table[id].weight > 0 || forall j | 0 <= j < |targets| :: s.table[targets[j]].weight == 0
    ensures Weighted(s, excluded, id)
  {
    forall j | Running(s, excluded, j) && j in s.table && s.table[j].priority == s.table[id].priority && s.table[id].weight == 0
      ensures s.table[j].weight == 0
    {
      assert j in Eligible(s, excluded);
      assert j in targets;
    }
  }

  /** Nothing exactly if no channel is in the running, an error exactly if the cache is inconsistent, else a right choice. */
  ghost predicate Answers(s: Snapshot, retry: nat, excluded: set<int>, roll: nat, r: Result<Option<int>, ()>) {
    && (r == Ok(None) <==> Nobody(s, excluded)) && (r.Err? <==> Inconsistent(s, excluded))
    && (r.Ok? && r.value.Some? ==> Fits(s, retry, excluded, roll, r.value.value))
  }

  /**
    GetRandomSatisfiedChannelExcludingForPath: nothing if no channel is eligible,
    an error if the cache is inconsistent, otherwise a channel that fits.
   */
  method GetRandomSatisfiedChannel(s: Snapshot, retry: nat, excluded: set<int>, roll: nat) returns (r: Result<Option<int>, ()>)
    ensures Answers(s, retry, excluded, roll, r)
  {
    var channels := Eligible(s, excluded);
    if |channels| == 0 {
      return Ok(None);
    }
    assert channels[0] in channels;
    assert Running(s, excluded, channels[0]);
    if exists id | id in channels :: id !in s.table {
      return Err(());
    }
    if |channels| == 1 {
      SingleTier(channels, s.table);
      TopTierIsBest(s, retry, excluded, channels[0]);
      DrawnIsWeighted(s, excluded, channels, channels[0]);
      SingleLands(channels, s.table, roll);
      return Ok(Some(channels[0]));
    }
    var id := DrawFromTier(s, retry, excluded, roll);
    r := Ok(Some(id));
  }

  /** A weighted draw from the tier to serve from. */
  method DrawFromTier(s: Snapshot, retry: nat, excluded: set<int>, roll: nat) returns (id: int)
    requires Eligible(s, excluded) != [] && Known(Eligible(s, excluded), s.table)
    ensures Fits(s, retry, excluded, roll, id)
  {
    var channels := Eligible(s, excluded);
    var target := TargetPriority(channels, s.table, retry, excluded != {});
    var targets := Tier(channels, s.table, target);
    TierIsKnown(channels, s.table, target);
    var i := Draw(targets, s.table, roll);
    id := targets[i];
    assert id in targets;
    TopTierIsBest(s, retry, excluded, id);
    DrawnIsWeighted(s, excluded, targets, id);
  }

  lemma TierIsKnown(ids: seq<int>, table: map<int, Info>, p: int)
    requires Known(ids, table) && p in Priorities(ids, table)
    ensures Tier(ids, table, p) != [] && Known(Tier(ids, table, p), table)
  {
    var targets := Tier(ids, table, p);
    var id :| id in ids && id in table && table[id].priority == p;
    assert id in targets;
    assert forall i | 0 <= i < |targets| :: targets[i] in targets;
  }

  /** The priority to serve from. */
  method TargetPriority(channels: seq<int>, table: map<int, Info>, retry: nat, excluding: bool) returns (p: int)
    requires channels != [] && Known(channels, table)
    ensures var tiers := Priorities(channels, table);
            p in tiers && |Above(tiers, p)| == TierIndex(|tiers|, retry, excluding)
  {
    var priorities := Priorities(channels, table);
    PriorityOf(channels, table, channels[0]);
    var tier := if retry >= |priorities| then |priorities| - 1 else retry;
    if excluding {
      tier := 0;
    }
    p := NthHighest(priorities, tier);
  }

  lemma SingleLands(ids: seq<int>, table: map<int, Info>, roll: nat)
    requires |ids| == 1 && ids[0] in table
    ensures Tier(ids, table, table[ids[0]].priority) == ids && Lands(ids, table, roll, 0)
  {
    assert ids[..0] == [] && ids[..1] == ids;
    assert TotalWeight(ids, table) == TotalWeight([], table) + table[ids[0]].weight;
  }

  lemma SingleTier(ids: seq<int>, table: map<int, Info>)
    requires |ids| == 1 && ids[0] in table
    ensures Priorities(ids, table) == {table[ids[0]].priority}
    ensures Above(Priorities(ids, table), table[ids[0]].priority) == {}
  {
    assert forall id | id in ids :: id == ids[0];
    PriorityOf(ids, table, ids[0]);
  }

  lemma PriorityOf(ids: seq<int>, table: map<int, Info>, id: int)
    requires id in ids && id in table
    ensures table[id].priority in Priorities(ids, table)
  {
  }
}
