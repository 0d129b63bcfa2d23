/**
 * The pure part of `setCurrentPortfolio`: building one portfolio entry per
 * delegated pool, with the pool's last and total rewards taken only from
 * reward epochs that are no longer volatile.
 */
module Rewards {
  import opened Pools

  /** One entry of the delegation rewards history. */
  datatype RewardEntry = RewardEntry(epoch: int, poolId: PoolId, rewards: int)

  /** One item of the delegation distribution. */
  datatype DelegatedPool = DelegatedPool(pool: StakePool, percentage: int, stake: int)

  /** Rewards of the last `LastStableEpoch` epochs are not yet final. */
  const LastStableEpoch: int := 2

  /** `confirmedRewardHistory`: the entries of epoch at most `lastNonVolatileEpoch`, in order. */
  function ConfirmedRewards(history: seq<RewardEntry>, lastNonVolatileEpoch: int): (r: seq<RewardEntry>)
    ensures |r| <= |history|
  {
    if history == [] then []
    else
      var prefix, last := history[..|history| - 1], history[|history| - 1];
      assert history == prefix + [last];
      ConfirmedRewards(prefix, lastNonVolatileEpoch) + (if last.epoch <= lastNonVolatileEpoch then [last] else [])
  }

  /** `ConfirmedRewards` keeps exactly the entries whose epoch is at most `lastNonVolatileEpoch`. */
  lemma {:induction false} ConfirmedRewardsMembers(history: seq<RewardEntry>, lastNonVolatileEpoch: int)
    ensures forall x :: x in ConfirmedRewards(history, lastNonVolatileEpoch) <==>
                          x in history && x.epoch <= lastNonVolatileEpoch
  {
    if history != [] {
      var prefix, last := history[..|history| - 1], history[|history| - 1];
      assert history == prefix + [last];
      ConfirmedRewardsMembers(prefix, lastNonVolatileEpoch);
    }
  }

  /** `confirmedPoolRewards`: the reward amounts of the entries of pool `poolId`, in order. */
  function PoolRewards(confirmed: seq<RewardEntry>, poolId: PoolId): (r: seq<int>)
    ensures |r| <= |confirmed|
  {
    if confirmed == [] then []
    else
      var prefix, last := confirmed[..|confirmed| - 1], confirmed[|confirmed| - 1];
      PoolRewards(prefix, poolId) + (if last.poolId == poolId then [last.rewards] else [])
  }

  /** `ConfirmedRewards` keeps a one-entry history exactly when the entry is confirmed. */
  lemma ConfirmedRewardsSingleton(x: RewardEntry, e: int)
    ensures ConfirmedRewards([x], e) == if x.epoch <= e then [x] else []
  {
    assert [x][..0] == [];
  }

  /**
   * `ConfirmedRewards` distributes over concatenation: with the one-entry case
   * this says it keeps every confirmed entry, as often as it occurs and in its order.
   */
  lemma {:induction false} ConfirmedRewardsAppend(a: seq<RewardEntry>, b: seq<RewardEntry>, e: int)
    ensures ConfirmedRewards(a + b, e) == ConfirmedRewards(a, e) + ConfirmedRewards(b, e)
  {
    if b == [] {
      assert a + b == a;
      assert ConfirmedRewards(a, e) + [] == ConfirmedRewards(a, e);
    } else {
      var b', y := b[..|b| - 1], b[|b| - 1];
      var tail := if y.epoch <= e then [y] else [];
      assert (a + b)[..|a + b| - 1] == a + b';
      assert (a + b)[|a + b| - 1] == y;
      assert ConfirmedRewards(a + b, e) == ConfirmedRewards(a + b', e) + tail;
      assert ConfirmedRewards(b, e) == ConfirmedRewards(b', e) + tail;
      ConfirmedRewardsAppend(a, b', e);
      assert ConfirmedRewards(a + b, e) == ConfirmedRewards(a, e) + ConfirmedRewards(b', e) + tail;
    }
  }

  /** `PoolRewards` turns a one-entry list into its amount exactly when the entry is of the pool. */
  lemma PoolRewardsSingleton(x: RewardEntry, poolId: PoolId)
    ensures PoolRewards([x], poolId) == if x.poolId == poolId then [x.rewards] else []
  {
    assert [x][..0] == [];
  }

  /**
   * `PoolRewards` distributes over concatenation: with the one-entry case this
   * says it keeps the amount of every entry of the pool, as often as it occurs
   * and in its order.
   */
  lemma {:induction false} PoolRewardsAppend(a: seq<RewardEntry>, b: seq<RewardEntry>, poolId: PoolId)
    ensures PoolRewards(a + b, poolId) == PoolRewards(a, poolId) + PoolRewards(b, poolId)
  {
    if b == [] {
      assert a + b == a;
      assert PoolRewards(a, poolId) + [] == PoolRewards(a, poolId);
    } else {
      var b', y := b[..|b| - 1], b[|b| - 1];
      var tail := if y.poolId == poolId then [y.rewards] else [];
      assert (a + b)[..|a + b| - 1] == a + b';
      assert (a + b)[|a + b| - 1] == y;
      assert PoolRewards(a + b, poolId) == PoolRewards(a + b', poolId) + tail;
      assert PoolRewards(b, poolId) == PoolRewards(b', poolId) + tail;
      PoolRewardsAppend(a, b', poolId);
      assert PoolRewards(a + b, poolId) == PoolRewards(a, poolId) + PoolRewards(b', poolId) + tail;
    }
  }

  /** The integer sum of a sequence (`BigIntMath.sum`). */
  function Sum(xs: seq<int>): int {
    if xs == [] then 0 else Sum(xs[..|xs| - 1]) + xs[|xs| - 1]
  }

  /** The last element, or 0 when there is none. */
  function LastReward(xs: seq<int>): int {
    if |xs| == 0 then 0 else xs[|xs| - 1]
  }

  /** Whether entry `x` is a confirmed reward of pool `poolId`. */
  predicate Counted(x: RewardEntry, lastNonVolatileEpoch: int, poolId: PoolId) {
    x.epoch <= lastNonVolatileEpoch && x.poolId == poolId
  }

  /**
   * Reference definition: the sum of the rewards of the counted entries,
   * accumulated from the front of the history.
   */
  function ConfirmedTotal(history: seq<RewardEntry>, lastNonVolatileEpoch: int, poolId: PoolId): int {
    if history == [] then 0
    else
      (if Counted(history[0], lastNonVolatileEpoch, poolId) then history[0].rewards else 0)
      + ConfirmedTotal(history[1..], lastNonVolatileEpoch, poolId)
  }

  /** The reference total of a concatenation is the sum of the totals. */
  lemma {:induction false} ConfirmedTotalAppend(a: seq<RewardEntry>, b: seq<RewardEntry>, e: int, poolId: PoolId)
    ensures ConfirmedTotal(a + b, e, poolId) == ConfirmedTotal(a, e, poolId) + ConfirmedTotal(b, e, poolId)
  {
    if a == [] {
      assert a + b == b;
    } else {
      assert (a + b)[0] == a[0];
      assert (a + b)[1..] == a[1..] + b;
      ConfirmedTotalAppend(a[1..], b, e, poolId);
    }
  }

  /** Both filters applied to a history with one more entry. */
  lemma PoolRewardsSnoc(h: seq<RewardEntry>, x: RewardEntry, e: int, poolId: PoolId)
    ensures ConfirmedPoolRewards(h + [x], e, poolId)
         == ConfirmedPoolRewards(h, e, poolId) + (if Counted(x, e, poolId) then [x.rewards] else [])
  {
    var hx := h + [x];
    assert hx[..|hx| - 1] == h;
    var c := ConfirmedRewards(h, e);
    if x.epoch <= e {
      assert (c + [x])[..|c + [x]| - 1] == c;
    } else {
      assert c + [] == c;
    }
  }

  /** Appending one amount adds it to the sum. */
  lemma SumSnoc(xs: seq<int>, v: int)
    ensures Sum(xs + [v]) == Sum(xs) + v
  {
  }

  /** The confirmed rewards of pool `poolId`, as the store computes them. */
  function ConfirmedPoolRewards(h: seq<RewardEntry>, e: int, poolId: PoolId): seq<int> {
    PoolRewards(ConfirmedRewards(h, e), poolId)
  }

  /** The reference total of a history with one more entry. */
  lemma ConfirmedTotalSnoc(h: seq<RewardEntry>, x: RewardEntry, e: int, poolId: PoolId)
    ensures ConfirmedTotal(h + [x], e, poolId)
         == ConfirmedTotal(h, e, poolId) + (if Counted(x, e, poolId) then x.rewards else 0)
  {
    ConfirmedTotalAppend(h, [x], e, poolId);
    assert [x][1..] == [];
  }

  /** The sum of the store's rewards of a history with one more entry. */
  lemma TotalRewardsSnoc(h: seq<RewardEntry>, x: RewardEntry, e: int, poolId: PoolId)
    ensures Sum(ConfirmedPoolRewards(h + [x], e, poolId))
         == Sum(ConfirmedPoolRewards(h, e, poolId)) + (if Counted(x, e, poolId) then x.rewards else 0)
  {
    PoolRewardsSnoc(h, x, e, poolId);
    var p := ConfirmedPoolRewards(h, e, poolId);
    if Counted(x, e, poolId) {
      SumSnoc(p, x.rewards);
    } else {
      assert p + [] == p;
    }
  }

  /** One more entry keeps the store's total equal to the reference total. */
  lemma TotalRewardsStep(h: seq<RewardEntry>, x: RewardEntry, e: int, poolId: PoolId)
    requires Sum(ConfirmedPoolRewards(h, e, poolId)) == ConfirmedTotal(h, e, poolId)
    ensures Sum(ConfirmedPoolRewards(h + [x], e, poolId)) == ConfirmedTotal(h + [x], e, poolId)
  {
    TotalRewardsSnoc(h, x, e, poolId);
    ConfirmedTotalSnoc(h, x, e, poolId);
  }

  /** The total the store shows equals the reference total of the counted entries. */
  lemma {:induction false} TotalRewardsIsConfirmedTotal(h: seq<RewardEntry>, e: int, poolId: PoolId)
    ensures Sum(ConfirmedPoolRewards(h, e, poolId)) == ConfirmedTotal(h, e, poolId)
  {
    if h != [] {
      var prefix, last := h[..|h| - 1], h[|h| - 1];
      TotalRewardsIsConfirmedTotal(prefix, e, poolId);
      TotalRewardsStep(prefix, last, e, poolId);
      assert h == prefix + [last];
    }
  }

  /**
   * The last reward the store shows is the reward of the latest counted
   * entry of the history, or 0 when no entry is counted.
   */
  lemma {:induction false} LastRewardIsLatestConfirmed(h: seq<RewardEntry>, e: int, poolId: PoolId)
    ensures (forall k :: 0 <= k < |h| ==> !Counted(h[k], e, poolId)) ==>
              LastReward(ConfirmedPoolRewards(h, e, poolId)) == 0
    ensures forall k :: 0 <= k < |h| && Counted(h[k], e, poolId) &&
                        (forall j :: k < j < |h| ==> !Counted(h[j], e, poolId)) ==>
                          LastReward(ConfirmedPoolRewards(h, e, poolId)) == h[k].rewards
  {
    if h != [] {
      var prefix, last := h[..|h| - 1], h[|h| - 1];
      assert h == prefix + [last];
      PoolRewardsSnoc(prefix, last, e, poolId);
      var p := ConfirmedPoolRewards(prefix, e, poolId);
      if !Counted(last, e, poolId) {
        assert p + [] == p;
        LastRewardIsLatestConfirmed(prefix, e, poolId);
        assert forall k :: 0 <= k < |prefix| ==> prefix[k] == h[k];
      }
    }
  }

  /** One portfolio entry, built from a distribution item and the confirmed history. */
  function PortfolioEntry(item: DelegatedPool, confirmed: seq<RewardEntry>): (r: Pool)
    ensures r.id == item.pool.hexId && r.weight == item.percentage && r.value == item.stake
    ensures r.stakePool == item.pool && r.displayData.details == item.pool.details
    ensures r.displayData.totalRewards == Sum(PoolRewards(confirmed, item.pool.id))
    ensures r.displayData.lastReward == LastReward(PoolRewards(confirmed, item.pool.id))
  {
    var rewards := PoolRewards(confirmed, item.pool.id);
    Pool(item.pool.hexId, item.percentage, item.stake, item.pool,
         DisplayData(item.pool.details, LastReward(rewards), Sum(rewards)))
  }

  /** The new `currentPortfolio`: one entry per distribution item, in order. */
  function CurrentPortfolioOf(distribution: seq<DelegatedPool>, history: seq<RewardEntry>, currentEpochNo: int): (r: seq<Pool>)
    ensures |r| == |distribution|
    ensures forall i :: 0 <= i < |r| ==>
      r[i].id == distribution[i].pool.hexId && r[i].weight == distribution[i].percentage &&
      r[i].value == distribution[i].stake && r[i].stakePool == distribution[i].pool
  {
    var confirmed := ConfirmedRewards(history, currentEpochNo - LastStableEpoch);
    seq(|distribution|, i requires 0 <= i < |distribution| => PortfolioEntry(distribution[i], confirmed))
  }

  /**
   * The rewards of every entry of the new portfolio: the total is the sum over
   * the pool's entries at least two epochs old, the last reward is that of the
   * latest of them (0 if none).
   */
  lemma CurrentPortfolioRewards(distribution: seq<DelegatedPool>, history: seq<RewardEntry>, currentEpochNo: int, i: nat)
    requires i < |distribution|
    ensures var p, id, e := CurrentPortfolioOf(distribution, history, currentEpochNo)[i], distribution[i].pool.id, currentEpochNo - LastStableEpoch;
      p.displayData.totalRewards == ConfirmedTotal(history, e, id) &&
      ((forall k :: 0 <= k < |history| ==> !Counted(history[k], e, id)) ==> p.displayData.lastReward == 0) &&
      (forall k :: 0 <= k < |history| && Counted(history[k], e, id) &&
                   (forall j :: k < j < |history| ==> !Counted(history[j], e, id)) ==>
                     p.displayData.lastReward == history[k].rewards)
  {
    var e := currentEpochNo - LastStableEpoch;
    TotalRewardsIsConfirmedTotal(history, e, distribution[i].pool.id);
    LastRewardIsLatestConfirmed(history, e, distribution[i].pool.id);
  }
}
