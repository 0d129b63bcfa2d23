/**
 * Pool records held by the portfolio store and the list operations the
 * store applies to them.
 */
module Pools {
  type PoolId = string

  /** The SDK's stake pool: `id` is the bech32 id, `hexId` the hex id; the rest is opaque. */
  datatype StakePool = StakePool(id: PoolId, hexId: PoolId, details: string)

  /** What the UI shows about a pool; `details` stands for the transformed pool fields. */
  datatype DisplayData = DisplayData(details: string, lastReward: int, totalRewards: int)

  /** A pool of a portfolio or of the selections. */
  datatype Pool = Pool(id: PoolId, weight: int, value: int, stakePool: StakePool, displayData: DisplayData)

  /** No two pools of `s` share an id. */
  predicate DistinctIds(s: seq<Pool>) {
    forall i, j :: 0 <= i < j < |s| ==> s[i].id != s[j].id
  }

  /** Whether some pool of `s` has id `id` (`some(({ id }) => ...)`, `find(...)`). */
  function ContainsId(s: seq<Pool>, id: PoolId): (r: bool)
    ensures r <==> exists i :: 0 <= i < |s| && s[i].id == id
  {
    if s == [] then false
    else if s[0].id == id then true
    else
      var r := ContainsId(s[1..], id);
      assert forall i :: 1 <= i < |s| ==> s[i] == s[1..][i - 1];
      r
  }

  /** `filter((pool) => pool.id !== id)`: the pools of `s` whose id is not `id`, in order. */
  function WithoutId(s: seq<Pool>, id: PoolId): (r: seq<Pool>)
    ensures |r| <= |s|
    ensures forall p :: p in r <==> p in s && p.id != id
  {
    if s == [] then []
    else (if s[0].id == id then [] else [s[0]]) + WithoutId(s[1..], id)
  }

  /** Filtering distributes over concatenation, so the kept pools stay in their order. */
  lemma {:induction false} WithoutIdAppend(a: seq<Pool>, b: seq<Pool>, id: PoolId)
    ensures WithoutId(a + b, id) == WithoutId(a, id) + WithoutId(b, id)
  {
    if a == [] {
      assert a + b == b;
    } else {
      assert (a + b)[0] == a[0];
      assert (a + b)[1..] == a[1..] + b;
      WithoutIdAppend(a[1..], b, id);
    }
  }

  /** Removing an id no pool has leaves the list as it is. */
  lemma {:induction false} WithoutAbsentId(s: seq<Pool>, id: PoolId)
    requires !ContainsId(s, id)
    ensures WithoutId(s, id) == s
  {
    if s != [] {
      WithoutAbsentId(s[1..], id);
    }
  }

  /** Removing pools keeps the ids distinct. */
  lemma {:induction false} WithoutIdDistinct(s: seq<Pool>, id: PoolId)
    ensures DistinctIds(s) ==> DistinctIds(WithoutId(s, id))
  {
    if s != [] && DistinctIds(s) {
      assert DistinctIds(s[1..]) by {
        forall i, j | 0 <= i < j < |s[1..]| ensures s[1..][i].id != s[1..][j].id {
          assert s[1..][i] == s[i + 1] && s[1..][j] == s[j + 1];
        }
      }
      WithoutIdDistinct(s[1..], id);
      var rest := WithoutId(s[1..], id);
      if s[0].id != id {
        forall p | p in rest ensures p.id != s[0].id {
          assert p in s[1..];
          var k :| 0 <= k < |s[1..]| && s[1..][k] == p;
          assert s[k + 1] == p;
        }
        var r := [s[0]] + rest;
        forall i, j | 0 <= i < j < |r| ensures r[i].id != r[j].id {
          if i == 0 {
            assert r[j] == rest[j - 1];
            assert r[j] in rest;
          } else {
            assert r[i] == rest[i - 1] && r[j] == rest[j - 1];
          }
        }
      } else {
        assert WithoutId(s, id) == [] + rest;
      }
    }
  }

  /** `map((pool) => ({ ...pool, weight: 1 }))`: same pools, same order, every weight 1. */
  function WithUnitWeights(s: seq<Pool>): (r: seq<Pool>)
    ensures |r| == |s|
    ensures forall i :: 0 <= i < |s| ==> r[i].weight == 1 && r[i].(weight := s[i].weight) == s[i]
    ensures forall i :: 0 <= i < |s| ==> r[i].id == s[i].id
  {
    if s == [] then [] else [s[0].(weight := 1)] + WithUnitWeights(s[1..])
  }
}
