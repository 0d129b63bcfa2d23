# Delegation-portfolio store, modelled in Dafny

This project models the delegation-portfolio store of the Lace wallet's staking
package (`packages/staking/src/features/store/delegationPortfolio.ts`). The store
holds:

- the active management process: none, the current portfolio, or a new portfolio;
- three pool lists: the current portfolio, the draft portfolio and the selections;
- whether the staking drawer is visible;
- a pointer into a fixed graph of drawer sections: DETAIL, PREFERENCES,
  CONFIRMATION, SIGN, SUCCESS_TX and FAIL_TX.

Its mutators do the following:

- begin and cancel a management process;
- select and unselect pools, with at most five selections;
- remove a pool from the draft;
- clear the selections;
- move through the section graph;
- rebuild the current portfolio from the delegation distribution and the
  rewards history.

The project has five modules:

- `Wrappers` (`wrappers.dfy`): the `Option` type, which stands for the
  source's possibly-`undefined` fields.
- `DrawerSections` (`sections.dfy`): the section table `drawerSectionsConfig`
  and lemmas about its graph.
- `Pools` (`pools.dfy`): pool records and the list operations the store applies
  to them (`some`/`find` by id, `filter` by id, `map` to weight 1).
- `Rewards` (`rewards.dfy`): the pure part of `setCurrentPortfolio`. It keeps
  only rewards at least `LAST_STABLE_EPOCH` (2) epochs old. For each pool it
  computes the last reward and the total reward, and it builds one portfolio
  entry per distribution item.
- `Portfolio` (`portfolio.dfy`): the store's state as a value.
  - One function per mutator and query. Its contract states what the mutator
    guarantees, including that it keeps the drawer invariant.
  - `Run`, which applies a sequence of mutator calls.
  - Lemmas about runs from `defaultState`.
- `PortfolioStore` (`store.dfy`): the store as a class whose fields the
  mutators update in place. Each method is proved to leave the fields equal to
  the matching `Portfolio` function applied to the old fields.

The drawer invariant (`Portfolio.DrawerConsistent`) has three parts:

- the drawer is visible exactly while a process is active;
- a section is set exactly then;
- the section is an entry of the table.

It holds in `defaultState`. It is kept by every sequence of mutator calls,
except one that begins a process with `None` (see "## Left out"). The bounds on
the pool lists (at most 5 pools, distinct ids) are proved only for sequences in
which, moreover, every delegation distribution passed to `setCurrentPortfolio`
has at most 5 pools with distinct hex ids. Under it, `transition` never reaches the code that clears the draft and
the selections on a move to SUCCESS_TX, because no entry of the table has
SUCCESS_TX as its next section.

The process value `None` of the source is called `NoProcess` here, so that it
does not clash with `Option.None`. The section graph has six sections, as in
the code. Bigints (stake, rewards) and epoch numbers are unbounded integers.

## Model

| member | source | states |
|---|---|---|
| DrawerSections.SectionsConfig | packages/staking/src/features/store/delegationPortfolio.ts:7-33 | the section table; the entry for each section is keyed by that section |
| DrawerSections.NoNextIntoSuccess | packages/staking/src/features/store/delegationPortfolio.ts:7-33 | no entry's `nextSection` is SUCCESS_TX, so the clearing on `next` into SUCCESS_TX cannot run |
| DrawerSections.TerminalSections | packages/staking/src/features/store/delegationPortfolio.ts:7-33 | exactly DETAIL, SIGN, SUCCESS_TX and FAIL_TX have no `nextSection` |
| DrawerSections.FirstSection | packages/staking/src/features/store/delegationPortfolio.ts:7-33 | only DETAIL has no `prevSection` |
| DrawerSections.PrevUndoesNext | packages/staking/src/features/store/delegationPortfolio.ts:7-33 | where `next` leads to a section, that section's `prev` leads back |
| Pools.ContainsId | packages/staking/src/features/store/delegationPortfolio.ts:93 | true exactly when some pool of the list has the id |
| Pools.WithoutId | packages/staking/src/features/store/delegationPortfolio.ts:179 | keeps exactly the pools whose id differs from the given id, and is never longer |
| Pools.WithoutIdAppend | packages/staking/src/features/store/delegationPortfolio.ts:179 | filtering by id distributes over concatenation, so the kept pools stay in order |
| Pools.WithoutAbsentId | packages/staking/src/features/store/delegationPortfolio.ts:179 | filtering out an id that no pool has leaves the list unchanged |
| Pools.WithoutIdDistinct | packages/staking/src/features/store/delegationPortfolio.ts:85 | filtering by id keeps the ids distinct |
| Pools.WithUnitWeights | packages/staking/src/features/store/delegationPortfolio.ts:67-70 | same length; each pool keeps its id and all other fields, and its weight becomes 1 |
| Rewards.ConfirmedRewards | packages/staking/src/features/store/delegationPortfolio.ts:98-101 | the confirmed history is never longer than the history |
| Rewards.ConfirmedRewardsMembers | packages/staking/src/features/store/delegationPortfolio.ts:99-101 | keeps exactly the history entries whose epoch is at most the current epoch minus 2 |
| Rewards.ConfirmedRewardsSingleton | packages/staking/src/features/store/delegationPortfolio.ts:99-101 | a one-entry history is kept exactly when its epoch is at most the last non-volatile epoch |
| Rewards.ConfirmedRewardsAppend | packages/staking/src/features/store/delegationPortfolio.ts:99-101 | the epoch filter distributes over concatenation, so kept entries keep their order and multiplicity |
| Rewards.PoolRewards | packages/staking/src/features/store/delegationPortfolio.ts:103-105 | the per-pool reward amounts are never more than the entries |
| Rewards.PoolRewardsSingleton | packages/staking/src/features/store/delegationPortfolio.ts:103-105 | a one-entry list yields its amount exactly when the entry is of the pool |
| Rewards.PoolRewardsAppend | packages/staking/src/features/store/delegationPortfolio.ts:103-105 | the pool filter and map distribute over concatenation, so amounts keep their order and multiplicity |
| Rewards.ConfirmedTotalAppend | packages/staking/src/features/store/delegationPortfolio.ts:110 | the reference total over a concatenated history is the sum of the totals of the parts |
| Rewards.TotalRewardsIsConfirmedTotal | packages/staking/src/features/store/delegationPortfolio.ts:98-110 | `totalRewards` equals the sum of the rewards of that pool's entries at least 2 epochs old, as an independent front-to-back sum defines it |
| Rewards.LastRewardIsLatestConfirmed | packages/staking/src/features/store/delegationPortfolio.ts:98-109 | `lastReward` is the reward of the latest such entry, or 0 when there is none |
| Rewards.PortfolioEntry | packages/staking/src/features/store/delegationPortfolio.ts:103-118 | the entry has id = `hexId`, weight = `percentage`, value = `stake`, the pool itself, and the last and total of the pool's filtered reward amounts |
| Rewards.CurrentPortfolioOf | packages/staking/src/features/store/delegationPortfolio.ts:102-119 | one entry per distribution item, in order, with id = `hexId`, weight = `percentage`, value = `stake`, and the pool itself |
| Rewards.CurrentPortfolioRewards | packages/staking/src/features/store/delegationPortfolio.ts:97-119 | each entry's total and last reward are those of its pool's confirmed rewards, matched by the pool's `id` |
| Portfolio.DefaultStateWellFormed | packages/staking/src/features/store/delegationPortfolio.ts:35-41 | `defaultState` satisfies the drawer invariant and has empty pool lists |
| Portfolio.IsDrawerVisible | packages/staking/src/features/store/delegationPortfolio.ts:184-187 | true exactly when a process is active; under the invariant this is the drawer flag, and also whether a section is set |
| Portfolio.IsPoolSelected | packages/staking/src/features/store/delegationPortfolio.ts:188-191 | true exactly when some selection has the id |
| Portfolio.SelectionsFull | packages/staking/src/features/store/delegationPortfolio.ts:192-195 | true exactly when 5 pools are selected; with at most 5 selected, not full means room for one more |
| Portfolio.SelectionsFullBlocksSelect | packages/staking/src/features/store/delegationPortfolio.ts:90-96 | full selections refuse every pool; otherwise a pool whose id is not selected is appended |
| Portfolio.BeginManagementProcess | packages/staking/src/features/store/delegationPortfolio.ts:50-62 | no-op unless no process is active; otherwise records the process, copies the draft from the current portfolio or the selections, shows the drawer at PREFERENCES; selections and current portfolio unchanged; keeps the invariant |
| Portfolio.CancelManagementProcess | packages/staking/src/features/store/delegationPortfolio.ts:63-76 | no-op without a process; otherwise returns to no process, hides the drawer, unsets the section, empties the draft; with the dump flag the selections become the old draft with weights 1, without it they are unchanged |
| Portfolio.ClearSelections | packages/staking/src/features/store/delegationPortfolio.ts:77-80 | empties the selections and changes nothing else, so no pool is selected |
| Portfolio.RemovePoolInManagementProcess | packages/staking/src/features/store/delegationPortfolio.ts:82-89 | no-op without a process; otherwise removes exactly the pools with the id from the draft, and mirrors the draft into the selections only for a new portfolio |
| Portfolio.SelectPool | packages/staking/src/features/store/delegationPortfolio.ts:90-96 | appends the pool exactly when the selections are not full (length 5) and hold no pool with its id, otherwise no change; keeps the cap of 5 and distinct ids; nothing else changes |
| Portfolio.SetCurrentPortfolio | packages/staking/src/features/store/delegationPortfolio.ts:97-124 | replaces only the current portfolio, with the entries built from the distribution and the rewards |
| Portfolio.Transition | packages/staking/src/features/store/delegationPortfolio.ts:126-176 | no-op without a process or with a hidden drawer; forced jumps act only from CONFIRMATION; `prev` moves to the previous section or does nothing; `next` moves to the next section or closes the drawer and ends the process; under the invariant it keeps the invariant and never touches the pool lists |
| Portfolio.UnselectPool | packages/staking/src/features/store/delegationPortfolio.ts:177-180 | the selections become `WithoutId` of the old ones (the others, in order), so the id is no longer selected; nothing else changes |
| Portfolio.Apply | packages/staking/src/features/store/delegationPortfolio.ts:49-181 | every mutator call that does not begin `None` keeps the drawer invariant; every call whose distribution has at most 5 pools with distinct hex ids keeps the bounds on the pool lists |
| Portfolio.Run | packages/staking/src/features/store/delegationPortfolio.ts:49-181 | every state reached from a consistent state by calls that do not begin `None` is consistent; the pool-list bounds are kept when every distribution is bounded |
| Portfolio.ReachableStatesDrawerConsistent | packages/staking/src/features/store/delegationPortfolio.ts:35-41 | from `defaultState`, after any calls that do not begin `None`, the drawer invariant holds |
| Portfolio.ReachableStatesPoolListsBounded | packages/staking/src/features/store/delegationPortfolio.ts:35-43 | from `defaultState`, when moreover every distribution has at most 5 pools with distinct hex ids, every pool list has at most 5 pools with distinct ids |
| Portfolio.RepeatedNextCloses | packages/staking/src/features/store/delegationPortfolio.ts:151-159 | from any consistent state, three `next` calls end the process, hide the drawer and unset the section |
| Portfolio.UnselectUndoesSelect | packages/staking/src/features/store/delegationPortfolio.ts:90-96 | selecting a new pool into non-full selections makes it selected, and unselecting it then restores the state |
| Portfolio.CancelUndoesBegin | packages/staking/src/features/store/delegationPortfolio.ts:50-76 | begin then cancel restores the state except for an emptied draft; cancelling with the dump flag turns the copied list into the selections with weights 1 |
| PortfolioStore.DelegationPortfolioStore.constructor | packages/staking/src/features/store/delegationPortfolio.ts:35-48 | a new store is in `defaultState` and satisfies the invariant |
| PortfolioStore.DelegationPortfolioStore.IsDrawerVisible | packages/staking/src/features/store/delegationPortfolio.ts:184-187 | true exactly when a process is active; equals the drawer flag when the store is valid |
| PortfolioStore.DelegationPortfolioStore.IsPoolSelected | packages/staking/src/features/store/delegationPortfolio.ts:188-191 | true exactly when some selection has the id |
| PortfolioStore.DelegationPortfolioStore.SelectionsFull | packages/staking/src/features/store/delegationPortfolio.ts:192-195 | true exactly when 5 pools are selected |
| PortfolioStore.DelegationPortfolioStore.BeginManagementProcess | packages/staking/src/features/store/delegationPortfolio.ts:50-62 | the fields become `Portfolio.BeginManagementProcess` of the old fields; the invariant is kept for a real process |
| PortfolioStore.DelegationPortfolioStore.CancelManagementProcess | packages/staking/src/features/store/delegationPortfolio.ts:63-76 | the fields become `Portfolio.CancelManagementProcess` of the old fields; the invariant holds afterwards whenever a process was active |
| PortfolioStore.DelegationPortfolioStore.ClearSelections | packages/staking/src/features/store/delegationPortfolio.ts:77-80 | the fields become `Portfolio.ClearSelections` of the old fields |
| PortfolioStore.DelegationPortfolioStore.RemovePoolInManagementProcess | packages/staking/src/features/store/delegationPortfolio.ts:82-89 | the fields become `Portfolio.RemovePoolInManagementProcess` of the old fields |
| PortfolioStore.DelegationPortfolioStore.SelectPool | packages/staking/src/features/store/delegationPortfolio.ts:90-96 | the fields become `Portfolio.SelectPool` of the old fields; the cap and distinct ids are kept |
| PortfolioStore.DelegationPortfolioStore.SetCurrentPortfolio | packages/staking/src/features/store/delegationPortfolio.ts:97-124 | the fields become `Portfolio.SetCurrentPortfolio` of the old fields |
| PortfolioStore.DelegationPortfolioStore.Transition | packages/staking/src/features/store/delegationPortfolio.ts:126-176 | the fields become `Portfolio.Transition` of the old fields; a valid store stays valid and keeps its draft and selections |
| PortfolioStore.DelegationPortfolioStore.UnselectPool | packages/staking/src/features/store/delegationPortfolio.ts:177-180 | the fields become `Portfolio.UnselectPool` of the old fields; the id is no longer selected |

## Left out

- The zustand/immer `create`/`set`/`get` plumbing is not modelled. The store is a class whose methods assign its fields. Sharing between the lists (immer's structural sharing, as in `draftPortfolio = currentPortfolio`) is immaterial, because the lists are values here.
- `setCurrentPortfolio` is `async` in the source. The model computes it synchronously.
- The `console.error` logging in `transition` is not modelled. Those branches leave the state unchanged.
- `Wallet.util.stakePoolTransformer`, `cardanoCoin`, and the pool metadata `name` and `ticker` come from the wallet SDK. They are replaced by an opaque `details` string that the entry copies from the pool.
- `Wallet.BigIntMath.sum` is replaced by an integer sum over a sequence.
- The distribution's `percentage` is a floating-point value in the SDK. It is modelled as an integer.
- `lastReward` is `last || BigInt(0)` in the source. The model takes the last amount, or 0 when there is none. The two agree, because a last amount of 0 also yields 0.
- Portfolio.SelectPool: the cap is kept only from selections of at most 5 pools, because the source compares the length with `===` against 5. Selections can exceed 5 only if a delegation distribution with more than 5 pools is dumped into them by a cancel. `Portfolio.BoundedDistribution` excludes such distributions for the pool-list bounds.
- Portfolio.BeginManagementProcess: the invariant is kept only for a real process. Beginning with `None` would show the drawer with no process active. `Portfolio.BeginsRealProcess` excludes that call.
- Portfolio.ReachableStatesPoolListsBounded: the distinct ids of the pool lists are proved only when every delegation distribution has distinct hex ids (and at most 5 pools). The source accepts any distribution, and a repeated hex id would carry into the current portfolio and, through a dump, into the selections. The drawer invariant (`Portfolio.ReachableStatesDrawerConsistent`) does not depend on this.
- Portfolio.Transition requires a section to be set whenever a process is active and the drawer is visible. Otherwise the source would fail when it destructures the undefined section.
- The address-book component and its tests, the transaction-success drawer, the theme colours, the end-to-end page object and the DRep-retirement container are not part of this model. They are UI or library glue, or they test a storage layer outside this package.
