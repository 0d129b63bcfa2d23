/**
 * The delegation-portfolio store as a value: its state, its queries, and one
 * function per mutator giving the state after the mutator runs. The store
 * class in PortfolioStore is proved to follow these functions.
 */
module Portfolio {
  import opened Wrappers
  import opened Pools
  import opened Rewards
  import opened DrawerSections

  /** `PortfolioManagementProcess`; `NoProcess` is its `None`. */
  datatype ManagementProcess = NoProcess | CurrentPortfolio | NewPortfolio

  /** The actions `transition` accepts. */
  datatype TransitionAction =
    | Next
    | Prev
    | ForceConfirmationHardwareWalletSkipToSuccess
    | ForceConfirmationHardwareWalletSkipToFailure

  datatype State = State(
    activeManagementProcess: ManagementProcess,
    currentPortfolio: seq<Pool>,
    draftPortfolio: seq<Pool>,
    drawerVisible: bool,
    drawerSectionConfig: Option<SectionConfig>,
    selections: seq<Pool>)

  const MaxPoolsCount: nat := 5

  /** `defaultState`: no process, empty lists, drawer hidden, no section. */
  const DefaultState: State := State(NoProcess, [], [], false, None, [])

  /**
   * The drawer is visible exactly while a management process is active, a
   * section is set exactly then, and that section is an entry of the table.
   */
  predicate DrawerConsistent(s: State) {
    (s.drawerVisible <==> s.activeManagementProcess != NoProcess) &&
    (s.drawerSectionConfig.Some? <==> s.activeManagementProcess != NoProcess) &&
    (s.drawerSectionConfig.Some? ==> IsTableEntry(s.drawerSectionConfig.value))
  }

  /** Every pool list holds at most `MaxPoolsCount` pools, no two with the same id. */
  predicate PoolListsBounded(s: State) {
    |s.currentPortfolio| <= MaxPoolsCount && DistinctIds(s.currentPortfolio) &&
    |s.draftPortfolio| <= MaxPoolsCount && DistinctIds(s.draftPortfolio) &&
    |s.selections| <= MaxPoolsCount && DistinctIds(s.selections)
  }

  lemma DefaultStateWellFormed()
    ensures DrawerConsistent(DefaultState) && PoolListsBounded(DefaultState)
  {
  }

  // ---------------------------------------------------------------- queries

  /** `isDrawerVisible`: a management process is active. */
  function IsDrawerVisible(s: State): (r: bool)
    ensures r <==> s.activeManagementProcess != NoProcess
    ensures DrawerConsistent(s) ==> (r <==> s.drawerVisible) && (r <==> s.drawerSectionConfig.Some?)
  {
    s.activeManagementProcess != NoProcess
  }

  /** `isPoolSelected`: some selected pool has id `hexId`. */
  function IsPoolSelected(s: State, hexId: PoolId): (r: bool)
    ensures r <==> exists i :: 0 <= i < |s.selections| && s.selections[i].id == hexId
  {
    ContainsId(s.selections, hexId)
  }

  /**
   * `selectionsFull`: exactly `MaxPoolsCount` pools are selected; with at most
   * that many selected, a state that is not full has room for one more.
   */
  function SelectionsFull(s: State): (r: bool)
    ensures r <==> |s.selections| == MaxPoolsCount
    ensures |s.selections| <= MaxPoolsCount && !r ==> |s.selections| < MaxPoolsCount
  {
    |s.selections| == MaxPoolsCount
  }

  // --------------------------------------------------------------- mutators

  /** `beginManagementProcess`. */
  function BeginManagementProcess(s: State, process: ManagementProcess): (r: State)
    ensures s.activeManagementProcess != NoProcess ==> r == s
    ensures s.activeManagementProcess == NoProcess ==>
      r.activeManagementProcess == process && r.drawerVisible &&
      r.drawerSectionConfig == Some(SectionsConfig(Preferences)) &&
      (process == CurrentPortfolio ==> r.draftPortfolio == s.currentPortfolio) &&
      (process == NewPortfolio ==> r.draftPortfolio == s.selections) &&
      (process == NoProcess ==> r.draftPortfolio == s.draftPortfolio)
    ensures r.selections == s.selections && r.currentPortfolio == s.currentPortfolio
    ensures DrawerConsistent(s) && process != NoProcess ==> DrawerConsistent(r)
    ensures PoolListsBounded(s) ==> PoolListsBounded(r)
  {
    if s.activeManagementProcess != NoProcess then s
    else
      var draft :=
        if process == CurrentPortfolio then s.currentPortfolio
        else if process == NewPortfolio then s.selections
        else s.draftPortfolio;
      s.(activeManagementProcess := process, draftPortfolio := draft,
         drawerVisible := true, drawerSectionConfig := Some(SectionsConfig(Preferences)))
  }

  /** `cancelManagementProcess`; the source's default for `dumpDraftToSelections` is false. */
  function CancelManagementProcess(s: State, dumpDraftToSelections: bool): (r: State)
    ensures s.activeManagementProcess == NoProcess ==> r == s
    ensures s.activeManagementProcess != NoProcess ==>
      r.activeManagementProcess == NoProcess && !r.drawerVisible &&
      r.drawerSectionConfig == None && r.draftPortfolio == [] && DrawerConsistent(r)
    ensures s.activeManagementProcess != NoProcess && dumpDraftToSelections ==>
      |r.selections| == |s.draftPortfolio| &&
      forall i :: 0 <= i < |r.selections| ==>
        r.selections[i].weight == 1 && r.selections[i].(weight := s.draftPortfolio[i].weight) == s.draftPortfolio[i]
    ensures !dumpDraftToSelections ==> r.selections == s.selections
    ensures r.currentPortfolio == s.currentPortfolio
    ensures DrawerConsistent(s) ==> DrawerConsistent(r)
    ensures PoolListsBounded(s) ==> PoolListsBounded(r)
  {
    if s.activeManagementProcess == NoProcess then s
    else
      var selections := if dumpDraftToSelections then WithUnitWeights(s.draftPortfolio) else s.selections;
      s.(selections := selections, drawerVisible := false, drawerSectionConfig := None,
         draftPortfolio := [], activeManagementProcess := NoProcess)
  }

  /** `clearSelections`: empties the selections and nothing else. */
  function ClearSelections(s: State): (r: State)
    ensures r.selections == [] && r.(selections := s.selections) == s
    ensures forall id :: !IsPoolSelected(r, id)
    ensures DrawerConsistent(s) ==> DrawerConsistent(r)
    ensures PoolListsBounded(s) ==> PoolListsBounded(r)
  {
    s.(selections := [])
  }

  /**
   * `removePoolInManagementProcess`: outside a process nothing changes;
   * otherwise the pools with id `id` leave the draft, and for a new portfolio
   * the selections become that draft.
   */
  function RemovePoolInManagementProcess(s: State, id: PoolId): (r: State)
    ensures s.activeManagementProcess == NoProcess ==> r == s
    ensures s.activeManagementProcess != NoProcess ==>
      (forall p :: p in r.draftPortfolio <==> p in s.draftPortfolio && p.id != id) &&
      r.draftPortfolio == WithoutId(s.draftPortfolio, id) &&
      r.selections == (if s.activeManagementProcess == NewPortfolio then r.draftPortfolio else s.selections) &&
      r.(draftPortfolio := s.draftPortfolio, selections := s.selections) == s
    ensures DrawerConsistent(s) ==> DrawerConsistent(r)
    ensures PoolListsBounded(s) ==> PoolListsBounded(r)
  {
    if s.activeManagementProcess == NoProcess then s
    else
      var draft := WithoutId(s.draftPortfolio, id);
      WithoutIdDistinct(s.draftPortfolio, id);
      s.(draftPortfolio := draft,
         selections := if s.activeManagementProcess == NewPortfolio then draft else s.selections)
  }

  /**
   * `selectPool`: appends `poolData` to the selections unless they are full
   * or already hold a pool with its id.
   */
  function SelectPool(s: State, poolData: Pool): (r: State)
    ensures r.selections == s.selections || r.selections == s.selections + [poolData]
    ensures r.selections == s.selections + [poolData] <==>
      |s.selections| != MaxPoolsCount && !(exists i :: 0 <= i < |s.selections| && s.selections[i].id == poolData.id)
    ensures r.(selections := s.selections) == s
    ensures |s.selections| <= MaxPoolsCount ==> |r.selections| <= MaxPoolsCount
    ensures DistinctIds(s.selections) ==> DistinctIds(r.selections)
    ensures DrawerConsistent(s) ==> DrawerConsistent(r)
    ensures PoolListsBounded(s) ==> PoolListsBounded(r)
  {
    var alreadySelected := ContainsId(s.selections, poolData.id);
    if SelectionsFull(s) || alreadySelected then s
    else s.(selections := s.selections + [poolData])
  }

  /** The store part of `setCurrentPortfolio`: only `currentPortfolio` changes. */
  function SetCurrentPortfolio(s: State, distribution: seq<DelegatedPool>, history: seq<RewardEntry>, currentEpochNo: int): (r: State)
    ensures r.currentPortfolio == CurrentPortfolioOf(distribution, history, currentEpochNo)
    ensures r.(currentPortfolio := s.currentPortfolio) == s
    ensures DrawerConsistent(s) ==> DrawerConsistent(r)
  {
    s.(currentPortfolio := CurrentPortfolioOf(distribution, history, currentEpochNo))
  }

  /** No two distribution items share a hex id. */
  predicate DistinctHexIds(distribution: seq<DelegatedPool>) {
    forall i, j :: 0 <= i < j < |distribution| ==> distribution[i].pool.hexId != distribution[j].pool.hexId
  }

  /** What `transition` needs to read the current section: one is set whenever it acts. */
  predicate CanTransition(s: State) {
    s.activeManagementProcess != NoProcess && s.drawerVisible ==> s.drawerSectionConfig.Some?
  }

  /** `transition`. */
  function Transition(s: State, action: TransitionAction): (r: State)
    requires CanTransition(s)
    ensures s.activeManagementProcess == NoProcess || !s.drawerVisible ==> r == s
    ensures r.currentPortfolio == s.currentPortfolio
    ensures s.activeManagementProcess != NoProcess && s.drawerVisible ==>
      var c := s.drawerSectionConfig.value;
      match action
      case ForceConfirmationHardwareWalletSkipToSuccess =>
        r == if c.currentSection == Confirmation then s.(drawerSectionConfig := Some(SectionsConfig(SuccessTx))) else s
      case ForceConfirmationHardwareWalletSkipToFailure =>
        r == if c.currentSection == Confirmation then s.(drawerSectionConfig := Some(SectionsConfig(FailTx))) else s
      case Prev =>
        r == if c.prevSection.None? then s else s.(drawerSectionConfig := Some(SectionsConfig(c.prevSection.value)))
      case Next =>
        if c.nextSection.None? then
          r.activeManagementProcess == NoProcess && !r.drawerVisible && r.drawerSectionConfig == None &&
          r.draftPortfolio == s.draftPortfolio && r.selections == s.selections
        else
          r.activeManagementProcess == s.activeManagementProcess && r.drawerVisible &&
          r.drawerSectionConfig == Some(SectionsConfig(c.nextSection.value))
    ensures DrawerConsistent(s) ==>
      DrawerConsistent(r) && r.draftPortfolio == s.draftPortfolio && r.selections == s.selections
    ensures PoolListsBounded(s) ==> PoolListsBounded(r)
  {
    if s.activeManagementProcess == NoProcess || !s.drawerVisible then s
    else
      var c := s.drawerSectionConfig.value;
      match action
      case ForceConfirmationHardwareWalletSkipToSuccess =>
        if c.currentSection != Confirmation then s
        else s.(drawerSectionConfig := Some(SectionsConfig(SuccessTx)))
      case ForceConfirmationHardwareWalletSkipToFailure =>
        if c.currentSection != Confirmation then s
        else s.(drawerSectionConfig := Some(SectionsConfig(FailTx)))
      case Next =>
        if c.nextSection.None? then
          s.(drawerVisible := false, drawerSectionConfig := None, activeManagementProcess := NoProcess)
        else
          var target := c.nextSection.value;
          NoNextIntoSuccess(c.currentSection);
          var cleared :=
            if target == SuccessTx then
              s.(draftPortfolio := [],
                 selections := if s.activeManagementProcess == NewPortfolio then [] else s.selections)
            else s;
          cleared.(drawerSectionConfig := Some(SectionsConfig(target)))
      case Prev =>
        if c.prevSection.None? then s
        else s.(drawerSectionConfig := Some(SectionsConfig(c.prevSection.value)))
  }

  /** `unselectPool`: the selections without the pools of id `id`, in their order. */
  function UnselectPool(s: State, id: PoolId): (r: State)
    ensures r.selections == WithoutId(s.selections, id)
    ensures forall p :: p in r.selections <==> p in s.selections && p.id != id
    ensures !IsPoolSelected(r, id)
    ensures r.(selections := s.selections) == s
    ensures DrawerConsistent(s) ==> DrawerConsistent(r)
    ensures PoolListsBounded(s) ==> PoolListsBounded(r)
  {
    WithoutIdDistinct(s.selections, id);
    s.(selections := WithoutId(s.selections, id))
  }

  // ------------------------------------------------------------ sequences of mutator calls

  /** One call of a mutator, with its arguments. */
  datatype Mutation =
    | Begin(process: ManagementProcess)
    | Cancel(dumpDraftToSelections: bool)
    | Clear
    | RemoveInProcess(removedId: PoolId)
    | Select(poolData: Pool)
    | SetCurrent(distribution: seq<DelegatedPool>, history: seq<RewardEntry>, currentEpochNo: int)
    | Move(action: TransitionAction)
    | Unselect(unselectedId: PoolId)

  /** A process that is begun is a real one (not `None`). */
  predicate BeginsRealProcess(m: Mutation) {
    m.Begin? ==> m.process != NoProcess
  }

  /** A delegation distribution has at most `MaxPoolsCount` pools, with distinct hex ids. */
  predicate BoundedDistribution(m: Mutation) {
    m.SetCurrent? ==> |m.distribution| <= MaxPoolsCount && DistinctHexIds(m.distribution)
  }

  function Apply(s: State, m: Mutation): (r: State)
    requires m.Move? ==> CanTransition(s)
    ensures DrawerConsistent(s) && BeginsRealProcess(m) ==> DrawerConsistent(r)
    ensures PoolListsBounded(s) && BoundedDistribution(m) ==> PoolListsBounded(r)
  {
    match m
    case Begin(process) => BeginManagementProcess(s, process)
    case Cancel(dump) => CancelManagementProcess(s, dump)
    case Clear => ClearSelections(s)
    case RemoveInProcess(id) => RemovePoolInManagementProcess(s, id)
    case Select(poolData) => SelectPool(s, poolData)
    case SetCurrent(distribution, history, currentEpochNo) =>
      var r := SetCurrentPortfolio(s, distribution, history, currentEpochNo);
      assert BoundedDistribution(m) ==> DistinctIds(r.currentPortfolio) by {
        if BoundedDistribution(m) {
          forall i, j | 0 <= i < j < |r.currentPortfolio|
            ensures r.currentPortfolio[i].id != r.currentPortfolio[j].id
          {
            assert distribution[i].pool.hexId != distribution[j].pool.hexId;
          }
        }
      }
      r
    case Move(action) => Transition(s, action)
    case Unselect(id) => UnselectPool(s, id)
  }

  /**
   * The state after the calls `ms`, in order, from a consistent state; every
   * intermediate state stays consistent, so each `transition` can read its
   * section. The pool lists stay bounded when every distribution is.
   */
  function Run(s: State, ms: seq<Mutation>): (r: State)
    requires DrawerConsistent(s)
    requires forall i :: 0 <= i < |ms| ==> BeginsRealProcess(ms[i])
    ensures DrawerConsistent(r)
    ensures PoolListsBounded(s) && (forall i :: 0 <= i < |ms| ==> BoundedDistribution(ms[i])) ==>
              PoolListsBounded(r)
    decreases |ms|
  {
    if ms == [] then s
    else Run(Apply(s, ms[0]), ms[1..])
  }

  /**
   * From `defaultState`, after any calls that begin only real processes, the
   * drawer is visible exactly while a process is active and a section is set
   * exactly then.
   */
  lemma ReachableStatesDrawerConsistent(ms: seq<Mutation>)
    requires forall i :: 0 <= i < |ms| ==> BeginsRealProcess(ms[i])
    ensures DrawerConsistent(Run(DefaultState, ms))
  {
  }

  /**
   * From `defaultState`, when moreover every distribution passed to
   * `setCurrentPortfolio` has at most `MaxPoolsCount` pools with distinct hex
   * ids, no pool list exceeds `MaxPoolsCount` pools or repeats an id.
   */
  lemma ReachableStatesPoolListsBounded(ms: seq<Mutation>)
    requires forall i :: 0 <= i < |ms| ==> BeginsRealProcess(ms[i]) && BoundedDistribution(ms[i])
    ensures PoolListsBounded(Run(DefaultState, ms))
  {
  }

  /** At most three `next` calls close the drawer from any consistent state. */
  lemma RepeatedNextCloses(s: State)
    requires DrawerConsistent(s)
    ensures var r := Run(s, [Move(Next), Move(Next), Move(Next)]);
      r.activeManagementProcess == NoProcess && !r.drawerVisible && r.drawerSectionConfig == None
  {
    var s1 := Transition(s, Next);
    var s2 := Transition(s1, Next);
    assert Run(s, [Move(Next), Move(Next), Move(Next)]) == Run(s1, [Move(Next), Move(Next)]);
    assert Run(s1, [Move(Next), Move(Next)]) == Run(s2, [Move(Next)]);
    if s.activeManagementProcess != NoProcess {
      match s.drawerSectionConfig.value.currentSection
      case Preferences =>
        assert s2.drawerSectionConfig == Some(SectionsConfig(Sign));
      case Confirmation =>
        assert s1.drawerSectionConfig == Some(SectionsConfig(Sign));
      case _ =>
    }
  }

  /**
   * Full selections refuse every pool; selections that are not full accept
   * any pool whose id is not yet selected.
   */
  lemma SelectionsFullBlocksSelect(s: State, poolData: Pool)
    ensures SelectionsFull(s) ==> SelectPool(s, poolData) == s
    ensures !SelectionsFull(s) && !IsPoolSelected(s, poolData.id) ==>
      SelectPool(s, poolData).selections == s.selections + [poolData]
  {
  }

  /** Selecting a new pool into non-full selections, then unselecting it, restores the state. */
  lemma {:induction false} UnselectUndoesSelect(s: State, poolData: Pool)
    requires !SelectionsFull(s) && !IsPoolSelected(s, poolData.id)
    ensures IsPoolSelected(SelectPool(s, poolData), poolData.id)
    ensures UnselectPool(SelectPool(s, poolData), poolData.id) == s
  {
    var t := SelectPool(s, poolData);
    assert t.selections == s.selections + [poolData];
    assert t.selections[|s.selections|] == poolData;
    WithoutIdAppend(s.selections, [poolData], poolData.id);
    WithoutAbsentId(s.selections, poolData.id);
    assert WithoutId([poolData], poolData.id) == [];
  }

  /**
   * Beginning a process and cancelling it without dumping restores the state
   * but for an emptied draft; cancelling with a dump turns the draft the process
   * began with into the selections, each with weight 1.
   */
  lemma CancelUndoesBegin(s: State, process: ManagementProcess)
    requires DrawerConsistent(s) && s.activeManagementProcess == NoProcess && process != NoProcess
    ensures CancelManagementProcess(BeginManagementProcess(s, process), false) == s.(draftPortfolio := [])
    ensures CancelManagementProcess(BeginManagementProcess(s, process), true).selections
         == WithUnitWeights(if process == CurrentPortfolio then s.currentPortfolio else s.selections)
  {
  }
}
