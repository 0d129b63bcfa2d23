/**
 * The delegation-portfolio store as an object whose mutators update its
 * fields in place. Each mutator is proved to leave the store in the state the
 * matching function of module Portfolio gives, and to keep the drawer fields
 * consistent.
 */
module PortfolioStore {
  import opened Wrappers
  import opened Pools
  import opened Rewards
  import opened DrawerSections
  import opened Portfolio

  class DelegationPortfolioStore {
    var activeManagementProcess: ManagementProcess
    var currentPortfolio: seq<Pool>
    var draftPortfolio: seq<Pool>
    var drawerVisible: bool
    var drawerSectionConfig: Option<SectionConfig>
    var selections: seq<Pool>

    /** The store's fields as a value. */
    function Snapshot(): State
      reads this
    {
      State(activeManagementProcess, currentPortfolio, draftPortfolio, drawerVisible, drawerSectionConfig, selections)
    }

    ghost predicate Valid()
      reads this
    {
      DrawerConsistent(Snapshot())
    }

    /** The store starts in `defaultState`. */
    constructor ()
      ensures Snapshot() == DefaultState && Valid()
    {
      activeManagementProcess := NoProcess;
      currentPortfolio := [];
      draftPortfolio := [];
      drawerVisible := false;
      drawerSectionConfig := None;
      selections := [];
    }

    // -------------------------------------------------------------- queries

    function IsDrawerVisible(): (r: bool)
      reads this
      ensures r <==> activeManagementProcess != NoProcess
      ensures Valid() ==> (r <==> drawerVisible)
    {
      Portfolio.IsDrawerVisible(Snapshot())
    }

    function IsPoolSelected(hexId: PoolId): (r: bool)
      reads this
      ensures r <==> exists i :: 0 <= i < |selections| && selections[i].id == hexId
    {
      Portfolio.IsPoolSelected(Snapshot(), hexId)
    }

    function SelectionsFull(): (r: bool)
      reads this
      ensures r <==> |selections| == MaxPoolsCount
    {
      Portfolio.SelectionsFull(Snapshot())
    }

    // ------------------------------------------------------------- mutators

    method BeginManagementProcess(process: ManagementProcess)
      modifies this
      ensures Snapshot() == Portfolio.BeginManagementProcess(old(Snapshot()), process)
      ensures old(Valid()) && process != NoProcess ==> Valid()
    {
      if activeManagementProcess != NoProcess {
        return;
      }
      activeManagementProcess := process;
      if process == CurrentPortfolio {
        draftPortfolio := currentPortfolio;
      }
      if process == NewPortfolio {
        draftPortfolio := selections;
      }
      drawerVisible := true;
      drawerSectionConfig := Some(SectionsConfig(Preferences));
    }

    method CancelManagementProcess(dumpDraftToSelections: bool)
      modifies this
      ensures Snapshot() == Portfolio.CancelManagementProcess(old(Snapshot()), dumpDraftToSelections)
      ensures old(activeManagementProcess) != NoProcess ==> Valid()
      ensures old(Valid()) ==> Valid()
    {
      if activeManagementProcess == NoProcess {
        return;
      }
      if dumpDraftToSelections {
        selections := WithUnitWeights(draftPortfolio);
      }
      drawerVisible := false;
      drawerSectionConfig := None;
      draftPortfolio := [];
      activeManagementProcess := NoProcess;
    }

    method ClearSelections()
      modifies this
      ensures Snapshot() == Portfolio.ClearSelections(old(Snapshot()))
      ensures selections == []
      ensures old(Valid()) ==> Valid()
    {
      selections := [];
    }

    method RemovePoolInManagementProcess(id: PoolId)
      modifies this
      ensures Snapshot() == Portfolio.RemovePoolInManagementProcess(old(Snapshot()), id)
      ensures old(Valid()) ==> Valid()
    {
      if activeManagementProcess == NoProcess {
        return;
      }
      draftPortfolio := WithoutId(draftPortfolio, id);
      if activeManagementProcess == NewPortfolio {
        selections := draftPortfolio;
      }
    }

    method SelectPool(poolData: Pool)
      modifies this
      ensures Snapshot() == Portfolio.SelectPool(old(Snapshot()), poolData)
      ensures old(|selections|) <= MaxPoolsCount ==> |selections| <= MaxPoolsCount
      ensures old(DistinctIds(selections)) ==> DistinctIds(selections)
      ensures old(Valid()) ==> Valid()
    {
      var alreadySelected := ContainsId(selections, poolData.id);
      if SelectionsFull() || alreadySelected {
        return;
      }
      selections := selections + [poolData];
    }

    method SetCurrentPortfolio(distribution: seq<DelegatedPool>, history: seq<RewardEntry>, currentEpochNo: int)
      modifies this
      ensures Snapshot() == Portfolio.SetCurrentPortfolio(old(Snapshot()), distribution, history, currentEpochNo)
      ensures old(Valid()) ==> Valid()
    {
      currentPortfolio := CurrentPortfolioOf(distribution, history, currentEpochNo);
    }

    method Transition(action: TransitionAction)
      requires CanTransition(Snapshot())
      modifies this
      ensures Snapshot() == Portfolio.Transition(old(Snapshot()), action)
      ensures old(Valid()) ==> Valid()
      ensures old(Valid()) ==> draftPortfolio == old(draftPortfolio) && selections == old(selections)
    {
      if activeManagementProcess == NoProcess {
        return;
      }
      if !drawerVisible {
        // the source logs an invalid management state here
        return;
      }
      var config := drawerSectionConfig.value;
      if action == ForceConfirmationHardwareWalletSkipToSuccess {
        if config.currentSection != Confirmation {
          return;
        }
        drawerSectionConfig := Some(SectionsConfig(SuccessTx));
        return;
      }
      if action == ForceConfirmationHardwareWalletSkipToFailure {
        if config.currentSection != Confirmation {
          return;
        }
        drawerSectionConfig := Some(SectionsConfig(FailTx));
        return;
      }
      var targetSection := if action == Next then config.nextSection else config.prevSection;
      if action == Next {
        if targetSection.None? {
          drawerVisible := false;
          drawerSectionConfig := None;
          activeManagementProcess := NoProcess;
          return;
        }
        if targetSection.value == SuccessTx {
          draftPortfolio := [];
          if activeManagementProcess == NewPortfolio {
            selections := [];
          }
        }
      }
      if targetSection.None? {
        // the source logs a move to a section that does not exist here
        return;
      }
      drawerSectionConfig := Some(SectionsConfig(targetSection.value));
    }

    method UnselectPool(id: PoolId)
      modifies this
      ensures Snapshot() == Portfolio.UnselectPool(old(Snapshot()), id)
      ensures !IsPoolSelected(id)
      ensures old(Valid()) ==> Valid()
    {
      selections := WithoutId(selections, id);
    }
  }
}
