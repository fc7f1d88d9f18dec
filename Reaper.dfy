/**
 * The timer-triggered reaper (ContainerCleanup.cs): it lists the container
 * groups of the configured resource group and deletes those this system
 * owns whose every container has reached a terminal state, isolating a
 * failure on one group from the others.
 *
 * The listing, each group's fetched details and each deletion are outcome
 * values supplied by the caller.
 */
module Reaper {
  import opened Wrappers
  import opened Runtime
  import opened Text

  // ---------------------------------------------------------------------
  // What a fetch reports about a group's containers
  // ---------------------------------------------------------------------

  /** `ContainerState`: its `State` text may be null. */
  datatype CurrentState = CurrentState(state: Option<string>)

  /** `ContainerInstanceView`: its `CurrentState` may be null. */
  datatype InstanceView = InstanceView(currentState: Option<CurrentState>)

  /** One container of a fetched group: its instance view may be null. */
  datatype ContainerStatus = ContainerStatus(instanceView: Option<InstanceView>)

  /** `instanceView.CurrentState?.State?.ToLower()`. */
  function LoweredState(view: InstanceView): Option<string> {
    match view.currentState
    case None => None
    case Some(current) =>
      match current.state
      case None => None
      case Some(text) => Some(Lower(text))
  }

  /** The lowered state text names a finished container. */
  predicate IsTerminalText(lowered: string) {
    Contains(lowered, "terminated") || Contains(lowered, "succeeded") || Contains(lowered, "failed")
  }

  /** The container reports a state, and that state is terminal. */
  predicate HasFinished(c: ContainerStatus) {
    c.instanceView.Some? &&
    var lowered := LoweredState(c.instanceView.value);
    lowered.Some? && IsTerminalText(lowered.value)
  }

  /** The group is terminal: every one of its containers has finished. */
  predicate AllFinished(containers: seq<ContainerStatus>) {
    forall i :: 0 <= i < |containers| ==> HasFinished(containers[i])
  }

  /**
   * The flag-and-break scan of a group's containers: the flag starts true and
   * is cleared, ending the scan, at the first container without an instance
   * view, without a state, or with a non-terminal state.
   */
  method ShouldDelete(containers: seq<ContainerStatus>) returns (shouldDelete: bool)
    ensures shouldDelete <==> AllFinished(containers)
  {
    shouldDelete := true;
    var i := 0;
    while i < |containers|
      invariant 0 <= i <= |containers|
      invariant forall k :: 0 <= k < i ==> HasFinished(containers[k])
    {
      var container := containers[i];
      if container.instanceView.None? {
        shouldDelete := false;
        break;
      }
      var currentState := LoweredState(container.instanceView.value);
      if currentState.None? || !IsTerminalText(currentState.value) {
        shouldDelete := false;
        break;
      }
      i := i + 1;
    }
  }

  // ---------------------------------------------------------------------
  // The sweep
  // ---------------------------------------------------------------------

  /** The prefix that marks a container group as created by this system. */
  const OwnedPrefix := "pr-agent-"

  predicate Owned(name: string) {
    StartsWith(name, OwnedPrefix)
  }

  /** How fetching a group's details ends. */
  datatype Fetch = FetchThrew(message: string) | Fetched(containers: seq<ContainerStatus>)

  /**
   * One enumerated container group: its name, how fetching its details
   * would end, and how deleting it would end if that were attempted.
   */
  datatype ListedGroup = ListedGroup(name: string, fetch: Fetch, delete: CallOutcome)

  /** What the sweep did with one group. */
  datatype Disposition =
    | NotOwned                    // skipped without any backend call
    | FetchFailed(message: string)
    | Active                      // fetched, not terminal: kept
    | Deleted
    | DeleteFailed(message: string)

  /** What the sweep does with one group, independently of every other group. */
  function Dispose(g: ListedGroup): Disposition {
    if !Owned(g.name) then NotOwned
    else match g.fetch
      case FetchThrew(message) => FetchFailed(message)
      case Fetched(containers) =>
        if !AllFinished(containers) then Active
        else match g.delete
          case Completed => Deleted
          case Threw(message) => DeleteFailed(message)
  }

  /** The group qualifies for deletion: owned, fetched, and terminal. */
  predicate Reapable(g: ListedGroup) {
    Owned(g.name) && g.fetch.Fetched? && AllFinished(g.fetch.containers)
  }

  /** The names the sweep tries to delete, in enumeration order. */
  function DeleteAttempts(groups: seq<ListedGroup>): seq<string>
    decreases |groups|
  {
    if groups == [] then []
    else
      var last := groups[|groups| - 1];
      DeleteAttempts(groups[..|groups| - 1]) + (if Reapable(last) then [last.name] else [])
  }

  /** How a sweep ends. */
  datatype SweepReport =
    | ConfigMissing                  // subscription or resource group not configured
    | LookupFailed(message: string)  // the resource group could not be reached
    | Swept(dispositions: seq<Disposition>, deleteAttempts: seq<string>)

  /**
   * One timer tick. `lookup` is how the credential, subscription and
   * resource-group calls end; `groups` is what enumeration yields.
   */
  method Sweep(env: Environment, lookup: CallOutcome, groups: seq<ListedGroup>) returns (report: SweepReport)
    ensures IsNullOrEmpty(GetVariable(env, "AZURE_SUBSCRIPTION_ID")) || IsNullOrEmpty(GetVariable(env, "RESOURCE_GROUP"))
      ==> report == ConfigMissing
    ensures !IsNullOrEmpty(GetVariable(env, "AZURE_SUBSCRIPTION_ID")) && !IsNullOrEmpty(GetVariable(env, "RESOURCE_GROUP")) ==>
      if lookup.Threw? then report == LookupFailed(lookup.message)
      else
        report.Swept? && |report.dispositions| == |groups| &&
        (forall i :: 0 <= i < |groups| ==> report.dispositions[i] == Dispose(groups[i])) &&
        report.deleteAttempts == DeleteAttempts(groups)
  {
    var subscriptionId := GetVariable(env, "AZURE_SUBSCRIPTION_ID");
    var resourceGroupName := GetVariable(env, "RESOURCE_GROUP");
    if IsNullOrEmpty(subscriptionId) || IsNullOrEmpty(resourceGroupName) {
      return ConfigMissing;
    }
    if lookup.Threw? {
      return LookupFailed(lookup.message);
    }

    var dispositions: seq<Disposition> := [];
    var attempts: seq<string> := [];
    for i := 0 to |groups|
      invariant |dispositions| == i
      invariant forall k :: 0 <= k < i ==> dispositions[k] == Dispose(groups[k])
      invariant attempts == DeleteAttempts(groups[..i])
    {
      assert groups[..i + 1][..i] == groups[..i];
      var group := groups[i];
      var outcome: Disposition;
      if !StartsWith(group.name, OwnedPrefix) {
        outcome := NotOwned;
      } else {
        match group.fetch
        case FetchThrew(message) =>
          outcome := FetchFailed(message);
        case Fetched(containers) =>
          var shouldDelete := ShouldDelete(containers);
          if shouldDelete {
            attempts := attempts + [group.name];
            match group.delete
            case Completed =>
              outcome := Deleted;
            case Threw(message) =>
              outcome := DeleteFailed(message);
          } else {
            outcome := Active;
          }
      }
      dispositions := dispositions + [outcome];
    }
    assert groups[..|groups|] == groups;
    report := Swept(dispositions, attempts);
  }

  // ---------------------------------------------------------------------
  // Properties of the sweep
  // ---------------------------------------------------------------------

  /**
   * The sweep tries to delete a name exactly when an enumerated group of
   * that name is owned, was fetched, and is terminal.
   */
  lemma {:induction false} AttemptsAreReapable(groups: seq<ListedGroup>)
    ensures forall x :: x in DeleteAttempts(groups) <==>
      exists i :: 0 <= i < |groups| && groups[i].name == x && Reapable(groups[i])
    decreases |groups|
  {
    if groups != [] {
      var init := groups[..|groups| - 1];
      AttemptsAreReapable(init);
      forall x | x in DeleteAttempts(groups)
        ensures exists i :: 0 <= i < |groups| && groups[i].name == x && Reapable(groups[i])
      {
        if x in DeleteAttempts(init) {
          var i :| 0 <= i < |init| && init[i].name == x && Reapable(init[i]);
          assert groups[i] == init[i];
        } else {
          assert groups[|groups| - 1].name == x;
        }
      }
      forall x | exists i :: 0 <= i < |groups| && groups[i].name == x && Reapable(groups[i])
        ensures x in DeleteAttempts(groups)
      {
        var i :| 0 <= i < |groups| && groups[i].name == x && Reapable(groups[i]);
        if i < |groups| - 1 {
          assert init[i] == groups[i];
        }
      }
    }
  }

  /** A failure on one group leaves what happens to the groups after it unchanged. */
  lemma {:induction false} AttemptsAppend(a: seq<ListedGroup>, b: seq<ListedGroup>)
    ensures DeleteAttempts(a + b) == DeleteAttempts(a) + DeleteAttempts(b)
    decreases |b|
  {
    if b == [] {
      assert a + b == a;
    } else {
      var init := b[..|b| - 1];
      AttemptsAppend(a, init);
      assert (a + b)[..|a + b| - 1] == a + init;
    }
  }

  /** When enumerated names are distinct, every reapable group gets exactly one delete attempt. */
  lemma {:induction false} AttemptsDistinct(groups: seq<ListedGroup>)
    requires forall i, j :: 0 <= i < j < |groups| ==> groups[i].name != groups[j].name
    ensures forall i, j :: 0 <= i < j < |DeleteAttempts(groups)| ==>
      DeleteAttempts(groups)[i] != DeleteAttempts(groups)[j]
    decreases |groups|
  {
    if groups != [] {
      var init := groups[..|groups| - 1];
      AttemptsDistinct(init);
      AttemptsAreReapable(init);
      var last := groups[|groups| - 1];
      if Reapable(last) {
        assert last.name !in DeleteAttempts(init);
      }
    }
  }

  /** A group that is not owned is neither fetched nor deleted. */
  lemma UnownedUntouched(g: ListedGroup)
    requires !Owned(g.name)
    ensures Dispose(g) == NotOwned && !Reapable(g)
  {
  }

  /**
   * A group's outcome is a deletion, completed or failed, exactly when the
   * group is reapable; the deletion failed exactly when its call threw.
   */
  lemma DisposeMatchesReapable(g: ListedGroup)
    ensures Reapable(g) <==> (Dispose(g).Deleted? || Dispose(g).DeleteFailed?)
    ensures Dispose(g).DeleteFailed? <==> Reapable(g) && g.delete.Threw?
  {
  }

  // ---------------------------------------------------------------------
  // The classifier on concrete states
  // ---------------------------------------------------------------------

  /** A container whose instance view reports `state`. */
  function Reporting(state: string): ContainerStatus {
    ContainerStatus(Some(InstanceView(Some(CurrentState(Some(state))))))
  }

  /** Missing data never counts as finished. */
  lemma MissingDataIsActive(containers: seq<ContainerStatus>, i: nat)
    requires i < |containers|
    requires containers[i].instanceView.None? ||
             containers[i].instanceView.value.currentState.None? ||
             containers[i].instanceView.value.currentState.value.state.None?
    ensures !AllFinished(containers)
  {
    assert !HasFinished(containers[i]);
  }

  /** A group without containers is terminal, so it is deleted. */
  lemma EmptyGroupIsTerminal()
    ensures AllFinished([])
  {
  }

  /** A state text without capitals is matched exactly as reported. */
  lemma LowercaseStateClassifiedAsIs(state: string)
    requires forall i :: 0 <= i < |state| ==> !('A' <= state[i] <= 'Z')
    ensures HasFinished(Reporting(state)) <==> IsTerminalText(state)
  {
    LowerFixedPoints(state);
  }

  /** Matching ignores case: "Terminated" is a terminal state. */
  lemma CapitalizedStateFinished()
    ensures HasFinished(Reporting("Terminated"))
  {
    assert Lower("Terminated") == "terminated";
    assert StartsWith("terminated", "terminated");
  }

  lemma SucceededFinished()
    ensures HasFinished(Reporting("succeeded"))
  {
    assert Lower("succeeded") == "succeeded";
    assert StartsWith("succeeded", "succeeded");
  }

  /** "running" matches none of the terminal markers. */
  lemma RunningNotFinished()
    ensures !HasFinished(Reporting("running"))
  {
    assert Lower("running") == "running";
    assert "terminated"[0] == 't' && "succeeded"[0] == 's' && "failed"[0] == 'f';
    MissingCharNotContained("running", "terminated", 't');
    MissingCharNotContained("running", "succeeded", 's');
    MissingCharNotContained("running", "failed", 'f');
  }

  /**
   * The classifier's examples: terminated and succeeded containers make a
   * terminal group; a running or unreported container keeps the group.
   */
  lemma ClassifierExamples()
    ensures AllFinished([Reporting("Terminated"), Reporting("succeeded")])
    ensures !AllFinished([Reporting("Terminated"), Reporting("running")])
    ensures !AllFinished([Reporting("Terminated"), ContainerStatus(None)])
  {
    CapitalizedStateFinished();
    SucceededFinished();
    RunningNotFinished();
    var finished := [Reporting("Terminated"), Reporting("succeeded")];
    assert forall i :: 0 <= i < 2 ==> finished[i] in {Reporting("Terminated"), Reporting("succeeded")};
    assert !HasFinished([Reporting("Terminated"), Reporting("running")][1]);
    assert !HasFinished([Reporting("Terminated"), ContainerStatus(None)][1]);
  }
}
