/**
 * How the two functions meet: the dispatcher names every group it creates
 * so that the reaper recognises it as its own.
 */
module Lifecycle {
  import opened Runtime
  import Dispatcher
  import Reaper

  /**
   * Every group the dispatcher submits passes the reaper's ownership filter,
   * so once all its containers report a terminal state a sweep that fetches
   * it tries to delete it.
   */
  lemma DispatchedGroupsAreReaped(id: Dispatcher.Int32, containers: seq<Reaper.ContainerStatus>, delete: CallOutcome)
    ensures Reaper.Owned(Dispatcher.GroupName(id))
    ensures Reaper.AllFinished(containers) ==>
      Reaper.Reapable(Reaper.ListedGroup(Dispatcher.GroupName(id), Reaper.Fetched(containers), delete))
  {
  }
}
