/**
 End-to-end runs of the deployment script on concrete cPanel responses:
 an immediate success, a failure after one active poll, a time-out, a
 create response lacking `task_id`, and a deployment that stays active for
 two polls before succeeding.
 */
module DeployScenarios {
  import opened Optional
  import opened Deploy
  import opened DeployProofs

  const SyncOk: Envelope<UpdateData> := Body(true, UpdateData(true))
  const CreateOk: Envelope<CreateData> := Body(true, CreateData(Some(42), Some(7), Some(1000)))

  function Stamps(active: Option<int>, succeeded: Option<int>, failed: Option<int>): Snapshot {
    Body(true, Timestamps(active, succeeded, failed, None))
  }

  /** The first poll already carries `succeeded`. */
  function SucceedAtOnce(k: nat): Snapshot {
    Stamps(None, Some(1001), None)
  }

  /** The first poll is active, the second carries `failed`. */
  function FailAfterActive(k: nat): Snapshot {
    if k == 0 then Stamps(Some(1001), None, None) else Stamps(Some(1001), None, Some(1002))
  }

  /** No poll ever carries any timestamp but `queued`. */
  function NeverDone(k: nat): Snapshot {
    Stamps(None, None, None)
  }

  /** Two active polls, then `succeeded`. */
  function ActiveTwice(k: nat): Snapshot {
    if k < 2 then Stamps(Some(1001), None, None) else Stamps(Some(1001), Some(1002), None)
  }

  lemma ScenarioSuccess(p: InProgressPolicy)
    ensures var r := Execute(p, SyncOk, CreateOk, SucceedAtOnce);
            Reports(r.events) == [Report(Pending, false), Report(Queued, false), Report(Success, true)] &&
            r.outcome == Succeeded && Returns(r) && ExitCode(r) == 0
  {
    RunReports(p, SyncOk, CreateOk, SucceedAtOnce);
    RunOutcome(p, SyncOk, CreateOk, SucceedAtOnce);
    SucceedAtOnceStops();
  }

  lemma SucceedAtOnceStops()
    ensures FirstStop(SucceedAtOnce, 0) == 0 && FirstStopAt(SucceedAtOnce, 0)
    ensures ActivePolls(SucceedAtOnce, 0, 0) == 0
    ensures FinalReports(SucceedAtOnce, 0) == [Report(Success, true)]
  {
  }

  lemma ScenarioFailure(p: InProgressPolicy)
    ensures var r := Execute(p, SyncOk, CreateOk, FailAfterActive);
            Reports(r.events) == [Report(Pending, false), Report(Queued, false), Report(InProgress, false),
                                  Report(Failure, false)] &&
            r.outcome == Failed && !Returns(r) && ExitCode(r) == 1
  {
    RunReports(p, SyncOk, CreateOk, FailAfterActive);
    RunOutcome(p, SyncOk, CreateOk, FailAfterActive);
    FailAfterActiveStops();
    assert Repeat(InProgressReport, 1) == [InProgressReport];
  }

  lemma FailAfterActiveStops()
    ensures FirstStop(FailAfterActive, 0) == 1 && FirstStopAt(FailAfterActive, 1)
    ensures ActivePolls(FailAfterActive, 0, 1) == 1
    ensures FinalReports(FailAfterActive, 0) == [Report(Failure, false)]
  {
    assert FirstStop(FailAfterActive, 0) == 1;
  }

  lemma ActiveTwiceStops()
    ensures FirstStop(ActiveTwice, 0) == 2
    ensures ActivePolls(ActiveTwice, 0, 2) == 2
    ensures FinalReports(ActiveTwice, 0) == [Report(Success, true)]
  {
    assert FirstStop(ActiveTwice, 1) == 2;
  }

  /** The create response of the failure scenario without `task_id`: the
      `queued` report cannot be built, so the run raises before any poll. */
  lemma ScenarioMissingTaskId(p: InProgressPolicy)
    ensures var r := Execute(p, SyncOk, Body(true, CreateData(Some(9), None, Some(1000))), FailAfterActive);
            Reports(r.events) == [Report(Pending, false)] &&
            RetrieveStatus !in r.events && r.outcome == Aborted && ExitCode(r) == 1
  {
    RunReports(p, SyncOk, Body(true, CreateData(Some(9), None, Some(1000))), FailAfterActive);
  }

  lemma ScenarioTimeOut(p: InProgressPolicy)
    ensures var r := Execute(p, SyncOk, CreateOk, NeverDone);
            Reports(r.events) == [Report(Pending, false), Report(Queued, false), Report(Error, false)] &&
            Count(r.events, RetrieveStatus) == PollBudget &&
            r.outcome == TimedOut && !Returns(r) && ExitCode(r) == 1
  {
    RunReports(p, SyncOk, CreateOk, NeverDone);
    RunOutcome(p, SyncOk, CreateOk, NeverDone);
    RunFetchCount(p, SyncOk, CreateOk, NeverDone);
    FirstStopNone(NeverDone);
    ActivePollsNone(NeverDone, 0, PollBudget);
  }

  /** As written, a deployment seen active on two polls is reported
      `in_progress` twice. */
  lemma ProgressRepeatsAsWritten()
    ensures Reports(Execute(EveryActivePoll, SyncOk, CreateOk, ActiveTwice).events)
              == [Report(Pending, false), Report(Queued, false), Report(InProgress, false),
                  Report(InProgress, false), Report(Success, true)]
  {
    RunReports(EveryActivePoll, SyncOk, CreateOk, ActiveTwice);
    ActiveTwiceStops();
    assert Repeat(InProgressReport, 2) == [InProgressReport, InProgressReport];
  }

  /** With the local state advanced after the first report, the same run
      reports `in_progress` once. */
  lemma ProgressOnceCorrected()
    ensures Reports(Execute(OncePerRun, SyncOk, CreateOk, ActiveTwice).events)
              == [Report(Pending, false), Report(Queued, false), Report(InProgress, false), Report(Success, true)]
  {
    RunReports(OncePerRun, SyncOk, CreateOk, ActiveTwice);
    ActiveTwiceStops();
    assert Repeat(InProgressReport, 1) == [InProgressReport];
  }
}
