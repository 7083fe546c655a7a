/**
 The decision logic of the deployment script: a GitHub deployment record is
 created, a cPanel repository is synchronised and deployed, and the cPanel
 deployment status is polled until a terminal timestamp appears or the poll
 budget runs out. Every step is mirrored to GitHub as a deployment status.

 HTTP, environment variables, sleeping and printing are abstracted away: the
 two cPanel setup responses and the stream of status snapshots are inputs,
 and the run is a trace of the calls it makes together with its outcome.
 */
module Deploy {
  import opened Optional

  /** Number of status fetches after which the run gives up. */
  const PollBudget: nat := 60

  /** A cPanel UAPI response: a non-2xx HTTP status, or the JSON envelope. */
  datatype Envelope<+T> = HttpError(code: int) | Body(status: bool, data: T)

  /** The script continues only past a 2xx response whose envelope `status` is truthy. */
  predicate Accepted<T>(e: Envelope<T>) {
    e.Body? && e.status
  }

  /** `data` of `VersionControl/update`. */
  datatype UpdateData = UpdateData(deployable: bool)

  /** `data` of `VersionControlDeployment/create`. The script reads `deploy_id`,
      `task_id` and `timestamps.queued` with plain indexing, so an absent key
      raises rather than reading as a falsy value. */
  datatype CreateData = CreateData(deployId: Option<int>, taskId: Option<int>, queued: Option<int>)

  /** `data.timestamps` of `VCDeployStatus/retrieve`, each key present or absent. */
  datatype Timestamps = Timestamps(
    active: Option<int>,
    succeeded: Option<int>,
    failed: Option<int>,
    canceled: Option<int>)

  type Snapshot = Envelope<Timestamps>

  /** Python truthiness of `timestamps.get(key, None)`: absent and zero are both false. */
  predicate Truthy(t: Option<int>) {
    t.Some? && t.value != 0
  }

  /** GitHub deployment status states posted by the script. */
  datatype State = Pending | Queued | InProgress | Success | Failure | Error

  datatype Report = Report(state: State, autoInactive: bool)

  /** Every external call the run makes, in order. */
  datatype Event =
    | CreateRecord               // GitHub: POST deployments
    | PostStatus(report: Report) // GitHub: POST deployments/{id}/statuses
    | SyncRepository             // cPanel: VersionControl/update
    | CreateDeployment           // cPanel: VersionControlDeployment/create
    | RetrieveStatus             // cPanel: VCDeployStatus/retrieve

  /** How the run ends: `Aborted` is an uncaught exception, the others return. */
  datatype Outcome = Succeeded | Failed | TimedOut | Aborted

  datatype Run = Run(events: seq<Event>, outcome: Outcome)

  /** When the `in_progress` report may be posted. The script never leaves
      the `queued` local state, so it posts on every poll that sees `active`
      (`EveryActivePoll`); `OncePerRun` advances the local state after the
      first report, as the variable evidently intended. */
  datatype InProgressPolicy = EveryActivePoll | OncePerRun

  predicate IsTerminalState(s: State) {
    s == Success || s == Failure || s == Error
  }

  /** A snapshot carrying a truthy succeeded, failed or canceled timestamp. */
  predicate Terminal(t: Timestamps) {
    Truthy(t.succeeded) || Truthy(t.failed) || Truthy(t.canceled)
  }

  /** A snapshot at which the poll loop leaves: a raise or a terminal timestamp. */
  predicate Stops(s: Snapshot) {
    !Accepted(s) || Terminal(s.data)
  }

  /** A snapshot whose `active` timestamp is truthy. */
  predicate IsActive(s: Snapshot) {
    s.Body? && Truthy(s.data.active)
  }

  /** The report posted for a terminal snapshot; `succeeded` takes priority. */
  function TerminalReport(t: Timestamps): (r: Report)
    requires Terminal(t)
    ensures IsTerminalState(r.state) && r.state != Error
    ensures r.autoInactive <==> r.state == Success
    ensures r.state == Success <==> Truthy(t.succeeded)
  {
    if Truthy(t.succeeded) then Report(Success, true) else Report(Failure, false)
  }

  /** How the loop ends at a stopping snapshot. */
  function StopOutcome(s: Snapshot): (o: Outcome)
    requires Stops(s)
    ensures o != TimedOut
    ensures o == Aborted <==> !Accepted(s)
    ensures o == Succeeded <==> Accepted(s) && Truthy(s.data.succeeded)
  {
    if !Accepted(s) then Aborted
    else if Truthy(s.data.succeeded) then Succeeded
    else Failed
  }

  /** `r` preceded by the calls `pre`. */
  function Prepend(pre: seq<Event>, r: Run): Run {
    Run(pre + r.events, r.outcome)
  }

  /** The local state after the `in_progress` report has been posted. */
  function AfterInProgress(p: InProgressPolicy, cur: State): State {
    match p
    case EveryActivePoll => cur
    case OncePerRun => InProgress
  }

  /** A round reports `in_progress` when the local state is still `queued`
      and the snapshot's `active` timestamp is truthy. */
  predicate ReportsProgress(cur: State, s: Snapshot) {
    cur == Queued && IsActive(s)
  }

  /** The calls of a round that does not end the loop: the fetch, then
      possibly `in_progress`. */
  function RoundEvents(cur: State, s: Snapshot): seq<Event> {
    if ReportsProgress(cur, s) then [RetrieveStatus, PostStatus(Report(InProgress, false))]
    else [RetrieveStatus]
  }

  /** The local state after a round that does not end the loop. */
  function RoundState(p: InProgressPolicy, cur: State, s: Snapshot): State {
    if ReportsProgress(cur, s) then AfterInProgress(p, cur) else cur
  }

  /**
   The round that ends the loop, entered with `done` fetches made. With the
   budget spent, `error` is posted without a fetch. Otherwise the fetched
   snapshot either raises (no report follows) or carries a terminal
   timestamp, reported with `succeeded` taking priority over `failed` and
   `canceled`.
   */
  function FinalRound(snaps: nat -> Snapshot, done: nat): (r: Run)
    requires done == PollBudget || Stops(snaps(done))
  {
    if done == PollBudget then
      Run([PostStatus(Report(Error, false))], TimedOut)
    else
      var s := snaps(done);
      if !Accepted(s) then Run([RetrieveStatus], Aborted)
      else Run([RetrieveStatus, PostStatus(TerminalReport(s.data))], StopOutcome(s))
  }

  /**
   The poll loop, entered with `done` status fetches already made and local
   state `cur`. Each round fetches the snapshot `snaps(done)`; the loop ends
   at the first snapshot that raises or carries a terminal timestamp, or
   once the budget is spent.
   */
  function Poll(p: InProgressPolicy, snaps: nat -> Snapshot, done: nat, cur: State): (r: Run)
    requires done <= PollBudget
    ensures |r.events| > 0
    decreases PollBudget - done
  {
    if done == PollBudget || Stops(snaps(done)) then
      FinalRound(snaps, done)
    else
      Prepend(RoundEvents(cur, snaps(done)), Poll(p, snaps, done + 1, RoundState(p, cur, snaps(done))))
  }

  /** The calls made before any deploy-target call: create the record, post `pending`, sync. */
  function Opening(): seq<Event> {
    [CreateRecord, PostStatus(Report(Pending, false)), SyncRepository]
  }

  /** The sync gate: the update envelope is accepted and reports the repository deployable. */
  predicate Deployable(update: Envelope<UpdateData>) {
    Accepted(update) && update.data.deployable
  }

  /** The create envelope is accepted and carries every key the `queued` report reads. */
  predicate Created(create: Envelope<CreateData>) {
    Accepted(create) && create.data.deployId.Some? && create.data.taskId.Some? && create.data.queued.Some?
  }

  /** The whole run, from the GitHub deployment record to the loop's exit. */
  function Execute(p: InProgressPolicy, update: Envelope<UpdateData>, create: Envelope<CreateData>,
                   snaps: nat -> Snapshot): (r: Run)
    ensures |r.events| >= 3 && r.events[..3] == Opening()
    ensures CreateDeployment in r.events <==> Deployable(update)
    ensures RetrieveStatus in r.events <==> Deployable(update) && Created(create)
    ensures !(Deployable(update) && Created(create)) ==> r.outcome == Aborted
    ensures Deployable(update) && Created(create) ==>
              |r.events| > 5 && r.events[..5] == Opening() + [CreateDeployment, PostStatus(Report(Queued, false))]
  {
    if !Deployable(update) then
      Run(Opening(), Aborted)
    else if !Created(create) then
      Run(Opening() + [CreateDeployment], Aborted)
    else
      Prepend(Opening() + [CreateDeployment, PostStatus(Report(Queued, false))],
              Poll(p, snaps, 0, Queued))
  }

  /** The value `run()` returns when it returns normally. */
  function Returns(r: Run): (b: bool)
    requires r.outcome != Aborted
  {
    r.outcome == Succeeded
  }

  /** Process exit status: the entry point exits 1 on a false return, and an
      uncaught exception also ends the interpreter with status 1. */
  function ExitCode(r: Run): (code: int)
    ensures code == 0 || code == 1
    ensures code == 0 <==> r.outcome == Succeeded
  {
    if r.outcome == Succeeded then 0 else 1
  }

  /** The GitHub statuses a trace posts, in order. */
  function Reports(es: seq<Event>): (rs: seq<Report>)
    ensures |rs| <= |es|
  {
    if |es| == 0 then []
    else if es[0].PostStatus? then [es[0].report] + Reports(es[1..])
    else Reports(es[1..])
  }
}
