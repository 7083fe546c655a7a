/**
 Properties of the deployment run: the opening calls, the sync gate, the
 poll loop's exit and reports, the fetch budget and the return contract.
 The loop is characterised against `FirstStop`, an independent definition of
 the first snapshot at which the loop leaves.
 */
module DeployProofs {
  import opened Deploy

  /** The least poll index in [from, PollBudget) whose snapshot stops the
      loop, or PollBudget when none does (leastness: `FirstStopIsLeast`). */
  function FirstStop(snaps: nat -> Snapshot, from: nat): (f: nat)
    requires from <= PollBudget
    ensures from <= f <= PollBudget
    ensures f < PollBudget ==> Stops(snaps(f))
    decreases PollBudget - from
  {
    if from == PollBudget || Stops(snaps(from)) then from else FirstStop(snaps, from + 1)
  }

  /** No snapshot before `FirstStop` stops the loop. */
  lemma {:induction false} FirstStopIsLeast(snaps: nat -> Snapshot, from: nat, k: nat)
    requires from <= PollBudget && from <= k < FirstStop(snaps, from)
    ensures !Stops(snaps(k))
    decreases k - from
  {
    if from < k {
      FirstStopIsLeast(snaps, from + 1, k);
    }
  }

  /** Number of polls in [lo, hi) whose snapshot has a truthy `active`. */
  function ActivePolls(snaps: nat -> Snapshot, lo: nat, hi: nat): (n: nat)
    requires lo <= hi
    ensures n <= hi - lo
    decreases hi - lo
  {
    if lo == hi then 0
    else (if IsActive(snaps(lo)) then 1 else 0) + ActivePolls(snaps, lo + 1, hi)
  }

  /** The outcome the loop must reach: decided by the first stopping snapshot. */
  function ExpectedOutcome(snaps: nat -> Snapshot, from: nat): Outcome
    requires from <= PollBudget
  {
    var f := FirstStop(snaps, from);
    if f == PollBudget then TimedOut else StopOutcome(snaps(f))
  }

  /** The report the loop must end with, if any. */
  function FinalReports(snaps: nat -> Snapshot, from: nat): seq<Report>
    requires from <= PollBudget
  {
    var f := FirstStop(snaps, from);
    if f == PollBudget then [Report(Error, false)]
    else if !Accepted(snaps(f)) then []
    else [TerminalReport(snaps(f).data)]
  }

  /** How many `in_progress` reports the loop must post. */
  function InProgressCount(p: InProgressPolicy, snaps: nat -> Snapshot, from: nat, cur: State): nat
    requires from <= PollBudget
  {
    var n := ActivePolls(snaps, from, FirstStop(snaps, from));
    if cur != Queued then 0
    else if p == EveryActivePoll then n
    else if n == 0 then 0 else 1
  }

  const InProgressReport := Report(InProgress, false)

  /** `n` copies of `x`. */
  function Repeat<T>(x: T, n: nat): (s: seq<T>)
    ensures |s| == n
  {
    if n == 0 then [] else [x] + Repeat(x, n - 1)
  }

  /** Number of occurrences of `x` in `s`. */
  function Count<T(==)>(s: seq<T>, x: T): (n: nat)
    ensures n <= |s|
  {
    if |s| == 0 then 0 else (if s[0] == x then 1 else 0) + Count(s[1..], x)
  }

  lemma {:induction false} CountAppend<T>(a: seq<T>, b: seq<T>, x: T)
    ensures Count(a + b, x) == Count(a, x) + Count(b, x)
    decreases |a|
  {
    if |a| == 0 {
      assert a + b == b;
    } else {
      assert (a + b)[1..] == a[1..] + b;
      CountAppend(a[1..], b, x);
    }
  }

  lemma {:induction false} ReportsAppend(a: seq<Event>, b: seq<Event>)
    ensures Reports(a + b) == Reports(a) + Reports(b)
    decreases |a|
  {
    if |a| == 0 {
      assert a + b == b;
    } else {
      assert (a + b)[1..] == a[1..] + b;
      ReportsAppend(a[1..], b);
    }
  }

  lemma RoundFetchesOnce(cur: State, s: Snapshot)
    ensures Count(RoundEvents(cur, s), RetrieveStatus) == 1
  {
    if ReportsProgress(cur, s) {
      assert RoundEvents(cur, s)[1..] == [PostStatus(InProgressReport)];
    }
  }

  lemma RoundReports(cur: State, s: Snapshot)
    ensures Reports(RoundEvents(cur, s)) == Repeat(InProgressReport, if ReportsProgress(cur, s) then 1 else 0)
  {
    if ReportsProgress(cur, s) {
      assert RoundEvents(cur, s)[1..] == [PostStatus(InProgressReport)];
      assert Repeat(InProgressReport, 1) == [InProgressReport];
    }
  }

  lemma InProgressCountStep(p: InProgressPolicy, snaps: nat -> Snapshot, done: nat, cur: State)
    requires done < PollBudget && !Stops(snaps(done))
    ensures InProgressCount(p, snaps, done, cur)
              == (if ReportsProgress(cur, snaps(done)) then 1 else 0)
                 + InProgressCount(p, snaps, done + 1, RoundState(p, cur, snaps(done)))
  {
    assert FirstStop(snaps, done) == FirstStop(snaps, done + 1);
  }

  lemma ReportsStep(es: seq<Event>, pre: seq<Event>, rest: seq<Event>, k: nat, n: nat, fin: seq<Report>)
    requires es == pre + rest
    requires Reports(pre) == Repeat(InProgressReport, k) && k <= 1
    requires Reports(rest) == Repeat(InProgressReport, n) + fin
    ensures Reports(es) == Repeat(InProgressReport, k + n) + fin
  {
    ReportsAppend(pre, rest);
    if k == 1 {
      assert Repeat(InProgressReport, 1 + n) == [InProgressReport] + Repeat(InProgressReport, n);
    }
  }

  lemma FinalRoundReports(snaps: nat -> Snapshot, done: nat)
    requires done <= PollBudget && (done == PollBudget || Stops(snaps(done)))
    ensures Reports(FinalRound(snaps, done).events) == FinalReports(snaps, done)
  {
    var es := FinalRound(snaps, done).events;
    assert done < PollBudget ==> es[1..] == [] || es[1..] == [PostStatus(TerminalReport(snaps(done).data))];
  }

  /** The loop ends as its first stopping snapshot dictates, or times out. */
  lemma {:induction false} PollOutcome(p: InProgressPolicy, snaps: nat -> Snapshot, done: nat, cur: State)
    requires done <= PollBudget
    ensures Poll(p, snaps, done, cur).outcome == ExpectedOutcome(snaps, done)
    decreases PollBudget - done
  {
    if done < PollBudget && !Stops(snaps(done)) {
      PollOutcome(p, snaps, done + 1, RoundState(p, cur, snaps(done)));
    }
  }

  /** One fetch per round up to and including the stopping snapshot; all of
      the remaining budget when no snapshot stops the loop. */
  lemma {:induction false} PollFetchCount(p: InProgressPolicy, snaps: nat -> Snapshot, done: nat, cur: State)
    requires done <= PollBudget
    ensures var f := FirstStop(snaps, done);
            Count(Poll(p, snaps, done, cur).events, RetrieveStatus)
              == if f == PollBudget then PollBudget - done else f + 1 - done
    decreases PollBudget - done
  {
    if done == PollBudget || Stops(snaps(done)) {
      var es := FinalRound(snaps, done).events;
      assert done < PollBudget ==> es[1..] == [] || es[1..] == [PostStatus(TerminalReport(snaps(done).data))];
      assert Count(es, RetrieveStatus) == if done == PollBudget then 0 else 1;
    } else {
      var pre := RoundEvents(cur, snaps(done));
      var rest := Poll(p, snaps, done + 1, RoundState(p, cur, snaps(done)));
      PollFetchCount(p, snaps, done + 1, RoundState(p, cur, snaps(done)));
      CountAppend(pre, rest.events, RetrieveStatus);
      RoundFetchesOnce(cur, snaps(done));
    }
  }

  /** The loop's last call: the `error` report on timeout, the failed fetch
      on a raise, otherwise the terminal report of the stopping snapshot. */
  lemma {:induction false} PollLastEvent(p: InProgressPolicy, snaps: nat -> Snapshot, done: nat, cur: State)
    requires done <= PollBudget
    ensures var es := Poll(p, snaps, done, cur).events;
            var f := FirstStop(snaps, done);
            es[|es| - 1] ==
              if f == PollBudget then PostStatus(Report(Error, false))
              else if !Accepted(snaps(f)) then RetrieveStatus
              else PostStatus(TerminalReport(snaps(f).data))
    decreases PollBudget - done
  {
    if done < PollBudget && !Stops(snaps(done)) {
      var rest := Poll(p, snaps, done + 1, RoundState(p, cur, snaps(done)));
      PollLastEvent(p, snaps, done + 1, RoundState(p, cur, snaps(done)));
      var es := Poll(p, snaps, done, cur).events;
      assert es[|es| - 1] == rest.events[|rest.events| - 1];
    }
  }

  /** The loop's reports are some `in_progress` reports, then its final report. */
  lemma {:induction false} PollReports(p: InProgressPolicy, snaps: nat -> Snapshot, done: nat, cur: State)
    requires done <= PollBudget
    ensures Reports(Poll(p, snaps, done, cur).events)
              == Repeat(InProgressReport, InProgressCount(p, snaps, done, cur)) + FinalReports(snaps, done)
    decreases PollBudget - done
  {
    if done == PollBudget || Stops(snaps(done)) {
      FinalRoundReports(snaps, done);
      assert InProgressCount(p, snaps, done, cur) == 0;
    } else {
      var pre := RoundEvents(cur, snaps(done));
      var cur' := RoundState(p, cur, snaps(done));
      var rest := Poll(p, snaps, done + 1, cur');
      PollReports(p, snaps, done + 1, cur');
      RoundReports(cur, snaps(done));
      InProgressCountStep(p, snaps, done, cur);
      assert FinalReports(snaps, done) == FinalReports(snaps, done + 1);
      ReportsStep(Poll(p, snaps, done, cur).events, pre, rest.events,
                  if ReportsProgress(cur, snaps(done)) then 1 else 0,
                  InProgressCount(p, snaps, done + 1, cur'), FinalReports(snaps, done));
    }
  }

  // ---------------------------------------------------------------------
  // The first stopping snapshot, characterised independently.

  /** Poll `k` is within the budget, stops the loop, and no earlier poll does. */
  predicate FirstStopAt(snaps: nat -> Snapshot, k: nat) {
    k < PollBudget && Stops(snaps(k)) && forall j :: 0 <= j < k ==> !Stops(snaps(j))
  }

  lemma {:induction false} FirstStopAtMost(snaps: nat -> Snapshot, from: nat, k: nat)
    requires from <= k < PollBudget && Stops(snaps(k))
    ensures FirstStop(snaps, from) <= k
    decreases k - from
  {
    if from < k && !Stops(snaps(from)) {
      FirstStopAtMost(snaps, from + 1, k);
    }
  }

  /** `FirstStop` finds exactly the poll `FirstStopAt` describes. */
  lemma FirstStopAtIff(snaps: nat -> Snapshot, k: nat)
    ensures FirstStopAt(snaps, k) <==> k == FirstStop(snaps, 0) < PollBudget
  {
    var f := FirstStop(snaps, 0);
    if FirstStopAt(snaps, k) {
      FirstStopAtMost(snaps, 0, k);
    }
    if k == f < PollBudget {
      forall j | 0 <= j < k
        ensures !Stops(snaps(j))
      {
        FirstStopIsLeast(snaps, 0, j);
      }
    }
  }

  /** The budget is spent exactly when none of the first `PollBudget` polls stops. */
  lemma FirstStopNone(snaps: nat -> Snapshot)
    ensures FirstStop(snaps, 0) == PollBudget <==> forall k :: 0 <= k < PollBudget ==> !Stops(snaps(k))
  {
    if FirstStop(snaps, 0) == PollBudget {
      forall k | 0 <= k < PollBudget
        ensures !Stops(snaps(k))
      {
        FirstStopIsLeast(snaps, 0, k);
      }
    } else {
      assert Stops(snaps(FirstStop(snaps, 0)));
    }
  }

  // ---------------------------------------------------------------------
  // Helpers on `Repeat` and `Count`.

  lemma {:induction false} RepeatElements<T>(x: T, n: nat)
    ensures forall i :: 0 <= i < n ==> Repeat(x, n)[i] == x
  {
    if n > 0 {
      RepeatElements(x, n - 1);
      assert forall i :: 1 <= i < n ==> Repeat(x, n)[i] == Repeat(x, n - 1)[i - 1];
    }
  }

  lemma {:induction false} CountRepeat<T>(x: T, y: T, n: nat)
    ensures Count(Repeat(x, n), y) == if x == y then n else 0
  {
    if n > 0 {
      assert Repeat(x, n)[1..] == Repeat(x, n - 1);
      CountRepeat(x, y, n - 1);
    }
  }

  lemma {:induction false} ActivePollsNone(snaps: nat -> Snapshot, lo: nat, hi: nat)
    requires lo <= hi
    requires forall k :: lo <= k < hi ==> !IsActive(snaps(k))
    ensures ActivePolls(snaps, lo, hi) == 0
    decreases hi - lo
  {
    if lo < hi {
      ActivePollsNone(snaps, lo + 1, hi);
    }
  }

  // ---------------------------------------------------------------------
  // The whole run.

  const PendingReport := Report(Pending, false)
  const QueuedReport := Report(Queued, false)

  lemma OpeningReports()
    ensures Reports(Opening()) == [PendingReport]
    ensures Reports(Opening() + [CreateDeployment]) == [PendingReport]
    ensures Reports(Opening() + [CreateDeployment, PostStatus(QueuedReport)]) == [PendingReport, QueuedReport]
  {
    var o := Opening();
    assert o[1..] == [PostStatus(PendingReport), SyncRepository];
    assert o[1..][1..] == [SyncRepository];
    var tail := [CreateDeployment, PostStatus(QueuedReport)];
    assert tail[1..] == [PostStatus(QueuedReport)];
    ReportsAppend(o, [CreateDeployment]);
    ReportsAppend(o, tail);
  }

  /** Every status the run posts: `pending`; then, once the deployment is
      created, `queued`, the `in_progress` reports and the loop's final report. */
  lemma RunReports(p: InProgressPolicy, update: Envelope<UpdateData>, create: Envelope<CreateData>,
                   snaps: nat -> Snapshot)
    ensures Reports(Execute(p, update, create, snaps).events) ==
              if Deployable(update) && Created(create) then
                [PendingReport, QueuedReport]
                  + Repeat(InProgressReport, InProgressCount(p, snaps, 0, Queued)) + FinalReports(snaps, 0)
              else [PendingReport]
  {
    OpeningReports();
    if Deployable(update) && Created(create) {
      var pre := Opening() + [CreateDeployment, PostStatus(QueuedReport)];
      PollReports(p, snaps, 0, Queued);
      ReportsAppend(pre, Poll(p, snaps, 0, Queued).events);
    }
  }

  /** How the run ends, decided by the setup responses and the first stopping poll. */
  lemma RunOutcome(p: InProgressPolicy, update: Envelope<UpdateData>, create: Envelope<CreateData>,
                   snaps: nat -> Snapshot)
    ensures var o := Execute(p, update, create, snaps).outcome;
            (o == Succeeded <==>
               (Deployable(update) && Created(create) &&
                exists k :: FirstStopAt(snaps, k) && Accepted(snaps(k)) && Truthy(snaps(k).data.succeeded))) &&
            (o == Failed <==>
               (Deployable(update) && Created(create) &&
                exists k :: FirstStopAt(snaps, k) && Accepted(snaps(k)) && !Truthy(snaps(k).data.succeeded))) &&
            (o == TimedOut <==>
               (Deployable(update) && Created(create) && forall k :: 0 <= k < PollBudget ==> !Stops(snaps(k))))
  {
    var f := FirstStop(snaps, 0);
    if Deployable(update) && Created(create) {
      PollOutcome(p, snaps, 0, Queued);
      FirstStopNone(snaps);
      FirstStopAtIff(snaps, f);
      forall k | FirstStopAt(snaps, k)
        ensures k == f
      {
        FirstStopAtIff(snaps, k);
      }
    }
  }

  lemma OpeningFetches()
    ensures Count(Opening(), RetrieveStatus) == 0
    ensures Count(Opening() + [CreateDeployment], RetrieveStatus) == 0
    ensures Count(Opening() + [CreateDeployment, PostStatus(QueuedReport)], RetrieveStatus) == 0
  {
    var o := Opening();
    assert o[1..] == [PostStatus(PendingReport), SyncRepository];
    assert o[1..][1..] == [SyncRepository];
    var tail := [CreateDeployment, PostStatus(QueuedReport)];
    assert tail[1..] == [PostStatus(QueuedReport)];
    CountAppend(o, [CreateDeployment], RetrieveStatus);
    CountAppend(o, tail, RetrieveStatus);
  }

  /** The run fetches the deployment status at most `PollBudget` times: once
      per poll up to and including the first stopping one, or the whole
      budget when no poll stops the loop. */
  lemma RunFetchCount(p: InProgressPolicy, update: Envelope<UpdateData>, create: Envelope<CreateData>,
                      snaps: nat -> Snapshot)
    ensures var r := Execute(p, update, create, snaps);
            var n := Count(r.events, RetrieveStatus);
            n <= PollBudget &&
            (r.outcome == TimedOut ==> n == PollBudget) &&
            (Deployable(update) && Created(create) ==> forall k: nat :: FirstStopAt(snaps, k) ==> n == k + 1) &&
            (!(Deployable(update) && Created(create)) ==> n == 0)
  {
    var f := FirstStop(snaps, 0);
    OpeningFetches();
    if Deployable(update) && Created(create) {
      var pre := Opening() + [CreateDeployment, PostStatus(QueuedReport)];
      PollFetchCount(p, snaps, 0, Queued);
      PollOutcome(p, snaps, 0, Queued);
      CountAppend(pre, Poll(p, snaps, 0, Queued).events, RetrieveStatus);
      forall k | FirstStopAt(snaps, k)
        ensures k == f
      {
        FirstStopAtIff(snaps, k);
      }
    }
  }

  /** The report a returning run ends with. */
  function ClosingReport(o: Outcome): Report
    requires o != Aborted
  {
    match o
    case Succeeded => Report(Success, true)
    case Failed => Report(Failure, false)
    case TimedOut => Report(Error, false)
  }

  /** The loop's final report is present exactly when the loop returns, and
      it is the report of the loop's outcome. */
  lemma FinalReportsMatchOutcome(snaps: nat -> Snapshot)
    ensures var o := ExpectedOutcome(snaps, 0);
            if o == Aborted then FinalReports(snaps, 0) == [] else FinalReports(snaps, 0) == [ClosingReport(o)]
  {
  }

  /** In `pending`, `queued`, `n` times `in_progress`, then at most one more
      report, only that last report can be of a terminal state. */
  lemma TerminalOnlyLast(rs: seq<Report>, n: nat, fin: seq<Report>)
    requires rs == [PendingReport, QueuedReport] + Repeat(InProgressReport, n) + fin && |fin| <= 1
    ensures forall i :: 0 <= i < |rs| && IsTerminalState(rs[i].state) ==> fin != [] && i == |rs| - 1
  {
    RepeatElements(InProgressReport, n);
    assert forall i :: 2 <= i < 2 + n ==> rs[i] == Repeat(InProgressReport, n)[i - 2];
  }

  /** The run's last call is the loop's last call once the deployment is created. */
  lemma RunLastEvent(p: InProgressPolicy, update: Envelope<UpdateData>, create: Envelope<CreateData>,
                     snaps: nat -> Snapshot)
    requires Deployable(update) && Created(create)
    ensures var es := Execute(p, update, create, snaps).events;
            var f := FirstStop(snaps, 0);
            es[|es| - 1] ==
              if f == PollBudget then PostStatus(Report(Error, false))
              else if !Accepted(snaps(f)) then RetrieveStatus
              else PostStatus(TerminalReport(snaps(f).data))
  {
    var pre := Opening() + [CreateDeployment, PostStatus(QueuedReport)];
    var poll := Poll(p, snaps, 0, Queued);
    PollLastEvent(p, snaps, 0, Queued);
    assert Execute(p, update, create, snaps).events == pre + poll.events;
  }

  /** A run that returns posts exactly one report of a terminal state, as its
      last call, and that report matches the outcome; a run that raises posts none. */
  lemma RunTerminalReport(p: InProgressPolicy, update: Envelope<UpdateData>, create: Envelope<CreateData>,
                          snaps: nat -> Snapshot)
    ensures var r := Execute(p, update, create, snaps);
            var rs := Reports(r.events);
            (forall i :: 0 <= i < |rs| && IsTerminalState(rs[i].state) ==> r.outcome != Aborted && i == |rs| - 1) &&
            (r.outcome != Aborted ==>
               |rs| > 0 && rs[|rs| - 1] == ClosingReport(r.outcome) &&
               r.events[|r.events| - 1] == PostStatus(rs[|rs| - 1]))
  {
    RunReports(p, update, create, snaps);
    if Deployable(update) && Created(create) {
      var rs := Reports(Execute(p, update, create, snaps).events);
      PollOutcome(p, snaps, 0, Queued);
      FinalReportsMatchOutcome(snaps);
      TerminalOnlyLast(rs, InProgressCount(p, snaps, 0, Queued), FinalReports(snaps, 0));
      RunLastEvent(p, update, create, snaps);
    }
  }

  const SuccessReport := Report(Success, true)

  /** `run()` returns true exactly when the `success` report is posted, and the
      process exits 0 exactly then. */
  lemma ReturnContract(p: InProgressPolicy, update: Envelope<UpdateData>, create: Envelope<CreateData>,
                       snaps: nat -> Snapshot)
    ensures var r := Execute(p, update, create, snaps);
            (r.outcome != Aborted ==> (Returns(r) <==> SuccessReport in Reports(r.events))) &&
            (ExitCode(r) == 0 <==> SuccessReport in Reports(r.events))
  {
    var r := Execute(p, update, create, snaps);
    var rs := Reports(r.events);
    RunTerminalReport(p, update, create, snaps);
    if SuccessReport in rs {
      var i :| 0 <= i < |rs| && rs[i] == SuccessReport;
      assert IsTerminalState(rs[i].state);
    }
  }

  /** The `in_progress` reports of a run: one per the policy, counted over the
      polls before the loop stops. */
  lemma RunProgressReports(p: InProgressPolicy, update: Envelope<UpdateData>, create: Envelope<CreateData>,
                           snaps: nat -> Snapshot)
    ensures Count(Reports(Execute(p, update, create, snaps).events), InProgressReport)
              == if Deployable(update) && Created(create) then InProgressCount(p, snaps, 0, Queued) else 0
  {
    RunReports(p, update, create, snaps);
    var n := InProgressCount(p, snaps, 0, Queued);
    var fin := FinalReports(snaps, 0);
    assert Count([PendingReport], InProgressReport) == 0;
    if Deployable(update) && Created(create) {
      var head := [PendingReport, QueuedReport];
      assert head[1..] == [QueuedReport];
      assert Count(head, InProgressReport) == 0;
      assert Count(fin, InProgressReport) == 0 by {
        if fin != [] {
          assert fin[1..] == [];
        }
      }
      CountRepeat(InProgressReport, InProgressReport, n);
      CountAppend(head, Repeat(InProgressReport, n), InProgressReport);
      CountAppend(head + Repeat(InProgressReport, n), fin, InProgressReport);
    }
  }

  /** As written, `in_progress` is posted once for every active poll before
      the loop stops, since the local state never leaves `queued`. */
  lemma ProgressEveryActivePoll(update: Envelope<UpdateData>, create: Envelope<CreateData>, snaps: nat -> Snapshot)
    ensures Count(Reports(Execute(EveryActivePoll, update, create, snaps).events), InProgressReport)
              == if Deployable(update) && Created(create) then ActivePolls(snaps, 0, FirstStop(snaps, 0)) else 0
  {
    RunProgressReports(EveryActivePoll, update, create, snaps);
  }

  /** With the local state advanced after the first report, `in_progress` is
      posted at most once, and exactly when some poll before the stop is active. */
  lemma ProgressOncePerRun(update: Envelope<UpdateData>, create: Envelope<CreateData>, snaps: nat -> Snapshot)
    ensures var c := Count(Reports(Execute(OncePerRun, update, create, snaps).events), InProgressReport);
            c <= 1 &&
            (c == 1 <==> Deployable(update) && Created(create) && ActivePolls(snaps, 0, FirstStop(snaps, 0)) > 0)
  {
    RunProgressReports(OncePerRun, update, create, snaps);
  }

  /** A fetch whose envelope is rejected raises at once: the run ends with
      that fetch and no report follows the `in_progress` ones. */
  lemma RejectedSnapshotAborts(p: InProgressPolicy, update: Envelope<UpdateData>, create: Envelope<CreateData>,
                               snaps: nat -> Snapshot, k: nat)
    requires Deployable(update) && Created(create)
    requires FirstStopAt(snaps, k) && !Accepted(snaps(k))
    ensures var r := Execute(p, update, create, snaps);
            r.outcome == Aborted && r.events[|r.events| - 1] == RetrieveStatus &&
            Reports(r.events) == [PendingReport, QueuedReport]
                                 + Repeat(InProgressReport, InProgressCount(p, snaps, 0, Queued))
  {
    var r := Execute(p, update, create, snaps);
    FirstStopAtIff(snaps, k);
    RunReports(p, update, create, snaps);
    RunOutcome(p, update, create, snaps);
    PollLastEvent(p, snaps, 0, Queued);
    PollOutcome(p, snaps, 0, Queued);
    var pre := Opening() + [CreateDeployment, PostStatus(QueuedReport)];
    var poll := Poll(p, snaps, 0, Queued);
    assert r.events == pre + poll.events;
    assert r.events[|r.events| - 1] == poll.events[|poll.events| - 1];
    assert FinalReports(snaps, 0) == [];
    assert [PendingReport, QueuedReport] + Repeat(InProgressReport, InProgressCount(p, snaps, 0, Queued)) + []
        == [PendingReport, QueuedReport] + Repeat(InProgressReport, InProgressCount(p, snaps, 0, Queued));
  }
}
