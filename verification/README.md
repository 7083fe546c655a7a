# Deployment poll loop and leaderboard ranking

This project models two small decision procedures of a Werewolf-bot
tooling repository:

- **The deployment run** (`run()` in `deploy1.py`). The script does these steps in order:
  - creates a GitHub deployment record and posts `pending`;
  - asks cPanel to sync the repository and create a deployment, then posts `queued`;
  - polls cPanel's deployment status up to 60 times, mirroring what it sees to GitHub as `in_progress`, `success`, `failure` or `error`;
  - returns true only on success, and the entry point exits 1 otherwise.
- **The leaderboard ranking** (`generate_board` in `leaderboard.py`). It turns query rows `(player, value)` into board entries with a `position` and a `tie` flag.

How the deployment run is modelled:

- HTTP, environment variables, sleeping and printing are abstracted away.
- The inputs are the two cPanel setup responses (`VersionControl/update` and `VersionControlDeployment/create`) and a stream of status snapshots, `nat -> Snapshot`.
- Each response is an `Envelope`: either a non-2xx HTTP error, or the JSON body with its `status` flag.
- A run is the trace of calls the script makes (GitHub status posts and cPanel calls, in order) together with how it ends:
  - `Succeeded`, `Failed` or `TimedOut` when `run()` returns;
  - `Aborted` when an exception escapes.
- Timestamps are optional integers, read with Python truthiness: an absent key and a zero value are both false.

How the leaderboard is modelled:

- It is generic in the player and value types, since the generator only compares them for equality.
- The loop state (`tie_length`, `last_num`, `last_cnt`, `last_tie`, the entries so far) is the `Scan` datatype, and one loop iteration is `Step`.
- Every entry is characterised against reference definitions stated over the rows alone:
  - the start of the run of equal values containing a row;
  - the position that run start implies;
  - the later runs whose first player marks a row tied.

Files:

- `optional.dfy`: the `Option` type.
- `deploy.dfy`: the run model (`Deploy`).
- `deploy_proofs.dfy`: its properties (`DeployProofs`).
- `deploy_scenarios.dfy`: concrete end-to-end runs (`DeployScenarios`).
- `leaderboard.dfy`, `leaderboard_proofs.dfy` and `leaderboard_scenarios.dfy`: the same three layers for the board.

Three points where the code does something a reader might not expect; the model follows the code:

- `cur_state` suggests that `in_progress` was meant to be posted once, on the first active poll. It is never reassigned (deploy1.py:77), so the code posts `in_progress` on every active poll. See Findings.
- No code posts an `error` status when the run raises. An aborted run therefore posts no terminal report: `DeployProofs.RunTerminalReport` proves exactly one terminal report for runs that return, and none for runs that raise.
- A create response without `task_id` raises at deploy1.py:70, where the `queued` report is built with plain indexing, so that run stops before any poll (`DeployScenarios.ScenarioMissingTaskId`). With `task_id` present, a deployment that is active once and then fails gets the reports `pending`, `queued`, `in_progress`, `failure` (`DeployScenarios.ScenarioFailure`).

## Model

| member | source | states |
|---|---|---|
| `Deploy.TerminalReport` | deploy1.py:97-125 | A terminal snapshot is reported `success` with `auto_inactive` exactly when `succeeded` is truthy, whatever `failed` or `canceled` say. Otherwise it is reported `failure`, never `error`. |
| `Deploy.StopOutcome` | deploy1.py:95-125 | A stopping snapshot never times the run out. It aborts exactly when the envelope is rejected, and succeeds exactly when it is accepted with a truthy `succeeded`. |
| `Deploy.Poll` | deploy1.py:80-135 | Every path through the loop makes at least one call. The loop's behaviour is stated by the `DeployProofs.Poll*` lemmas. |
| `Deploy.Execute` | deploy1.py:26-71 | Every run starts with the record creation, `pending` and the sync, in that order. `create` is called exactly when the sync response is accepted and deployable. A status fetch happens only once the create response also carries `deploy_id`, `task_id` and `queued`; such a run posts `queued` right after `create` and before any fetch. Any other run aborts. |
| `Deploy.ExitCode` | deploy1.py:171-173 | The process exits 0 exactly when the run succeeded. Every other return and every escaped exception exits 1. |
| `DeployProofs.PollOutcome` | deploy1.py:80-137 | The loop ends as the first stopping snapshot within the budget dictates, or times out when there is none. |
| `DeployProofs.PollFetchCount` | deploy1.py:80-96 | The loop fetches once per poll, up to and including the first stopping one. It uses the whole remaining budget when no poll stops it. |
| `DeployProofs.PollLastEvent` | deploy1.py:83-125 | The loop's last call depends on how it stops. On time-out it is the `error` report. At a rejected fetch it is that fetch. Otherwise it is the terminal report of the stopping snapshot. |
| `DeployProofs.PollReports` | deploy1.py:77-133 | The loop's reports are a number of `in_progress` reports, followed by its final report if any. The number is fixed by the policy and by the active polls before the stop. |
| `DeployProofs.RunReports` | deploy1.py:35-133 | A run that stops at a setup step posts only `pending`. Otherwise it posts `pending`, `queued`, its `in_progress` reports, then the loop's final report. |
| `DeployProofs.RunOutcome` | deploy1.py:46-137 | These are iff characterisations over the inputs. The run succeeds exactly when setup passes and the first stopping poll is accepted with a truthy `succeeded`. It fails exactly when that poll is accepted without one. It times out exactly when no poll in the budget stops. |
| `DeployProofs.RunFetchCount` | deploy1.py:79-96 | There are at most 60 status fetches. A run that times out makes exactly 60. A run that stops at poll `k` makes `k + 1`. A run that stops in setup makes none. |
| `DeployProofs.RunLastEvent` | deploy1.py:83-125 | Once the deployment is created, the run's last call is the loop's last call. |
| `DeployProofs.RunTerminalReport` | deploy1.py:83-125 | A run that returns posts exactly one report of a terminal state. It is the run's last call and matches the outcome: `success` with `auto_inactive`, `failure`, or `error`. A run that raises posts none. |
| `DeployProofs.ReturnContract` | deploy1.py:78-137 | `run()` returns true exactly when the `success` report was posted. The exit status is 0 exactly then. |
| `DeployProofs.RunProgressReports` | deploy1.py:126-133 | The number of `in_progress` reports is what the policy allows, counted over the polls before the stop. |
| `DeployProofs.ProgressEveryActivePoll` | deploy1.py:77-133 | As written, `in_progress` is posted once for every active poll before the stop. |
| `DeployProofs.ProgressOncePerRun` | deploy1.py:126-133 | With the local state advanced after the report, `in_progress` is posted at most once. It is posted exactly when some poll before the stop is active. |
| `DeployProofs.RejectedSnapshotAborts` | deploy1.py:92-96 | A fetch whose envelope is rejected raises at once. The run ends with that fetch, and no report follows the `in_progress` ones. |
| `DeployScenarios.ScenarioSuccess` | deploy1.py:97-107 | The first poll carries `succeeded`. The reports are `pending, queued, success`, and the run returns true and exits 0. |
| `DeployScenarios.ScenarioFailure` | deploy1.py:108-133 | One active poll, then `failed`. The reports are `pending, queued, in_progress, failure`, and the run returns false. |
| `DeployScenarios.ScenarioMissingTaskId` | deploy1.py:56-71 | The create response lacks `task_id`. Only `pending` is posted, no fetch happens, and the run raises. |
| `DeployScenarios.ScenarioTimeOut` | deploy1.py:80-91 | No poll carries a terminal or active timestamp. The reports are `pending, queued, error`, with 60 fetches, and the run returns false. |
| `DeployScenarios.ProgressRepeatsAsWritten` | deploy1.py:126-133 | Two active polls, then `succeeded`. As written, `in_progress` is posted twice. |
| `DeployScenarios.ProgressOnceCorrected` | deploy1.py:77-133 | The same run under the corrected policy posts `in_progress` once. |
| `Leaderboard.ScanRows` | leaderboard.py:71-106 | The loop's state after the first `n` rows holds one entry per processed row. |
| `Leaderboard.GenerateBoard` | leaderboard.py:66-80 | `display_suffix` is the suffix argument. `display_precision` is the minimal precision for float boards and 0 otherwise. There is one entry per row. |
| `LeaderboardProofs.StepMatches` | leaderboard.py:82-106 | One loop iteration keeps the loop state in agreement with the reference definitions. This covers each entry's player, value, position and tie flag, and the running `tie_length`, `last_num`, `last_cnt` and `last_tie`. |
| `LeaderboardProofs.ScanRowsMatch` | leaderboard.py:71-106 | After any number of rows, every entry matches the reference definitions. |
| `LeaderboardProofs.BoardMatches` | leaderboard.py:50-108 | Every entry of the generated board matches the reference definitions. |
| `LeaderboardProofs.EntriesFollowRows` | leaderboard.py:82-101 | There is exactly one entry per row, in row order, with the row's player and value. |
| `LeaderboardProofs.FirstPositionIsOne` | leaderboard.py:71-83 | The first entry is in position 1. |
| `LeaderboardProofs.RepeatedValueTies` | leaderboard.py:86-106 | A row repeating its predecessor's value shares its predecessor's position, and both entries are tied. |
| `LeaderboardProofs.NewValuePosition` | leaderboard.py:83-91 | As written, a row whose value differs from its predecessor's is at its index plus `max(tie_length - 1, 1)`, where `tie_length` is left by the preceding run. This is its index plus one exactly when that run has at most three rows. |
| `LeaderboardProofs.NewValuePositionCompetition` | leaderboard.py:82-90 | Under competition ranking, a row whose value differs from its predecessor's is at its index plus one. |
| `LeaderboardProofs.RunFirstPlayerTied` | leaderboard.py:89-106 | Once a row extends a run of equal values, every entry up to it whose player is the run's first player is tied. |
| `LeaderboardProofs.TieHasCause` | leaderboard.py:86-106 | An entry is untied exactly when its value differs from its predecessor's and no row at or after it extends a run of equal values whose first player is the entry's player; runs that ended before the entry leave it untied. |
| `LeaderboardProofs.DistinctPlayersTie` | leaderboard.py:86-106 | With distinct players, an entry is tied exactly when its value equals its predecessor's or its successor's. |
| `LeaderboardProofs.CompetitionPositions` | leaderboard.py:82-94 | Under competition ranking, every entry is one past the start of its run of equal values, and positions never decrease. |
| `LeaderboardScenarios.PositionsAsWritten` | leaderboard.py:82-106 | Five rows tie on 5, then come a 4 and a 3. As written, the positions are 1, 1, 1, 1, 1, 8, 7 and the ties are five `true` then two `false`. |
| `LeaderboardScenarios.PositionsCompetition` | leaderboard.py:83-94 | The same rows under competition ranking are numbered 1, 1, 1, 1, 1, 6, 7. |
| `LeaderboardScenarios.EarlierRunDoesNotTie` | leaderboard.py:86-106 | For rows (1, 5), (2, 5), (1, 4), the last entry is untied although its player headed the earlier run of fives. |

## Left out

- GitHub and cPanel HTTP (`github_api`, `cpanel_api`, deploy1.py:139-169): the cPanel responses are inputs. Every GitHub call is assumed to succeed: a transport failure or non-2xx answer from GitHub would raise, and that is not modelled.
- Sleeping, printing, debug logging and the description texts of the reports: only the state and the `auto_inactive` flag of each report are kept.
- Record ids and repository paths: `repo` is undefined at deploy1.py:43 (`cp_repo` is built at line 18), and deploy1.py:64 reads `res["id"]` from the cPanel create response. Abstracting ids and paths makes these name errors irrelevant to the decision logic. As written, the first would raise before the sync on every run.
- Key reads inside the descriptions of the loop's reports: the `deploy_id`, `task_id` and timestamp keys read from a status snapshot are assumed present. The sync response's `deployable` key and every envelope's `status` key are assumed present too. Only the create response's keys, which gate the `queued` report, are modelled as possibly absent.
- Deploy.Poll: its own contract only says the loop makes a call. The loop's behaviour is stated by `DeployProofs.PollOutcome`, `PollFetchCount`, `PollLastEvent` and `PollReports`, which keep the recursive function cheap to reason about.
- Leaderboard.ScanRows: its own contract only fixes the number of entries. The positions and tie flags it computes, one pass of the loop (`Leaderboard.Step`) at a time, are stated by `LeaderboardProofs.StepMatches`, `ScanRowsMatch` and `BoardMatches` against the reference definitions `RunStart`, `ReferencePosition` and `ReferenceTie`.
- `find_min_precision` (leaderboard.py:53-64): it relies on float `round`, so the precision of float boards is an input, `minPrecision`.
- Leaderboard values are compared by equality only. The float semantics of the win ratio (NaN, rounding) are not modelled.
- Leaderboard values are assumed non-NULL. A query aggregate such as `SUM(team_win OR indiv_win)` can be NULL, which reaches the loop as `None`. If the first row's value is `None`, it compares equal to the initial `last_cnt` (leaderboard.py:73 and 86), so that entry gets position `None` and is marked tied. The model starts `Scan.lastValue` at `None` and wraps each value in `Some`, so it cannot produce this.
- The argument parsing, database copy, SQL queries and JSON output of leaderboard.py (lines 11-48 and 111-181).
- `app.py` and `static/index.js` (page rendering and UI): these are not part of this model.

## Findings

| source | as written | input that shows it | evidently intended | confidence | as-written member | corrected member |
|---|---|---|---|---|---|---|
| deploy1.py:77 | `cur_state` is set to `"queued"` and never reassigned, so the guard at line 126 lets `in_progress` through on every active poll | polls 1 and 2 carry only `active`, poll 3 carries `succeeded`: reports `pending, queued, in_progress, in_progress, success` | `in_progress` posted once, the local state moving to in-progress after the report | medium, not executed | `DeployScenarios.ProgressRepeatsAsWritten` | `DeployProofs.ProgressOncePerRun` |
| leaderboard.py:83 | a row after a run of ties is placed at `index + max(tie_length - 1, 1)`, which exceeds `index + 1` once the run has four or more rows | values 5, 5, 5, 5, 5, 4, 3: positions 1, 1, 1, 1, 1, 8, 7 on a seven-row board | competition ranking, `index + 1`: positions 1, 1, 1, 1, 1, 6, 7, never decreasing | medium, not executed | `LeaderboardScenarios.PositionsAsWritten` | `LeaderboardProofs.CompetitionPositions` |

Both corrections are parameters of the model, not copies of it:

- `InProgressPolicy` selects `EveryActivePoll` (as written) or `OncePerRun`.
- `Ranking` selects `AsWritten` or `Competition`.

The lemmas that take the policy or the ranking as a parameter hold under both settings. Those that fix one setting say so in their row.
