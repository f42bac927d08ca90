# Progression engine of the gamified onboarding backend, in Dafny

This project models the backend progression engine of a gamified onboarding service for "pilots"
(new employees). Pilots complete missions, and HR reviews the reports. Approved missions credit
experience (XP), mana and competency levels, and may grant an artifact. The rank engine then moves
the pilot up the rank ladder.

Two code evaluators run code in a sandbox. Each unlocks its challenges by its own ordering rule. An
onboarding slide deck must be completed step by step. Mana buys items in a store. HR edits store
items, artifacts and mission branches through admin routes. Every notable event goes to an
append-only journal.

The database session becomes one `Db.Session` object whose fields are the tables:
- Keyed tables are `map`s, so a unique constraint on the key holds by construction:
  - submissions, keyed by (user, mission);
  - competency levels, keyed by (user, competency);
  - onboarding states, keyed by user;
  - users, missions and store items, keyed by id.
- Ownership and registration rows are `set`s of id pairs.
- The remaining tables are `seq`s in table order.

Writes take effect at once, so `commit`, `flush` and `refresh` have no counterpart. Datetimes are
integer timestamps, and the current time is a parameter `now`.

Each service is modelled in its own form:
- A function that mutates rows becomes a `method` with `modifies` frames on the session's fields.
- A read-only projection or rule becomes a `function`, whose properties are proved as lemmas.
- The loops of the source stay loops, with invariants:
  - the rank scan;
  - the branch-dependency builder;
  - the lock-reason accumulator;
  - the competency increase;
  - the previous-challenge check;
  - the progress lookup.

Modules follow the source files:

| module | models |
|---|---|
| `Models` | the SQLAlchemy models: enums, rows, column defaults, table constraints |
| `Db` | the session and its tables |
| `Journal` | `log_event` |
| `RankEngine` | `_eligible_rank`, `apply_rank_upgrade` |
| `MissionService` | registration window, registration, submitting, approval, rejection |
| `MissionRoutes` | completed set, branch dependencies, lock reasons, the submit gate, branch counts |
| `Coding` | the coding-challenge evaluator |
| `PythonMission` | the "Python basics" evaluator |
| `Onboarding` | the onboarding step machine |
| `Store` | image URLs, orders, order statuses |
| `Admin` | the HR rules for store items, artifacts, participant counts and branch membership |
| `Text`, `Sorting`, `Wrappers` | Python's `str.strip`/`rstrip`/`replace`/`join`, a stable `sorted`, and `Option`/`Result` |
| `Sets` | the size bound of a subset (`SubsetSize`), which the challenge-count and participant-count rules use |

## Model

| member | source | states |
|---|---|---|
| Journal.LogEvent | backend/app/services/journal.py:10-35 | appends exactly one entry with the given user, type, title, description and payload, deltas defaulting to 0 and payload to none; earlier entries are unchanged and the new entry is returned |
| RankEngine.CompletedMissions | backend/app/services/rank.py:18-22 | a mission counts toward requirements exactly when the user's submission for it is approved |
| RankEngine.UserLevels | backend/app/services/rank.py:23 | the user's competency levels, one per level row of that user |
| RankEngine.EligibleRank | backend/app/services/rank.py:14-38 | the scan over ranks in ascending `required_xp`, stopping at the first unreachable threshold and keeping the last rank whose requirements hold, returns `Eligible`: the last earned rank of the sorted table |
| RankEngine.RequirementsHold | backend/app/services/rank.py:30-35 | true exactly when every required mission is approved and every required competency is at its required level, a missing level counting as 0 |
| RankEngine.LastEarnedExtend | backend/app/services/rank.py:26-36 | scanning one more rank makes it the candidate when it is earned and keeps the earlier candidate otherwise |
| RankEngine.LastEarned | backend/app/services/rank.py:25-38 | the rank kept by the scan is one of the scanned ranks and its threshold is within the user's XP |
| RankEngine.Eligible | backend/app/services/rank.py:17-38 | the rank picked for the user has `required_xp` at most the user's XP, and its mission and competency requirements hold for the user's approved missions and levels |
| RankEngine.LastEarnedSound | backend/app/services/rank.py:25-38 | a chosen rank is earned: threshold reached, required missions approved, competency levels high enough |
| RankEngine.LastEarnedNone | backend/app/services/rank.py:25-38 | nothing is chosen exactly when no scanned rank is earned |
| RankEngine.LastEarnedIsLast | backend/app/services/rank.py:35-36 | the chosen rank is the last earned one in scan order: no rank after it is earned |
| RankEngine.LastEarnedStopsAtShortfall | backend/app/services/rank.py:26-28 | ranks past the first one whose threshold exceeds the user's XP cannot change the result, so stopping the scan there is sound |
| RankEngine.EligibleSound | backend/app/services/rank.py:14-38 | the engine returns a rank of the table with `required_xp` at most the user's XP that the user has earned, and returns nothing exactly when no rank is earned |
| RankEngine.EligibleHighest | backend/app/services/rank.py:17-36 | any earned rank has a threshold no higher than the returned rank's |
| RankEngine.NotAStaircase | backend/app/services/rank.py:30-36 | a lower rank whose required mission is missing does not block a higher requirement-free rank |
| RankEngine.EligibleMonotoneInXp | backend/app/services/rank.py:14-38 | more XP never yields a rank with a lower threshold |
| RankEngine.ApplyRankUpgrade | backend/app/services/rank.py:41-62 | the returned rank is `Eligible` on the entry state, or none when there is no eligible rank or it is the one already held; the users table changes only in this user's `current_rank_id`, which becomes the eligible rank's id when there is one, and the journal gains exactly `RankLog` |
| RankEngine.RankLog | backend/app/services/rank.py:44-61 | the rank engine logs at most one entry, and logs one exactly when a rank is eligible and differs from the one held; that entry is a RANK_UP entry of the user |
| MissionService.RegistrationIsOpen | backend/app/services/mission.py:38-65 | open if and only if the mission is offline, neither the deadline nor the start has passed, and the count (the given one, else the registration rows) is below a set capacity |
| MissionService.Registered | backend/app/services/mission.py:90-94 | the users registered for a mission are exactly those with a registration row for it |
| MissionService.RegisterForOfflineMission | backend/app/services/mission.py:68-122 | online missions are refused; an existing registration is returned with no new row; otherwise a full event, a passed deadline or a started event is refused with its own message, else one row and one journal entry are added |
| MissionService.RefusalMeansClosed | backend/app/services/mission.py:96-106 | for an offline mission, registration is refused (for capacity, then deadline, then start) exactly when `RegistrationIsOpen` says the window is closed |
| MissionService.RegistrationIsASet | backend/app/services/mission.py:79-88 | registering again adds no row and leaves the count unchanged |
| MissionService.RegistrationRefusal | backend/app/services/mission.py:96-106 | a full mission is refused for lack of places whatever the dates; there is no refusal exactly when places remain and neither the deadline nor the start has passed |
| MissionService.Superseded | backend/app/services/mission.py:153-166 | a stored document is deleted only when a different non-empty path replaces it; a left-out or cleared argument deletes nothing |
| MissionService.ApplyDoc | backend/app/services/mission.py:153-169 | after an update the document is empty exactly when it is cleared, or left out with nothing stored; otherwise it is the sent path, or the stored one when left out |
| MissionService.Resubmitted | backend/app/services/mission.py:150-171 | the row becomes pending with the new comment and proof; for each of passport, photo, resume and resume link, a left-out document keeps its value, a string replaces it, anything else clears it; awards are untouched |
| MissionService.SubmitMission | backend/app/services/mission.py:125-186 | an approved submission is refused with "already credited" and nothing changes; otherwise the single (user, mission) row is created or reused and set to `Resubmitted`, superseded files are deleted, and one journal entry is added |
| MissionService.SamePathKeepsFile | backend/app/services/mission.py:153-156 | re-sending the same path, or a first upload, deletes no file |
| MissionService.DeltaSumOfUnique | backend/app/models/mission.py:100-109 | with one reward per competency, the level change for a rewarded competency is that reward's `level_delta` |
| MissionService.IncreaseCompetencies | backend/app/services/mission.py:189-204 | every reward raises the user's level in its competency by its delta, starting from 0 when no row exists; other users' rows are untouched |
| MissionService.Credited | backend/app/services/mission.py:213-215 | the approved row carries status approved and freezes the mission's XP and mana rewards as awarded amounts, other columns kept |
| MissionService.GrantArtifact | backend/app/services/mission.py:223-236 | the mission's artifact joins the user's collection, with one journal entry only when the user did not own it already |
| MissionService.CreditUser | backend/app/services/mission.py:217-219 | the user's XP and mana rise by exactly the awarded amounts, nothing else changes |
| MissionService.RecordApproval | backend/app/services/mission.py:213-251 | on a submission not yet approved, the row becomes `Credited` and the tables satisfy `Recorded`: only this user's XP and mana change, rising by exactly the rewards; the user's level rows are exactly the old ones plus one per rewarded competency, each of their levels rises by the rewards' delta sum, and other users' level rows neither change nor appear; the artifact is added; and the journal gains exactly the artifact entry (only if newly owned) and then the approval entry |
| MissionService.PromoteApproved | backend/app/services/mission.py:253 | the rank engine run on the tables `RecordApproval` left completes `ApprovalEffect` with respect to the tables before the approval |
| MissionService.ApprovalEffectOf | backend/app/services/mission.py:213-253 | `Recorded` followed by `RankUpgraded` on the credited tables is `ApprovalEffect` |
| MissionService.ApproveSubmission | backend/app/services/mission.py:207-255 | approving an approved submission changes nothing, so approving twice equals approving once; otherwise the row is `Credited` and the tables satisfy `ApprovalEffect`: users differ only in this user, who has exactly the rewards added and `current_rank_id` set by `Eligible` on the resulting tables; the level rows are exactly the old ones plus one per rewarded competency of this user, each of the user's levels rises by the rewards' delta sum and other users' rows are kept; the artifact and the approval entry are as in `RecordApproval`; and after that entry the journal ends with exactly `RankLog`: one RANK_UP entry when the rank changed, none otherwise |
| MissionService.RejectSubmission | backend/app/services/mission.py:258-277 | the status becomes rejected whatever it was, the comment is overwritten only by a non-empty one, XP/mana/artifacts are untouched, one entry is logged |
| MissionRoutes.LinksOf | backend/app/api/routes/missions.py:43 | a branch's links are exactly the links of that branch |
| MissionRoutes.PredsMeaning | backend/app/api/routes/missions.py:43-48 | in a sorted branch, x is a predecessor of m exactly when a link of x comes before a link of m |
| MissionRoutes.FirstHasNoPreds | backend/app/api/routes/missions.py:45-48 | the first mission of a branch with distinct missions depends on nothing in it |
| MissionRoutes.AddLinkAt | backend/app/api/routes/missions.py:45-47 | for one mission, a link step adds the missions placed before the link exactly when the link is one of that mission |
| MissionRoutes.AddLinkStep | backend/app/api/routes/missions.py:45-48 | one link of a branch: its mission gains every mission placed before it, so the dependencies stay those of the links seen so far, and no set is empty |
| MissionRoutes.AddBranch | backend/app/api/routes/missions.py:44-48 | one branch's pass adds each mission's predecessors in that branch to its dependency set and keeps no empty sets |
| MissionRoutes.BuildBranchDependencies | backend/app/api/routes/missions.py:38-49 | each mission's dependencies are the union over all branches of the missions placed before it |
| MissionRoutes.TitleOf | backend/app/api/routes/missions.py:73 | a known mission is named by its title, an unknown one by "#" and its id |
| MissionRoutes.FindRank | backend/app/api/routes/missions.py:64 | the minimum rank found is the table's rank with that id, or none when the table has no such rank |
| MissionRoutes.PrerequisiteReasons | backend/app/api/routes/missions.py:67-73 | one non-empty reason per explicit prerequisite not completed, none exactly when all are completed |
| MissionRoutes.RankReasons | backend/app/api/routes/missions.py:64-66 | at most one non-empty reason, and none exactly when the mission sets no minimum rank or the user's XP reaches its threshold |
| MissionRoutes.BranchReasons | backend/app/api/routes/missions.py:75-80 | one non-empty reason per listed branch predecessor |
| MissionRoutes.EnumerationStep | backend/app/api/routes/missions.py:75-80 | visiting one predecessor extends the list of missing predecessors by it exactly when it is not completed, keeping each listed once |
| MissionRoutes.BranchLockReasons | backend/app/api/routes/missions.py:75-80 | the branch reasons enumerate the uncompleted predecessors once each, and are empty exactly when every predecessor is completed |
| MissionRoutes.ConcatReasons | backend/app/api/routes/missions.py:52-83 | the rank, prerequisite and branch reasons concatenated are all non-empty, and the whole list is empty exactly when each part is |
| MissionRoutes.Unlocked | backend/app/api/routes/missions.py:52-83 | the reference the listing is measured against, with no contract of its own: the rank threshold is met and every explicit prerequisite and every branch predecessor is completed |
| MissionRoutes.MissionAvailability | backend/app/api/routes/missions.py:52-83 | the reasons are the rank reason, then the prerequisite reasons, then the branch reasons; they are empty exactly when the mission is unlocked, and it is available exactly when it is active and unlocked |
| MissionRoutes.UnlockedMonotone | backend/app/api/routes/missions.py:52-83 | completing more missions never locks an unlocked mission |
| MissionRoutes.OwnCompletionIrrelevant | backend/app/api/routes/missions.py:82 | completing a mission does not make it unavailable |
| MissionRoutes.BranchLockIndependent | backend/app/api/routes/missions.py:75-80 | a missing branch predecessor locks the mission whatever its explicit prerequisites |
| MissionRoutes.Titles | backend/app/api/routes/missions.py:289 | the title map has one entry per mission, holding its title |
| MissionRoutes.MayStart | backend/app/api/routes/missions.py:279-297 | the submit gate is the listing's `Unlocked` with the branch dependencies built from all branches, so a mission may be submitted exactly when the mission list shows it unlocked |
| MissionRoutes.SubmitLockReasons | backend/app/api/routes/missions.py:279-297 | the reasons are those of `_mission_availability` for this mission: the rank reason of its minimum rank, then the prerequisite reasons, then one branch reason per uncompleted predecessor in some enumeration, with titles from all missions; they are non-empty strings, and there are none exactly when the submit gate `MayStart` holds |
| MissionRoutes.Submit | backend/app/api/routes/missions.py:266-307 | an unknown or inactive mission is not found; otherwise the reasons are the `_mission_availability` reasons on the user's approved missions before the call, and a mission the user may not start is refused, before any write, with the detail that joins them by "; ", which is non-empty; a startable mission is refused as already credited when its submission is approved, and otherwise becomes the pending `Resubmitted` row with documents kept, with one "submitted" journal entry and no file deleted |
| MissionRoutes.CompletedCount | backend/app/api/routes/missions.py:114 | the count of links to completed missions is at most the link count, equal to it exactly when all are completed and zero exactly when none is |
| MissionRoutes.BranchCounts | backend/app/api/routes/missions.py:112-115 | `total_missions` is the number of the branch's links, and `completed_missions` reaches it exactly when every linked mission is completed |
| Coding.NormalizeOutput | backend/app/services/coding.py:27-30 | the result is the CRLF-to-LF text with only line feeds cut from its end, and never ends in a line feed |
| Coding.NormalizeIdempotent | backend/app/services/coding.py:27-30 | normalising again changes nothing once no CRLF pair is left |
| Coding.NormalizeNotIdempotent | backend/app/services/coding.py:30 | "\r\r\nx" keeps a CRLF after one pass, so normalising is not idempotent in general |
| Coding.ReplaceCrlfUndoesWithCrlf | backend/app/services/coding.py:30 | replacing CRLF by LF undoes writing each LF as CRLF |
| Coding.ReplaceCrlfAppendLf | backend/app/services/coding.py:30 | a line feed appended after anything but a carriage return survives the CRLF replacement unchanged |
| Coding.CrlfGradesLikeLf | backend/app/services/coding.py:27-30 | output with CRLF line endings grades like the same output with LF |
| Coding.TrailingNewlineIgnored | backend/app/services/coding.py:30 | a trailing line feed does not change the verdict unless it completes a CRLF |
| Coding.TrailingNewlineAfterCr | backend/app/services/coding.py:30 | "a\r\n" normalises to "a" but "a\r" to itself |
| Coding.TimeoutNeverPasses | backend/app/utils/python_runner.py:40-46 | a run cut off by the time limit, whose exit code is 124, never passes |
| Coding.Passes | backend/app/services/coding.py:150 | a pass needs exit code 0, and exit code 0 with output identical to the expected output always passes |
| Coding.SolvedIds | backend/app/services/coding.py:57-69 | a challenge is solved exactly when the user has a passing attempt on it |
| Coding.EnsurePreviousChallengesSolved | backend/app/services/coding.py:33-76 | no error exactly when every challenge of the mission with a smaller order has a passing attempt by the user; the error is the "solve the previous tasks" refusal |
| Coding.RetryAllowed | backend/app/services/coding.py:33-76 | a challenge that passed the order check still passes it after any further attempt, so retries are allowed |
| Coding.ChallengeIds | backend/app/services/coding.py:174 | the ids listed are exactly those of the mission's challenges |
| Coding.AllSolvedByCount | backend/app/services/coding.py:92-107 | as many solved ids among the challenge ids as challenge ids means every challenge is solved, and conversely |
| Coding.AutoApprovedRow | backend/app/services/coding.py:118-131 | the row left by the automatic approval is approved, carries the automatic comment and freezes the mission's XP and mana rewards |
| Coding.CommentedApproval | backend/app/services/coding.py:118-131 | commenting the row and then approving it leaves `AutoApprovedRow` in its place |
| Coding.CommentAutomatically | backend/app/services/coding.py:118-130 | the user's submission, created if missing, gets the automatic comment and no other row changes |
| Coding.AutoApprove | backend/app/services/coding.py:109-132 | an already approved submission leaves every table unchanged; otherwise the row becomes `AutoApprovedRow`, no other row changes, and users, levels, artifacts and the journal satisfy `ApprovalEffect`: the rewards are credited, the user is moved to the eligible rank, and the journal gains the artifact entry (if newly owned), the approval entry and exactly `RankLog` |
| Coding.FinalizeMissionIfNeeded | backend/app/services/coding.py:79-132 | completes exactly when the mission has challenges and all are solved; when not complete, or already approved, nothing changes; otherwise the row becomes `AutoApprovedRow` and the other tables satisfy `ApprovalEffect`, as in `AutoApprove` |
| Coding.EvaluateChallenge | backend/app/services/coding.py:135-177 | refused with nothing recorded while an earlier challenge is unsolved; otherwise exactly one attempt is recorded, passing iff exit code 0 and normalised outputs agree; the mission is reported complete exactly when the attempt passed and every challenge of the mission is now solved, and then its submission is approved; a newly approved row is `AutoApprovedRow` and users, levels, artifacts and the journal satisfy `ApprovalEffect`; a failed, non-completing or previously approved attempt changes no other table |
| Coding.CountCompletedChallenges | backend/app/services/coding.py:180-201 | a listed mission appears exactly when some challenge of it has a passing attempt, with the number of distinct such challenges |
| Coding.FailedAttemptNeverCounts | backend/app/services/coding.py:188-195 | a failing attempt changes no count |
| Coding.FullCountMeansFinalisable | backend/app/services/coding.py:92-107 | a mission's count equals its number of challenges exactly when every one of them is solved, the finalisation condition |
| PythonMission.NormalizeStdout | backend/app/services/python_mission.py:23-26 | nothing becomes ""; any result neither starts nor ends with whitespace |
| PythonMission.RStripAfterDropTrailing | backend/app/services/python_mission.py:26 | `rstrip('\n')` before `strip()` changes nothing at the right end, since a line feed is whitespace |
| PythonMission.NormalizeIsStripOfLf | backend/app/services/python_mission.py:26 | dropping trailing line feeds before stripping is redundant: the result is the stripped CRLF-to-LF text |
| PythonMission.PythonPasses | backend/app/services/python_mission.py:134-137 | a pass needs return code 0, and return code 0 with output identical to the expected output always passes |
| PythonMission.FirstProgress | backend/app/services/python_mission.py:30-34 | the first progress row of the user in the mission, or none when there is no such row |
| PythonMission.ProgressIndex | backend/app/services/python_mission.py:29-40 | the row returned belongs to the user and the mission |
| PythonMission.GetProgressIdempotent | backend/app/services/python_mission.py:29-40 | a second lookup returns the same row and adds nothing |
| PythonMission.GetProgress | backend/app/services/python_mission.py:29-40 | the table gains a fresh row at order 0 only when the user has none in the mission, and the user's row is returned |
| PythonMission.MissionChallenges | backend/app/services/python_mission.py:45-51 | exactly the mission's challenges |
| PythonMission.FindChallenge | backend/app/services/python_mission.py:103-109 | the challenge with the id within the mission, or none when there is no such challenge |
| PythonMission.RowSubmissions | backend/app/services/python_mission.py:81-87 | exactly the submissions of the progress row |
| PythonMission.NewestFirst | backend/app/services/python_mission.py:84-85 | at most n entries, newest first |
| PythonMission.LastCode | backend/app/services/python_mission.py:60-79 | the code of the newest submission for the challenge, or of any challenge when none is named, and none only when no such submission exists |
| PythonMission.StateOf | backend/app/services/python_mission.py:43-97 | completed is `current_order`, total the mission's challenge count; the next challenge is the `current_order`-th of the mission's challenges sorted by order when below total, else none; `is_completed` iff `current_order` ≥ total iff there is no next; the recent submissions are the row's newest five; the last code is the newest code for the next challenge, or for any challenge when none is next |
| PythonMission.BuildState | backend/app/services/python_mission.py:43-97 | creates the progress row if missing and reports `StateOf` for it |
| PythonMission.FiledRow | backend/app/services/python_mission.py:175-181 | the row filed for a finished Python mission is pending, with the "Python tasks solved" comment and no proof URL |
| PythonMission.EnsureMissionCompleted | backend/app/services/python_mission.py:166-181 | an approved submission is left alone and nothing changes; otherwise the row becomes `FiledRow`, no other row changes, no file is deleted, and the journal gains exactly the "submitted" entry after its old entries |
| PythonMission.Advanced | backend/app/services/python_mission.py:149-157 | a pass moves `current_order` up by exactly one, to the challenge's order, and stamps `completed_at` once the count is reached |
| PythonMission.AdvanceProgress | backend/app/services/python_mission.py:149-158 | the row advances by `Advanced`; when the challenge's order reaches the total and the submission is not approved, the mission submission is filed as in `EnsureMissionCompleted`, otherwise submissions, journal and files are unchanged |
| PythonMission.RecordRun | backend/app/services/python_mission.py:131-158 | exactly one submission is recorded with the run's output; a pass advances the row; a pass at the last challenge files the pending mission submission with its one journal entry unless it was approved before; in every other case submissions, journal and files are unchanged |
| PythonMission.SubmitCode | backend/app/services/python_mission.py:100-163 | an unknown challenge, one whose order is not `current_order + 1`, and a timed-out run are refused with nothing recorded; otherwise one submission is recorded, passing iff return code 0 and normalised outputs agree; only a pass advances the progress, and a pass that reaches the total files the pending mission submission with its journal entry unless it was approved before, other submissions and the journal being unchanged otherwise |
| PythonMission.PassAdvancesState | backend/app/services/python_mission.py:149-158 | a pass is seen by `build_state` as exactly one more completed challenge; a state that becomes complete carries the finish time, and a complete state stays complete |
| Onboarding.OrdersOf | backend/app/services/onboarding.py:44 | the slide orders, position by position |
| Onboarding.AllowedOrdersAscending | backend/app/services/onboarding.py:38-44 | the allowed orders come in ascending order |
| Onboarding.AllowedOrdersMembers | backend/app/services/onboarding.py:44-46 | an order is allowed exactly when some slide has it |
| Onboarding.NextOrder | backend/app/services/onboarding.py:51 | the next order is an allowed order after the last completed one, and none exists when it is absent |
| Onboarding.NextOrderIsSmallest | backend/app/services/onboarding.py:51 | on the ascending orders the next order is the smallest one after the last completed |
| Onboarding.Step | backend/app/services/onboarding.py:38-56 | refused exactly when there are no slides, the order is unknown, or the order is above the last completed one and is not the next order; a success keeps the state or moves `last_completed_order` forward to the order, with `is_completed` iff it is the last slide |
| Onboarding.StepIdempotent | backend/app/services/onboarding.py:48-49 | completing the same slide again returns the state unchanged |
| Onboarding.StepAdvancesToNextSlide | backend/app/services/onboarding.py:48-56 | a successful step either keeps the state (order already completed) or sets `last_completed_order` to the next slide's order, with `is_completed` iff it is the last slide |
| Onboarding.StepRejectsSkipping | backend/app/services/onboarding.py:51-53 | completing an order while a smaller uncompleted slide exists is refused |
| Onboarding.CompletedHasNoNext | backend/app/services/onboarding.py:55-56 | after the last slide is completed no next order remains |
| Onboarding.NextSlide | backend/app/services/onboarding.py:30-31 | the next order is a slide order above `last_completed_order` and no larger than any other such order, and there is none exactly when every slide is at or below it |
| Onboarding.EnsureState | backend/app/services/onboarding.py:11-21 | returns the user's state, inserting the defaults (order 0, not completed) when missing |
| Onboarding.GetOverview | backend/app/services/onboarding.py:24-32 | the slides sorted by order, the user's state, and the smallest slide order above `last_completed_order` or none when none remains |
| Onboarding.AdvanceState | backend/app/services/onboarding.py:48-60 | applies `Step` to the user's state and stores its result |
| Onboarding.CompleteSlide | backend/app/services/onboarding.py:35-60 | no slides, an unknown order, or a skipped slide are refused with their messages; an already completed order is a no-op; otherwise the state advances by `Step` |
| Store.BuildStoreImageUrl | backend/app/services/store.py:15-21 | none or the empty path give none; any other path becomes "/uploads/" followed by the path without its leading slashes |
| Store.LeadingSlashIgnored | backend/app/services/store.py:20 | leading slashes do not change the URL |
| Store.SlashOnlyPathIsRoot | backend/app/services/store.py:18-21 | a path of slashes alone is not missing: it becomes the uploads root |
| Store.CreateOrder | backend/app/services/store.py:37-63 | no stock is refused first, then too little mana, with nothing changed; otherwise mana drops by exactly the cost and stock by 1 (both stay ≥ 0), a CREATED order is added, and one ORDER_CREATED entry with `mana_delta = -cost_mana` is logged |
| Store.OrderConservesMana | backend/app/services/store.py:45-48 | an order adds its item's cost to the buyer's spending and nobody else's |
| Store.UpdateOrderStatus | backend/app/services/store.py:66-84 | any status may be set with no transition check; only APPROVED is logged |
| Store.StatusChangeRefundsNothing | backend/app/services/store.py:69 | a status change, rejection included, leaves every user's spending unchanged: no refund |
| Admin.SanitizeOptional | backend/app/api/routes/admin.py:145-151 | none stays none; whitespace-only text becomes none; other text is non-blank and stripped |
| Admin.SanitizeIdempotent | backend/app/api/routes/admin.py:145-151 | sanitising twice is sanitising once |
| Admin.AdminStoreCreate | backend/app/api/routes/admin.py:208-243 | a blank name or description is refused before the image is saved; an image error is refused with its message; non-blank texts with a saved image always succeed, adding a valid item with the stripped texts and the saved path |
| Admin.PatchText | backend/app/api/routes/admin.py:265-280 | a present non-null text is stripped and must not be blank; absent or null keeps the old value |
| Admin.PatchItem | backend/app/api/routes/admin.py:264-289 | name, then description blanks are refused; only present non-null fields change; a present image URL is sanitised |
| Admin.PatchKeepsItemValid | backend/app/api/routes/admin.py:264-280 | a patch keeps a valid item's name and description non-blank and stripped |
| Admin.PatchIdempotent | backend/app/api/routes/admin.py:264-289 | applying the same patch again changes nothing |
| Admin.DroppedImage | backend/app/api/routes/admin.py:285-289 | an image file is deleted only when a present image URL sanitises to none |
| Admin.AdminStoreUpdate | backend/app/api/routes/admin.py:251-294 | an unknown item is not found; otherwise the stored item becomes `PatchItem`'s result, and the old image is deleted when the URL is cleared |
| Admin.MissionsWithArtifact | backend/app/api/routes/admin.py:562 | exactly the missions that award the artifact |
| Admin.DeleteArtifact | backend/app/api/routes/admin.py:550-571 | an unknown artifact is not found; one a mission awards is refused; otherwise it is removed, and every artifact a mission awards still exists |
| Admin.Participants | backend/app/api/routes/admin.py:54-56 | exactly the mission's submissions that are not rejected |
| Admin.ParticipantCount | backend/app/api/routes/admin.py:54-56 | the participant count is at most the number of submissions |
| Admin.ParticipantsElsewhere | backend/app/api/routes/admin.py:54-56 | replacing one submission changes the participant set at no other key |
| Admin.ParticipantCountOnReview | backend/app/api/routes/admin.py:54-56 | rejecting a live submission lowers the count by one, a status change between live statuses keeps it, and resubmitting a rejected one raises it by one |
| Admin.ReadsOf | backend/app/api/routes/admin.py:130-139 | one entry per link, in link order |
| Admin.EntriesSorted | backend/app/api/routes/admin.py:124-139 | the branch entries come in ascending `order` |
| Admin.EntriesFromBranch | backend/app/api/routes/admin.py:124-139 | every entry comes from a link of the branch, with its mission id and order |
| Admin.EntriesComplete | backend/app/api/routes/admin.py:124-139 | every link of the branch has its entry |
| Admin.BranchToRead | backend/app/api/routes/admin.py:119-142 | the entries are the branch's links reported in order: sorted by order, and as a multiset exactly one entry per link of the branch, each available and not completed, with `total_missions` the link count and `completed_missions` 0 |
| Admin.ReadsOfSortPermutes | backend/app/api/routes/admin.py:122-137 | sorting the links by order before reporting them reorders the entries and neither drops nor duplicates any |
| Admin.WithoutMission | backend/app/api/routes/admin.py:708 | exactly the links of other missions |
| Admin.MissionLinks | backend/app/api/routes/admin.py:715-716 | exactly the links of the mission |
| Admin.FirstLink | backend/app/api/routes/admin.py:715-716 | the position of the mission's first link, or none when it has none |
| Admin.UpdateMissionBranch | backend/app/api/routes/admin.py:707-716 | a sent `branch_id` replaces the mission's links by at most one, to that branch at the sent order or 1; otherwise a sent `branch_order` moves only the first link; other missions' links are untouched |
| Admin.BranchReplacementLeavesOneLink | backend/app/api/routes/admin.py:707-714 | after a branch replacement the mission has exactly the one new link, or none when the branch is null |
| Text.Strip | backend/app/api/routes/admin.py:150 | `str.strip`: the result is no longer than the input and neither starts nor ends with whitespace |
| Text.StripSlice | backend/app/api/routes/admin.py:150 | the stripped text is a slice of the input with only whitespace before and after it |
| Text.StripBlank | backend/app/api/routes/admin.py:150-151 | stripping leaves nothing exactly when the text is all whitespace |
| Text.StripIdempotent | backend/app/api/routes/admin.py:150 | stripping twice is stripping once |
| Text.ReplaceCrlfIdentity | backend/app/services/coding.py:30 | `replace("\r\n", "\n")` leaves a text without a CRLF pair unchanged |
| Text.ReplaceCrlfAppendCrlf | backend/app/services/coding.py:30 | a CRLF pair at the end becomes one line feed, whatever precedes it |
| Text.ReplaceCrlfAppendChar | backend/app/services/coding.py:30 | appending a character other than a line feed appends it to the replaced text |
| Text.ScanCrlfAppend | backend/app/services/coding.py:30 | the front-to-back scan of `str.replace` over two texts with no CRLF pair across the seam is the two scans joined |
| Text.ReplaceCrlfIsScan | backend/app/services/coding.py:30 | the replacement read from the end equals the front-to-back scan Python performs |
| Sorting.InsertSorted | backend/app/api/routes/missions.py:43 | inserting into a sorted sequence keeps it sorted by the key |
| Sorting.InsertPermutes | backend/app/api/routes/missions.py:43 | insertion adds exactly the inserted element |
| Sorting.SortBySorted | backend/app/api/routes/missions.py:43 | `sorted(..., key=...)` returns a sequence sorted by the key |
| Sorting.SortByPermutes | backend/app/api/routes/missions.py:43 | the sorted sequence is a permutation of the input |
| Sorting.MembersOfSorted | backend/app/api/routes/admin.py:124 | an element is in the sorted sequence exactly when it is in the input |
| Sorting.WithKey | backend/app/api/routes/missions.py:43 | the elements with a given key, in order, all having that key |
| Sorting.InsertStable | backend/app/api/routes/missions.py:43 | inserting an element puts it ahead of the equal-key elements already there and keeps their order |
| Sorting.SortByStable | backend/app/api/routes/missions.py:43 | `sorted` is stable: the elements with any one key keep their input order |
| Text.JoinNonEmpty | backend/app/api/routes/missions.py:299 | joining reasons of which one is non-empty gives a non-empty detail |

## Left out

- Process spawning, the sandbox runner and wall-clock timeouts. A run is an input value: `Coding.RunResult` (with `exit_code` 124 on timeout) or `PythonMission.ProcessRun`. `textwrap.dedent` of the submitted code is the input `prepared`.
- The storage filesystem. Saving an uploaded image is the input `saved` of `Admin.AdminStoreCreate`, which is either a path or the error message. Deleting a document or image appends its path to the ghost record `deletedFiles`. The path-containment check is not modelled.
- The clock. `datetime.now`/`utcnow` is the parameter `now`. `_ensure_aware` only attaches a time zone, so on integer timestamps it is the identity and has no member.
- `registration_is_open` reads `mission.starts_at` and `mission.registrations`, and neither exists on the `Mission` model. Likewise, `MissionRegistration` is used but not defined. The model takes the start time as the input `startsAt` and holds registrations as a set of (mission, user) pairs.
- `_mission_to_detail` passes `participant_count=` to `registration_is_open`, whose parameter is `registered_count`. Only the participant count is modelled (`Admin.ParticipantCount`); the detail payload is not.
- Replacing a mission's branch links relies on the ORM. The relationship has no delete-orphan cascade, so `mission.branches.clear()` would try to null a non-null key. `Admin.UpdateMissionBranch` models the intended effect: the links are removed.
- `Admin.UpdateMissionBranch` moves the first link in table order when only `branch_order` is sent. In the source, `mission.branches[0]` comes from a relationship loaded without an ORDER BY, so which link is first is up to the database.
- Deleting an artifact does not touch users' ownership rows, and neither does the model.
- Transactions, rollback and partial failures are not modelled. An error leaves the tables as the model's postconditions state. The progress row created by `submit_code` stays, as in the source. The onboarding row that `_ensure_state` creates is only flushed, and only a successful advance commits, so the source drops it on the other paths. The model keeps it, which cannot be observed, because `Onboarding.StateOf` reads a missing row as the defaults.
- Autoincrement ids are inputs or positions: a new store item's id is the parameter `newId`, an order's id is its index, and a progress row's id is its index.
- Ties in `created_at` among Python submissions follow table order (newest last).
- Ties that the database resolves are resolved by table order. `_eligible_rank` orders ranks only by `required_xp`, which is not unique. `sorted(branch.missions, key=order)` keeps the load order of a relationship that has no `order_by`, and `order` defaults to 1. The progress lookup is `.first()` without an ORDER BY. So `RankEngine.Eligible`, `RankEngine.EligibleRank`, `RankEngine.ApplyRankUpgrade`, `MissionRoutes.BuildBranchDependencies`, `MissionRoutes.MissionAvailability`, `Admin.BranchToRead` and `PythonMission.FirstProgress` choose among equal keys by table order. The source leaves that choice to the database: which of two equal-threshold ranks is picked, which of two same-order missions precedes the other, and which progress row is found.
- `PythonMission.StateOf`: the response schemas (`model_validate`) are not modelled, and the reported state carries rows, not read models.
- The order in which `_mission_availability` lists branch reasons follows set iteration. `MissionRoutes.MissionAvailability` states only that some enumeration of the uncompleted predecessors is used.
- `Coding.NormalizeIdempotent` requires that no CRLF pair is left after one pass. Without that condition the claim is false (`Coding.NormalizeNotIdempotent`).
- Python truthiness of ids: `if mission.artifact_id:` skips id 0, but the model grants any present artifact id. Database ids start at 1, so the two agree on stored rows.
- Dashboard statistics, the leaderboard, authentication, e-mail confirmation, configuration, seeding, migrations, schemas and the frontend are not part of this model. `build_progress_snapshot` is not part of this model either, because it has no source.
- Model invariants that no modelled operation reads or writes are carried only as fields: unique rank and branch titles, unique slide orders, unique challenge order within a mission, unique rank requirements, and the mission defaults. The unique reward per competency is the predicate `Models.MissionRowsUnique`, which `MissionService.DeltaSumOfUnique` uses.
- Store items listing, artifact and branch create/update endpoints, and the other mission fields of `update_mission_endpoint` are plain assignments and are not modelled.
