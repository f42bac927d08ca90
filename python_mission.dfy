/** The "Python basics" mission: challenges are solved strictly in order, each run is recorded,
    and finishing the last one files a pending submission for HR review. */
module PythonMission {
  import opened Wrappers
  import opened Models
  import opened Db
  import opened Text
  import opened Sorting
  import opened MissionService

  /** What the interpreter process reports: either it ran past the time limit, or it finished
      with captured streams (absent when nothing was captured) and a return code. */
  datatype ProcessRun = TimedOut | Finished(stdout: Option<string>, stderr: Option<string>, returnCode: int)

  /** `_normalize_stdout`: nothing becomes the empty text; otherwise CRLF becomes LF, trailing LFs
      are dropped and surrounding whitespace is stripped. */
  function NormalizeStdout(value: Option<string>): (r: string)
    ensures value.None? ==> r == ""
    ensures r == [] || (!IsSpace(r[0]) && !IsSpace(r[|r| - 1]))
  {
    match value
    case None => ""
    case Some(s) => Strip(DropTrailing(ReplaceCrlf(s), '\n'))
  }

  lemma {:induction false} RStripAfterDropTrailing(s: string)
    ensures RStripSpace(DropTrailing(s, '\n')) == RStripSpace(s)
    decreases |s|
  {
    if |s| > 0 && s[|s| - 1] == '\n' {
      RStripAfterDropTrailing(s[..|s| - 1]);
    }
  }

  /** Dropping trailing line feeds before stripping is redundant: the result is the stripped
      text with CRLF turned into LF. */
  lemma NormalizeIsStripOfLf(s: string)
    ensures NormalizeStdout(Some(s)) == Strip(ReplaceCrlf(s))
  {
    RStripAfterDropTrailing(ReplaceCrlf(s));
  }

  /** A run passes on return code 0 with equal normalised outputs. */
  predicate PythonPasses(returnCode: int, stdout: string, expectedOutput: string): (ok: bool)
    ensures ok ==> returnCode == 0
    ensures returnCode == 0 && stdout == expectedOutput ==> ok
  {
    returnCode == 0 && NormalizeStdout(Some(stdout)) == NormalizeStdout(Some(expectedOutput))
  }

  /** The first progress row of a user in a mission. */
  function FirstProgress(rows: seq<PythonUserProgress>, userId: nat, missionId: nat): (i: Option<nat>)
    ensures i.Some? ==> (i.value < |rows| && rows[i.value].userId == userId && rows[i.value].missionId == missionId
                         && forall k :: 0 <= k < i.value ==> !(rows[k].userId == userId && rows[k].missionId == missionId))
    ensures i.None? ==> forall k :: 0 <= k < |rows| ==> !(rows[k].userId == userId && rows[k].missionId == missionId)
  {
    if |rows| == 0 then None
    else if rows[0].userId == userId && rows[0].missionId == missionId then Some(0)
    else match FirstProgress(rows[1..], userId, missionId)
      case None => None
      case Some(j) => Some(j + 1)
  }

  /** The progress table once `get_progress` has run: a fresh row at order 0 is added when none exists. */
  function WithProgress(rows: seq<PythonUserProgress>, userId: nat, missionId: nat): seq<PythonUserProgress> {
    if FirstProgress(rows, userId, missionId).Some? then rows
    else rows + [PythonUserProgress(userId, missionId, 0, None)]
  }

  /** The index of the row `get_progress` returns. */
  function ProgressIndex(rows: seq<PythonUserProgress>, userId: nat, missionId: nat): (k: nat)
    ensures k < |WithProgress(rows, userId, missionId)|
    ensures WithProgress(rows, userId, missionId)[k].userId == userId
    ensures WithProgress(rows, userId, missionId)[k].missionId == missionId
  {
    FirstProgress(rows, userId, missionId).GetOr(|rows|)
  }

  /** A second lookup finds the row the first one returned or created, and adds nothing. */
  lemma GetProgressIdempotent(rows: seq<PythonUserProgress>, userId: nat, missionId: nat)
    ensures WithProgress(WithProgress(rows, userId, missionId), userId, missionId) == WithProgress(rows, userId, missionId)
    ensures ProgressIndex(WithProgress(rows, userId, missionId), userId, missionId) == ProgressIndex(rows, userId, missionId)
  {
    var first := FirstProgress(rows, userId, missionId);
    var rows' := WithProgress(rows, userId, missionId);
    var again := FirstProgress(rows', userId, missionId);
    if first.Some? {
      assert again == first by {
        if again.None? {
          assert false;
        } else if again.value < first.value {
          assert false;
        } else if again.value > first.value {
          assert false;
        }
      }
    } else {
      assert rows'[|rows|].userId == userId && rows'[|rows|].missionId == missionId;
      assert again.Some? && again.value == |rows|;
    }
  }

  /** `get_progress`: return the user's progress row in the mission, creating one at order 0 first. */
  method GetProgress(db: Session, userId: nat, missionId: nat) returns (k: nat)
    modifies db`pythonProgress
    ensures db.pythonProgress == WithProgress(old(db.pythonProgress), userId, missionId)
    ensures k == ProgressIndex(old(db.pythonProgress), userId, missionId)
  {
    var i := 0;
    while i < |db.pythonProgress|
      invariant 0 <= i <= |db.pythonProgress|
      invariant forall j :: 0 <= j < i ==> !(db.pythonProgress[j].userId == userId && db.pythonProgress[j].missionId == missionId)
    {
      if db.pythonProgress[i].userId == userId && db.pythonProgress[i].missionId == missionId {
        ghost var first := FirstProgress(db.pythonProgress, userId, missionId);
        assert first == Some(i) by {
          if first.None? || first.value != i {
            assert false;
          }
        }
        return i;
      }
      i := i + 1;
    }
    k := |db.pythonProgress|;
    db.pythonProgress := db.pythonProgress + [PythonUserProgress(userId, missionId, 0, None)];
  }

  /** The mission's challenges in table order. */
  function MissionChallenges(challenges: seq<PythonChallenge>, missionId: nat): (r: seq<PythonChallenge>)
    ensures |r| <= |challenges|
    ensures forall c :: c in r <==> c in challenges && c.missionId == missionId
  {
    if |challenges| == 0 then []
    else (if challenges[0].missionId == missionId then [challenges[0]] else [])
         + MissionChallenges(challenges[1..], missionId)
  }

  function ChallengeOrder(c: PythonChallenge): int { c.order }

  /** The challenge with this id, provided it belongs to the mission. */
  function FindChallenge(challenges: seq<PythonChallenge>, challengeId: nat, missionId: nat): (r: Option<PythonChallenge>)
    ensures r.Some? ==> r.value in challenges && r.value.id == challengeId && r.value.missionId == missionId
    ensures r.None? ==> forall c :: c in challenges ==> !(c.id == challengeId && c.missionId == missionId)
  {
    if |challenges| == 0 then None
    else if challenges[0].id == challengeId && challenges[0].missionId == missionId then Some(challenges[0])
    else FindChallenge(challenges[1..], challengeId, missionId)
  }

  /** The submissions recorded against one progress row, oldest first. */
  function RowSubmissions(submissions: seq<PythonSubmission>, progressId: nat): (r: seq<PythonSubmission>)
    ensures |r| <= |submissions|
    ensures forall s :: s in r <==> s in submissions && s.progressId == progressId
  {
    if |submissions| == 0 then []
    else RowSubmissions(submissions[..|submissions| - 1], progressId)
         + (if submissions[|submissions| - 1].progressId == progressId then [submissions[|submissions| - 1]] else [])
  }

  /** The newest `n` entries, newest first. */
  function NewestFirst<T>(s: seq<T>, n: nat): (r: seq<T>)
    ensures |r| == if n < |s| then n else |s|
    ensures forall k :: 0 <= k < |r| ==> r[k] == s[|s| - 1 - k]
  {
    if |s| == 0 || n == 0 then [] else [s[|s| - 1]] + NewestFirst(s[..|s| - 1], n - 1)
  }

  /** The code of the newest submission in `s` for `challengeId`, or of any challenge when none is given. */
  function LastCode(s: seq<PythonSubmission>, challengeId: Option<nat>): (code: Option<string>)
    ensures code.Some? ==> (exists k :: 0 <= k < |s| && s[k].code == code.value
                             && (challengeId.Some? ==> s[k].challengeId == challengeId.value)
                             && forall j :: k < j < |s| ==> challengeId.Some? && s[j].challengeId != challengeId.value)
    ensures code.None? ==> forall k :: 0 <= k < |s| ==> challengeId.Some? && s[k].challengeId != challengeId.value
  {
    if |s| == 0 then None
    else if challengeId.None? || s[|s| - 1].challengeId == challengeId.value then Some(s[|s| - 1].code)
    else LastCode(s[..|s| - 1], challengeId)
  }

  datatype PythonMissionState = PythonMissionState(
    missionId: nat,
    totalChallenges: nat,
    completedChallenges: nat,
    isCompleted: bool,
    nextChallenge: Option<PythonChallenge>,
    lastSubmissions: seq<PythonSubmission>,
    lastCode: Option<string>)

  /** What `build_state` reports for a progress row: the count of challenges solved, the next one
      in order while any remain, the five newest runs and the code last tried. */
  function StateOf(challenges: seq<PythonChallenge>, submissions: seq<PythonSubmission>,
                   progressId: nat, progress: PythonUserProgress, missionId: nat): (state: PythonMissionState)
    ensures state.totalChallenges == |MissionChallenges(challenges, missionId)|
    ensures state.completedChallenges == progress.currentOrder
    ensures state.isCompleted <==> state.nextChallenge.None?
    ensures state.isCompleted <==> progress.currentOrder >= state.totalChallenges
    ensures state.nextChallenge.Some? ==>
      state.nextChallenge.value in challenges && state.nextChallenge.value.missionId == missionId
    ensures var ordered := SortBy(MissionChallenges(challenges, missionId), ChallengeOrder);
      state.nextChallenge == if progress.currentOrder < |ordered| then Some(ordered[progress.currentOrder]) else None
    ensures |state.lastSubmissions| <= 5
    ensures forall s :: s in state.lastSubmissions ==> s in submissions && s.progressId == progressId
    ensures state.lastSubmissions == NewestFirst(RowSubmissions(submissions, progressId), 5)
    ensures state.lastCode == LastCode(RowSubmissions(submissions, progressId),
                                       if state.nextChallenge.Some? then Some(state.nextChallenge.value.id) else None)
  {
    var ordered := SortBy(MissionChallenges(challenges, missionId), ChallengeOrder);
    MembersOfSorted(MissionChallenges(challenges, missionId), ChallengeOrder, if |ordered| > 0 then ordered[0] else PythonChallenge(0, 0, 0, None, ""));
    var total := |ordered|;
    var completed := progress.currentOrder;
    var mine := RowSubmissions(submissions, progressId);
    var next := if completed < total then Some(ordered[completed]) else None;
    assert next.Some? ==> next.value in MissionChallenges(challenges, missionId) by {
      if next.Some? {
        MembersOfSorted(MissionChallenges(challenges, missionId), ChallengeOrder, next.value);
      }
    }
    var recent := NewestFirst(mine, 5);
    assert forall s :: s in recent ==> s in mine by {
      forall s | s in recent ensures s in mine {
        var k :| 0 <= k < |recent| && recent[k] == s;
        assert mine[|mine| - 1 - k] == s;
      }
    }
    PythonMissionState(
      missionId, total, completed, completed >= total, next, recent,
      LastCode(mine, if next.Some? then Some(next.value.id) else None))
  }

  /** `build_state`: look up (or create) the progress row and project the mission state from it. */
  method BuildState(db: Session, userId: nat, missionId: nat) returns (state: PythonMissionState)
    modifies db`pythonProgress
    ensures db.pythonProgress == WithProgress(old(db.pythonProgress), userId, missionId)
    ensures var k := ProgressIndex(old(db.pythonProgress), userId, missionId);
      state == StateOf(db.pythonChallenges, db.pythonSubmissions, k, db.pythonProgress[k], missionId)
  {
    var k := GetProgress(db, userId, missionId);
    state := StateOf(db.pythonChallenges, db.pythonSubmissions, k, db.pythonProgress[k], missionId);
  }

  const PythonComment := "Задачи Python-миссии решены"

  /** The row `ensure_mission_completed` files through `submit_mission`: the existing row, or a
      fresh one, pending with the fixed comment, no proof and its documents kept. */
  function FiledRow(submissions: map<(nat, nat), Submission>, key: (nat, nat)): (t: Submission)
    ensures t.status == Pending && t.comment == Some(PythonComment) && t.proofUrl == None
  {
    var base := if key in submissions then submissions[key] else NewSubmission();
    Resubmitted(base, Some(PythonComment), None, Keep, Keep, Keep, Keep)
  }

  /** `ensure_mission_completed`: file a pending submission for the mission unless it is already approved. */
  method EnsureMissionCompleted(db: Session, userId: nat, missionId: nat)
    requires missionId in db.missions
    modifies db`submissions, db`journal, db`deletedFiles
    ensures AlreadyApproved(old(db.submissions), (userId, missionId)) ==>
      unchanged(db`submissions, db`journal, db`deletedFiles)
    ensures !AlreadyApproved(old(db.submissions), (userId, missionId)) ==>
      db.submissions == old(db.submissions)[(userId, missionId) := FiledRow(old(db.submissions), (userId, missionId))]
      && db.deletedFiles == old(db.deletedFiles)
      && db.journal == old(db.journal) + [SubmittedEntry(userId, missionId, db.missions[missionId].title)]
  {
    if AlreadyApproved(db.submissions, (userId, missionId)) {
      return;
    }
    var _ := SubmitMission(db, userId, missionId, Some(PythonComment), None);
  }

  /** The progress row after a passing run of `challenge`: the order moves to the challenge's, and
      the finishing time is set once that reaches the number of challenges. */
  function Advanced(p: PythonUserProgress, challenge: PythonChallenge, total: nat, now: int): (q: PythonUserProgress)
    requires challenge.order == p.currentOrder + 1
    ensures q.userId == p.userId && q.missionId == p.missionId
    ensures q.currentOrder == p.currentOrder + 1
    ensures q.completedAt == if q.currentOrder >= total then Some(now) else p.completedAt
  {
    var order := challenge.order;
    p.(currentOrder := order, completedAt := if order >= total then Some(now) else p.completedAt)
  }

  /** The passing branch of `submit_code`: the row advances to the challenge and, once that is
      the last one, the mission submission is filed. */
  method AdvanceProgress(db: Session, userId: nat, missionId: nat, k: nat, challenge: PythonChallenge, now: int)
    requires missionId in db.missions
    requires k < |db.pythonProgress| && challenge.order == db.pythonProgress[k].currentOrder + 1
    modifies db`pythonProgress, db`submissions, db`journal, db`deletedFiles
    ensures db.pythonProgress == old(db.pythonProgress)[k := Advanced(old(db.pythonProgress[k]), challenge,
                                                                      |MissionChallenges(db.pythonChallenges, missionId)|, now)]
    ensures if challenge.order >= |MissionChallenges(db.pythonChallenges, missionId)|
               && !AlreadyApproved(old(db.submissions), (userId, missionId)) then
        db.submissions == old(db.submissions)[(userId, missionId) := FiledRow(old(db.submissions), (userId, missionId))]
        && db.deletedFiles == old(db.deletedFiles)
        && db.journal == old(db.journal) + [SubmittedEntry(userId, missionId, db.missions[missionId].title)]
      else unchanged(db`submissions, db`journal, db`deletedFiles)
  {
    var total := |MissionChallenges(db.pythonChallenges, missionId)|;
    db.pythonProgress := db.pythonProgress[k := Advanced(db.pythonProgress[k], challenge, total, now)];
    if challenge.order >= total {
      EnsureMissionCompleted(db, userId, missionId);
    }
  }

  /** Record one finished run against progress row `k` and, on a pass, advance the row and
      finish the mission after its last challenge. */
  method RecordRun(db: Session, userId: nat, missionId: nat, k: nat, challenge: PythonChallenge, prepared: string,
                   out: string, err: string, returnCode: int, now: int)
    returns (submission: PythonSubmission)
    requires missionId in db.missions
    requires k < |db.pythonProgress| && challenge.order == db.pythonProgress[k].currentOrder + 1
    modifies db`pythonProgress, db`pythonSubmissions, db`submissions, db`journal, db`deletedFiles
    ensures submission == PythonSubmission(k, challenge.id, prepared, Some(out), Some(err),
                                           PythonPasses(returnCode, out, challenge.expectedOutput))
    ensures db.pythonSubmissions == old(db.pythonSubmissions) + [submission]
    ensures db.pythonProgress == if submission.isPassed
      then old(db.pythonProgress)[k := Advanced(old(db.pythonProgress[k]), challenge, |MissionChallenges(db.pythonChallenges, missionId)|, now)]
      else old(db.pythonProgress)
    ensures var finished := submission.isPassed && challenge.order >= |MissionChallenges(db.pythonChallenges, missionId)|;
      if finished && !AlreadyApproved(old(db.submissions), (userId, missionId)) then
        db.submissions == old(db.submissions)[(userId, missionId) := FiledRow(old(db.submissions), (userId, missionId))]
        && db.deletedFiles == old(db.deletedFiles)
        && db.journal == old(db.journal) + [SubmittedEntry(userId, missionId, db.missions[missionId].title)]
      else unchanged(db`submissions, db`journal, db`deletedFiles)
  {
    var passed := returnCode == 0 && NormalizeStdout(Some(out)) == NormalizeStdout(Some(challenge.expectedOutput));
    submission := PythonSubmission(k, challenge.id, prepared, Some(out), Some(err), passed);
    db.pythonSubmissions := db.pythonSubmissions + [submission];
    if passed {
      AdvanceProgress(db, userId, missionId, k, challenge, now);
    }
  }

  /** `submit_code`. The progress row is created first and stays even when the call then fails.
      An unknown challenge, one out of turn, and a run past the time limit are refused without
      recording anything; otherwise exactly one submission is recorded and a pass advances the
      progress by one challenge, finishing the mission after the last. `prepared` stands for the
      dedented code. */
  method SubmitCode(db: Session, userId: nat, missionId: nat, challengeId: nat, prepared: string,
                    run: ProcessRun, now: int)
    returns (r: Result<PythonSubmission, Error>)
    requires missionId in db.missions
    modifies db`pythonProgress, db`pythonSubmissions, db`submissions, db`journal, db`deletedFiles
    ensures var found := FindChallenge(db.pythonChallenges, challengeId, missionId);
      found.None? ==> r == Err(NotFound("Задание не найдено"))
    ensures var table := WithProgress(old(db.pythonProgress), userId, missionId);
      var found := FindChallenge(db.pythonChallenges, challengeId, missionId);
      found.Some? && found.value.order != table[ProgressIndex(old(db.pythonProgress), userId, missionId)].currentOrder + 1
      ==> r == Err(BadRequest("Сначала выполните предыдущее задание"))
    ensures var table := WithProgress(old(db.pythonProgress), userId, missionId);
      var found := FindChallenge(db.pythonChallenges, challengeId, missionId);
      (found.Some? && found.value.order == table[ProgressIndex(old(db.pythonProgress), userId, missionId)].currentOrder + 1
       && run.TimedOut?) ==> r == Err(BadRequest("Время выполнения превышено"))
    ensures r.Err? ==> (db.pythonProgress == WithProgress(old(db.pythonProgress), userId, missionId)
                        && unchanged(db`pythonSubmissions, db`submissions, db`journal, db`deletedFiles))
    ensures var table := WithProgress(old(db.pythonProgress), userId, missionId);
      var found := FindChallenge(db.pythonChallenges, challengeId, missionId);
      (found.Some? && found.value.order == table[ProgressIndex(old(db.pythonProgress), userId, missionId)].currentOrder + 1
       && run.Finished?) ==>
        (r.Ok? && r.value == PythonSubmission(ProgressIndex(old(db.pythonProgress), userId, missionId),
           challengeId, prepared, Some(run.stdout.GetOr("")), Some(run.stderr.GetOr("")),
           PythonPasses(run.returnCode, run.stdout.GetOr(""), found.value.expectedOutput)))
    ensures r.Ok? ==> db.pythonSubmissions == old(db.pythonSubmissions) + [r.value]
    ensures var table := WithProgress(old(db.pythonProgress), userId, missionId);
      var k := ProgressIndex(old(db.pythonProgress), userId, missionId);
      var found := FindChallenge(db.pythonChallenges, challengeId, missionId);
      r.Ok? ==>
        (found.Some? && found.value.order == table[k].currentOrder + 1
         && db.pythonProgress == if r.value.isPassed
              then table[k := Advanced(table[k], found.value, |MissionChallenges(db.pythonChallenges, missionId)|, now)]
              else table)
    ensures var finished := r.Ok? && r.value.isPassed
              && db.pythonProgress[r.value.progressId].currentOrder >= |MissionChallenges(db.pythonChallenges, missionId)|;
      if finished && !AlreadyApproved(old(db.submissions), (userId, missionId)) then
        db.submissions == old(db.submissions)[(userId, missionId) := FiledRow(old(db.submissions), (userId, missionId))]
        && db.deletedFiles == old(db.deletedFiles)
        && db.journal == old(db.journal) + [SubmittedEntry(userId, missionId, db.missions[missionId].title)]
      else unchanged(db`submissions, db`journal, db`deletedFiles)
  {
    var k := GetProgress(db, userId, missionId);
    var found := FindChallenge(db.pythonChallenges, challengeId, missionId);
    if found.None? {
      return Err(NotFound("Задание не найдено"));
    }
    var challenge := found.value;
    if challenge.order != db.pythonProgress[k].currentOrder + 1 {
      return Err(BadRequest("Сначала выполните предыдущее задание"));
    }
    if run.TimedOut? {
      return Err(BadRequest("Время выполнения превышено"));
    }
    var submission := RecordRun(db, userId, missionId, k, challenge, prepared, run.stdout.GetOr(""),
                                run.stderr.GetOr(""), run.returnCode, now);
    r := Ok(submission);
  }

  /** A pass is seen by `build_state` as one more solved challenge, and a state reported as
      complete after it comes with the finishing time just set. */
  lemma PassAdvancesState(challenges: seq<PythonChallenge>, submissions: seq<PythonSubmission>, k: nat,
                          p: PythonUserProgress, challenge: PythonChallenge, now: int, missionId: nat)
    requires challenge.order == p.currentOrder + 1
    ensures var total := |MissionChallenges(challenges, missionId)|;
      var q := Advanced(p, challenge, total, now);
      var before := StateOf(challenges, submissions, k, p, missionId);
      var after := StateOf(challenges, submissions, k, q, missionId);
      after.completedChallenges == before.completedChallenges + 1
      && (after.isCompleted ==> q.completedAt == Some(now))
      && (before.isCompleted ==> after.isCompleted)
  {
  }
}
