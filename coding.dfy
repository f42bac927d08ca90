/** The coding-mission evaluator: challenges unlock once every earlier one has a passing
    attempt, and the mission is approved automatically when all of them pass. */
module Coding {
  import opened Wrappers
  import opened Sets
  import opened Models
  import opened Db
  import opened Text
  import opened MissionService

  /** What the sandboxed interpreter reports for one run. A run cut off by the time limit
      reports exit code 124. */
  datatype RunResult = RunResult(stdout: string, stderr: string, exitCode: int, timeout: bool)

  predicate RunnerContract(run: RunResult) {
    run.timeout ==> run.exitCode == 124
  }

  /** `_normalize_output`: CRLF becomes LF and trailing LFs are dropped. */
  function NormalizeOutput(raw: string): (r: string)
    ensures r <= ReplaceCrlf(raw)
    ensures r == [] || r[|r| - 1] != '\n'
    ensures forall i :: |r| <= i < |ReplaceCrlf(raw)| ==> ReplaceCrlf(raw)[i] == '\n'
  {
    DropTrailing(ReplaceCrlf(raw), '\n')
  }

  /** Normalising again changes nothing once no CRLF pair is left after the first pass. */
  lemma NormalizeIdempotent(raw: string)
    requires !HasCrlf(NormalizeOutput(raw))
    ensures NormalizeOutput(NormalizeOutput(raw)) == NormalizeOutput(raw)
  {
    ReplaceCrlfIdentity(NormalizeOutput(raw));
  }

  /** Normalising is not idempotent in general: "\r\r\nx" keeps a CRLF after one pass. */
  lemma NormalizeNotIdempotent()
    ensures NormalizeOutput("\r\r\nx") == "\r\nx"
    ensures NormalizeOutput(NormalizeOutput("\r\r\nx")) == "\nx"
  {
    assert ReplaceCrlf("\r\r\nx") == "\r\nx" by {
      assert "\r\r\nx"[..3] == "\r\r\n";
      assert "\r\r\n"[..1] == "\r";
      assert "\r"[..0] == "";
    }
    assert ReplaceCrlf("\r\nx") == "\nx" by {
      assert "\r\nx"[..2] == "\r\n";
      assert "\r\n"[..0] == "";
    }
  }

  /** Text with every LF written as CRLF, as a Windows program would print it. */
  function WithCrlf(s: string): string {
    if |s| == 0 then ""
    else WithCrlf(s[..|s| - 1]) + (if s[|s| - 1] == '\n' then "\r\n" else [s[|s| - 1]])
  }

  /** Converting CRLF back to LF undoes writing LF as CRLF, for text without carriage returns. */
  lemma {:induction false} ReplaceCrlfUndoesWithCrlf(s: string)
    requires '\r' !in s
    ensures ReplaceCrlf(WithCrlf(s)) == s
    decreases |s|
  {
    if |s| > 0 {
      var init := s[..|s| - 1];
      var last := s[|s| - 1];
      assert s == init + [last];
      assert '\r' !in init;
      ReplaceCrlfUndoesWithCrlf(init);
      var w := WithCrlf(init);
      if last == '\n' {
        calc {
          ReplaceCrlf(WithCrlf(s));
          ReplaceCrlf(w + "\r\n");
          { ReplaceCrlfAppendCrlf(w); }
          ReplaceCrlf(w) + "\n";
          init + [last];
        }
      } else {
        calc {
          ReplaceCrlf(WithCrlf(s));
          ReplaceCrlf(w + [last]);
          { ReplaceCrlfAppendChar(w, last); }
          ReplaceCrlf(w) + [last];
          init + [last];
        }
      }
    }
  }

  /** Line endings written as CRLF grade the same as LF. */
  lemma CrlfGradesLikeLf(s: string)
    requires '\r' !in s
    ensures NormalizeOutput(WithCrlf(s)) == NormalizeOutput(s)
  {
    ReplaceCrlfUndoesWithCrlf(s);
    assert !HasCrlf(s) by {
      forall k | 0 <= k < |s| - 1 ensures s[k] != '\r' {
        assert s[k] in s;
      }
    }
    ReplaceCrlfIdentity(s);
  }

  /** Appending a line feed to text that does not end in a carriage return appends one to
      the converted text. */
  lemma ReplaceCrlfAppendLf(s: string)
    requires s == [] || s[|s| - 1] != '\r'
    ensures ReplaceCrlf(s + "\n") == ReplaceCrlf(s) + "\n"
  {
    assert (s + "\n")[..|s|] == s;
  }

  /** A trailing line feed does not matter, unless it completes a CRLF with a carriage
      return the output ended in. */
  lemma TrailingNewlineIgnored(s: string)
    requires s == [] || s[|s| - 1] != '\r'
    ensures NormalizeOutput(s + "\n") == NormalizeOutput(s)
  {
    ReplaceCrlfAppendLf(s);
    var t := ReplaceCrlf(s);
    assert (t + "\n")[..|t + "\n"| - 1] == t;
  }

  /** A carriage return at the end makes the trailing line feed count: "a\r" and "a\r\n" differ. */
  lemma TrailingNewlineAfterCr()
    ensures NormalizeOutput("a\r\n") == "a"
    ensures NormalizeOutput("a\r") == "a\r"
  {
    assert ReplaceCrlf("a") == "a" by {
      ReplaceCrlfAppendChar("", 'a');
      assert "" + ['a'] == "a";
    }
    assert ReplaceCrlf("a\r\n") == "a\n" by {
      ReplaceCrlfAppendCrlf("a");
      assert "a" + "\r\n" == "a\r\n";
    }
    assert ReplaceCrlf("a\r") == "a\r" by {
      ReplaceCrlfAppendChar("a", '\r');
      assert "a" + ['\r'] == "a\r";
    }
    assert "a\n"[..1] == "a";
  }

  /** A run passes when it exits with 0 and its normalised output equals the normalised expectation. */
  predicate Passes(run: RunResult, expectedOutput: string): (ok: bool)
    ensures ok ==> run.exitCode == 0
    ensures run.exitCode == 0 && run.stdout == expectedOutput ==> ok
  {
    run.exitCode == 0 && NormalizeOutput(run.stdout) == NormalizeOutput(expectedOutput)
  }

  /** A run that hit the time limit never passes. */
  lemma TimeoutNeverPasses(run: RunResult, expectedOutput: string)
    requires RunnerContract(run) && run.timeout
    ensures !Passes(run, expectedOutput)
  {
  }

  /** The challenges a user has a passing attempt for. */
  function SolvedIds(attempts: seq<CodingAttempt>, userId: nat): (solved: set<nat>)
    ensures forall id :: id in solved <==>
      exists a :: a in attempts && a.userId == userId && a.challengeId == id && a.isPassed
  {
    set a | a in attempts && a.userId == userId && a.isPassed :: a.challengeId
  }

  /** Every challenge of the same mission with a smaller order has a passing attempt by the user. */
  predicate EarlierSolved(challenges: seq<CodingChallenge>, attempts: seq<CodingAttempt>, challenge: CodingChallenge, userId: nat) {
    forall k :: 0 <= k < |challenges| && challenges[k].missionId == challenge.missionId && challenges[k].order < challenge.order
      ==> challenges[k].id in SolvedIds(attempts, userId)
  }

  /** `_ensure_previous_challenges_solved`: an error unless every earlier challenge of the
      mission has a passing attempt by the user. Retrying a solved challenge stays allowed. */
  method EnsurePreviousChallengesSolved(db: Session, challenge: CodingChallenge, userId: nat) returns (r: Option<Error>)
    ensures r.None? <==> EarlierSolved(db.codingChallenges, db.codingAttempts, challenge, userId)
    ensures r.Some? ==> r.value == BadRequest("Сначала решите предыдущие задачи этой миссии.")
  {
    var solved := SolvedIds(db.codingAttempts, userId);
    var i := 0;
    while i < |db.codingChallenges|
      invariant 0 <= i <= |db.codingChallenges|
      invariant forall k :: (0 <= k < i && db.codingChallenges[k].missionId == challenge.missionId
                                && db.codingChallenges[k].order < challenge.order) ==> db.codingChallenges[k].id in solved
    {
      var c := db.codingChallenges[i];
      if c.missionId == challenge.missionId && c.order < challenge.order && c.id !in solved {
        return Some(BadRequest("Сначала решите предыдущие задачи этой миссии."));
      }
      i := i + 1;
    }
    return None;
  }

  /** A challenge stays open after it is solved: a new attempt on it passes the order check again. */
  lemma RetryAllowed(challenges: seq<CodingChallenge>, attempts: seq<CodingAttempt>, challenge: CodingChallenge,
                     userId: nat, attempt: CodingAttempt)
    requires EarlierSolved(challenges, attempts, challenge, userId)
    ensures EarlierSolved(challenges, attempts + [attempt], challenge, userId)
  {
    forall k | 0 <= k < |challenges| && challenges[k].missionId == challenge.missionId && challenges[k].order < challenge.order
      ensures challenges[k].id in SolvedIds(attempts + [attempt], userId)
    {
      var a :| a in attempts && a.userId == userId && a.challengeId == challenges[k].id && a.isPassed;
      assert a in attempts + [attempt];
    }
  }

  /** The ids of a mission's challenges. */
  function ChallengeIds(challenges: seq<CodingChallenge>, missionId: nat): (ids: seq<nat>)
    ensures forall id :: id in ids <==> exists c :: c in challenges && c.missionId == missionId && c.id == id
  {
    if |challenges| == 0 then []
    else
      (if challenges[0].missionId == missionId then [challenges[0].id] else [])
      + ChallengeIds(challenges[1..], missionId)
  }

  lemma SubsetOfSameSize(a: set<nat>, b: set<nat>)
    requires a <= b && |a| == |b|
    ensures a == b
  {
    if a != b {
      var x :| x in b && x !in a;
      SubsetSize(a, b - {x});
    }
  }

  /** The finalisation condition: as many passed ids as challenge ids means every challenge passed. */
  lemma AllSolvedByCount(ids: set<nat>, solved: set<nat>)
    ensures |solved * ids| == |ids| <==> ids <= solved
  {
    if |solved * ids| == |ids| {
      SubsetOfSameSize(solved * ids, ids);
    }
    if ids <= solved {
      assert solved * ids == ids;
    }
  }

  const AutoComment := "Автоматическая проверка: все задания решены."

  /** The row the automatic approval leaves: the existing row, or a fresh one, with the automatic
      comment, credited with the mission's rewards. */
  function AutoApprovedRow(submissions: map<(nat, nat), Submission>, key: (nat, nat), mission: Mission): (t: Submission)
    ensures t.status.Approved? && t.comment == Some(AutoComment)
    ensures t.awardedXp == mission.xpReward && t.awardedMana == mission.manaReward
  {
    var base := if key in submissions then submissions[key] else NewSubmission();
    Credited(base.(comment := Some(AutoComment)), mission)
  }

  /** The user's submission, created if missing, gets the automatic comment. */
  method CommentAutomatically(db: Session, key: (nat, nat))
    modifies db`submissions
    ensures db.submissions == old(db.submissions)[key :=
      (if key in old(db.submissions) then old(db.submissions[key]) else NewSubmission()).(comment := Some(AutoComment))]
  {
    var base := if key in db.submissions then db.submissions[key] else NewSubmission();
    db.submissions := db.submissions[key := base.(comment := Some(AutoComment))];
  }

  /** Commenting the row and then approving it leaves `AutoApprovedRow` in its place. */
  lemma CommentedApproval(submissions: map<(nat, nat), Submission>, commented: map<(nat, nat), Submission>,
                          approved: map<(nat, nat), Submission>, key: (nat, nat), mission: Mission, row: Submission)
    requires commented == submissions[key :=
      (if key in submissions then submissions[key] else NewSubmission()).(comment := Some(AutoComment))]
    requires row == Credited(commented[key], mission)
    requires approved == commented[key := row]
    ensures approved == submissions[key := AutoApprovedRow(submissions, key, mission)]
  {
  }

  /** The approval half of `_finalize_mission_if_needed`: the user's submission is created if
      missing and, unless already approved, gets the automatic comment and is approved with
      everything `approve_submission` does. */
  method AutoApprove(db: Session, key: (nat, nat))
    requires key.0 in db.users && key.1 in db.missions
    modifies db`submissions, db`users, db`competencyLevels, db`ownedArtifacts, db`journal
    ensures AlreadyApproved(old(db.submissions), key)
      ==> unchanged(db`submissions, db`users, db`competencyLevels, db`ownedArtifacts, db`journal)
    ensures !AlreadyApproved(old(db.submissions), key) ==>
      db.submissions == old(db.submissions)[key := AutoApprovedRow(old(db.submissions), key, db.missions[key.1])]
    ensures !AlreadyApproved(old(db.submissions), key) ==>
      ApprovalEffect(key, db.missions[key.1], db.ranks, db.submissions, old(db.users), db.users,
                     old(db.competencyLevels), db.competencyLevels, old(db.ownedArtifacts), db.ownedArtifacts,
                     old(db.journal), db.journal)
  {
    if AlreadyApproved(db.submissions, key) {
      return;
    }
    ghost var submissions := db.submissions;
    CommentAutomatically(db, key);
    ghost var commented := db.submissions;
    var approved := ApproveSubmission(db, key);
    CommentedApproval(submissions, commented, db.submissions, key, db.missions[key.1], approved);
  }

  /** `_finalize_mission_if_needed`: once every challenge of the mission has a passing attempt,
      make sure the user's submission exists and approve it unless it is already approved. */
  method FinalizeMissionIfNeeded(db: Session, missionId: nat, userId: nat, challengeIds: seq<nat>) returns (completed: bool)
    requires userId in db.users && missionId in db.missions
    modifies db`submissions, db`users, db`competencyLevels, db`ownedArtifacts, db`journal
    ensures completed <==> |challengeIds| > 0 && (set id | id in challengeIds) <= SolvedIds(db.codingAttempts, userId)
    ensures !completed || AlreadyApproved(old(db.submissions), (userId, missionId))
      ==> unchanged(db`submissions, db`users, db`competencyLevels, db`ownedArtifacts, db`journal)
    ensures completed && !AlreadyApproved(old(db.submissions), (userId, missionId)) ==>
      db.submissions == old(db.submissions)[(userId, missionId) :=
                          AutoApprovedRow(old(db.submissions), (userId, missionId), db.missions[missionId])]
    ensures completed && !AlreadyApproved(old(db.submissions), (userId, missionId)) ==>
      ApprovalEffect((userId, missionId), db.missions[missionId], db.ranks, db.submissions, old(db.users), db.users,
                     old(db.competencyLevels), db.competencyLevels, old(db.ownedArtifacts), db.ownedArtifacts,
                     old(db.journal), db.journal)
  {
    if |challengeIds| == 0 {
      return false;
    }
    var ids := set id | id in challengeIds;
    var solved := SolvedIds(db.codingAttempts, userId) * ids;
    AllSolvedByCount(ids, SolvedIds(db.codingAttempts, userId));
    if |solved| != |ids| {
      return false;
    }
    AutoApprove(db, (userId, missionId));
    completed := true;
  }

  /** `evaluate_challenge`: refuse while an earlier challenge is unsolved; otherwise record exactly
      one attempt, passing or not, and after a pass try to finalise the mission. */
  method EvaluateChallenge(db: Session, challenge: CodingChallenge, userId: nat, code: string, run: RunResult)
    returns (r: Result<(CodingAttempt, bool), Error>)
    requires RunnerContract(run)
    requires userId in db.users
    modifies db`codingAttempts, db`submissions, db`users, db`competencyLevels, db`ownedArtifacts, db`journal
    ensures !EarlierSolved(old(db.codingChallenges), old(db.codingAttempts), challenge, userId) ==>
      r == Err(BadRequest("Сначала решите предыдущие задачи этой миссии."))
      && unchanged(db`codingAttempts, db`submissions, db`users, db`competencyLevels, db`ownedArtifacts, db`journal)
    ensures EarlierSolved(old(db.codingChallenges), old(db.codingAttempts), challenge, userId) ==>
      r.Ok?
      && r.value.0 == CodingAttempt(challenge.id, userId, code, run.stdout, run.stderr, run.exitCode,
                                    Passes(run, challenge.expectedOutput))
      && db.codingAttempts == old(db.codingAttempts) + [r.value.0]
    ensures db.users.Keys == old(db.users).Keys
    ensures r.Ok? ==>
      (r.value.1 <==> r.value.0.isPassed && challenge.missionId in db.missions
                      && |ChallengeIds(db.codingChallenges, challenge.missionId)| > 0
                      && (set id | id in ChallengeIds(db.codingChallenges, challenge.missionId))
                         <= SolvedIds(db.codingAttempts, userId))
    ensures r.Ok? && r.value.1 ==>
      (userId, challenge.missionId) in db.submissions
      && db.submissions[(userId, challenge.missionId)].status.Approved?
    ensures r.Ok? && r.value.1 && !AlreadyApproved(old(db.submissions), (userId, challenge.missionId)) ==>
      db.submissions == old(db.submissions)[(userId, challenge.missionId) :=
                          AutoApprovedRow(old(db.submissions), (userId, challenge.missionId), db.missions[challenge.missionId])]
      && ApprovalEffect((userId, challenge.missionId), db.missions[challenge.missionId], db.ranks, db.submissions,
                        old(db.users), db.users, old(db.competencyLevels), db.competencyLevels,
                        old(db.ownedArtifacts), db.ownedArtifacts, old(db.journal), db.journal)
    ensures r.Ok? && (!r.value.1 || AlreadyApproved(old(db.submissions), (userId, challenge.missionId))) ==>
      unchanged(db`submissions, db`users, db`competencyLevels, db`ownedArtifacts, db`journal)
  {
    var error := EnsurePreviousChallengesSolved(db, challenge, userId);
    if error.Some? {
      return Err(error.value);
    }
    var expected := NormalizeOutput(challenge.expectedOutput);
    var actual := NormalizeOutput(run.stdout);
    var isPassed := run.exitCode == 0 && actual == expected;
    var attempt := CodingAttempt(challenge.id, userId, code, run.stdout, run.stderr, run.exitCode, isPassed);
    db.codingAttempts := db.codingAttempts + [attempt];
    var missionCompleted := false;
    if isPassed && challenge.missionId in db.missions {
      missionCompleted := FinalizeMissionIfNeeded(db, challenge.missionId, userId,
                                                  ChallengeIds(db.codingChallenges, challenge.missionId));
    }
    r := Ok((attempt, missionCompleted));
  }

  /** The distinct challenges of a mission the user has passed. */
  function SolvedInMission(challenges: seq<CodingChallenge>, attempts: seq<CodingAttempt>, userId: nat, missionId: nat): set<nat> {
    set c | c in challenges && c.missionId == missionId && c.id in SolvedIds(attempts, userId) :: c.id
  }

  /** `count_completed_challenges`: for each listed mission with at least one passed challenge,
      the number of distinct passed challenges; missions with none are absent. */
  function CountCompletedChallenges(challenges: seq<CodingChallenge>, attempts: seq<CodingAttempt>,
                                    missionIds: seq<nat>, userId: nat): (counts: map<nat, nat>)
    ensures forall m :: m in counts <==> m in missionIds && SolvedInMission(challenges, attempts, userId, m) != {}
    ensures forall m :: m in counts ==> counts[m] == |SolvedInMission(challenges, attempts, userId, m)| && counts[m] > 0
  {
    map m | m in missionIds && SolvedInMission(challenges, attempts, userId, m) != {}
      :: |SolvedInMission(challenges, attempts, userId, m)|
  }

  /** A failed attempt changes no count. */
  lemma FailedAttemptNeverCounts(challenges: seq<CodingChallenge>, attempts: seq<CodingAttempt>,
                                 missionIds: seq<nat>, userId: nat, attempt: CodingAttempt)
    requires !attempt.isPassed
    ensures CountCompletedChallenges(challenges, attempts + [attempt], missionIds, userId)
            == CountCompletedChallenges(challenges, attempts, missionIds, userId)
  {
    assert SolvedIds(attempts + [attempt], userId) == SolvedIds(attempts, userId) by {
      forall id ensures id in SolvedIds(attempts + [attempt], userId) ==> id in SolvedIds(attempts, userId) {
        if id in SolvedIds(attempts + [attempt], userId) {
          var a :| a in attempts + [attempt] && a.userId == userId && a.challengeId == id && a.isPassed;
          assert a in attempts;
        }
      }
    }
  }

  /** A mission's count reaches its number of challenges exactly when every one of them has
      passed, which is the condition under which the mission is finalised. */
  lemma FullCountMeansFinalisable(challenges: seq<CodingChallenge>, attempts: seq<CodingAttempt>, userId: nat, missionId: nat)
    ensures var ids := set id | id in ChallengeIds(challenges, missionId);
      SolvedInMission(challenges, attempts, userId, missionId) <= ids
      && (|SolvedInMission(challenges, attempts, userId, missionId)| == |ids| <==> ids <= SolvedIds(attempts, userId))
  {
    var ids := set id | id in ChallengeIds(challenges, missionId);
    var solved := SolvedInMission(challenges, attempts, userId, missionId);
    assert solved == SolvedIds(attempts, userId) * ids;
    AllSolvedByCount(ids, SolvedIds(attempts, userId));
  }
}
