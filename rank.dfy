/** The rank engine: which rank a pilot's XP, approved missions and competency
    levels entitle them to, and the upgrade that records it. */
module RankEngine {
  import opened Wrappers
  import opened Models
  import opened Db
  import opened Sorting
  import opened Journal

  /** The missions the user has an approved submission for. */
  function CompletedMissions(submissions: map<(nat, nat), Submission>, userId: nat): (done: set<nat>)
    ensures forall m :: m in done <==> (userId, m) in submissions && submissions[(userId, m)].status.Approved?
  {
    set k | k in submissions && k.0 == userId && submissions[k].status.Approved? :: k.1
  }

  /** The user's competency levels, keyed by competency id. */
  function UserLevels(levels: map<(nat, nat), int>, userId: nat): (r: map<nat, int>)
    ensures forall c :: c in r <==> (userId, c) in levels
    ensures forall c :: c in r ==> r[c] == levels[(userId, c)]
  {
    map k | k in levels && k.0 == userId :: k.1 := levels[k]
  }

  /** A competency the user has no row for is at level 0. */
  function LevelOf(levels: map<nat, int>, competency: nat): int {
    if competency in levels then levels[competency] else 0
  }

  predicate MissionsMet(rank: Rank, done: set<nat>) {
    forall i :: 0 <= i < |rank.missionRequirements| ==> rank.missionRequirements[i] in done
  }

  predicate CompetenciesMet(rank: Rank, levels: map<nat, int>) {
    forall i :: 0 <= i < |rank.competencyRequirements| ==>
      LevelOf(levels, rank.competencyRequirements[i].competency) >= rank.competencyRequirements[i].requiredLevel
  }

  /** A rank the user holds: its XP threshold is reached and all its requirements hold. */
  predicate Earned(rank: Rank, xp: int, done: set<nat>, levels: map<nat, int>) {
    rank.requiredXp <= xp && MissionsMet(rank, done) && CompetenciesMet(rank, levels)
  }

  function RequiredXp(rank: Rank): int {
    rank.requiredXp
  }

  /** The last rank of `ranks` the user has earned. */
  function LastEarned(ranks: seq<Rank>, xp: int, done: set<nat>, levels: map<nat, int>): (r: Option<Rank>)
    ensures r.Some? ==> r.value in ranks && r.value.requiredXp <= xp
  {
    if |ranks| == 0 then None
    else if Earned(ranks[|ranks| - 1], xp, done, levels) then Some(ranks[|ranks| - 1])
    else LastEarned(ranks[..|ranks| - 1], xp, done, levels)
  }

  /** The rank `_eligible_rank` picks for the user in the given tables. */
  function Eligible(ranks: seq<Rank>, userId: nat, xp: int, submissions: map<(nat, nat), Submission>,
                    levels: map<(nat, nat), int>): (r: Option<Rank>)
    ensures r.Some? ==> r.value.requiredXp <= xp
    ensures r.Some? ==> Earned(r.value, xp, CompletedMissions(submissions, userId), UserLevels(levels, userId))
  {
    LastEarnedSound(SortBy(ranks, RequiredXp), xp, CompletedMissions(submissions, userId), UserLevels(levels, userId));
    LastEarned(SortBy(ranks, RequiredXp), xp, CompletedMissions(submissions, userId), UserLevels(levels, userId))
  }

  lemma {:induction false} LastEarnedSound(ranks: seq<Rank>, xp: int, done: set<nat>, levels: map<nat, int>)
    ensures LastEarned(ranks, xp, done, levels).Some? ==> Earned(LastEarned(ranks, xp, done, levels).value, xp, done, levels)
  {
    if |ranks| > 0 && !Earned(ranks[|ranks| - 1], xp, done, levels) {
      LastEarnedSound(ranks[..|ranks| - 1], xp, done, levels);
    }
  }

  lemma {:induction false} LastEarnedNone(ranks: seq<Rank>, xp: int, done: set<nat>, levels: map<nat, int>)
    ensures LastEarned(ranks, xp, done, levels).None? <==> forall r :: r in ranks ==> !Earned(r, xp, done, levels)
  {
    if |ranks| > 0 && !Earned(ranks[|ranks| - 1], xp, done, levels) {
      var init := ranks[..|ranks| - 1];
      LastEarnedNone(init, xp, done, levels);
      assert ranks == init + [ranks[|ranks| - 1]];
    }
  }

  /** Every earned rank at or after the chosen one's position is the chosen one:
      the result is the earned rank that comes last in scan order. */
  lemma {:induction false} LastEarnedIsLast(ranks: seq<Rank>, xp: int, done: set<nat>, levels: map<nat, int>)
    ensures LastEarned(ranks, xp, done, levels).Some? ==>
      exists k :: 0 <= k < |ranks| && ranks[k] == LastEarned(ranks, xp, done, levels).value
        && forall j :: k < j < |ranks| ==> !Earned(ranks[j], xp, done, levels)
  {
    var r := LastEarned(ranks, xp, done, levels);
    if |ranks| > 0 {
      var n := |ranks| - 1;
      if Earned(ranks[n], xp, done, levels) {
        assert 0 <= n < |ranks| && ranks[n] == r.value;
      } else if r.Some? {
        var init := ranks[..n];
        LastEarnedIsLast(init, xp, done, levels);
        var k :| 0 <= k < |init| && init[k] == r.value && forall j :: k < j < |init| ==> !Earned(init[j], xp, done, levels);
        forall j | k < j < |ranks| ensures !Earned(ranks[j], xp, done, levels) {
          if j < n {
            assert ranks[j] == init[j];
          }
        }
        assert ranks[k] == r.value;
      }
    }
  }

  /** Ranks beyond the first one whose threshold exceeds the user's XP cannot change the result. */
  lemma {:induction false} LastEarnedStopsAtShortfall(ranks: seq<Rank>, i: nat, xp: int, done: set<nat>, levels: map<nat, int>)
    requires i <= |ranks|
    requires forall j :: i <= j < |ranks| ==> xp < ranks[j].requiredXp
    ensures LastEarned(ranks, xp, done, levels) == LastEarned(ranks[..i], xp, done, levels)
    decreases |ranks|
  {
    if |ranks| > i {
      assert ranks[..|ranks| - 1][..i] == ranks[..i];
      LastEarnedStopsAtShortfall(ranks[..|ranks| - 1], i, xp, done, levels);
    } else {
      assert ranks[..i] == ranks;
    }
  }

  /** Scanning one more rank: it wins if earned, otherwise the earlier result stands. */
  lemma LastEarnedExtend(ranks: seq<Rank>, i: nat, xp: int, done: set<nat>, levels: map<nat, int>)
    requires i < |ranks|
    ensures LastEarned(ranks[..i + 1], xp, done, levels)
            == if Earned(ranks[i], xp, done, levels) then Some(ranks[i]) else LastEarned(ranks[..i], xp, done, levels)
  {
    assert ranks[..i + 1][..i] == ranks[..i];
  }

  /** The requirement checks of one rank in `_eligible_rank`: every required mission approved,
      every required competency at its level. */
  method RequirementsHold(rank: Rank, done: set<nat>, levels: map<nat, int>) returns (ok: bool)
    ensures ok <==> MissionsMet(rank, done) && CompetenciesMet(rank, levels)
  {
    var missionsOk := forall k :: 0 <= k < |rank.missionRequirements| ==> rank.missionRequirements[k] in done;
    var competenciesOk := forall k :: 0 <= k < |rank.competencyRequirements| ==>
      LevelOf(levels, rank.competencyRequirements[k].competency) >= rank.competencyRequirements[k].requiredLevel;
    ok := missionsOk && competenciesOk;
  }

  /** `_eligible_rank`: scan the ranks in ascending `required_xp`, stop at the first one
      the user's XP does not reach, and keep the last one whose requirements all hold. */
  method EligibleRank(db: Session, userId: nat) returns (candidate: Option<Rank>)
    requires userId in db.users
    ensures candidate == Eligible(db.ranks, userId, db.users[userId].xp, db.submissions, db.competencyLevels)
  {
    var user := db.users[userId];
    var ranks := SortBy(db.ranks, RequiredXp);
    SortBySorted(db.ranks, RequiredXp);
    var done := CompletedMissions(db.submissions, userId);
    var levels := UserLevels(db.competencyLevels, userId);
    candidate := None;
    var i := 0;
    while i < |ranks|
      invariant 0 <= i <= |ranks|
      invariant forall j :: 0 <= j < i ==> ranks[j].requiredXp <= user.xp
      invariant candidate == LastEarned(ranks[..i], user.xp, done, levels)
    {
      var rank := ranks[i];
      if user.xp < rank.requiredXp {
        forall j | i <= j < |ranks| ensures user.xp < ranks[j].requiredXp {
          if j > i {
            assert RequiredXp(ranks[i]) <= RequiredXp(ranks[j]);
          }
        }
        LastEarnedStopsAtShortfall(ranks, i, user.xp, done, levels);
        return;
      }
      var requirementsOk := RequirementsHold(rank, done, levels);
      LastEarnedExtend(ranks, i, user.xp, done, levels);
      if requirementsOk {
        candidate := Some(rank);
      }
      i := i + 1;
    }
    assert ranks[..i] == ranks;
  }

  /** What the engine returns is a rank of the table that the user has earned,
      and it returns nothing exactly when no rank of the table is earned. */
  lemma EligibleSound(ranks: seq<Rank>, userId: nat, xp: int, submissions: map<(nat, nat), Submission>, levels: map<(nat, nat), int>)
    ensures var e := Eligible(ranks, userId, xp, submissions, levels);
      var done := CompletedMissions(submissions, userId);
      var lv := UserLevels(levels, userId);
      (e.Some? ==> e.value in ranks && e.value.requiredXp <= xp && Earned(e.value, xp, done, lv))
      && (e.None? <==> forall r :: r in ranks ==> !Earned(r, xp, done, lv))
  {
    var sorted := SortBy(ranks, RequiredXp);
    var done := CompletedMissions(submissions, userId);
    var lv := UserLevels(levels, userId);
    LastEarnedNone(sorted, xp, done, lv);
    forall r ensures r in sorted <==> r in ranks {
      MembersOfSorted(ranks, RequiredXp, r);
    }
  }

  /** Among the earned ranks the engine picks one with the highest XP threshold. */
  lemma EligibleHighest(ranks: seq<Rank>, userId: nat, xp: int, submissions: map<(nat, nat), Submission>,
                        levels: map<(nat, nat), int>, r: Rank)
    requires r in ranks && Earned(r, xp, CompletedMissions(submissions, userId), UserLevels(levels, userId))
    ensures Eligible(ranks, userId, xp, submissions, levels).Some?
    ensures r.requiredXp <= Eligible(ranks, userId, xp, submissions, levels).value.requiredXp
  {
    var sorted := SortBy(ranks, RequiredXp);
    var done := CompletedMissions(submissions, userId);
    var lv := UserLevels(levels, userId);
    MembersOfSorted(ranks, RequiredXp, r);
    SortBySorted(ranks, RequiredXp);
    LastEarnedNone(sorted, xp, done, lv);
    LastEarnedIsLast(sorted, xp, done, lv);
    var e := LastEarned(sorted, xp, done, lv).value;
    var k :| 0 <= k < |sorted| && sorted[k] == e && forall j :: k < j < |sorted| ==> !Earned(sorted[j], xp, done, lv);
    var p :| 0 <= p < |sorted| && sorted[p] == r;
    assert p <= k;
    if p < k {
      assert RequiredXp(sorted[p]) <= RequiredXp(sorted[k]);
    }
  }

  /** A rank whose requirements fail does not hold back a higher rank whose requirements
      hold: with a required mission missing at 0 XP, 100 XP of a requirement-free rank still wins. */
  lemma NotAStaircase()
    ensures
      var low := Rank(1, "Курсант", 0, [7], []);
      var high := Rank(2, "Штурман", 100, [], []);
      Eligible([low, high], 5, 150, map[], map[]) == Some(high)
  {
    var low := Rank(1, "Курсант", 0, [7], []);
    var high := Rank(2, "Штурман", 100, [], []);
    var done := CompletedMissions(map[], 5);
    assert !MissionsMet(low, done) by { assert low.missionRequirements[0] == 7; }
    assert SortBy([low, high], RequiredXp) == [low, high] by {
      assert SortBy([high], RequiredXp) == [high];
    }
  }

  /** More XP never yields a lower-threshold rank: earning more only moves the pilot up. */
  lemma EligibleMonotoneInXp(ranks: seq<Rank>, userId: nat, xp: int, xp2: int, submissions: map<(nat, nat), Submission>,
                             levels: map<(nat, nat), int>)
    requires xp <= xp2
    requires Eligible(ranks, userId, xp, submissions, levels).Some?
    ensures Eligible(ranks, userId, xp2, submissions, levels).Some?
    ensures Eligible(ranks, userId, xp, submissions, levels).value.requiredXp
            <= Eligible(ranks, userId, xp2, submissions, levels).value.requiredXp
  {
    var e := Eligible(ranks, userId, xp, submissions, levels).value;
    EligibleSound(ranks, userId, xp, submissions, levels);
    EligibleHighest(ranks, userId, xp2, submissions, levels, e);
  }

  /** The rank id the user holds after `apply_rank_upgrade` when `e` is the eligible rank. */
  function RankAfter(previous: Option<nat>, e: Option<Rank>): Option<nat> {
    if e.Some? then Some(e.value.id) else previous
  }

  /** The RANK_UP entry `apply_rank_upgrade` logs: one when the eligible rank is not the one
      already held, none otherwise. */
  function RankLog(userId: nat, previous: Option<nat>, e: Option<Rank>): (log: seq<JournalEntry>)
    ensures |log| <= 1
    ensures log != [] <==> e.Some? && previous != Some(e.value.id)
    ensures log != [] ==> log[0].userId == userId && log[0].eventType == RankUp
  {
    if e.None? || previous == Some(e.value.id) then []
    else [JournalEntry(userId, RankUp, "Повышение ранга", "Пилот достиг ранга «" + e.value.title + "».",
                       RankPayload(previous, e.value.id), 0, 0)]
  }

  /** The tables after `apply_rank_upgrade` on the tables before: the user holds `RankAfter` the
      eligible rank, nothing else about any user changes, and the journal gains `RankLog`. */
  predicate RankUpgraded(userId: nat, ranks: seq<Rank>, submissions: map<(nat, nat), Submission>,
                         levels: map<(nat, nat), int>, users0: map<nat, User>, users: map<nat, User>,
                         journal0: seq<JournalEntry>, journal: seq<JournalEntry>)
    requires userId in users0
  {
    var previous := users0[userId].currentRankId;
    var e := Eligible(ranks, userId, users0[userId].xp, submissions, levels);
    users == users0[userId := users0[userId].(currentRankId := RankAfter(previous, e))]
    && journal == journal0 + RankLog(userId, previous, e)
  }

  /** `apply_rank_upgrade`: move the user to the eligible rank and log a RANK_UP entry,
      unless there is none or the user already holds it. */
  method ApplyRankUpgrade(db: Session, userId: nat) returns (upgraded: Option<Rank>)
    requires userId in db.users
    modifies db`users, db`journal
    ensures var e := Eligible(old(db.ranks), userId, old(db.users[userId].xp), old(db.submissions), old(db.competencyLevels));
      upgraded == (if e.None? || old(db.users[userId].currentRankId) == Some(e.value.id) then None else e)
    ensures RankUpgraded(userId, old(db.ranks), old(db.submissions), old(db.competencyLevels),
                         old(db.users), db.users, old(db.journal), db.journal)
  {
    ghost var e := Eligible(db.ranks, userId, db.users[userId].xp, db.submissions, db.competencyLevels);
    var newRank := EligibleRank(db, userId);
    assert newRank == e;
    var user := db.users[userId];
    if newRank.None? || user.currentRankId == Some(newRank.value.id) {
      return None;
    }
    var previous := user.currentRankId;
    db.users := db.users[userId := user.(currentRankId := Some(newRank.value.id))];
    var _ := LogEvent(db, userId, RankUp, "Повышение ранга", "Пилот достиг ранга «" + newRank.value.title + "».",
                      RankPayload(previous, newRank.value.id));
    upgraded := newRank;
  }
}
