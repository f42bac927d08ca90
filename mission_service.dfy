/** Mission business logic: the offline registration window, submitting a report,
    and the HR decisions that approve or reject it. */
module MissionService {
  import opened Wrappers
  import opened Models
  import opened Db
  import opened Journal
  import opened RankEngine

  // ---------------------------------------------------------------- registration

  /** Whether an offline mission still accepts registrations at time `now`.
      `startsAt` is the event start the check reads and `registrationsCount` the number of
      registration rows; `registeredCount`, when given, replaces that number. */
  function RegistrationIsOpen(mission: Mission, now: int, startsAt: Option<int>,
                              registeredCount: Option<int>, registrationsCount: nat): (open: bool)
    ensures open ==> mission.format == Offline
    ensures open ==> mission.registrationDeadline.None? || now <= mission.registrationDeadline.value
    ensures open ==> startsAt.None? || now <= startsAt.value
    ensures open ==> mission.capacity.None? || registeredCount.GetOr(registrationsCount) < mission.capacity.value
    ensures mission.format == Offline
            && (mission.registrationDeadline.None? || now <= mission.registrationDeadline.value)
            && (startsAt.None? || now <= startsAt.value)
            && (mission.capacity.None? || registeredCount.GetOr(registrationsCount) < mission.capacity.value)
            ==> open
  {
    if mission.format != Offline then false
    else if mission.registrationDeadline.Some? && mission.registrationDeadline.value < now then false
    else if startsAt.Some? && startsAt.value < now then false
    else if mission.capacity.Some? then
      var count := if registeredCount.Some? then registeredCount.value else registrationsCount;
      count < mission.capacity.value
    else true
  }

  /** The users registered for a mission. */
  function Registered(registrations: set<(nat, nat)>, missionId: nat): (users: set<nat>)
    ensures forall u :: u in users <==> (missionId, u) in registrations
  {
    set p | p in registrations && p.0 == missionId :: p.1
  }

  /** Why `register_for_offline_mission` refuses a new registration to an offline mission, checked
      in its order: capacity first, then the deadline, then the event start. */
  function RegistrationRefusal(mission: Mission, now: int, startsAt: Option<int>, count: nat): (r: Option<string>)
    ensures mission.capacity.Some? && count >= mission.capacity.value ==> r == Some("Свободные места закончились")
    ensures r.None? <==> (mission.capacity.None? || count < mission.capacity.value)
                         && (mission.registrationDeadline.None? || now <= mission.registrationDeadline.value)
                         && (startsAt.None? || now <= startsAt.value)
  {
    if mission.capacity.Some? && count >= mission.capacity.value then Some("Свободные места закончились")
    else if mission.registrationDeadline.Some? && mission.registrationDeadline.value < now then Some("Регистрация завершена")
    else if startsAt.Some? && startsAt.value < now then Some("Мероприятие уже началось")
    else None
  }

  /** Registration refuses an offline mission exactly when its window is closed. */
  lemma RefusalMeansClosed(mission: Mission, now: int, startsAt: Option<int>, count: nat)
    requires mission.format == Offline
    ensures RegistrationRefusal(mission, now, startsAt, count).None? <==> RegistrationIsOpen(mission, now, startsAt, None, count)
  {
  }

  /** `register_for_offline_mission`: an existing registration is returned as is; a new one is
      added only while the registration window is open, and is logged. */
  method RegisterForOfflineMission(db: Session, userId: nat, missionId: nat, now: int, startsAt: Option<int>)
    returns (r: Result<(nat, nat), Error>)
    requires missionId in db.missions
    modifies db`registrations, db`journal
    ensures var m := db.missions[missionId];
      var refusal := RegistrationRefusal(m, now, startsAt, |Registered(old(db.registrations), missionId)|);
      if m.format != Offline then
        r == Err(BadRequest("Это онлайн-миссия")) && unchanged(db`registrations, db`journal)
      else if (missionId, userId) in old(db.registrations) then
        r == Ok((missionId, userId)) && unchanged(db`registrations, db`journal)
      else if refusal.Some? then
        r == Err(BadRequest(refusal.value)) && unchanged(db`registrations, db`journal)
      else
        r == Ok((missionId, userId))
        && db.registrations == old(db.registrations) + {(missionId, userId)}
        && db.journal == old(db.journal) + [JournalEntry(userId, MissionCompleted,
             "Заявка на мероприятие «" + m.title + "» отправлена",
             "Вы записались на офлайн-мероприятие. Напоминание придёт ближе к дате.", MissionPayload(missionId), 0, 0)]
  {
    var mission := db.missions[missionId];
    if mission.format != Offline {
      return Err(BadRequest("Это онлайн-миссия"));
    }
    if (missionId, userId) in db.registrations {
      return Ok((missionId, userId));
    }
    var refusal := RegistrationRefusal(mission, now, startsAt, |Registered(db.registrations, missionId)|);
    if refusal.Some? {
      return Err(BadRequest(refusal.value));
    }
    db.registrations := db.registrations + {(missionId, userId)};
    var _ := LogEvent(db, userId, MissionCompleted, "Заявка на мероприятие «" + mission.title + "» отправлена",
                      "Вы записались на офлайн-мероприятие. Напоминание придёт ближе к дате.", MissionPayload(missionId));
    r := Ok((missionId, userId));
  }

  /** Registering twice leaves a single registration row: the second call finds the first. */
  lemma RegistrationIsASet(registrations: set<(nat, nat)>, missionId: nat, userId: nat)
    requires (missionId, userId) in registrations
    ensures registrations + {(missionId, userId)} == registrations
    ensures |Registered(registrations + {(missionId, userId)}, missionId)| == |Registered(registrations, missionId)|
  {
  }

  // ---------------------------------------------------------------- submitting

  /** The new value of a document column: kept when the argument is left out, replaced by a
      string, cleared by any other value. */
  function ApplyDoc(current: Option<string>, update: DocUpdate): (r: Option<string>)
    ensures r.None? <==> update.Clear? || (update.Keep? && current.None?)
    ensures r.Some? ==> r.value == (if update.Replace? then update.path else current.value)
  {
    match update
    case Keep => current
    case Replace(p) => Some(p)
    case Clear => None
  }

  /** The stored file an update removes from disk, if any. */
  function Superseded(current: Option<string>, update: DocUpdate): (gone: Option<string>)
    ensures gone.Some? ==> current == Some(gone.value) && ApplyDoc(current, update) != current
    ensures gone.Some? ==> update.Replace?
    ensures update.Replace? && current.Some? && current.value != "" && current.value != update.path ==> gone == current
    ensures update.Keep? || update.Clear? ==> gone.None?
  {
    match update
    case Replace(p) =>
      if current.Some? && current.value != "" && current.value != p then current else None
    case _ => None
  }

  function Removed(current: Option<string>, update: DocUpdate): seq<string> {
    var gone := Superseded(current, update);
    if gone.Some? then [gone.value] else []
  }

  /** The row `submit_mission` writes: comment and proof replaced, documents updated, status pending. */
  function Resubmitted(s: Submission, comment: Option<string>, proofUrl: Option<string>,
                       passport: DocUpdate, photo: DocUpdate, resume: DocUpdate, resumeLink: DocUpdate): (t: Submission)
    ensures t.status == Pending && t.comment == comment && t.proofUrl == proofUrl
    ensures t.awardedXp == s.awardedXp && t.awardedMana == s.awardedMana
    ensures passport.Keep? ==> t.passportPath == s.passportPath
    ensures photo.Keep? ==> t.photoPath == s.photoPath
    ensures resume.Keep? ==> t.resumePath == s.resumePath
    ensures resumeLink.Keep? ==> t.resumeLink == s.resumeLink
    ensures passport.Replace? ==> t.passportPath == Some(passport.path)
    ensures passport.Clear? ==> t.passportPath == None
    ensures photo.Replace? ==> t.photoPath == Some(photo.path)
    ensures photo.Clear? ==> t.photoPath == None
    ensures resume.Replace? ==> t.resumePath == Some(resume.path)
    ensures resume.Clear? ==> t.resumePath == None
    ensures resumeLink.Replace? ==> t.resumeLink == Some(resumeLink.path)
    ensures resumeLink.Clear? ==> t.resumeLink == None
  {
    s.(comment := comment, proofUrl := proofUrl,
       passportPath := ApplyDoc(s.passportPath, passport),
       photoPath := ApplyDoc(s.photoPath, photo),
       resumePath := ApplyDoc(s.resumePath, resume),
       resumeLink := ApplyDoc(s.resumeLink, resumeLink),
       status := Pending)
  }

  /** Whether the user's submission for the mission is already approved. */
  predicate AlreadyApproved(submissions: map<(nat, nat), Submission>, key: (nat, nat)) {
    key in submissions && submissions[key].status.Approved?
  }

  /** The journal entry `submit_mission` writes for a report awaiting review. */
  function SubmittedEntry(userId: nat, missionId: nat, title: string): JournalEntry {
    JournalEntry(userId, MissionCompleted, "Отправка миссии «" + title + "»",
                 "Отчёт отправлен и ожидает проверки.", MissionPayload(missionId), 0, 0)
  }

  /** `submit_mission`: refused once the mission is credited; otherwise the single row for
      (user, mission) is created or updated, set to pending, and the submission is logged. */
  method SubmitMission(db: Session, userId: nat, missionId: nat, comment: Option<string>, proofUrl: Option<string>,
                       passport: DocUpdate := Keep, photo: DocUpdate := Keep, resume: DocUpdate := Keep,
                       resumeLink: DocUpdate := Keep)
    returns (r: Result<Submission, Error>)
    requires missionId in db.missions
    modifies db`submissions, db`journal, db`deletedFiles
    ensures var key := (userId, missionId);
      if AlreadyApproved(old(db.submissions), key) then
        r == Err(BadRequest("Миссия уже зачтена"))
        && unchanged(db`submissions, db`journal, db`deletedFiles)
      else
        var base := if key in old(db.submissions) then old(db.submissions[key]) else NewSubmission();
        r == Ok(Resubmitted(base, comment, proofUrl, passport, photo, resume, resumeLink))
        && db.submissions == old(db.submissions)[key := r.value]
        && db.deletedFiles == old(db.deletedFiles) + Removed(base.passportPath, passport)
             + Removed(base.photoPath, photo) + Removed(base.resumePath, resume)
        && db.journal == old(db.journal) + [SubmittedEntry(userId, missionId, db.missions[missionId].title)]
  {
    var key := (userId, missionId);
    if key in db.submissions && db.submissions[key].status.Approved? {
      return Err(BadRequest("Миссия уже зачтена"));
    }
    var base := if key in db.submissions then db.submissions[key] else NewSubmission();
    // UNSET arguments remove nothing and keep the column as it is
    db.deletedFiles := db.deletedFiles + Removed(base.passportPath, passport)
      + Removed(base.photoPath, photo) + Removed(base.resumePath, resume);
    var submission := Resubmitted(base, comment, proofUrl, passport, photo, resume, resumeLink);
    db.submissions := db.submissions[key := submission];
    var _ := LogEvent(db, userId, MissionCompleted, "Отправка миссии «" + db.missions[missionId].title + "»",
                      "Отчёт отправлен и ожидает проверки.", MissionPayload(missionId));
    r := Ok(submission);
  }

  /** A document that is re-sent unchanged, or a first upload, removes no stored file. */
  lemma SamePathKeepsFile(current: Option<string>, path: string)
    requires current == Some(path) || current.None? || current == Some("")
    ensures Removed(current, Replace(path)) == []
    ensures ApplyDoc(current, Replace(path)) == Some(path)
  {
  }

  // ---------------------------------------------------------------- approving

  /** The total level change `rewards` grant for one competency. */
  function DeltaSum(rewards: seq<CompetencyReward>, competency: nat): int {
    if |rewards| == 0 then 0
    else (if rewards[0].competency == competency then rewards[0].levelDelta else 0) + DeltaSum(rewards[1..], competency)
  }

  function RewardedCompetencies(rewards: seq<CompetencyReward>): set<nat> {
    set r | r in rewards :: r.competency
  }

  /** The user's level in a competency, 0 without a row. */
  function Level(levels: map<(nat, nat), int>, userId: nat, competency: nat): int {
    if (userId, competency) in levels then levels[(userId, competency)] else 0
  }

  /** The competency rows after the user's levels were raised by `rewards`: the rows are the old
      ones plus one for each rewarded competency of the user, each of the user's levels rises by
      the rewards' delta sum, and every other user's row is kept. */
  ghost predicate LevelsRaised(levels0: map<(nat, nat), int>, levels: map<(nat, nat), int>, userId: nat,
                               rewards: seq<CompetencyReward>)
  {
    (forall k: (nat, nat) :: k in levels <==> k in levels0 || (k.0 == userId && k.1 in RewardedCompetencies(rewards)))
    && (forall c :: Level(levels, userId, c) == Level(levels0, userId, c) + DeltaSum(rewards, c))
    && (forall k :: k in levels0 && k.0 != userId ==> levels[k] == levels0[k])
  }

  /** The user credited with the mission's XP and mana rewards. */
  function Credit(user: User, mission: Mission): User {
    user.(xp := user.xp + mission.xpReward, mana := user.mana + mission.manaReward)
  }

  /** With one reward per competency, as the table constraint guarantees, each rewarded
      competency changes by exactly its reward's delta. */
  lemma {:induction false} DeltaSumOfUnique(rewards: seq<CompetencyReward>, i: nat)
    requires i < |rewards|
    requires forall a, b :: 0 <= a < b < |rewards| ==> rewards[a].competency != rewards[b].competency
    ensures DeltaSum(rewards, rewards[i].competency) == rewards[i].levelDelta
  {
    if i == 0 {
      DeltaSumAbsent(rewards[1..], rewards[0].competency);
    } else {
      DeltaSumOfUnique(rewards[1..], i - 1);
    }
  }

  lemma {:induction false} DeltaSumAbsent(rewards: seq<CompetencyReward>, competency: nat)
    requires forall k :: 0 <= k < |rewards| ==> rewards[k].competency != competency
    ensures DeltaSum(rewards, competency) == 0
  {
    if |rewards| > 0 {
      DeltaSumAbsent(rewards[1..], competency);
    }
  }

  lemma DeltaSumAppend(rewards: seq<CompetencyReward>, reward: CompetencyReward, competency: nat)
    ensures DeltaSum(rewards + [reward], competency)
            == DeltaSum(rewards, competency) + (if reward.competency == competency then reward.levelDelta else 0)
  {
    if |rewards| > 0 {
      assert (rewards + [reward])[1..] == rewards[1..] + [reward];
    }
  }

  lemma {:induction false} DeltaSumOutside(rewards: seq<CompetencyReward>, competency: nat)
    requires competency !in RewardedCompetencies(rewards)
    ensures DeltaSum(rewards, competency) == 0
  {
    if |rewards| > 0 {
      assert rewards[0] in rewards;
      assert RewardedCompetencies(rewards[1..]) <= RewardedCompetencies(rewards) by {
        forall c | c in RewardedCompetencies(rewards[1..]) ensures c in RewardedCompetencies(rewards) {
          var r :| r in rewards[1..] && r.competency == c;
          assert r in rewards;
        }
      }
      DeltaSumOutside(rewards[1..], competency);
    }
  }

  /** `_increase_competencies`: every reward raises the user's level in its competency by its
      delta, creating the row at level 0 when the user has none. */
  method IncreaseCompetencies(db: Session, userId: nat, rewards: seq<CompetencyReward>)
    modifies db`competencyLevels
    ensures forall k :: k in db.competencyLevels <==>
      k in old(db.competencyLevels) || (k.0 == userId && k.1 in RewardedCompetencies(rewards))
    ensures forall k :: k in old(db.competencyLevels) && k.0 != userId ==> db.competencyLevels[k] == old(db.competencyLevels[k])
    ensures forall c :: Level(db.competencyLevels, userId, c) == Level(old(db.competencyLevels), userId, c) + DeltaSum(rewards, c)
  {
    var i := 0;
    while i < |rewards|
      invariant 0 <= i <= |rewards|
      invariant forall k :: k in db.competencyLevels <==>
        k in old(db.competencyLevels) || (k.0 == userId && k.1 in RewardedCompetencies(rewards[..i]))
      invariant forall k :: k in old(db.competencyLevels) && k.0 != userId ==> db.competencyLevels[k] == old(db.competencyLevels[k])
      invariant forall c :: Level(db.competencyLevels, userId, c) == Level(old(db.competencyLevels), userId, c) + DeltaSum(rewards[..i], c)
    {
      var reward := rewards[i];
      var key := (userId, reward.competency);
      var current := if key in db.competencyLevels then db.competencyLevels[key] else 0;
      assert current == Level(db.competencyLevels, userId, reward.competency);
      db.competencyLevels := db.competencyLevels[key := current + reward.levelDelta];
      assert rewards[..i + 1] == rewards[..i] + [reward];
      forall c ensures DeltaSum(rewards[..i + 1], c) == DeltaSum(rewards[..i], c)
                       + (if reward.competency == c then reward.levelDelta else 0) {
        DeltaSumAppend(rewards[..i], reward, c);
      }
      assert RewardedCompetencies(rewards[..i + 1]) == RewardedCompetencies(rewards[..i]) + {reward.competency};
      i := i + 1;
    }
    assert rewards[..i] == rewards;
  }

  /** The submission as first approved: status approved and the mission's rewards frozen into it. */
  function Credited(s: Submission, mission: Mission): (t: Submission)
    ensures t.status.Approved? && t.awardedXp == mission.xpReward && t.awardedMana == mission.manaReward
    ensures t.comment == s.comment && t.proofUrl == s.proofUrl && t.passportPath == s.passportPath
  {
    s.(status := SubmissionStatus.Approved, awardedXp := mission.xpReward, awardedMana := mission.manaReward)
  }

  /** The journal entries for an artifact granted by approval: one when the user gets a new one. */
  function ArtifactLog(owned: set<(nat, nat)>, userId: nat, mission: Mission): seq<JournalEntry> {
    if mission.artifactId.Some? && (userId, mission.artifactId.value) !in owned then
      [JournalEntry(userId, MissionCompleted, "Получен артефакт за миссию «" + mission.title + "»",
                    "Новый артефакт добавлен в коллекцию.", ArtifactPayload(mission.artifactId.value), 0, 0)]
    else []
  }

  function ApprovalEntry(userId: nat, missionId: nat, mission: Mission): JournalEntry {
    JournalEntry(userId, MissionCompleted, "Миссия «" + mission.title + "» подтверждена",
                 "HR одобрил выполнение миссии.", MissionPayload(missionId), mission.xpReward, mission.manaReward)
  }

  /** The artifact part of approval: the mission's artifact joins the user's collection, with its
      own journal entry, unless the user already owns it. */
  method GrantArtifact(db: Session, userId: nat, mission: Mission)
    modifies db`ownedArtifacts, db`journal
    ensures db.ownedArtifacts == old(db.ownedArtifacts) + (if mission.artifactId.Some? then {(userId, mission.artifactId.value)} else {})
    ensures db.journal == old(db.journal) + ArtifactLog(old(db.ownedArtifacts), userId, mission)
  {
    if mission.artifactId.Some? {
      var alreadyHas := (userId, mission.artifactId.value) in db.ownedArtifacts;
      if !alreadyHas {
        db.ownedArtifacts := db.ownedArtifacts + {(userId, mission.artifactId.value)};
        var _ := LogEvent(db, userId, MissionCompleted, "Получен артефакт за миссию «" + mission.title + "»",
                          "Новый артефакт добавлен в коллекцию.", ArtifactPayload(mission.artifactId.value));
      }
    }
  }

  /** The crediting part of approval: the user's XP and mana rise by the awarded amounts. */
  method CreditUser(db: Session, userId: nat, xp: int, mana: int)
    requires userId in db.users
    modifies db`users
    ensures db.users == old(db.users)[userId := old(db.users[userId]).(xp := old(db.users[userId]).xp + xp,
                                                                       mana := old(db.users[userId]).mana + mana)]
  {
    var user := db.users[userId];
    db.users := db.users[userId := user.(xp := user.xp + xp, mana := user.mana + mana)];
  }

  /** The crediting part of `approve_submission` on a submission not yet approved: the row is
      approved with the mission's rewards, the user is credited with exactly those, competencies
      rise, the artifact is granted unless already owned, and the approval is logged. */
  /** What approving the submission `key` of `mission` records, before the rank engine runs: the
      user is credited the rewards, each rewarded competency rises by its delta, the artifact is
      granted, and the journal gains the artifact entry (if newly owned) and the approval entry. */
  ghost predicate Recorded(key: (nat, nat), mission: Mission, users0: map<nat, User>, users: map<nat, User>,
                           levels0: map<(nat, nat), int>, levels: map<(nat, nat), int>,
                           owned0: set<(nat, nat)>, owned: set<(nat, nat)>,
                           journal0: seq<JournalEntry>, journal: seq<JournalEntry>)
    requires key.0 in users0
  {
    users == users0[key.0 := Credit(users0[key.0], mission)]
    && LevelsRaised(levels0, levels, key.0, mission.competencyRewards)
    && owned == owned0 + (if mission.artifactId.Some? then {(key.0, mission.artifactId.value)} else {})
    && journal == journal0 + ArtifactLog(owned0, key.0, mission) + [ApprovalEntry(key.0, key.1, mission)]
  }

  method RecordApproval(db: Session, key: (nat, nat)) returns (approved: Submission)
    requires key in db.submissions && key.0 in db.users && key.1 in db.missions
    requires !db.submissions[key].status.Approved?
    modifies db`submissions, db`users, db`competencyLevels, db`ownedArtifacts, db`journal
    ensures approved == Credited(old(db.submissions[key]), db.missions[key.1])
    ensures db.submissions == old(db.submissions)[key := approved]
    ensures Recorded(key, db.missions[key.1], old(db.users), db.users, old(db.competencyLevels), db.competencyLevels,
                     old(db.ownedArtifacts), db.ownedArtifacts, old(db.journal), db.journal)
  {
    var (userId, missionId) := key;
    var mission := db.missions[missionId];
    var submission := db.submissions[key];
    submission := submission.(status := SubmissionStatus.Approved, awardedXp := mission.xpReward, awardedMana := mission.manaReward);
    CreditUser(db, userId, submission.awardedXp, submission.awardedMana);
    IncreaseCompetencies(db, userId, mission.competencyRewards);
    GrantArtifact(db, userId, mission);
    db.submissions := db.submissions[key := submission];
    var _ := LogEvent(db, userId, MissionCompleted, "Миссия «" + mission.title + "» подтверждена",
                      "HR одобрил выполнение миссии.", MissionPayload(missionId), submission.awardedXp, submission.awardedMana);
    approved := submission;
  }

  /** Everything approving the submission `key` of `mission` does besides the row itself: the user
      is credited the rewards and moved to the rank `Eligible` gives on the resulting tables, each
      rewarded competency rises by its delta, the artifact is granted, and the journal gains the
      artifact entry (if newly owned), the approval entry and the RANK_UP entry (if the rank changed). */
  ghost predicate ApprovalEffect(key: (nat, nat), mission: Mission, ranks: seq<Rank>, submissions: map<(nat, nat), Submission>,
                                 users0: map<nat, User>, users: map<nat, User>,
                                 levels0: map<(nat, nat), int>, levels: map<(nat, nat), int>,
                                 owned0: set<(nat, nat)>, owned: set<(nat, nat)>,
                                 journal0: seq<JournalEntry>, journal: seq<JournalEntry>)
    requires key.0 in users0
  {
    LevelsRaised(levels0, levels, key.0, mission.competencyRewards)
    && owned == owned0 + (if mission.artifactId.Some? then {(key.0, mission.artifactId.value)} else {})
    && RankUpgraded(key.0, ranks, submissions, levels, users0[key.0 := Credit(users0[key.0], mission)], users,
                    journal0 + ArtifactLog(owned0, key.0, mission) + [ApprovalEntry(key.0, key.1, mission)], journal)
  }

  /** Crediting the user, raising the levels, granting the artifact and then running the rank
      upgrade on the resulting tables is `ApprovalEffect`. */
  lemma ApprovalEffectOf(key: (nat, nat), mission: Mission, ranks: seq<Rank>, submissions: map<(nat, nat), Submission>,
                         users0: map<nat, User>, credited: map<nat, User>, users: map<nat, User>,
                         levels0: map<(nat, nat), int>, levels: map<(nat, nat), int>,
                         owned0: set<(nat, nat)>, owned: set<(nat, nat)>,
                         journal0: seq<JournalEntry>, logged: seq<JournalEntry>, journal: seq<JournalEntry>)
    requires key.0 in users0
    requires Recorded(key, mission, users0, credited, levels0, levels, owned0, owned, journal0, logged)
    requires RankUpgraded(key.0, ranks, submissions, levels, credited, users, logged, journal)
    ensures ApprovalEffect(key, mission, ranks, submissions, users0, users, levels0, levels, owned0, owned, journal0, journal)
  {
  }

  /** The rank engine run on the tables `RecordApproval` left for the approval of `key`, taken
      from `users0`, `levels0`, `owned0` and `journal0`, completes `ApprovalEffect`. */
  method PromoteApproved(db: Session, key: (nat, nat), ghost mission: Mission, ghost users0: map<nat, User>,
                         ghost levels0: map<(nat, nat), int>, ghost owned0: set<(nat, nat)>,
                         ghost journal0: seq<JournalEntry>)
    requires key.0 in users0 && key.0 in db.users
    requires Recorded(key, mission, users0, db.users, levels0, db.competencyLevels, owned0, db.ownedArtifacts,
                      journal0, db.journal)
    modifies db`users, db`journal
    ensures ApprovalEffect(key, mission, db.ranks, db.submissions, users0, db.users, levels0, db.competencyLevels,
                           owned0, db.ownedArtifacts, journal0, db.journal)
  {
    ghost var credited, logged := db.users, db.journal;
    var _ := ApplyRankUpgrade(db, key.0);
    ApprovalEffectOf(key, mission, db.ranks, db.submissions, users0, credited, db.users,
                     levels0, db.competencyLevels, owned0, db.ownedArtifacts, journal0, logged, db.journal);
  }

  /** `approve_submission`: a no-op on an approved submission; otherwise `RecordApproval`, after
      which the rank engine runs on the credited user. */
  method ApproveSubmission(db: Session, key: (nat, nat)) returns (approved: Submission)
    requires key in db.submissions && key.0 in db.users && key.1 in db.missions
    modifies db`submissions, db`users, db`competencyLevels, db`ownedArtifacts, db`journal
    ensures old(db.submissions[key]).status.Approved? ==>
      approved == old(db.submissions[key])
      && unchanged(db`submissions, db`users, db`competencyLevels, db`ownedArtifacts, db`journal)
    ensures !old(db.submissions[key]).status.Approved? ==>
      approved == Credited(old(db.submissions[key]), db.missions[key.1])
      && db.submissions == old(db.submissions)[key := approved]
    ensures !old(db.submissions[key]).status.Approved? ==>
      ApprovalEffect(key, db.missions[key.1], db.ranks, db.submissions, old(db.users), db.users,
                     old(db.competencyLevels), db.competencyLevels, old(db.ownedArtifacts), db.ownedArtifacts,
                     old(db.journal), db.journal)
  {
    if db.submissions[key].status.Approved? {
      return db.submissions[key];
    }
    approved := RecordApproval(db, key);
    PromoteApproved(db, key, db.missions[key.1], old(db.users), old(db.competencyLevels), old(db.ownedArtifacts),
                    old(db.journal));
  }

  /** `reject_submission`: the status becomes rejected whatever it was; the comment is replaced
      only by a non-empty one; rewards already credited stay where they are. */
  method RejectSubmission(db: Session, key: (nat, nat), comment: Option<string> := None) returns (rejected: Submission)
    requires key in db.submissions && key.1 in db.missions
    modifies db`submissions, db`journal
    ensures rejected.status.Rejected?
    ensures rejected == old(db.submissions[key]).(status := SubmissionStatus.Rejected,
      comment := if comment.Some? && comment.value != "" then comment else old(db.submissions[key]).comment)
    ensures db.submissions == old(db.submissions)[key := rejected]
    ensures db.journal == old(db.journal) + [JournalEntry(key.0, MissionCompleted,
      "Миссия «" + db.missions[key.1].title + "» отклонена",
      if comment.Some? && comment.value != "" then comment.value else "Проверьте отчёт и отправьте снова.",
      MissionPayload(key.1), 0, 0)]
  {
    var submission: Submission := db.submissions[key].(status := SubmissionStatus.Rejected);
    if comment.Some? && comment.value != "" {
      submission := submission.(comment := comment);
    }
    db.submissions := db.submissions[key := submission];
    var _ := LogEvent(db, key.0, MissionCompleted, "Миссия «" + db.missions[key.1].title + "» отклонена",
                      if comment.Some? && comment.value != "" then comment.value else "Проверьте отчёт и отправьте снова.",
                      MissionPayload(key.1));
    rejected := submission;
  }
}
