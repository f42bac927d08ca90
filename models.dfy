/** The persistent records of the progression engine, one datatype per table.
    Primary keys are `nat`; datetimes are integer timestamps (seconds). */
module Models {
  import opened Wrappers

  datatype MissionDifficulty = Easy | Medium | Hard
  datatype MissionFormat = Online | Offline
  datatype SubmissionStatus = Pending | Approved | Rejected
  datatype UserRole = Pilot | Hr | Admin
  datatype OrderStatus = Created | Approved | Rejected | Delivered
  datatype JournalEventType = RankUp | MissionCompleted | OrderCreated | OrderApproved | SkillUp

  /** A mission's competency reward: `competency` rises by `levelDelta` on approval. */
  datatype CompetencyReward = CompetencyReward(competency: nat, levelDelta: int)

  /** A mission; its id is its key in the missions table. */
  datatype Mission = Mission(
    title: string,
    description: string,
    xpReward: int,
    manaReward: int,
    difficulty: MissionDifficulty,
    format: MissionFormat,
    eventStartsAt: Option<int>,
    eventEndsAt: Option<int>,
    registrationDeadline: Option<int>,
    capacity: Option<int>,
    minimumRankId: Option<nat>,
    artifactId: Option<nat>,
    isActive: bool,
    /** ids of the required missions, one per prerequisite link */
    prerequisites: seq<nat>,
    competencyRewards: seq<CompetencyReward>)

  /** The table-level constraints on a mission's child rows: one reward per competency
      and one prerequisite link per required mission. */
  predicate MissionRowsUnique(m: Mission) {
    (forall i, j :: 0 <= i < j < |m.competencyRewards| ==>
       m.competencyRewards[i].competency != m.competencyRewards[j].competency)
    && (forall i, j :: 0 <= i < j < |m.prerequisites| ==> m.prerequisites[i] != m.prerequisites[j])
  }

  /** The one submission a user has for a mission; the (user, mission) pair is its key. */
  datatype Submission = Submission(
    status: SubmissionStatus,
    comment: Option<string>,
    proofUrl: Option<string>,
    passportPath: Option<string>,
    photoPath: Option<string>,
    resumePath: Option<string>,
    resumeLink: Option<string>,
    awardedXp: int,
    awardedMana: int)

  /** The column defaults of a freshly inserted submission. */
  function NewSubmission(): Submission {
    Submission(Pending, None, None, None, None, None, None, 0, 0)
  }

  /** A user; their id is their key in the users table. */
  datatype User = User(role: UserRole, xp: int, mana: int, currentRankId: Option<nat>)

  datatype CompetencyRequirement = CompetencyRequirement(competency: nat, requiredLevel: int)

  datatype Rank = Rank(
    id: nat,
    title: string,
    requiredXp: int,
    missionRequirements: seq<nat>,
    competencyRequirements: seq<CompetencyRequirement>)

  datatype CodingChallenge = CodingChallenge(id: nat, missionId: nat, order: int, expectedOutput: string)

  datatype CodingAttempt = CodingAttempt(
    challengeId: nat, userId: nat, code: string, stdout: string, stderr: string, exitCode: int, isPassed: bool)

  datatype PythonChallenge = PythonChallenge(
    id: nat, missionId: nat, order: int, inputData: Option<string>, expectedOutput: string)

  datatype PythonUserProgress = PythonUserProgress(
    userId: nat, missionId: nat, currentOrder: nat, completedAt: Option<int>)

  /** A recorded Python run; `progressId` is the index of its progress row. */
  datatype PythonSubmission = PythonSubmission(
    progressId: nat, challengeId: nat, code: string, stdout: Option<string>, stderr: Option<string>, isPassed: bool)

  datatype Branch = Branch(id: nat, title: string, description: string, category: string)

  datatype BranchMission = BranchMission(branchId: nat, missionId: nat, order: int)

  datatype OnboardingSlide = OnboardingSlide(id: nat, order: int, title: string)

  datatype OnboardingState = OnboardingState(lastCompletedOrder: int, isCompleted: bool)

  /** The column defaults of a user's onboarding state. */
  function NewOnboardingState(): OnboardingState {
    OnboardingState(0, false)
  }

  /** A store item; its id is its key in the store-items table. */
  datatype StoreItem = StoreItem(
    name: string, description: string, costMana: int, stock: int, imageUrl: Option<string>)

  /** An order; its id is its index in the orders table. */
  datatype Order = Order(userId: nat, itemId: nat, status: OrderStatus, comment: Option<string>)

  /** The JSON payload stored with a journal entry. */
  datatype Payload =
    | NoPayload
    | MissionPayload(missionId: nat)
    | ArtifactPayload(artifactId: nat)
    | RankPayload(previousRankId: Option<nat>, newRankId: nat)
    | OrderCreatedPayload(orderId: nat, itemId: nat)
    | OrderPayload(orderId: nat)

  datatype JournalEntry = JournalEntry(
    userId: nat,
    eventType: JournalEventType,
    title: string,
    description: string,
    payload: Payload,
    xpDelta: int,
    manaDelta: int)

  /** The HTTP or domain error an operation raises instead of returning. */
  datatype Error =
    | BadRequest(detail: string)
    | NotFound(detail: string)
    | Invalid(message: string)

  /** An optional keyword argument that may be left out (`UNSET`) or given. */
  datatype Field<T> = Unset | Given(value: T)

  /** A document argument of `submit_mission`: left out, a new path, or any non-string value. */
  datatype DocUpdate = Keep | Replace(path: string) | Clear
}
