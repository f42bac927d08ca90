/** The database session: every table the engine touches, held in memory.
    Writes take effect immediately, so `commit` and `refresh` have no counterpart. */
module Db {
  import opened Models

  class Session {
    var users: map<nat, User>
    var missions: map<nat, Mission>
    var ranks: seq<Rank>
    /** keyed by (user id, mission id): at most one submission per pair */
    var submissions: map<(nat, nat), Submission>
    /** keyed by (user id, competency id): at most one level row per pair */
    var competencyLevels: map<(nat, nat), int>
    /** (user id, artifact id) pairs: at most one ownership row per pair */
    var ownedArtifacts: set<(nat, nat)>
    var artifacts: set<nat>
    /** (mission id, user id) pairs of offline registrations */
    var registrations: set<(nat, nat)>
    var branches: seq<Branch>
    var branchLinks: seq<BranchMission>
    var codingChallenges: seq<CodingChallenge>
    var codingAttempts: seq<CodingAttempt>
    var pythonChallenges: seq<PythonChallenge>
    var pythonProgress: seq<PythonUserProgress>
    var pythonSubmissions: seq<PythonSubmission>
    var slides: seq<OnboardingSlide>
    /** keyed by user id: at most one state per user */
    var onboardingStates: map<nat, OnboardingState>
    var storeItems: map<nat, StoreItem>
    var orders: seq<Order>
    var journal: seq<JournalEntry>
    /** stored files removed from disk, in order */
    ghost var deletedFiles: seq<string>

    constructor ()
      ensures users == map[] && missions == map[] && ranks == [] && submissions == map[]
      ensures competencyLevels == map[] && ownedArtifacts == {} && artifacts == {} && registrations == {}
      ensures branches == [] && branchLinks == [] && codingChallenges == [] && codingAttempts == []
      ensures pythonChallenges == [] && pythonProgress == [] && pythonSubmissions == []
      ensures slides == [] && onboardingStates == map[] && storeItems == map[] && orders == []
      ensures journal == [] && deletedFiles == []
    {
      users := map[];
      missions := map[];
      ranks := [];
      submissions := map[];
      competencyLevels := map[];
      ownedArtifacts := {};
      artifacts := {};
      registrations := {};
      branches := [];
      branchLinks := [];
      codingChallenges := [];
      codingAttempts := [];
      pythonChallenges := [];
      pythonProgress := [];
      pythonSubmissions := [];
      slides := [];
      onboardingStates := map[];
      storeItems := map[];
      orders := [];
      journal := [];
      deletedFiles := [];
    }
  }
}
