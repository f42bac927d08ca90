/** The availability rules of the mission routes: branch predecessors, lock reasons,
    the submit gate and the branch progress counts. */
module MissionRoutes {
  import opened Wrappers
  import opened Models
  import opened Db
  import opened Text
  import opened Sorting
  import opened RankEngine
  import opened MissionService

  // ---------------------------------------------------------------- branch dependencies

  /** A branch's links, in table order. */
  function LinksOf(links: seq<BranchMission>, branchId: nat): (r: seq<BranchMission>)
    ensures forall l :: l in r <==> l in links && l.branchId == branchId
  {
    if |links| == 0 then []
    else
      var init := LinksOf(links[..|links| - 1], branchId);
      assert links == links[..|links| - 1] + [links[|links| - 1]];
      if links[|links| - 1].branchId == branchId then init + [links[|links| - 1]] else init
  }

  function LinkOrder(l: BranchMission): int {
    l.order
  }

  /** A branch's links sorted by their `order`, ties kept in table order. */
  function Ordered(links: seq<BranchMission>, branchId: nat): seq<BranchMission> {
    SortBy(LinksOf(links, branchId), LinkOrder)
  }

  function MissionIds(links: seq<BranchMission>): (ids: seq<nat>)
    ensures |ids| == |links| && forall k :: 0 <= k < |links| ==> ids[k] == links[k].missionId
  {
    seq(|links|, k requires 0 <= k < |links| => links[k].missionId)
  }

  /** The missions placed before some link of `m` in the ordered sequence `s`. */
  function Preds(s: seq<BranchMission>, m: nat): set<nat> {
    if |s| == 0 then {}
    else
      var init := s[..|s| - 1];
      Preds(init, m) + (if s[|s| - 1].missionId == m then set x | x in MissionIds(init) else {})
  }

  /** The branch predecessors of mission `m`, united over all branches. */
  function BranchDeps(branches: seq<Branch>, links: seq<BranchMission>, m: nat): set<nat> {
    if |branches| == 0 then {}
    else BranchDeps(branches[..|branches| - 1], links, m) + Preds(Ordered(links, branches[|branches| - 1].id), m)
  }

  /** `dependencies.get(m, set())`. */
  function Get(deps: map<nat, set<nat>>, m: nat): set<nat> {
    if m in deps then deps[m] else {}
  }

  /** Within a sorted branch, `x` is a predecessor of `m` exactly when a link of `x` comes before a link of `m`. */
  lemma {:induction false} PredsMeaning(s: seq<BranchMission>, m: nat, x: nat)
    ensures x in Preds(s, m) <==> exists i, j :: 0 <= i < j < |s| && s[i].missionId == x && s[j].missionId == m
  {
    if |s| > 0 {
      var init := s[..|s| - 1];
      PredsMeaning(init, m, x);
      if x in Preds(s, m) && x !in Preds(init, m) {
        assert x in MissionIds(init);
        var i :| 0 <= i < |init| && MissionIds(init)[i] == x;
        assert s[i].missionId == x && s[|s| - 1].missionId == m;
      }
      if exists i, j :: 0 <= i < j < |s| && s[i].missionId == x && s[j].missionId == m {
        var i, j :| 0 <= i < j < |s| && s[i].missionId == x && s[j].missionId == m;
        if j < |s| - 1 {
          assert init[i].missionId == x && init[j].missionId == m;
        } else {
          assert MissionIds(init)[i] == x;
        }
      }
    }
  }

  /** The first mission of a branch whose missions are distinct depends on nothing in that branch. */
  lemma FirstHasNoPreds(s: seq<BranchMission>)
    requires |s| > 0
    requires forall i, j :: 0 <= i < j < |s| ==> s[i].missionId != s[j].missionId
    ensures Preds(s, s[0].missionId) == {}
  {
    forall x ensures x !in Preds(s, s[0].missionId) {
      PredsMeaning(s, s[0].missionId, x);
    }
  }

  lemma PredsStep(s: seq<BranchMission>, i: nat, m: nat)
    requires i < |s|
    ensures Preds(s[..i + 1], m)
            == Preds(s[..i], m) + (if s[i].missionId == m then set x | x in MissionIds(s[..i]) else {})
  {
    assert s[..i + 1][..i] == s[..i];
  }

  lemma BranchDepsStep(branches: seq<Branch>, b: nat, links: seq<BranchMission>, m: nat)
    requires b < |branches|
    ensures BranchDeps(branches[..b + 1], links, m)
            == BranchDeps(branches[..b], links, m) + Preds(Ordered(links, branches[b].id), m)
  {
    assert branches[..b + 1][..b] == branches[..b];
  }

  lemma MissionIdsStep(s: seq<BranchMission>, i: nat)
    requires i < |s|
    ensures MissionIds(s[..i + 1]) == MissionIds(s[..i]) + [s[i].missionId]
  {
    var ids := MissionIds(s[..i + 1]);
    forall k | 0 <= k < i + 1 ensures ids[k] == (MissionIds(s[..i]) + [s[i].missionId])[k] {
      if k < i {
        assert s[..i + 1][k] == s[..i][k];
      }
    }
  }

  /** The inner loop's step seen from one mission `m`: it gains the missions placed before the
      link exactly when the link is one of `m`. */
  lemma AddLinkAt(deps0: map<nat, set<nat>>, before: map<nat, set<nat>>, after: map<nat, set<nat>>,
                  ordered: seq<BranchMission>, i: nat, m: nat)
    requires i < |ordered|
    requires Get(before, m) == Get(deps0, m) + Preds(ordered[..i], m)
    requires after == if i > 0 then before[ordered[i].missionId := Get(before, ordered[i].missionId)
                                                                  + set x | x in MissionIds(ordered[..i])]
                      else before
    ensures Get(after, m) == Get(deps0, m) + Preds(ordered[..i + 1], m)
  {
    PredsStep(ordered, i, m);
    if i == 0 {
      assert MissionIds(ordered[..i]) == [];
    }
  }

  /** One link of the inner loop: the link's mission gains the missions placed before it, which
      keeps the dependencies equal to those of the links seen so far. */
  lemma AddLinkStep(deps0: map<nat, set<nat>>, before: map<nat, set<nat>>, after: map<nat, set<nat>>,
                    ordered: seq<BranchMission>, i: nat)
    requires i < |ordered|
    requires forall m :: Get(before, m) == Get(deps0, m) + Preds(ordered[..i], m)
    requires forall m :: m in before ==> before[m] != {}
    requires after == if i > 0 then before[ordered[i].missionId := Get(before, ordered[i].missionId)
                                                                  + set x | x in MissionIds(ordered[..i])]
                      else before
    ensures forall m :: Get(after, m) == Get(deps0, m) + Preds(ordered[..i + 1], m)
    ensures forall m :: m in after ==> after[m] != {}
    ensures MissionIds(ordered[..i + 1]) == MissionIds(ordered[..i]) + [ordered[i].missionId]
  {
    if i > 0 {
      var earlier := set x | x in MissionIds(ordered[..i]);
      assert MissionIds(ordered[..i])[0] in earlier;
      assert after[ordered[i].missionId] == Get(before, ordered[i].missionId) + earlier;
    }
    forall m ensures Get(after, m) == Get(deps0, m) + Preds(ordered[..i + 1], m) {
      AddLinkAt(deps0, before, after, ordered, i, m);
    }
    MissionIdsStep(ordered, i);
  }

  /** The inner loop of `_build_branch_dependencies` over one sorted branch: each link's mission
      gains every mission placed before it. */
  method AddBranch(deps0: map<nat, set<nat>>, ordered: seq<BranchMission>) returns (deps: map<nat, set<nat>>)
    requires forall m :: m in deps0 ==> deps0[m] != {}
    ensures forall m :: Get(deps, m) == Get(deps0, m) + Preds(ordered, m)
    ensures forall m :: m in deps ==> deps[m] != {}
  {
    deps := deps0;
    var previous: seq<nat> := [];
    var i := 0;
    while i < |ordered|
      invariant 0 <= i <= |ordered|
      invariant previous == MissionIds(ordered[..i])
      invariant forall m :: Get(deps, m) == Get(deps0, m) + Preds(ordered[..i], m)
      invariant forall m :: m in deps ==> deps[m] != {}
    {
      var link := ordered[i];
      ghost var before := deps;
      if |previous| > 0 {
        deps := deps[link.missionId := Get(deps, link.missionId) + set x | x in previous];
      }
      AddLinkStep(deps0, before, deps, ordered, i);
      previous := previous + [link.missionId];
      i := i + 1;
    }
    assert ordered[..i] == ordered;
  }

  /** `_build_branch_dependencies`: every mission of a branch depends on every mission placed
      before it once the branch is sorted by order; several branches add up. */
  method BuildBranchDependencies(branches: seq<Branch>, links: seq<BranchMission>) returns (deps: map<nat, set<nat>>)
    ensures forall m :: Get(deps, m) == BranchDeps(branches, links, m)
    ensures forall m :: m in deps ==> deps[m] != {}
  {
    deps := map[];
    var b := 0;
    while b < |branches|
      invariant 0 <= b <= |branches|
      invariant forall m :: Get(deps, m) == BranchDeps(branches[..b], links, m)
      invariant forall m :: m in deps ==> deps[m] != {}
    {
      var ordered := Ordered(links, branches[b].id);
      deps := AddBranch(deps, ordered);
      forall m ensures BranchDeps(branches[..b + 1], links, m)
          == BranchDeps(branches[..b], links, m) + Preds(ordered, m) {
        BranchDepsStep(branches, b, links, m);
      }
      b := b + 1;
    }
    assert branches[..b] == branches;
  }

  // ---------------------------------------------------------------- availability

  /** `mission_titles.get(id, '#' + str(id))`. */
  function TitleOf(titles: map<nat, string>, missionId: nat): (t: string)
    ensures missionId in titles ==> t == titles[missionId]
    ensures missionId !in titles ==> t == "#" + NatToString(missionId)
  {
    if missionId in titles then titles[missionId] else "#" + NatToString(missionId)
  }

  /** The mission's minimum rank, if it names one the ranks table holds. */
  function FindRank(ranks: seq<Rank>, rankId: nat): (r: Option<Rank>)
    ensures r.Some? ==> r.value in ranks && r.value.id == rankId
    ensures r.None? ==> forall k :: 0 <= k < |ranks| ==> ranks[k].id != rankId
  {
    if |ranks| == 0 then None
    else if ranks[0].id == rankId then Some(ranks[0])
    else FindRank(ranks[1..], rankId)
  }

  predicate RankShortfall(minimumRank: Option<Rank>, xp: int) {
    minimumRank.Some? && xp < minimumRank.value.requiredXp
  }

  /** Nothing locks the mission: the rank threshold is met, every explicit prerequisite and
      every branch predecessor is completed. */
  predicate Unlocked(mission: Mission, missionId: nat, xp: int, minimumRank: Option<Rank>,
                     completed: set<nat>, deps: map<nat, set<nat>>)
  {
    !RankShortfall(minimumRank, xp)
    && (forall k :: 0 <= k < |mission.prerequisites| ==> mission.prerequisites[k] in completed)
    && Get(deps, missionId) <= completed
  }

  function RankReasons(minimumRank: Option<Rank>, xp: int): (r: seq<string>)
    ensures |r| <= 1 && forall k :: 0 <= k < |r| ==> r[k] != ""
    ensures r == [] <==> minimumRank.None? || minimumRank.value.requiredXp <= xp
  {
    if RankShortfall(minimumRank, xp) then ["Требуется ранг «" + minimumRank.value.title + "»"] else []
  }

  /** One reason per explicit prerequisite that is not completed, in prerequisite order. */
  function PrerequisiteReasons(prerequisites: seq<nat>, completed: set<nat>, titles: map<nat, string>): (r: seq<string>)
    ensures |r| <= |prerequisites|
    ensures forall k :: 0 <= k < |r| ==> r[k] != ""
    ensures r == [] <==> forall k :: 0 <= k < |prerequisites| ==> prerequisites[k] in completed
  {
    if |prerequisites| == 0 then []
    else
      (if prerequisites[0] in completed then [] else ["Завершите миссию «" + TitleOf(titles, prerequisites[0]) + "»"])
      + PrerequisiteReasons(prerequisites[1..], completed, titles)
  }

  function BranchReason(titles: map<nat, string>, missionId: nat): string {
    "Продолжение ветки откроется после миссии «" + TitleOf(titles, missionId) + "»"
  }

  function BranchReasons(order: seq<nat>, titles: map<nat, string>): (r: seq<string>)
    ensures |r| == |order|
    ensures forall k :: 0 <= k < |r| ==> r[k] != ""
  {
    if |order| == 0 then [] else [BranchReason(titles, order[0])] + BranchReasons(order[1..], titles)
  }

  /** `order` lists each element of `s` exactly once. */
  ghost predicate Enumerates(order: seq<nat>, s: set<nat>) {
    (forall x :: x in order <==> x in s) && forall i, j :: 0 <= i < j < |order| ==> order[i] != order[j]
  }

  lemma EnumerationHead(order: seq<nat>, s: set<nat>)
    requires Enumerates(order, s)
    ensures |order| > 0 ==> order[0] in s
  {
  }

  /** Taking `x` out of the pending set extends the enumeration of the missing predecessors
      by `x` exactly when `x` is not completed. */
  lemma EnumerationStep(order: seq<nat>, preds: set<nat>, pending: set<nat>, completed: set<nat>, x: nat)
    requires x in pending && pending <= preds
    requires Enumerates(order, (preds - pending) - completed)
    requires forall y :: y in order ==> y !in pending
    ensures var next := if x !in completed then order + [x] else order;
      Enumerates(next, (preds - (pending - {x})) - completed)
      && forall y :: y in next ==> y !in pending - {x}
  {
    var next := if x !in completed then order + [x] else order;
    var s := (preds - (pending - {x})) - completed;
    forall y ensures y in next <==> y in s {
      if x !in completed {
        assert y in next <==> y in order || y == x;
      }
    }
    forall i, j | 0 <= i < j < |next| ensures next[i] != next[j] {
      if x !in completed && j == |order| {
        assert next[i] == order[i];
      } else {
        assert next[i] == order[i] && next[j] == order[j];
      }
    }
  }

  /** The branch part of `_mission_availability`: one reason per predecessor that is not
      completed, in the order the set is iterated (`order`). */
  method BranchLockReasons(preds: set<nat>, completed: set<nat>, titles: map<nat, string>)
    returns (reasons: seq<string>, ghost order: seq<nat>)
    ensures Enumerates(order, preds - completed)
    ensures reasons == BranchReasons(order, titles)
    ensures reasons == [] <==> preds <= completed
  {
    reasons := [];
    order := [];
    var pending := preds;
    while pending != {}
      invariant pending <= preds
      invariant Enumerates(order, (preds - pending) - completed)
      invariant forall x :: x in order ==> x !in pending
      invariant reasons == BranchReasons(order, titles)
      decreases |pending|
    {
      var x :| x in pending;
      EnumerationStep(order, preds, pending, completed, x);
      if x !in completed {
        reasons := reasons + [BranchReason(titles, x)];
        BranchReasonsAppend(order, x, titles);
        order := order + [x];
      }
      pending := pending - {x};
    }
    assert preds - pending == preds;
    EnumerationHead(order, preds - completed);
    if !(preds <= completed) {
      var y :| y in preds && y !in completed;
      assert y in order;
    }
  }

  /** Three lists of non-empty reasons concatenate to a list of non-empty reasons, which is
      empty exactly when all three are. */
  lemma ConcatReasons(a: seq<string>, b: seq<string>, c: seq<string>)
    requires forall k :: 0 <= k < |a| ==> a[k] != ""
    requires forall k :: 0 <= k < |b| ==> b[k] != ""
    requires forall k :: 0 <= k < |c| ==> c[k] != ""
    ensures forall k :: 0 <= k < |a + b + c| ==> (a + b + c)[k] != ""
    ensures a + b + c == [] <==> a == [] && b == [] && c == []
  {
    var r := a + b + c;
    forall k | 0 <= k < |r| ensures r[k] != "" {
      if k >= |a| + |b| {
        assert r[k] == c[k - |a| - |b|];
      } else if k >= |a| {
        assert r[k] == b[k - |a|];
      }
    }
    if r == [] {
      assert |a| + |b| + |c| == 0;
    }
  }

  /** `_mission_availability`: the lock reasons are the rank reason, then one per missing explicit
      prerequisite, then one per missing branch predecessor (in set iteration order); the mission
      is available exactly when it is active and there is no reason. */
  method MissionAvailability(mission: Mission, missionId: nat, xp: int, minimumRank: Option<Rank>,
                             completed: set<nat>, deps: map<nat, set<nat>>, titles: map<nat, string>)
    returns (available: bool, reasons: seq<string>)
    ensures exists order :: (Enumerates(order, Get(deps, missionId) - completed)
      && reasons == RankReasons(minimumRank, xp) + PrerequisiteReasons(mission.prerequisites, completed, titles)
                    + BranchReasons(order, titles))
    ensures forall k :: 0 <= k < |reasons| ==> reasons[k] != ""
    ensures reasons == [] <==> Unlocked(mission, missionId, xp, minimumRank, completed, deps)
    ensures available <==> mission.isActive && Unlocked(mission, missionId, xp, minimumRank, completed, deps)
  {
    var rankReasons: seq<string> := [];
    if minimumRank.Some? && xp < minimumRank.value.requiredXp {
      rankReasons := ["Требуется ранг «" + minimumRank.value.title + "»"];
    }
    assert rankReasons == RankReasons(minimumRank, xp);
    var prerequisiteReasons := PrerequisiteReasons(mission.prerequisites, completed, titles);
    var branchReasons, order := BranchLockReasons(Get(deps, missionId), completed, titles);
    reasons := rankReasons + prerequisiteReasons + branchReasons;
    ConcatReasons(rankReasons, prerequisiteReasons, branchReasons);
    assert Enumerates(order, Get(deps, missionId) - completed);
    available := mission.isActive && |reasons| == 0;
  }

  lemma {:induction false} BranchReasonsAppend(order: seq<nat>, x: nat, titles: map<nat, string>)
    ensures BranchReasons(order + [x], titles) == BranchReasons(order, titles) + [BranchReason(titles, x)]
  {
    if |order| > 0 {
      assert (order + [x])[1..] == order[1..] + [x];
      BranchReasonsAppend(order[1..], x, titles);
    }
  }

  /** Completing more missions never locks a mission that was unlocked. */
  lemma UnlockedMonotone(mission: Mission, missionId: nat, xp: int, minimumRank: Option<Rank>,
                         completed: set<nat>, more: set<nat>, deps: map<nat, set<nat>>)
    requires completed <= more
    requires Unlocked(mission, missionId, xp, minimumRank, completed, deps)
    ensures Unlocked(mission, missionId, xp, minimumRank, more, deps)
  {
  }

  /** A mission's own completion plays no part in its availability (unless it lists itself as a
      prerequisite or predecessor): completed missions stay available. */
  lemma OwnCompletionIrrelevant(mission: Mission, missionId: nat, xp: int, minimumRank: Option<Rank>,
                                completed: set<nat>, deps: map<nat, set<nat>>)
    requires missionId !in mission.prerequisites && missionId !in Get(deps, missionId)
    ensures Unlocked(mission, missionId, xp, minimumRank, completed + {missionId}, deps)
            <==> Unlocked(mission, missionId, xp, minimumRank, completed, deps)
  {
    if Unlocked(mission, missionId, xp, minimumRank, completed + {missionId}, deps) {
      forall k | 0 <= k < |mission.prerequisites| ensures mission.prerequisites[k] in completed {
        assert mission.prerequisites[k] != missionId;
      }
    }
  }

  /** Branch locks do not depend on explicit prerequisites: a missing branch predecessor locks the
      mission even when every explicit prerequisite is completed. */
  lemma BranchLockIndependent(mission: Mission, missionId: nat, xp: int, minimumRank: Option<Rank>,
                              completed: set<nat>, deps: map<nat, set<nat>>, x: nat)
    requires x in Get(deps, missionId) && x !in completed
    ensures !Unlocked(mission, missionId, xp, minimumRank, completed, deps)
  {
  }

  // ---------------------------------------------------------------- the submit gate

  /** `mission_titles`: every mission's title by id. */
  function Titles(missions: map<nat, Mission>): (titles: map<nat, string>)
    ensures titles.Keys == missions.Keys
    ensures forall id :: id in titles ==> titles[id] == missions[id].title
  {
    map id | id in missions :: missions[id].title
  }

  /** The mission's minimum rank, when it names one that exists. */
  function MinimumRank(m: Mission, ranks: seq<Rank>): Option<Rank> {
    if m.minimumRankId.Some? then FindRank(ranks, m.minimumRankId.value) else None
  }

  /** What the submit gate demands: the minimum rank's threshold is met, and every explicit
      prerequisite and every branch predecessor is among the missions `done`. */
  predicate MayStart(m: Mission, missionId: nat, xp: int, ranks: seq<Rank>, branches: seq<Branch>,
                     links: seq<BranchMission>, done: set<nat>): (ok: bool)
    ensures ok <==> Unlocked(m, missionId, xp, MinimumRank(m, ranks), done,
                             map[missionId := BranchDeps(branches, links, missionId)])
  {
    !RankShortfall(MinimumRank(m, ranks), xp)
    && (forall k :: 0 <= k < |m.prerequisites| ==> m.prerequisites[k] in done)
    && BranchDeps(branches, links, missionId) <= done
  }

  /** The gate of the submit endpoint: `_mission_availability` on the user's completed missions,
      with the branch dependencies built from all branches. */
  method SubmitLockReasons(db: Session, userId: nat, missionId: nat) returns (reasons: seq<string>)
    requires userId in db.users && missionId in db.missions
    ensures var m, done := db.missions[missionId], CompletedMissions(db.submissions, userId);
      exists order :: (Enumerates(order, BranchDeps(db.branches, db.branchLinks, missionId) - done)
        && reasons == RankReasons(MinimumRank(m, db.ranks), db.users[userId].xp)
                      + PrerequisiteReasons(m.prerequisites, done, Titles(db.missions))
                      + BranchReasons(order, Titles(db.missions)))
    ensures forall k :: 0 <= k < |reasons| ==> reasons[k] != ""
    ensures reasons == [] <==> MayStart(db.missions[missionId], missionId, db.users[userId].xp, db.ranks,
                                        db.branches, db.branchLinks, CompletedMissions(db.submissions, userId))
  {
    var mission := db.missions[missionId];
    var deps := BuildBranchDependencies(db.branches, db.branchLinks);
    var completed := CompletedMissions(db.submissions, userId);
    var titles := Titles(db.missions);
    var rank := MinimumRank(mission, db.ranks);
    var _, found := MissionAvailability(mission, missionId, db.users[userId].xp, rank, completed, deps, titles);
    reasons := found;
  }

  /** The submit endpoint: an unknown or inactive mission is not found; a locked mission is refused
      with its reasons joined by "; " before anything is written; otherwise the report is submitted. */
  method Submit(db: Session, userId: nat, missionId: nat, comment: Option<string>, proofUrl: Option<string>)
    returns (r: Result<Submission, Error>, ghost reasons: seq<string>)
    requires userId in db.users
    modifies db`submissions, db`journal, db`deletedFiles
    ensures missionId !in db.missions || !db.missions[missionId].isActive ==>
      r == Err(NotFound("Миссия не найдена")) && unchanged(db`submissions, db`journal, db`deletedFiles)
    ensures missionId in db.missions && db.missions[missionId].isActive ==>
      var unlocked := MayStart(db.missions[missionId], missionId, db.users[userId].xp, db.ranks, db.branches,
                               db.branchLinks, CompletedMissions(old(db.submissions), userId));
      (reasons == [] <==> unlocked)
      && (exists order :: (Enumerates(order, BranchDeps(db.branches, db.branchLinks, missionId)
                                               - CompletedMissions(old(db.submissions), userId))
          && reasons == RankReasons(MinimumRank(db.missions[missionId], db.ranks), db.users[userId].xp)
                        + PrerequisiteReasons(db.missions[missionId].prerequisites,
                                              CompletedMissions(old(db.submissions), userId), Titles(db.missions))
                        + BranchReasons(order, Titles(db.missions))))
      && (!unlocked ==> r == Err(BadRequest(Join(reasons, "; "))) && Join(reasons, "; ") != ""
                        && unchanged(db`submissions, db`journal, db`deletedFiles))
    ensures missionId in db.missions && db.missions[missionId].isActive && reasons == [] ==>
      var key := (userId, missionId);
      if AlreadyApproved(old(db.submissions), key) then
        r == Err(BadRequest("Миссия уже зачтена")) && unchanged(db`submissions, db`journal, db`deletedFiles)
      else
        var base := if key in old(db.submissions) then old(db.submissions[key]) else NewSubmission();
        r == Ok(Resubmitted(base, comment, proofUrl, Keep, Keep, Keep, Keep))
        && db.submissions == old(db.submissions)[key := r.value]
        && db.deletedFiles == old(db.deletedFiles)
        && db.journal == old(db.journal) + [SubmittedEntry(userId, missionId, db.missions[missionId].title)]
  {
    reasons := [];
    if missionId !in db.missions || !db.missions[missionId].isActive {
      return Err(NotFound("Миссия не найдена")), [];
    }
    var found := SubmitLockReasons(db, userId, missionId);
    reasons := found;
    if found != [] {
      assert found[0] != "";
      JoinNonEmpty(found, "; ");
      return Err(BadRequest(Join(found, "; "))), reasons;
    }
    r := SubmitMission(db, userId, missionId, comment, proofUrl);
  }


  // ---------------------------------------------------------------- branch listing

  /** How many links of a branch point at completed missions. */
  function CompletedCount(links: seq<BranchMission>, completed: set<nat>): (n: nat)
    ensures n <= |links|
    ensures n == |links| <==> forall k :: 0 <= k < |links| ==> links[k].missionId in completed
    ensures n == 0 <==> forall k :: 0 <= k < |links| ==> links[k].missionId !in completed
  {
    if |links| == 0 then 0
    else (if links[0].missionId in completed then 1 else 0) + CompletedCount(links[1..], completed)
  }

  /** The counts `list_branches` reports for a branch: its number of links, and how many of them
      point at completed missions. */
  function BranchCounts(links: seq<BranchMission>, branchId: nat, completed: set<nat>): (counts: (nat, nat))
    ensures counts.0 == |LinksOf(links, branchId)|
    ensures counts.1 <= counts.0
    ensures counts.1 == counts.0 <==> forall l :: l in links && l.branchId == branchId ==> l.missionId in completed
  {
    var ordered := Ordered(links, branchId);
    forall l | l in links && l.branchId == branchId ensures l in ordered {
      MembersOfSorted(LinksOf(links, branchId), LinkOrder, l);
    }
    forall k | 0 <= k < |ordered| ensures ordered[k] in links && ordered[k].branchId == branchId {
      MembersOfSorted(LinksOf(links, branchId), LinkOrder, ordered[k]);
    }
    (|ordered|, CompletedCount(ordered, completed))
  }
}
