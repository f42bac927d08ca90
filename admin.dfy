/** The HR/admin rules: optional-text sanitising, store-item creation and partial updates, the
    artifact delete guard, participant counts, branch listings and branch membership changes. */
module Admin {
  import opened Wrappers
  import opened Sets
  import opened Models
  import opened Db
  import opened Text
  import opened Sorting
  import opened MissionRoutes

  /** `_sanitize_optional`: surrounding whitespace is stripped and a blank text becomes nothing. */
  function SanitizeOptional(value: Option<string>): (r: Option<string>)
    ensures value.None? ==> r.None?
    ensures value.Some? ==> (r.None? <==> AllSpace(value.value))
    ensures r.Some? ==> r.value != "" && !IsSpace(r.value[0]) && !IsSpace(r.value[|r.value| - 1])
  {
    match value
    case None => None
    case Some(v) =>
      StripBlank(v);
      var stripped := Strip(v);
      if stripped == "" then None else Some(stripped)
  }

  /** Sanitising twice is sanitising once. */
  lemma SanitizeIdempotent(value: Option<string>)
    ensures SanitizeOptional(SanitizeOptional(value)) == SanitizeOptional(value)
  {
    if value.Some? {
      StripIdempotent(value.value);
    }
  }

  /** A store item whose name and description are non-blank and stripped, as both the create
      and the update handlers leave them. */
  predicate ItemValid(item: StoreItem) {
    item.name != "" && Strip(item.name) == item.name && item.description != "" && Strip(item.description) == item.description
  }

  /** `admin_store_create`: name and description are stripped and must not be blank; the image is
      then saved (`saved` is the path it was stored under, or the reason it was refused) and the
      item is added under the id the database assigns. */
  method AdminStoreCreate(db: Session, newId: nat, name: string, description: string, costMana: int, stock: int,
                          saved: Result<string, string>)
    returns (r: Result<StoreItem, Error>)
    requires newId !in db.storeItems
    modifies db`storeItems
    ensures AllSpace(name) || AllSpace(description) ==> r == Err(BadRequest("Название и описание не могут быть пустыми"))
    ensures !AllSpace(name) && !AllSpace(description) && saved.Err? ==> r == Err(BadRequest(saved.error))
    ensures r.Err? ==> unchanged(db`storeItems)
    ensures !AllSpace(name) && !AllSpace(description) && saved.Ok? ==> r.Ok?
    ensures r.Ok? ==>
      saved.Ok? && ItemValid(r.value)
      && r.value == StoreItem(Strip(name), Strip(description), costMana, stock, Some(saved.value))
      && db.storeItems == old(db.storeItems)[newId := r.value]
  {
    var cleanName := Strip(name);
    var cleanDescription := Strip(description);
    StripBlank(name);
    StripBlank(description);
    if cleanName == "" || cleanDescription == "" {
      return Err(BadRequest("Название и описание не могут быть пустыми"));
    }
    if saved.Err? {
      return Err(BadRequest(saved.error));
    }
    StripIdempotent(name);
    StripIdempotent(description);
    var item := StoreItem(cleanName, cleanDescription, costMana, stock, Some(saved.value));
    db.storeItems := db.storeItems[newId := item];
    r := Ok(item);
  }

  /** The fields of a store-item patch: unset, explicitly null, or a value. */
  datatype StoreItemPatch = StoreItemPatch(
    name: Field<Option<string>>,
    description: Field<Option<string>>,
    costMana: Field<Option<int>>,
    stock: Field<Option<int>>,
    imageUrl: Field<Option<string>>)

  /** A text field given a non-null value. */
  predicate Provided(f: Field<Option<string>>) {
    f.Given? && f.value.Some?
  }

  function NumberOr(f: Field<Option<int>>, current: int): int {
    if f.Given? && f.value.Some? then f.value.value else current
  }

  /** One text field of a patch: a value is stripped and must not be blank; unset or null keeps `current`. */
  function PatchText(current: string, f: Field<Option<string>>, blankError: string): (r: Result<string, Error>)
    ensures Provided(f) && AllSpace(f.value.value) ==> r == Err(BadRequest(blankError))
    ensures Provided(f) && !AllSpace(f.value.value) ==> r == Ok(Strip(f.value.value))
    ensures !Provided(f) ==> r == Ok(current)
  {
    if f.Given? && f.value.Some? then
      var stripped := Strip(f.value.value);
      StripBlank(f.value.value);
      if stripped == "" then Err(BadRequest(blankError)) else Ok(stripped)
    else Ok(current)
  }

  /** The item `admin_store_update` leaves, or the first blank field it refuses. */
  function PatchItem(item: StoreItem, patch: StoreItemPatch): (r: Result<StoreItem, Error>)
    ensures Provided(patch.name) && AllSpace(patch.name.value.value) ==> r == Err(BadRequest("Название не может быть пустым"))
    ensures !(Provided(patch.name) && AllSpace(patch.name.value.value))
      && Provided(patch.description) && AllSpace(patch.description.value.value)
      ==> r == Err(BadRequest("Описание не может быть пустым"))
    ensures r.Ok? ==>
      r.value.name == (if Provided(patch.name) then Strip(patch.name.value.value) else item.name)
      && r.value.description == (if Provided(patch.description) then Strip(patch.description.value.value) else item.description)
      && r.value.costMana == NumberOr(patch.costMana, item.costMana)
      && r.value.stock == NumberOr(patch.stock, item.stock)
      && r.value.imageUrl == (if patch.imageUrl.Given? then SanitizeOptional(patch.imageUrl.value) else item.imageUrl)
  {
    var name := PatchText(item.name, patch.name, "Название не может быть пустым");
    if name.Err? then Err(name.error)
    else
      var description := PatchText(item.description, patch.description, "Описание не может быть пустым");
      if description.Err? then Err(description.error)
      else
        Ok(StoreItem(name.value, description.value,
                     NumberOr(patch.costMana, item.costMana), NumberOr(patch.stock, item.stock),
                     if patch.imageUrl.Given? then SanitizeOptional(patch.imageUrl.value) else item.imageUrl))
  }

  /** A patch keeps a valid item valid: name and description never become blank or unstripped. */
  lemma PatchKeepsItemValid(item: StoreItem, patch: StoreItemPatch)
    requires ItemValid(item) && PatchItem(item, patch).Ok?
    ensures ItemValid(PatchItem(item, patch).value)
  {
    if Provided(patch.name) {
      StripBlank(patch.name.value.value);
      StripIdempotent(patch.name.value.value);
    }
    if Provided(patch.description) {
      StripBlank(patch.description.value.value);
      StripIdempotent(patch.description.value.value);
    }
  }

  /** Applying the same patch again changes nothing more. */
  lemma PatchIdempotent(item: StoreItem, patch: StoreItemPatch)
    requires PatchItem(item, patch).Ok?
    ensures PatchItem(PatchItem(item, patch).value, patch) == PatchItem(item, patch)
  {
    if patch.imageUrl.Given? {
      SanitizeIdempotent(patch.imageUrl.value);
    }
  }

  /** The stored image file a patch removes: clearing the image deletes the old one, if any. */
  function DroppedImage(item: StoreItem, patch: StoreItemPatch): (gone: seq<string>)
    ensures gone != [] ==> patch.imageUrl.Given? && SanitizeOptional(patch.imageUrl.value).None?
                           && item.imageUrl.Some? && gone == [item.imageUrl.value]
  {
    if patch.imageUrl.Given? && SanitizeOptional(patch.imageUrl.value).None? && item.imageUrl.Some? && item.imageUrl.value != ""
    then [item.imageUrl.value] else []
  }

  /** `admin_store_update`: an unknown item is not found; fields set to a value are applied in
      turn, and a blank name or description aborts the whole update; clearing the image deletes
      the stored file. */
  method AdminStoreUpdate(db: Session, itemId: nat, patch: StoreItemPatch) returns (r: Result<StoreItem, Error>)
    modifies db`storeItems, db`deletedFiles
    ensures itemId !in old(db.storeItems) ==> r == Err(NotFound("Товар не найден"))
    ensures itemId in old(db.storeItems) ==> r == PatchItem(old(db.storeItems[itemId]), patch)
    ensures r.Err? ==> unchanged(db`storeItems, db`deletedFiles)
    ensures r.Ok? ==>
      db.storeItems == old(db.storeItems)[itemId := r.value]
      && db.deletedFiles == old(db.deletedFiles) + DroppedImage(old(db.storeItems[itemId]), patch)
  {
    if itemId !in db.storeItems {
      return Err(NotFound("Товар не найден"));
    }
    var item := db.storeItems[itemId];
    var updated := item;
    var name := PatchText(item.name, patch.name, "Название не может быть пустым");
    if name.Err? {
      return Err(name.error);
    }
    updated := updated.(name := name.value);
    var description := PatchText(item.description, patch.description, "Описание не может быть пустым");
    if description.Err? {
      return Err(description.error);
    }
    updated := updated.(description := description.value);
    if patch.costMana.Given? && patch.costMana.value.Some? {
      updated := updated.(costMana := patch.costMana.value.value);
    }
    if patch.stock.Given? && patch.stock.value.Some? {
      updated := updated.(stock := patch.stock.value.value);
    }
    if patch.imageUrl.Given? {
      var newValue := SanitizeOptional(patch.imageUrl.value);
      if newValue.None? && item.imageUrl.Some? && item.imageUrl.value != "" {
        db.deletedFiles := db.deletedFiles + [item.imageUrl.value];
      }
      updated := updated.(imageUrl := newValue);
    }
    db.storeItems := db.storeItems[itemId := updated];
    r := Ok(updated);
  }

  /** The missions that award an artifact. */
  function MissionsWithArtifact(missions: map<nat, Mission>, artifactId: nat): (ids: set<nat>)
    ensures forall m :: m in ids <==> m in missions && missions[m].artifactId == Some(artifactId)
  {
    set m | m in missions && missions[m].artifactId == Some(artifactId)
  }

  /** Every artifact a mission awards exists. */
  ghost predicate ArtifactRefsValid(db: Session)
    reads db
  {
    forall m :: m in db.missions && db.missions[m].artifactId.Some? ==> db.missions[m].artifactId.value in db.artifacts
  }

  /** `delete_artifact`: an unknown artifact is not found, one a mission awards is kept, any other
      is removed; so no mission is ever left pointing at a deleted artifact. */
  method DeleteArtifact(db: Session, artifactId: nat) returns (r: Result<(), Error>)
    modifies db`artifacts
    ensures artifactId !in old(db.artifacts) ==> r == Err(NotFound("Артефакт не найден"))
    ensures artifactId in old(db.artifacts) && MissionsWithArtifact(db.missions, artifactId) != {} ==>
      r == Err(BadRequest("Нельзя удалить артефакт, привязанный к миссиям"))
    ensures r.Err? ==> unchanged(db`artifacts)
    ensures r.Ok? <==> artifactId in old(db.artifacts) && MissionsWithArtifact(db.missions, artifactId) == {}
    ensures r.Ok? ==> db.artifacts == old(db.artifacts) - {artifactId}
    ensures ArtifactRefsValid(db) <== old(ArtifactRefsValid(db))
  {
    if artifactId !in db.artifacts {
      return Err(NotFound("Артефакт не найден"));
    }
    var count := |MissionsWithArtifact(db.missions, artifactId)|;
    if count > 0 {
      return Err(BadRequest("Нельзя удалить артефакт, привязанный к миссиям"));
    }
    db.artifacts := db.artifacts - {artifactId};
    r := Ok(());
  }

  /** The mission's submissions that are not rejected. */
  function Participants(submissions: map<(nat, nat), Submission>, missionId: nat): (keys: set<(nat, nat)>)
    ensures forall k :: k in keys <==> k in submissions && k.1 == missionId && !submissions[k].status.Rejected?
  {
    set k | k in submissions && k.1 == missionId && !submissions[k].status.Rejected?
  }

  /** The participant count of `_mission_to_detail`: how many of the mission's submissions are not rejected. */
  function ParticipantCount(submissions: map<(nat, nat), Submission>, missionId: nat): (n: nat)
    ensures n <= |submissions|
  {
    SubsetSize(Participants(submissions, missionId), submissions.Keys);
    |Participants(submissions, missionId)|
  }

  /** Replacing one submission changes the participants at most at that submission's key. */
  lemma ParticipantsElsewhere(submissions: map<(nat, nat), Submission>, key: (nat, nat), s: Submission)
    ensures forall k :: k != key ==>
      (k in Participants(submissions[key := s], key.1) <==> k in Participants(submissions, key.1))
  {
    var updated := submissions[key := s];
    forall k | k != key
      ensures k in Participants(updated, key.1) <==> k in Participants(submissions, key.1)
    {
      assert k in updated <==> k in submissions;
      if k in submissions {
        assert updated[k] == submissions[k];
      }
    }
  }

  /** Rejecting a participant's pending or approved submission lowers the count by one, and a
      submission that is not rejected is counted once however often it is resubmitted. */
  lemma ParticipantCountOnReview(submissions: map<(nat, nat), Submission>, userId: nat, missionId: nat, s: Submission)
    requires (userId, missionId) in submissions
    ensures !submissions[(userId, missionId)].status.Rejected? && s.status.Rejected? ==>
      ParticipantCount(submissions[(userId, missionId) := s], missionId) + 1 == ParticipantCount(submissions, missionId)
    ensures !submissions[(userId, missionId)].status.Rejected? && !s.status.Rejected? ==>
      ParticipantCount(submissions[(userId, missionId) := s], missionId) == ParticipantCount(submissions, missionId)
    ensures submissions[(userId, missionId)].status.Rejected? && !s.status.Rejected? ==>
      ParticipantCount(submissions[(userId, missionId) := s], missionId) == ParticipantCount(submissions, missionId) + 1
  {
    var key := (userId, missionId);
    var updated := submissions[key := s];
    var before := Participants(submissions, missionId);
    var after := Participants(updated, missionId);
    var others := before - {key};
    assert ParticipantCount(submissions, missionId) == |before|;
    assert ParticipantCount(updated, missionId) == |after|;
    ParticipantsElsewhere(submissions, key, s);
    if submissions[key].status.Rejected? {
      assert before == others;
    } else {
      assert before == others + {key};
    }
    if s.status.Rejected? {
      assert after == others;
    } else {
      assert after == others + {key};
    }
  }

  datatype BranchMissionRead = BranchMissionRead(missionId: nat, missionTitle: string, order: int,
                                                 isCompleted: bool, isAvailable: bool)

  datatype BranchRead = BranchRead(id: nat, title: string, description: string, category: string,
                                   missions: seq<BranchMissionRead>, totalMissions: nat, completedMissions: nat)

  function ReadOf(link: BranchMission, missions: map<nat, Mission>): BranchMissionRead {
    BranchMissionRead(link.missionId, if link.missionId in missions then missions[link.missionId].title else "",
                      link.order, false, true)
  }

  function ReadsOf(links: seq<BranchMission>, missions: map<nat, Mission>): (r: seq<BranchMissionRead>)
    ensures |r| == |links|
    ensures forall k :: 0 <= k < |links| ==> r[k] == ReadOf(links[k], missions)
  {
    if |links| == 0 then [] else [ReadOf(links[0], missions)] + ReadsOf(links[1..], missions)
  }

  lemma {:induction false} ReadsOfInsert(x: BranchMission, s: seq<BranchMission>, missions: map<nat, Mission>)
    ensures multiset(ReadsOf(Insert(x, s, LinkOrder), missions))
            == multiset(ReadsOf(s, missions)) + multiset{ReadOf(x, missions)}
  {
    if |s| == 0 || LinkOrder(x) <= LinkOrder(s[0]) {
      assert ([x] + s)[1..] == s;
    } else {
      var t := Insert(x, s[1..], LinkOrder);
      ReadsOfInsert(x, s[1..], missions);
      assert ([s[0]] + t)[1..] == t;
      assert ReadsOf(s, missions) == [ReadOf(s[0], missions)] + ReadsOf(s[1..], missions);
    }
  }

  /** Sorting the links by order reorders their entries and keeps every one of them. */
  lemma {:induction false} ReadsOfSortPermutes(s: seq<BranchMission>, missions: map<nat, Mission>)
    ensures multiset(ReadsOf(SortBy(s, LinkOrder), missions)) == multiset(ReadsOf(s, missions))
  {
    if |s| > 0 {
      var t := SortBy(s[1..], LinkOrder);
      assert SortBy(s, LinkOrder) == Insert(s[0], t, LinkOrder);
      ReadsOfSortPermutes(s[1..], missions);
      ReadsOfInsert(s[0], t, missions);
      assert ReadsOf(s, missions) == [ReadOf(s[0], missions)] + ReadsOf(s[1..], missions);
    }
  }

  lemma OrderedMembers(links: seq<BranchMission>, branchId: nat)
    ensures forall l :: l in Ordered(links, branchId) <==> l in links && l.branchId == branchId
  {
    forall l ensures l in Ordered(links, branchId) <==> l in links && l.branchId == branchId {
      MembersOfSorted(LinksOf(links, branchId), LinkOrder, l);
    }
  }

  lemma EntriesSorted(links: seq<BranchMission>, branchId: nat, missions: map<nat, Mission>)
    ensures forall i, j :: 0 <= i < j < |ReadsOf(Ordered(links, branchId), missions)| ==>
      ReadsOf(Ordered(links, branchId), missions)[i].order <= ReadsOf(Ordered(links, branchId), missions)[j].order
  {
    var ordered := Ordered(links, branchId);
    var entries := ReadsOf(ordered, missions);
    SortBySorted(LinksOf(links, branchId), LinkOrder);
    forall i, j | 0 <= i < j < |entries| ensures entries[i].order <= entries[j].order {
      assert LinkOrder(ordered[i]) <= LinkOrder(ordered[j]);
    }
  }

  lemma EntriesFromBranch(links: seq<BranchMission>, branchId: nat, missions: map<nat, Mission>)
    ensures forall e :: e in ReadsOf(Ordered(links, branchId), missions) ==>
      exists l :: l in links && l.branchId == branchId && e.missionId == l.missionId && e.order == l.order
  {
    var ordered := Ordered(links, branchId);
    var entries := ReadsOf(ordered, missions);
    OrderedMembers(links, branchId);
    forall e | e in entries
      ensures exists l :: l in links && l.branchId == branchId && e.missionId == l.missionId && e.order == l.order
    {
      var k :| 0 <= k < |entries| && entries[k] == e;
      assert ordered[k] in ordered;
    }
  }

  lemma EntriesComplete(links: seq<BranchMission>, branchId: nat, missions: map<nat, Mission>)
    ensures forall l :: l in links && l.branchId == branchId ==> ReadOf(l, missions) in ReadsOf(Ordered(links, branchId), missions)
  {
    var ordered := Ordered(links, branchId);
    var entries := ReadsOf(ordered, missions);
    OrderedMembers(links, branchId);
    forall l | l in links && l.branchId == branchId ensures ReadOf(l, missions) in entries {
      var k :| 0 <= k < |ordered| && ordered[k] == l;
      assert entries[k] == ReadOf(l, missions);
    }
  }

  /** `_branch_to_read`: the branch's missions sorted by order, each reported as available and not
      completed, with the count of all of them and none completed. */
  function BranchToRead(branch: Branch, links: seq<BranchMission>, missions: map<nat, Mission>): (read: BranchRead)
    ensures read.totalMissions == |read.missions| == |LinksOf(links, branch.id)|
    ensures read.completedMissions == 0
    ensures forall i, j :: 0 <= i < j < |read.missions| ==> read.missions[i].order <= read.missions[j].order
    ensures forall e :: e in read.missions ==>
      (!e.isCompleted && e.isAvailable
       && exists l :: l in links && l.branchId == branch.id && e.missionId == l.missionId && e.order == l.order)
    ensures forall l :: l in links && l.branchId == branch.id ==> ReadOf(l, missions) in read.missions
    ensures multiset(read.missions) == multiset(ReadsOf(LinksOf(links, branch.id), missions))
  {
    var entries := ReadsOf(Ordered(links, branch.id), missions);
    ReadsOfSortPermutes(LinksOf(links, branch.id), missions);
    EntriesSorted(links, branch.id, missions);
    EntriesFromBranch(links, branch.id, missions);
    EntriesComplete(links, branch.id, missions);
    BranchRead(branch.id, branch.title, branch.description, branch.category, entries, |entries|, 0)
  }

  /** The links of other missions, in table order: the mission's own links cleared. */
  function WithoutMission(links: seq<BranchMission>, missionId: nat): (r: seq<BranchMission>)
    ensures forall l :: l in r <==> l in links && l.missionId != missionId
    ensures |r| <= |links|
  {
    if |links| == 0 then []
    else (if links[0].missionId == missionId then [] else [links[0]]) + WithoutMission(links[1..], missionId)
  }

  /** The links of one mission, in table order. */
  function MissionLinks(links: seq<BranchMission>, missionId: nat): (r: seq<BranchMission>)
    ensures forall l :: l in r <==> l in links && l.missionId == missionId
  {
    if |links| == 0 then []
    else (if links[0].missionId == missionId then [links[0]] else []) + MissionLinks(links[1..], missionId)
  }

  /** The index of the mission's first link, if it has one. */
  function FirstLink(links: seq<BranchMission>, missionId: nat): (i: Option<nat>)
    ensures i.Some? ==> (i.value < |links| && links[i.value].missionId == missionId
                         && forall k :: 0 <= k < i.value ==> links[k].missionId != missionId)
    ensures i.None? ==> forall k :: 0 <= k < |links| ==> links[k].missionId != missionId
  {
    if |links| == 0 then None
    else if links[0].missionId == missionId then Some(0)
    else match FirstLink(links[1..], missionId)
      case None => None
      case Some(j) => Some(j + 1)
  }

  /** The branch handling of `update_mission_endpoint`. When `branch_id` is sent, the mission's
      links are replaced by at most one, to that branch at the sent order or 1; otherwise a sent
      `branch_order` moves only the mission's first link. Other missions' links are untouched. */
  method UpdateMissionBranch(db: Session, missionId: nat, branchId: Field<Option<nat>>, branchOrder: Field<int>)
    modifies db`branchLinks
    ensures branchId.Given? ==>
      db.branchLinks == WithoutMission(old(db.branchLinks), missionId)
        + (if branchId.value.Some?
           then [BranchMission(branchId.value.value, missionId, if branchOrder.Given? then branchOrder.value else 1)]
           else [])
    ensures branchId.Unset? && branchOrder.Given? && FirstLink(old(db.branchLinks), missionId).Some? ==>
      var i := FirstLink(old(db.branchLinks), missionId).value;
      db.branchLinks == old(db.branchLinks)[i := old(db.branchLinks)[i].(order := branchOrder.value)]
    ensures branchId.Unset? && (branchOrder.Unset? || FirstLink(old(db.branchLinks), missionId).None?) ==>
      unchanged(db`branchLinks)
  {
    if branchId.Given? {
      var kept := WithoutMission(db.branchLinks, missionId);
      if branchId.value.Some? {
        var order := if branchOrder.Given? then branchOrder.value else 1;
        kept := kept + [BranchMission(branchId.value.value, missionId, order)];
      }
      db.branchLinks := kept;
    } else if branchOrder.Given? {
      var first := FirstLink(db.branchLinks, missionId);
      if first.Some? {
        var i := first.value;
        db.branchLinks := db.branchLinks[i := db.branchLinks[i].(order := branchOrder.value)];
      }
    }
  }

  /** After `branch_id` is sent the mission belongs to at most one branch: the one sent. */
  lemma BranchReplacementLeavesOneLink(links: seq<BranchMission>, missionId: nat, branchId: Option<nat>, order: int)
    ensures var result := WithoutMission(links, missionId)
              + (if branchId.Some? then [BranchMission(branchId.value, missionId, order)] else []);
      MissionLinks(result, missionId) == (if branchId.Some? then [BranchMission(branchId.value, missionId, order)] else [])
  {
    var kept := WithoutMission(links, missionId);
    var tail := if branchId.Some? then [BranchMission(branchId.value, missionId, order)] else [];
    MissionLinksAppend(kept, tail, missionId);
    NoMissionLinks(kept, missionId);
    MissionLinksAll(tail, missionId);
  }

  lemma {:induction false} MissionLinksAppend(a: seq<BranchMission>, b: seq<BranchMission>, missionId: nat)
    ensures MissionLinks(a + b, missionId) == MissionLinks(a, missionId) + MissionLinks(b, missionId)
  {
    if |a| > 0 {
      var head := if a[0].missionId == missionId then [a[0]] else [];
      calc {
        MissionLinks(a + b, missionId);
        { assert (a + b)[0] == a[0]; }
        head + MissionLinks((a + b)[1..], missionId);
        { assert (a + b)[1..] == a[1..] + b; }
        head + MissionLinks(a[1..] + b, missionId);
        { MissionLinksAppend(a[1..], b, missionId); }
        head + (MissionLinks(a[1..], missionId) + MissionLinks(b, missionId));
        (head + MissionLinks(a[1..], missionId)) + MissionLinks(b, missionId);
        MissionLinks(a, missionId) + MissionLinks(b, missionId);
      }
    } else {
      assert a + b == b;
    }
  }

  lemma NoMissionLinks(links: seq<BranchMission>, missionId: nat)
    requires forall l :: l in links ==> l.missionId != missionId
    ensures MissionLinks(links, missionId) == []
  {
  }

  lemma MissionLinksAll(links: seq<BranchMission>, missionId: nat)
    requires |links| <= 1 && forall l :: l in links ==> l.missionId == missionId
    ensures MissionLinks(links, missionId) == links
  {
    if |links| == 1 {
      assert links[1..] == [];
    }
  }
}
