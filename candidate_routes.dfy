/** The candidate routes (backend/routes/candidateRoutes.js): the admin gate
    `checkAdminRole`, creating, updating and deleting candidates (with the
    image host's upload and destroy calls recorded as events, in order),
    the legacy per-candidate vote, and the `/vote/count` listing. Each
    route is a specification function; the class `CandidateRegistry`
    holds the collection and the event log and its methods are proved to
    follow those functions.

    The legacy vote and the vote count use `votes` and `voteCount`, which
    the candidate schema does not declare. As written, the vote fails after
    its guards and the count lists no counts (`LegacyVoteOn`,
    `VoteCountRows`). The behaviour the routes evidently intend is modelled
    over candidates that do carry a tally (`Tally`, `TallyBoard`). */
module CandidateRoutes {
  import opened Common
  import opened UserSchema
  import opened UserRoutes
  import opened CandidateSchema
  import opened ElectionResults

  // ---------------------------------------------------------------------
  // checkAdminRole
  // ---------------------------------------------------------------------

  /** What `User.findById` yields: a document, null, or a thrown error. */
  datatype UserLookup = Found(user: User) | Missing | LookupFailed

  function FindUser(users: seq<User>, id: UserId): (r: UserLookup)
    ensures r != LookupFailed
    ensures r.Found? <==> exists k :: 0 <= k < |users| && users[k].id == id
    ensures r.Found? ==> r.user in users && r.user.id == id
  {
    match IndexById(users, id)
    case None => Missing
    case Some(k) => Found(users[k])
  }

  /** `checkAdminRole`: reading `role` of a null user throws, and every
      error is caught and answered false. */
  function CheckAdminRole(lookup: UserLookup): (r: bool)
    ensures r ==> lookup.Found?
    ensures lookup.Found? ==> (r <==> lookup.user.role == Admin)
  {
    match lookup
    case Found(u) => u.role == Admin
    case Missing => false
    case LookupFailed => false
  }

  /** The gate passes exactly for a found administrator; a missing user or
      a failed lookup is refused. Over a collection with unique ids it
      passes exactly when the user with that id is an administrator. */
  lemma CheckAdminRoleExact(lookup: UserLookup, users: seq<User>, id: UserId)
    ensures CheckAdminRole(lookup) <==> lookup.Found? && lookup.user.role == Admin
    ensures UniqueIds(users) ==>
      (CheckAdminRole(FindUser(users, id)) <==> exists k :: 0 <= k < |users| && users[k].id == id && users[k].role == Admin)
  {
  }

  /** `Candidate.findById`: the first candidate with this id. */
  function CandidateIndex(candidates: seq<Candidate>, id: CandidateId): (r: Option<nat>)
    ensures r.Some? ==> r.value < |candidates| && candidates[r.value].id == id
    ensures r.Some? ==> forall k :: 0 <= k < r.value ==> candidates[k].id != id
    ensures r.None? ==> forall k :: 0 <= k < |candidates| ==> candidates[k].id != id
  {
    if candidates == [] then None
    else if candidates[0].id == id then Some(0)
    else
      var rest := CandidateIndex(candidates[1..], id);
      if rest.None? then None else Some(rest.value + 1)
  }

  predicate UniqueCandidateIds(candidates: seq<Candidate>) {
    forall a, b :: 0 <= a < b < |candidates| ==> candidates[a].id != candidates[b].id
  }

  predicate CandidatesInvariant(candidates: seq<Candidate>) {
    UniqueCandidateIds(candidates) && forall k :: 0 <= k < |candidates| ==> ValidCandidate(candidates[k])
  }

  /** Calls made to the image host, in order. */
  datatype ImageEvent = Upload | Destroy(publicId: string)

  /** What a successful upload returns. */
  datatype Uploaded = Uploaded(secureUrl: string, publicId: string)

  // ---------------------------------------------------------------------
  // POST /candidate
  // ---------------------------------------------------------------------

  datatype CreateOutcome = CreateForbidden | NameAndPartyRequired | CreateFailed | CandidateCreated(candidate: Candidate)
  {
    function Status(): int {
      match this
      case CreateForbidden => 403
      case NameAndPartyRequired => 400
      case CreateFailed => 500
      case CandidateCreated(_) => 201
    }
  }

  /** `x || undefined` for a string. */
  function OrAbsent(s: string): Option<string> {
    if s != "" then Some(s) else None
  }

  /** Creation: admins only (403); name and party must be non-empty (400);
      a file, when sent, is uploaded (an upload that throws gives 500); the
      stored candidate takes the defaults and the uploaded image, if any.
      Returns the new collection, the image-host calls made, and the
      response. */
  function CreateCandidateOn(candidates: seq<Candidate>, users: seq<User>, callerId: UserId,
                             name: Option<string>, party: Option<string>,
                             file: bool, upload: Option<Uploaded>, newId: CandidateId)
    : (r: (seq<Candidate>, seq<ImageEvent>, CreateOutcome))
    ensures !r.2.CandidateCreated? ==> r.0 == candidates
  {
    if !CheckAdminRole(FindUser(users, callerId)) then (candidates, [], CreateForbidden)
    else if !Truthy(name) || !Truthy(party) then (candidates, [], NameAndPartyRequired)
    else if file && upload.None? then (candidates, [Upload], CreateFailed)
    else
      var image := if file then OrAbsent(upload.value.secureUrl) else None;
      var publicId := if file then OrAbsent(upload.value.publicId) else None;
      var c := CastCandidate(CandidateDraft(name, party, None, image, publicId), newId).value;
      (candidates + [c], if file then [Upload] else [], CandidateCreated(c))
  }

  /** Creation refuses non-admins and incomplete requests without touching
      the image host; a created candidate has the requested name and party,
      age 25, and the uploaded image exactly when a file was sent; creation
      keeps ids unique and every candidate valid. */
  lemma CreateCandidateEffect(candidates: seq<Candidate>, users: seq<User>, callerId: UserId,
                              name: Option<string>, party: Option<string>,
                              file: bool, upload: Option<Uploaded>, newId: CandidateId)
    requires CandidatesInvariant(candidates)
    requires CandidateIndex(candidates, newId).None?
    ensures var (after, events, outcome) := CreateCandidateOn(candidates, users, callerId, name, party, file, upload, newId);
      && CandidatesInvariant(after)
      && (!CheckAdminRole(FindUser(users, callerId)) ==> outcome == CreateForbidden && events == [])
      && (CheckAdminRole(FindUser(users, callerId)) && (!Truthy(name) || !Truthy(party)) ==>
            outcome == NameAndPartyRequired && events == [])
      && (outcome.CandidateCreated? ==>
            && after == candidates + [outcome.candidate]
            && outcome.candidate == Candidate(newId, name.value, party.value, DefaultAge,
                                              if file then OrAbsent(upload.value.secureUrl) else None,
                                              if file then OrAbsent(upload.value.publicId) else None)
            && events == (if file then [Upload] else []))
  {
  }

  // ---------------------------------------------------------------------
  // PUT /candidate/:candidateId
  // ---------------------------------------------------------------------

  /** The request body of an update: each field replaces the stored one
      when present. */
  datatype CandidatePatch = CandidatePatch(name: Option<string>, party: Option<string>, age: Option<int>,
                                           image: Option<string>, imagePublicId: Option<string>)

  function ApplyPatch(c: Candidate, p: CandidatePatch): (r: Candidate)
    ensures r.id == c.id
    ensures r.name == (if p.name.Some? then p.name.value else c.name)
    ensures r.party == (if p.party.Some? then p.party.value else c.party)
    ensures r.age == (if p.age.Some? then p.age.value else c.age)
    ensures r.image == (if p.image.Some? then p.image else c.image)
    ensures r.imagePublicId == (if p.imagePublicId.Some? then p.imagePublicId else c.imagePublicId)
  {
    Candidate(c.id,
              if p.name.Some? then p.name.value else c.name,
              if p.party.Some? then p.party.value else c.party,
              if p.age.Some? then p.age.value else c.age,
              if p.image.Some? then p.image else c.image,
              if p.imagePublicId.Some? then p.imagePublicId else c.imagePublicId)
  }

  /** `runValidators: true`: the required validators reject an update that
      sets name or party to the empty string. */
  predicate PatchValid(p: CandidatePatch) {
    p.name != Some("") && p.party != Some("")
  }

  datatype UpdateOutcome = UpdateForbidden | UpdateNotFound | UpdateFailed | CandidateUpdated(candidate: Candidate)
  {
    function Status(): int {
      match this
      case UpdateForbidden => 403
      case UpdateNotFound => 404
      case UpdateFailed => 500
      case CandidateUpdated(_) => 200
    }
  }

  /** Update: admins only (403); unknown id 404; with a file, the stored
      image is destroyed first when it has a public id, then the new one is
      uploaded and its URL and public id override the body; then the body
      is applied with validation (500 on failure, the image-host calls
      having been made all the same). */
  function UpdateCandidateOn(candidates: seq<Candidate>, users: seq<User>, callerId: UserId,
                             candidateId: CandidateId, patch: CandidatePatch,
                             file: bool, upload: Option<Uploaded>)
    : (r: (seq<Candidate>, seq<ImageEvent>, UpdateOutcome))
    ensures !r.2.CandidateUpdated? ==> r.0 == candidates
    ensures |r.0| == |candidates|
  {
    if !CheckAdminRole(FindUser(users, callerId)) then (candidates, [], UpdateForbidden)
    else match CandidateIndex(candidates, candidateId)
      case None => (candidates, [], UpdateNotFound)
      case Some(i) =>
        var stored := candidates[i];
        var destroyed := if file && Truthy(stored.imagePublicId) then [Destroy(stored.imagePublicId.value)] else [];
        if file && upload.None? then (candidates, destroyed + [Upload], UpdateFailed)
        else
          var events := destroyed + (if file then [Upload] else []);
          var body := if file then patch.(image := Some(upload.value.secureUrl), imagePublicId := Some(upload.value.publicId)) else patch;
          if !PatchValid(body) then (candidates, events, UpdateFailed)
          else
            var c := ApplyPatch(stored, body);
            (candidates[i := c], events, CandidateUpdated(c))
  }

  /** The update route's order of effects: non-admins get 403 and an
      unknown id 404 (after the admin check), neither touching the image
      host; with a file, the old image is destroyed before the new one is
      uploaded. */
  lemma UpdateCandidateGuards(candidates: seq<Candidate>, users: seq<User>, callerId: UserId,
                              candidateId: CandidateId, patch: CandidatePatch,
                              file: bool, upload: Option<Uploaded>)
    ensures var (after, events, outcome) := UpdateCandidateOn(candidates, users, callerId, candidateId, patch, file, upload);
      && (!CheckAdminRole(FindUser(users, callerId)) ==> outcome == UpdateForbidden && events == [])
      && (CheckAdminRole(FindUser(users, callerId)) && (forall k :: 0 <= k < |candidates| ==> candidates[k].id != candidateId) ==>
            outcome == UpdateNotFound && events == [])
      && (CheckAdminRole(FindUser(users, callerId)) && CandidateIndex(candidates, candidateId).Some? && file ==>
            var stored := candidates[CandidateIndex(candidates, candidateId).value];
            events == (if Truthy(stored.imagePublicId) then [Destroy(stored.imagePublicId.value), Upload] else [Upload]))
  {
  }

  /** A successful update changes exactly the candidate with that id, to
      the stored record with the body (and any uploaded image) applied,
      and keeps ids unique and every candidate valid. */
  lemma UpdateCandidateEffect(candidates: seq<Candidate>, users: seq<User>, callerId: UserId,
                              candidateId: CandidateId, patch: CandidatePatch,
                              file: bool, upload: Option<Uploaded>)
    requires CandidatesInvariant(candidates)
    ensures var (after, events, outcome) := UpdateCandidateOn(candidates, users, callerId, candidateId, patch, file, upload);
      && CandidatesInvariant(after)
      && (outcome.CandidateUpdated? ==>
            var i := CandidateIndex(candidates, candidateId).value;
            && after[i] == outcome.candidate && outcome.candidate.id == candidateId
            && outcome.candidate.name == (if patch.name.Some? then patch.name.value else candidates[i].name)
            && outcome.candidate.party == (if patch.party.Some? then patch.party.value else candidates[i].party)
            && (file ==> outcome.candidate.image == Some(upload.value.secureUrl)
                         && outcome.candidate.imagePublicId == Some(upload.value.publicId))
            && forall k :: 0 <= k < |candidates| && k != i ==> after[k] == candidates[k])
  {
    var (after, events, outcome) := UpdateCandidateOn(candidates, users, callerId, candidateId, patch, file, upload);
    if outcome.CandidateUpdated? {
      var i := CandidateIndex(candidates, candidateId).value;
      ReplaceKeepsInvariant(candidates, i, outcome.candidate);
    }
  }

  /** Replacing a candidate by a valid one with the same id keeps ids
      unique and every candidate valid. */
  lemma ReplaceKeepsInvariant(candidates: seq<Candidate>, i: nat, c: Candidate)
    requires CandidatesInvariant(candidates) && i < |candidates|
    requires c.id == candidates[i].id && ValidCandidate(c)
    ensures CandidatesInvariant(candidates[i := c])
  {
    var after := candidates[i := c];
    assert forall k :: 0 <= k < |after| ==> after[k].id == candidates[k].id;
  }

  // ---------------------------------------------------------------------
  // DELETE /candidate/:candidateId
  // ---------------------------------------------------------------------

  datatype RemoveOutcome = RemoveForbidden | RemoveNotFound | CandidateRemoved
  {
    function Status(): int {
      match this
      case RemoveForbidden => 403
      case RemoveNotFound => 404
      case CandidateRemoved => 200
    }
  }

  function DeleteCandidateOn(candidates: seq<Candidate>, users: seq<User>, callerId: UserId, candidateId: CandidateId)
    : (r: (seq<Candidate>, RemoveOutcome))
    ensures r.1 != CandidateRemoved ==> r.0 == candidates
    ensures r.1 == CandidateRemoved ==> |r.0| + 1 == |candidates| && forall k :: 0 <= k < |r.0| ==> r.0[k] in candidates
  {
    if !CheckAdminRole(FindUser(users, callerId)) then (candidates, RemoveForbidden)
    else match CandidateIndex(candidates, candidateId)
      case None => (candidates, RemoveNotFound)
      case Some(i) => (candidates[..i] + candidates[i + 1..], CandidateRemoved)
  }

  /** Deletion: 403 for non-admins and, after that check, 404 for an
      unknown id, both changing nothing; otherwise exactly the candidate
      with that id is gone and every other one is kept. */
  lemma DeleteCandidateEffect(candidates: seq<Candidate>, users: seq<User>, callerId: UserId, candidateId: CandidateId)
    requires CandidatesInvariant(candidates)
    ensures var (after, outcome) := DeleteCandidateOn(candidates, users, callerId, candidateId);
      && CandidatesInvariant(after)
      && (!CheckAdminRole(FindUser(users, callerId)) ==> outcome == RemoveForbidden)
      && (outcome == CandidateRemoved <==>
            CheckAdminRole(FindUser(users, callerId)) && exists k :: 0 <= k < |candidates| && candidates[k].id == candidateId)
      && (outcome != CandidateRemoved ==> after == candidates)
      && (outcome == CandidateRemoved ==>
            |after| == |candidates| - 1 && (forall k :: 0 <= k < |after| ==> after[k].id != candidateId)
            && forall k :: 0 <= k < |candidates| && candidates[k].id != candidateId ==> candidates[k] in after)
  {
    var (after, outcome) := DeleteCandidateOn(candidates, users, callerId, candidateId);
    if outcome == CandidateRemoved {
      var i := CandidateIndex(candidates, candidateId).value;
      RemoveCandidateShift(candidates, i);
      RemoveCandidateKeepsInvariant(candidates, i);
      RemoveCandidateKeepsOthers(candidates, i);
    }
  }

  /** Removing position `i` shifts the later candidates down by one. */
  lemma RemoveCandidateShift(candidates: seq<Candidate>, i: nat)
    requires i < |candidates|
    ensures var after := candidates[..i] + candidates[i + 1..];
      |after| == |candidates| - 1
      && forall k :: 0 <= k < |after| ==> after[k] == (if k < i then candidates[k] else candidates[k + 1])
  {
  }

  /** Removing one candidate keeps the invariant, and with unique ids
      leaves no candidate with the removed one's id. */
  lemma RemoveCandidateKeepsInvariant(candidates: seq<Candidate>, i: nat)
    requires CandidatesInvariant(candidates) && i < |candidates|
    ensures var after := candidates[..i] + candidates[i + 1..];
      CandidatesInvariant(after) && forall k :: 0 <= k < |after| ==> after[k].id != candidates[i].id
  {
    RemoveCandidateShift(candidates, i);
  }

  /** Every candidate with another id is still there after the removal. */
  lemma RemoveCandidateKeepsOthers(candidates: seq<Candidate>, i: nat)
    requires i < |candidates|
    ensures var after := candidates[..i] + candidates[i + 1..];
      forall k :: 0 <= k < |candidates| && candidates[k].id != candidates[i].id ==> candidates[k] in after
  {
    var after := candidates[..i] + candidates[i + 1..];
    RemoveCandidateShift(candidates, i);
    forall k | 0 <= k < |candidates| && candidates[k].id != candidates[i].id ensures candidates[k] in after {
      if k < i { assert after[k] == candidates[k]; } else { assert after[k - 1] == candidates[k]; }
    }
  }

  // ---------------------------------------------------------------------
  // POST /candidate/vote/:candidateId (legacy)
  // ---------------------------------------------------------------------

  datatype LegacyVoteOutcome =
    | LegacyCandidateNotFound
    | LegacyUserNotFound
    | LegacyAlreadyVoted
    | LegacyAdminsMayNotVote
    | LegacyVoteFailed
    | LegacyVoteCast
  {
    function Status(): int {
      match this
      case LegacyCandidateNotFound => 404
      case LegacyUserNotFound => 404
      case LegacyAlreadyVoted => 403
      case LegacyAdminsMayNotVote => 403
      case LegacyVoteFailed => 500
      case LegacyVoteCast => 200
    }
  }

  /** The legacy vote's guards, in the route's order: candidate, user,
      already voted, administrator. None when all pass. */
  function LegacyGuard(candidateFound: bool, users: seq<User>, userId: UserId): (r: Option<LegacyVoteOutcome>)
    ensures r.Some? ==> r.value != LegacyVoteCast && r.value != LegacyVoteFailed
  {
    if !candidateFound then Some(LegacyCandidateNotFound)
    else match IndexById(users, userId)
      case None => Some(LegacyUserNotFound)
      case Some(k) =>
        if users[k].isVoted then Some(LegacyAlreadyVoted)
        else if users[k].role == Admin then Some(LegacyAdminsMayNotVote)
        else None
  }

  /** The legacy vote as written: after the guards, `candidate.votes` is
      undefined on a candidate document, so the push throws and the route
      answers 500 before saving anything; nothing ever changes. */
  function LegacyVoteOn(candidates: seq<Candidate>, users: seq<User>, candidateId: CandidateId, userId: UserId)
    : (r: LegacyVoteOutcome)
    ensures r != LegacyVoteCast
    ensures r == LegacyCandidateNotFound <==> CandidateIndex(candidates, candidateId).None?
  {
    match LegacyGuard(CandidateIndex(candidates, candidateId).Some?, users, userId)
    case Some(refusal) => refusal
    case None => LegacyVoteFailed
  }

  /** As written, the legacy vote never succeeds: a registered voter who
      has not voted, voting for a stored candidate, gets 500. */
  lemma LegacyVoteNeverCounts(c: Candidate, u: User)
    requires !u.isVoted && u.role == Voter
    ensures LegacyVoteOn([c], [u], c.id, u.id) == LegacyVoteFailed
    ensures forall cs: seq<Candidate>, us: seq<User>, cid: CandidateId, uid: UserId ::
      LegacyVoteOn(cs, us, cid, uid) != LegacyVoteCast
  {
  }

  /** The guard order decides overlapping cases: an administrator who has
      the voted flag set is told "already voted", not "admins cannot
      vote". */
  lemma LegacyGuardOrder(candidates: seq<Candidate>, users: seq<User>, candidateId: CandidateId, userId: UserId)
    requires CandidateIndex(candidates, candidateId).Some?
    requires IndexById(users, userId).Some?
    requires users[IndexById(users, userId).value].isVoted
    ensures LegacyVoteOn(candidates, users, candidateId, userId) == LegacyAlreadyVoted
  {
  }

  /** A candidate with the vote fields the route expects. */
  datatype Tally = Tally(candidate: Candidate, votes: seq<UserId>, voteCount: int)

  predicate TallyKept(t: Tally) {
    t.voteCount == |t.votes|
  }

  function TallyIndex(tallies: seq<Tally>, id: CandidateId): (r: Option<nat>)
    ensures r.Some? ==> r.value < |tallies| && tallies[r.value].candidate.id == id
    ensures r.None? ==> forall k :: 0 <= k < |tallies| ==> tallies[k].candidate.id != id
  {
    if tallies == [] then None
    else if tallies[0].candidate.id == id then Some(0)
    else
      var rest := TallyIndex(tallies[1..], id);
      if rest.None? then None else Some(rest.value + 1)
  }

  /** The legacy vote as intended: the same guards, then the candidate's
      record gains the voter and one vote, and the voter is marked as
      having voted. */
  function IntendedLegacyVoteOn(tallies: seq<Tally>, users: seq<User>, candidateId: CandidateId, userId: UserId)
    : (r: (seq<Tally>, seq<User>, LegacyVoteOutcome))
    ensures r.2 != LegacyVoteCast ==> r.0 == tallies && r.1 == users
    ensures |r.0| == |tallies| && |r.1| == |users|
  {
    match LegacyGuard(TallyIndex(tallies, candidateId).Some?, users, userId)
    case Some(refusal) => (tallies, users, refusal)
    case None =>
      var i := TallyIndex(tallies, candidateId).value;
      var k := IndexById(users, userId).value;
      var t := tallies[i];
      (tallies[i := t.(votes := t.votes + [userId], voteCount := t.voteCount + 1)],
       users[k := users[k].(isVoted := true)],
       LegacyVoteCast)
  }

  /** An intended legacy vote changes exactly one tally, by one vote and
      one voter, keeping its count equal to its number of voters, and
      marks exactly the voter as having voted; the user collection keeps
      its invariants. */
  lemma IntendedLegacyVoteEffect(tallies: seq<Tally>, users: seq<User>, candidateId: CandidateId, userId: UserId)
    requires forall k :: 0 <= k < |tallies| ==> TallyKept(tallies[k])
    requires UniqueIds(users) && UniqueAadhar(users) && AtMostOneAdmin(users)
    ensures var (ts, us, outcome) := IntendedLegacyVoteOn(tallies, users, candidateId, userId);
      && (forall k :: 0 <= k < |ts| ==> TallyKept(ts[k]))
      && UniqueIds(us) && UniqueAadhar(us) && AtMostOneAdmin(us)
      && (outcome == LegacyVoteCast ==>
            var i := TallyIndex(tallies, candidateId).value;
            var k := IndexById(users, userId).value;
            && !users[k].isVoted && users[k].role == Voter
            && ts[i].votes == tallies[i].votes + [userId] && ts[i].voteCount == tallies[i].voteCount + 1
            && ts[i].candidate == tallies[i].candidate
            && (forall j :: 0 <= j < |tallies| && j != i ==> ts[j] == tallies[j])
            && us[k] == users[k].(isVoted := true)
            && (forall j :: 0 <= j < |users| && j != k ==> us[j] == users[j]))
  {
    var (ts, us, outcome) := IntendedLegacyVoteOn(tallies, users, candidateId, userId);
    if outcome == LegacyVoteCast {
      MarkVotedKeepsInvariants(users, IndexById(users, userId).value);
    }
  }

  /** Setting a user's voted flag keeps the user collection's invariants. */
  lemma MarkVotedKeepsInvariants(users: seq<User>, k: nat)
    requires UniqueIds(users) && UniqueAadhar(users) && AtMostOneAdmin(users) && k < |users|
    ensures var us := users[k := users[k].(isVoted := true)];
      UniqueIds(us) && UniqueAadhar(us) && AtMostOneAdmin(us)
  {
    var us := users[k := users[k].(isVoted := true)];
    assert forall j :: 0 <= j < |us| ==>
      us[j].id == users[j].id && us[j].addharCardNumber == users[j].addharCardNumber && us[j].role == users[j].role;
  }

  /** With the intended behaviour a user votes at most once: right after
      a counted vote the same user's next vote, for any candidate, is
      refused as "already voted" and changes nothing. */
  lemma IntendedLegacyVoteOnce(tallies: seq<Tally>, users: seq<User>, candidateId: CandidateId, userId: UserId,
                               otherCandidate: CandidateId)
    requires IntendedLegacyVoteOn(tallies, users, candidateId, userId).2 == LegacyVoteCast
    requires TallyIndex(tallies, otherCandidate).Some?
    ensures var (ts, us, _) := IntendedLegacyVoteOn(tallies, users, candidateId, userId);
      IntendedLegacyVoteOn(ts, us, otherCandidate, userId) == (ts, us, LegacyAlreadyVoted)
  {
    var (ts, us, _) := IntendedLegacyVoteOn(tallies, users, candidateId, userId);
    var k := IndexById(users, userId).value;
    assert forall j :: 0 <= j < |us| ==> us[j].id == users[j].id;
    IndexByIdSameIds(users, us, userId);
    TallyIndexSameIds(tallies, ts, otherCandidate);
  }

  lemma {:induction false} IndexByIdSameIds(a: seq<User>, b: seq<User>, id: UserId)
    requires |a| == |b| && forall k :: 0 <= k < |a| ==> a[k].id == b[k].id
    ensures IndexById(a, id) == IndexById(b, id)
  {
    if a != [] {
      IndexByIdSameIds(a[1..], b[1..], id);
    }
  }

  lemma {:induction false} TallyIndexSameIds(a: seq<Tally>, b: seq<Tally>, id: CandidateId)
    requires |a| == |b| && forall k :: 0 <= k < |a| ==> a[k].candidate.id == b[k].candidate.id
    ensures TallyIndex(a, id) == TallyIndex(b, id)
  {
    if a != [] {
      TallyIndexSameIds(a[1..], b[1..], id);
    }
  }

  // ---------------------------------------------------------------------
  // GET /candidate/vote/count
  // ---------------------------------------------------------------------

  /** One row of the listing; `count` is read from `voteCount`. */
  datatype VoteCountRow = VoteCountRow(name: string, id: CandidateId, party: string, count: Option<int>)

  /** As written: the sort key `voteCount` is absent on every candidate, so
      every key is equal and the stored order stands, and no row carries a
      count. */
  function VoteCountRows(candidates: seq<Candidate>): (r: seq<VoteCountRow>)
    ensures |r| == |candidates|
    ensures forall k :: 0 <= k < |candidates| ==>
      r[k] == VoteCountRow(candidates[k].name, candidates[k].id, candidates[k].party, None)
  {
    seq(|candidates|, k requires 0 <= k < |candidates| =>
      VoteCountRow(candidates[k].name, candidates[k].id, candidates[k].party, None))
  }

  /** As written, the count listing reports no count for any candidate,
      even with candidates stored. */
  lemma VoteCountHasNoCounts(candidates: seq<Candidate>)
    requires |candidates| > 0
    ensures VoteCountRows(candidates)[0].count.None?
    ensures forall k :: 0 <= k < |candidates| ==> VoteCountRows(candidates)[k].count.None?
  {
  }

  /** As intended: each tallied candidate with its count, ordered by
      non-increasing count. */
  function TalliedVoteCount(tallies: seq<Tally>): (r: seq<Participant>)
    ensures |r| == |tallies| && NonIncreasing(r)
  {
    var rows := seq(|tallies|, k requires 0 <= k < |tallies| => Participant(tallies[k].candidate.id, tallies[k].voteCount));
    SortByVotesCorrect(rows);
    SortByVotes(rows)
  }

  /** The intended listing has one row per candidate, holding that
      candidate's count, in non-increasing order of count. */
  lemma TalliedVoteCountOrdered(tallies: seq<Tally>)
    ensures var rows := TalliedVoteCount(tallies);
      && NonIncreasing(rows)
      && multiset(rows) == multiset(seq(|tallies|, k requires 0 <= k < |tallies| => Participant(tallies[k].candidate.id, tallies[k].voteCount)))
      && |rows| == |tallies|
  {
    SortByVotesCorrect(seq(|tallies|, k requires 0 <= k < |tallies| => Participant(tallies[k].candidate.id, tallies[k].voteCount)));
  }

  // ---------------------------------------------------------------------
  // The stores
  // ---------------------------------------------------------------------

  /** The candidate collection and the log of image-host calls. */
  class CandidateRegistry {
    var candidates: seq<Candidate>
    var imageEvents: seq<ImageEvent>

    ghost predicate Valid()
      reads this
    {
      CandidatesInvariant(candidates)
    }

    constructor()
      ensures Valid() && candidates == [] && imageEvents == []
    {
      candidates := [];
      imageEvents := [];
    }

    method Create(users: seq<User>, callerId: UserId, name: Option<string>, party: Option<string>,
                  file: bool, upload: Option<Uploaded>, newId: CandidateId) returns (outcome: CreateOutcome)
      requires Valid()
      requires CandidateIndex(candidates, newId).None?
      modifies this
      ensures Valid()
      ensures var r := CreateCandidateOn(old(candidates), users, callerId, name, party, file, upload, newId);
        candidates == r.0 && imageEvents == old(imageEvents) + r.1 && outcome == r.2
    {
      CreateCandidateEffect(candidates, users, callerId, name, party, file, upload, newId);
      if !CheckAdminRole(FindUser(users, callerId)) {
        return CreateForbidden;
      }
      if !Truthy(name) || !Truthy(party) {
        return NameAndPartyRequired;
      }
      var image: Option<string> := None;
      var publicId: Option<string> := None;
      if file {
        imageEvents := imageEvents + [Upload];
        if upload.None? {
          return CreateFailed;
        }
        image := OrAbsent(upload.value.secureUrl);
        publicId := OrAbsent(upload.value.publicId);
      }
      var c := CastCandidate(CandidateDraft(name, party, None, image, publicId), newId).value;
      candidates := candidates + [c];
      outcome := CandidateCreated(c);
    }

    method Update(users: seq<User>, callerId: UserId, candidateId: CandidateId, patch: CandidatePatch,
                  file: bool, upload: Option<Uploaded>) returns (outcome: UpdateOutcome)
      requires Valid()
      modifies this
      ensures Valid()
      ensures var r := UpdateCandidateOn(old(candidates), users, callerId, candidateId, patch, file, upload);
        candidates == r.0 && imageEvents == old(imageEvents) + r.1 && outcome == r.2
    {
      UpdateCandidateEffect(candidates, users, callerId, candidateId, patch, file, upload);
      if !CheckAdminRole(FindUser(users, callerId)) {
        return UpdateForbidden;
      }
      var i := CandidateIndex(candidates, candidateId);
      if i.None? {
        return UpdateNotFound;
      }
      var stored := candidates[i.value];
      var body := patch;
      if file {
        if Truthy(stored.imagePublicId) {
          imageEvents := imageEvents + [Destroy(stored.imagePublicId.value)];
        }
        imageEvents := imageEvents + [Upload];
        if upload.None? {
          return UpdateFailed;
        }
        body := patch.(image := Some(upload.value.secureUrl), imagePublicId := Some(upload.value.publicId));
      }
      if !PatchValid(body) {
        return UpdateFailed;
      }
      var c := ApplyPatch(stored, body);
      candidates := candidates[i.value := c];
      outcome := CandidateUpdated(c);
    }

    method Delete(users: seq<User>, callerId: UserId, candidateId: CandidateId) returns (outcome: RemoveOutcome)
      requires Valid()
      modifies this
      ensures Valid()
      ensures (candidates, outcome) == DeleteCandidateOn(old(candidates), users, callerId, candidateId)
      ensures imageEvents == old(imageEvents)
    {
      DeleteCandidateEffect(candidates, users, callerId, candidateId);
      if !CheckAdminRole(FindUser(users, callerId)) {
        return RemoveForbidden;
      }
      var i := CandidateIndex(candidates, candidateId);
      if i.None? {
        return RemoveNotFound;
      }
      candidates := candidates[..i.value] + candidates[i.value + 1..];
      outcome := CandidateRemoved;
    }

    /** The legacy vote as written changes nothing. */
    method LegacyVote(users: seq<User>, candidateId: CandidateId, userId: UserId) returns (outcome: LegacyVoteOutcome)
      ensures outcome == LegacyVoteOn(candidates, users, candidateId, userId)
      ensures outcome != LegacyVoteCast
    {
      var g := LegacyGuard(CandidateIndex(candidates, candidateId).Some?, users, userId);
      if g.Some? {
        return g.value;
      }
      outcome := LegacyVoteFailed;
    }

    method VoteCount() returns (rows: seq<VoteCountRow>)
      ensures rows == VoteCountRows(candidates)
      ensures |rows| == |candidates| && forall k :: 0 <= k < |rows| ==> rows[k].id == candidates[k].id && rows[k].count.None?
    {
      rows := VoteCountRows(candidates);
    }
  }

  /** Candidates carrying the vote fields the legacy routes expect. */
  class TallyBoard {
    var tallies: seq<Tally>

    ghost predicate Valid()
      reads this
    {
      forall k :: 0 <= k < |tallies| ==> TallyKept(tallies[k])
    }

    constructor()
      ensures Valid() && tallies == []
    {
      tallies := [];
    }

    /** The intended legacy vote: updates the candidate's tally and the
      voter's flag in the user collection. */
    method Vote(registry: UserRegistry, candidateId: CandidateId, userId: UserId) returns (outcome: LegacyVoteOutcome)
      requires Valid() && registry.Valid()
      modifies this, registry
      ensures Valid() && registry.Valid()
      ensures (tallies, registry.users, outcome) == IntendedLegacyVoteOn(old(tallies), old(registry.users), candidateId, userId)
    {
      IntendedLegacyVoteEffect(tallies, registry.users, candidateId, userId);
      var i := TallyIndex(tallies, candidateId);
      var g := LegacyGuard(i.Some?, registry.users, userId);
      if g.Some? {
        return g.value;
      }
      var k := IndexById(registry.users, userId).value;
      var t := tallies[i.value];
      tallies := tallies[i.value := t.(votes := t.votes + [userId], voteCount := t.voteCount + 1)];
      registry.users := registry.users[k := registry.users[k].(isVoted := true)];
      outcome := LegacyVoteCast;
    }

    method VoteCount() returns (rows: seq<Participant>)
      ensures rows == TalliedVoteCount(tallies)
      ensures NonIncreasing(rows) && |rows| == |tallies|
    {
      TalliedVoteCountOrdered(tallies);
      rows := TalliedVoteCount(tallies);
    }
  }
}
