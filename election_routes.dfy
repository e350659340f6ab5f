/** The state-changing election routes (backend/routes/electionRoutes.js):
    creating an election from a list of candidate ids, deleting one, and
    casting a vote in one. Each route is a specification function over the
    election collection; the class `ElectionStore` holds the collection and
    its methods are proved to follow those functions while keeping every
    stored election tallied (each party's count equals its number of
    records) and free of repeat voters. The read from the user collection
    and the update of the election are one sequential step here. */
module ElectionRoutes {
  import opened Common
  import opened Jwt
  import opened UserSchema
  import opened UserRoutes
  import opened ElectionSchema

  /** `adminCheck`: the token's role is exactly "admin". For a token issued
      to a stored user it passes exactly when that user is the admin. */
  function AdminCheck(caller: Claims): (r: bool)
    ensures r ==> caller.role.Some?
    ensures forall u: User :: caller == PayloadOf(u) ==> (r <==> u.role == Admin)
  {
    caller.role == Some("admin")
  }

  /** `Election.findById`: the first election with this id. */
  function ElectionIndex(elections: seq<Election>, id: ElectionId): (r: Option<nat>)
    ensures r.Some? ==> r.value < |elections| && elections[r.value].id == id
    ensures r.Some? ==> forall k :: 0 <= k < r.value ==> elections[k].id != id
    ensures r.None? ==> forall k :: 0 <= k < |elections| ==> elections[k].id != id
  {
    if elections == [] then None
    else if elections[0].id == id then Some(0)
    else
      var rest := ElectionIndex(elections[1..], id);
      if rest.None? then None else Some(rest.value + 1)
  }

  /** The positional operator `parties.$`: the first party entry whose
      candidate matches. */
  function FirstPartyIndex(parties: seq<PartyEntry>, candidate: CandidateId): (r: Option<nat>)
    ensures r.Some? ==> r.value < |parties| && parties[r.value].candidate == candidate
    ensures r.Some? ==> forall k :: 0 <= k < r.value ==> parties[k].candidate != candidate
    ensures r.None? ==> forall k :: 0 <= k < |parties| ==> parties[k].candidate != candidate
  {
    if parties == [] then None
    else if parties[0].candidate == candidate then Some(0)
    else
      var rest := FirstPartyIndex(parties[1..], candidate);
      if rest.None? then None else Some(rest.value + 1)
  }

  predicate UniqueElectionIds(elections: seq<Election>) {
    forall a, b :: 0 <= a < b < |elections| ==> elections[a].id != elections[b].id
  }

  /** What every stored election keeps. */
  predicate WellKept(e: Election) {
    AllTallied(e) && OneRecordPerVoter(e)
  }

  predicate StoreInvariant(elections: seq<Election>) {
    UniqueElectionIds(elections) && forall k :: 0 <= k < |elections| ==> WellKept(elections[k])
  }

  // ---------------------------------------------------------------------
  // POST /elections/:electionId/vote
  // ---------------------------------------------------------------------

  /** Age in whole years: the difference of the years, less one when
      today's (month, day) comes before the birthday's. */
  function Age(today: CalendarDate, birth: CalendarDate): (r: int)
    ensures today.year - birth.year - 1 <= r <= today.year - birth.year
  {
    var years := today.year - birth.year;
    var monthDifference := today.month - birth.month;
    if monthDifference < 0 || (monthDifference == 0 && today.day < birth.day) then years - 1 else years
  }

  /** The date `n` years after the birth date has been reached (compared as
      (year, month, day), lexicographically). */
  predicate BirthdayReached(today: CalendarDate, birth: CalendarDate, n: int) {
    || birth.year + n < today.year
    || (birth.year + n == today.year && birth.month < today.month)
    || (birth.year + n == today.year && birth.month == today.month && birth.day <= today.day)
  }

  /** The voter record holds what the route needs: a date of birth and an
      address with a non-empty state. */
  predicate ProfileComplete(v: User) {
    v.dob.Some? && v.address.Some? && v.address.value.state != ""
  }

  /** The caller passes the first three guards: a stored user who is not
      the admin, with a complete profile, aged 18 or more. */
  function MayVote(users: seq<User>, caller: Claims, today: CalendarDate): (r: bool)
    ensures r ==> !AdminCheck(caller)
    ensures r ==> exists k :: 0 <= k < |users| && users[k].id == caller.id && ProfileComplete(users[k])
                             && Age(today, users[k].dob.value) >= 18
  {
    && !AdminCheck(caller)
    && IndexById(users, caller.id).Some?
    && ProfileComplete(users[IndexById(users, caller.id).value])
    && Age(today, users[IndexById(users, caller.id).value].dob.value) >= 18
  }

  datatype VoteOutcome =
    | AdminsMayNotVote
    | ProfileIncomplete
    | Underage
    | ElectionNotFound
    | AlreadyVoted
    | CandidateNotInElection
    | VoteCounted
  {
    function Status(): int {
      match this
      case AdminsMayNotVote => 403
      case ProfileIncomplete => 404
      case Underage => 403
      case ElectionNotFound => 404
      case AlreadyVoted => 400
      case CandidateNotInElection => 404
      case VoteCounted => 200
    }
  }

  /** `$inc: {"parties.$.voteCount": 1}` and `$push: {"parties.$.votes": v}`
      on party entry `j`. */
  function RecordVote(e: Election, j: nat, v: VoteRecord): (r: Election)
    requires j < |e.parties|
    ensures |r.parties| == |e.parties| && r.(parties := e.parties) == e
    ensures r.parties[j].candidate == e.parties[j].candidate
    ensures r.parties[j].voteCount == e.parties[j].voteCount + 1
    ensures r.parties[j].votes == e.parties[j].votes + [v]
    ensures forall k :: 0 <= k < |e.parties| && k != j ==> r.parties[k] == e.parties[k]
  {
    var p := e.parties[j];
    e.(parties := e.parties[j := p.(voteCount := p.voteCount + 1, votes := p.votes + [v])])
  }

  /** The vote route: the guards in the route's order, the first failure
      answering; if all pass, the first matching party entry of the
      election records the vote, stamped `now`, with the voter's state. */
  function CastVoteOn(elections: seq<Election>, users: seq<User>, caller: Claims,
                      electionId: ElectionId, candidateId: CandidateId,
                      today: CalendarDate, now: Instant): (r: (seq<Election>, VoteOutcome))
    ensures !r.1.VoteCounted? ==> r.0 == elections
    ensures |r.0| == |elections|
  {
    if AdminCheck(caller) then (elections, AdminsMayNotVote)
    else if IndexById(users, caller.id).None? then (elections, ProfileIncomplete)
    else
      var voter := users[IndexById(users, caller.id).value];
      if !ProfileComplete(voter) then (elections, ProfileIncomplete)
      else if Age(today, voter.dob.value) < 18 then (elections, Underage)
      else if ElectionIndex(elections, electionId).None? then (elections, ElectionNotFound)
      else
        var i := ElectionIndex(elections, electionId).value;
        if HasVoted(elections[i], caller.id) then (elections, AlreadyVoted)
        else if FirstPartyIndex(elections[i].parties, candidateId).None? then (elections, CandidateNotInElection)
        else
          var j := FirstPartyIndex(elections[i].parties, candidateId).value;
          var record := VoteRecord(caller.id, now, voter.address.value.state);
          (elections[i := RecordVote(elections[i], j, record)], VoteCounted)
  }

  /** The age rule compares dates: age is at least `n` exactly when the
      `n`th birthday has been reached. */
  lemma AgeThreshold(today: CalendarDate, birth: CalendarDate, n: int)
    ensures Age(today, birth) >= n <==> BirthdayReached(today, birth, n)
  {
  }

  /** A voter whose 18th birthday is today is old enough; one whose 18th
      birthday is tomorrow is not. */
  lemma EighteenthBirthday(year: int, month: int, day: int)
    ensures Age(CalendarDate(year, month, day), CalendarDate(year - 18, month, day)) == 18
    ensures Age(CalendarDate(year, month, day), CalendarDate(year - 18, month, day + 1)) == 17
  {
  }

  /** An admin's vote is refused and changes nothing. */
  lemma AdminCannotVote(elections: seq<Election>, users: seq<User>, caller: Claims,
                        electionId: ElectionId, candidateId: CandidateId, today: CalendarDate, now: Instant)
    requires AdminCheck(caller)
    ensures CastVoteOn(elections, users, caller, electionId, candidateId, today, now) == (elections, AdminsMayNotVote)
  {
  }

  /** When a vote is counted and exactly when: the caller passes the voter
      guards, the election exists, the caller has no record in it, and some
      party entry names the candidate. */
  lemma VoteCountedExactly(elections: seq<Election>, users: seq<User>, caller: Claims,
                           electionId: ElectionId, candidateId: CandidateId, today: CalendarDate, now: Instant)
    ensures CastVoteOn(elections, users, caller, electionId, candidateId, today, now).1 == VoteCounted <==>
      && MayVote(users, caller, today)
      && ElectionIndex(elections, electionId).Some?
      && !HasVoted(elections[ElectionIndex(elections, electionId).value], caller.id)
      && exists k :: 0 <= k < |elections[ElectionIndex(elections, electionId).value].parties|
                     && elections[ElectionIndex(elections, electionId).value].parties[k].candidate == candidateId
  {
  }

  /** A voter who already has a record anywhere in the election gets 400,
      and no party changes. */
  lemma RepeatVoteRejected(elections: seq<Election>, users: seq<User>, caller: Claims,
                           electionId: ElectionId, candidateId: CandidateId, today: CalendarDate, now: Instant)
    requires MayVote(users, caller, today)
    requires ElectionIndex(elections, electionId).Some?
    requires HasVoted(elections[ElectionIndex(elections, electionId).value], caller.id)
    ensures CastVoteOn(elections, users, caller, electionId, candidateId, today, now) == (elections, AlreadyVoted)
  {
  }

  /** A candidate that no party entry names gives 404 and changes nothing. */
  lemma UnknownCandidateRejected(elections: seq<Election>, users: seq<User>, caller: Claims,
                                 electionId: ElectionId, candidateId: CandidateId, today: CalendarDate, now: Instant)
    requires MayVote(users, caller, today)
    requires ElectionIndex(elections, electionId).Some?
    requires !HasVoted(elections[ElectionIndex(elections, electionId).value], caller.id)
    requires forall k :: 0 <= k < |elections[ElectionIndex(elections, electionId).value].parties| ==>
      elections[ElectionIndex(elections, electionId).value].parties[k].candidate != candidateId
    ensures CastVoteOn(elections, users, caller, electionId, candidateId, today, now) == (elections, CandidateNotInElection)
  {
  }

  /** A counted vote changes exactly one party entry of exactly one
      election: the first entry naming the candidate gains one in its count
      and one record (the caller, `now`, the voter's state); every other
      entry and every other election is as before. */
  lemma VoteCountedEffect(elections: seq<Election>, users: seq<User>, caller: Claims,
                          electionId: ElectionId, candidateId: CandidateId, today: CalendarDate, now: Instant)
    requires CastVoteOn(elections, users, caller, electionId, candidateId, today, now).1 == VoteCounted
    ensures var after := CastVoteOn(elections, users, caller, electionId, candidateId, today, now).0;
      var i := ElectionIndex(elections, electionId).value;
      var j := FirstPartyIndex(elections[i].parties, candidateId).value;
      var voter := users[IndexById(users, caller.id).value];
      && (forall k :: 0 <= k < |elections| && k != i ==> after[k] == elections[k])
      && after[i].id == electionId && after[i].title == elections[i].title
      && |after[i].parties| == |elections[i].parties|
      && (forall k :: 0 <= k < j ==> elections[i].parties[k].candidate != candidateId)
      && after[i].parties[j].candidate == candidateId
      && after[i].parties[j].voteCount == elections[i].parties[j].voteCount + 1
      && after[i].parties[j].votes == elections[i].parties[j].votes + [VoteRecord(caller.id, now, voter.address.value.state)]
      && (forall k :: 0 <= k < |elections[i].parties| && k != j ==> after[i].parties[k] == elections[i].parties[k])
  {
  }

  /** Recording a vote by someone without a record keeps the election
      tallied and free of repeat voters, and the voter now has a record. */
  lemma {:induction false} RecordVoteKeeps(e: Election, j: nat, v: VoteRecord)
    requires j < |e.parties|
    requires WellKept(e)
    requires !HasVoted(e, v.user)
    ensures WellKept(RecordVote(e, j, v))
    ensures HasVoted(RecordVote(e, j, v), v.user)
  {
    var r := RecordVote(e, j, v);
    var n := |e.parties[j].votes|;
    assert r.parties[j].votes[n] == v;
    forall a, b, a', b' |
      0 <= a < |r.parties| && 0 <= b < |r.parties[a].votes| &&
      0 <= a' < |r.parties| && 0 <= b' < |r.parties[a'].votes| &&
      r.parties[a].votes[b].user == r.parties[a'].votes[b'].user
      ensures a == a' && b == b'
    {
      var isNew := a == j && b == n;
      var isNew' := a' == j && b' == n;
      if !isNew {
        assert r.parties[a].votes[b] == e.parties[a].votes[b];
      }
      if !isNew' {
        assert r.parties[a'].votes[b'] == e.parties[a'].votes[b'];
      }
    }
  }

  /** A counted vote keeps the store invariant: ids stay unique, and every
      election stays tallied and free of repeat voters. */
  lemma VoteKeepsInvariant(elections: seq<Election>, users: seq<User>, caller: Claims,
                           electionId: ElectionId, candidateId: CandidateId, today: CalendarDate, now: Instant)
    requires StoreInvariant(elections)
    ensures StoreInvariant(CastVoteOn(elections, users, caller, electionId, candidateId, today, now).0)
  {
    var (after, outcome) := CastVoteOn(elections, users, caller, electionId, candidateId, today, now);
    if outcome == VoteCounted {
      var i := ElectionIndex(elections, electionId).value;
      var j := FirstPartyIndex(elections[i].parties, candidateId).value;
      var voter := users[IndexById(users, caller.id).value];
      RecordVoteKeeps(elections[i], j, VoteRecord(caller.id, now, voter.address.value.state));
    }
  }

  /** After a counted vote, the same caller's next attempt in the same
      election, for any candidate and at any time, is not counted and
      changes nothing. */
  lemma SecondVoteRejected(elections: seq<Election>, users: seq<User>, caller: Claims,
                           electionId: ElectionId, candidateId: CandidateId, today: CalendarDate, now: Instant,
                           otherCandidate: CandidateId, later: CalendarDate, laterNow: Instant)
    requires CastVoteOn(elections, users, caller, electionId, candidateId, today, now).1 == VoteCounted
    ensures var after := CastVoteOn(elections, users, caller, electionId, candidateId, today, now).0;
      var again := CastVoteOn(after, users, caller, electionId, otherCandidate, later, laterNow);
      again.1 != VoteCounted && again.0 == after
  {
    var after := CastVoteOn(elections, users, caller, electionId, candidateId, today, now).0;
    var i := ElectionIndex(elections, electionId).value;
    var j := FirstPartyIndex(elections[i].parties, candidateId).value;
    var voter := users[IndexById(users, caller.id).value];
    var record := VoteRecord(caller.id, now, voter.address.value.state);
    assert after[i].parties[j].votes[|elections[i].parties[j].votes|] == record;
    assert ElectionIndex(after, electionId) == Some(i) by {
      assert forall k :: 0 <= k < |after| ==> after[k].id == elections[k].id;
      ElectionIndexSameIds(elections, after, electionId);
    }
  }

  /** Looking up an id depends only on the ids. */
  lemma {:induction false} ElectionIndexSameIds(a: seq<Election>, b: seq<Election>, id: ElectionId)
    requires |a| == |b| && forall k :: 0 <= k < |a| ==> a[k].id == b[k].id
    ensures ElectionIndex(a, id) == ElectionIndex(b, id)
  {
    if a != [] {
      ElectionIndexSameIds(a[1..], b[1..], id);
    }
  }

  // ---------------------------------------------------------------------
  // POST /elections/add and DELETE /elections/:electionId
  // ---------------------------------------------------------------------

  datatype AddOutcome = AddForbidden | CandidatesRequired | AddFailed | ElectionCreated(election: Election)
  {
    function Status(): int {
      match this
      case AddForbidden => 403
      case CandidatesRequired => 400
      case AddFailed => 500
      case ElectionCreated(_) => 201
    }
  }

  /** Each candidate id becomes `{candidate: id, voteCount: 0, votes: []}`. */
  function InitialParties(ids: seq<CandidateId>): (r: seq<PartyDraft>)
    ensures |r| == |ids|
    ensures forall k :: 0 <= k < |ids| ==> r[k] == PartyDraft(Some(ids[k]), Some(0), [])
  {
    seq(|ids|, k requires 0 <= k < |ids| => PartyDraft(Some(ids[k]), Some(0), []))
  }

  /** `/add`: admins only; the candidate list must be present and non-empty
      (400); a missing or empty title or a missing date fails validation
      when saving (500); otherwise the new election is appended. */
  function AddElectionOn(elections: seq<Election>, caller: Claims, title: Option<string>,
                         dateOfElection: Option<Instant>, candidateIds: Option<seq<CandidateId>>,
                         newId: ElectionId, now: Instant): (r: (seq<Election>, AddOutcome))
    ensures !r.1.ElectionCreated? ==> r.0 == elections
  {
    if !AdminCheck(caller) then (elections, AddForbidden)
    else if candidateIds.None? || |candidateIds.value| == 0 then (elections, CandidatesRequired)
    else
      match CastElection(ElectionDraft(title, dateOfElection, None, InitialParties(candidateIds.value)), newId, now)
      case None => (elections, AddFailed)
      case Some(e) => (elections + [e], ElectionCreated(e))
  }

  /** A created election has the requested title and date, is stamped
      `now`, and has one zero-count, record-free entry per requested
      candidate id, in the requested order; its creation keeps the store
      invariant. */
  lemma {:induction false} AddElectionEffect(elections: seq<Election>, caller: Claims, title: Option<string>,
                                             dateOfElection: Option<Instant>, candidateIds: Option<seq<CandidateId>>,
                                             newId: ElectionId, now: Instant)
    requires StoreInvariant(elections)
    requires ElectionIndex(elections, newId).None?
    ensures var (after, outcome) := AddElectionOn(elections, caller, title, dateOfElection, candidateIds, newId, now);
      && StoreInvariant(after)
      && (outcome.ElectionCreated? <==>
            AdminCheck(caller) && candidateIds.Some? && |candidateIds.value| > 0 && Truthy(title) && dateOfElection.Some?)
      && (outcome.ElectionCreated? ==>
            && after == elections + [outcome.election]
            && outcome.election.id == newId && outcome.election.title == title.value
            && outcome.election.dateOfElection == dateOfElection.value && outcome.election.createdAt == now
            && |outcome.election.parties| == |candidateIds.value|
            && forall k :: 0 <= k < |candidateIds.value| ==>
                 outcome.election.parties[k] == PartyEntry(candidateIds.value[k], 0, []))
  {
    if AdminCheck(caller) && candidateIds.Some? && |candidateIds.value| > 0 {
      InitialPartiesCast(candidateIds.value, now);
      var (after, outcome) := AddElectionOn(elections, caller, title, dateOfElection, candidateIds, newId, now);
      if outcome.ElectionCreated? {
        FreshElectionWellKept(outcome.election);
        AppendKeepsInvariant(elections, outcome.election);
      }
    }
  }

  /** The drafts `/add` builds all cast to zero-count, record-free entries. */
  lemma InitialPartiesCast(ids: seq<CandidateId>, now: Instant)
    ensures var r := CastParties(InitialParties(ids), now);
      && r.Some? && |r.value| == |ids|
      && forall k :: 0 <= k < |ids| ==> r.value[k] == PartyEntry(ids[k], 0, [])
  {
    var ds := InitialParties(ids);
    forall k | 0 <= k < |ids| ensures CastParty(ds[k], now) == Some(PartyEntry(ids[k], 0, [])) {
      assert CastVoteRecords([], now) == Some([]);
    }
  }

  /** An election whose entries hold no records and no votes is well kept. */
  lemma FreshElectionWellKept(e: Election)
    requires forall k :: 0 <= k < |e.parties| ==> e.parties[k] == PartyEntry(e.parties[k].candidate, 0, [])
    ensures WellKept(e)
  {
    assert forall k :: 0 <= k < |e.parties| ==> e.parties[k].votes == [];
  }

  /** Appending a well-kept election under an unused id keeps the store
      invariant. */
  lemma AppendKeepsInvariant(elections: seq<Election>, e: Election)
    requires StoreInvariant(elections) && WellKept(e) && ElectionIndex(elections, e.id).None?
    ensures StoreInvariant(elections + [e])
  {
    var after := elections + [e];
    assert forall k :: 0 <= k < |elections| ==> after[k] == elections[k];
  }

  datatype DeleteOutcome = DeleteForbidden | DeleteNotFound | ElectionDeleted
  {
    function Status(): int {
      match this
      case DeleteForbidden => 403
      case DeleteNotFound => 404
      case ElectionDeleted => 200
    }
  }

  /** `DELETE /:electionId`: admins only; 404 when no election has the id;
      otherwise that election is removed. */
  function DeleteElectionOn(elections: seq<Election>, caller: Claims, id: ElectionId): (r: (seq<Election>, DeleteOutcome))
    ensures r.1 != ElectionDeleted ==> r.0 == elections
    ensures r.1 == ElectionDeleted ==> |r.0| + 1 == |elections| && forall k :: 0 <= k < |r.0| ==> r.0[k] in elections
  {
    if !AdminCheck(caller) then (elections, DeleteForbidden)
    else match ElectionIndex(elections, id)
      case None => (elections, DeleteNotFound)
      case Some(i) => (elections[..i] + elections[i + 1..], ElectionDeleted)
  }

  /** Deletion by an admin removes the election with that id and keeps
      every other election, in order; anything else changes nothing. With
      unique ids no election with that id remains. */
  lemma DeleteElectionEffect(elections: seq<Election>, caller: Claims, id: ElectionId)
    requires StoreInvariant(elections)
    ensures var (after, outcome) := DeleteElectionOn(elections, caller, id);
      && StoreInvariant(after)
      && (outcome == ElectionDeleted <==> AdminCheck(caller) && exists k :: 0 <= k < |elections| && elections[k].id == id)
      && (outcome != ElectionDeleted ==> after == elections)
      && (outcome == ElectionDeleted ==>
            |after| == |elections| - 1 && (forall k :: 0 <= k < |after| ==> after[k].id != id)
            && forall k :: 0 <= k < |elections| && elections[k].id != id ==> elections[k] in after)
  {
    var (after, outcome) := DeleteElectionOn(elections, caller, id);
    if outcome == ElectionDeleted {
      var i := ElectionIndex(elections, id).value;
      RemoveAtShift(elections, i);
      RemoveAtKeepsInvariant(elections, i);
      RemoveAtKeepsOthers(elections, i);
    }
  }

  /** Removing position `i` shifts the later elections down by one. */
  lemma RemoveAtShift(elections: seq<Election>, i: nat)
    requires i < |elections|
    ensures var after := elections[..i] + elections[i + 1..];
      |after| == |elections| - 1
      && forall k :: 0 <= k < |after| ==> after[k] == (if k < i then elections[k] else elections[k + 1])
  {
  }

  /** Removing one election keeps the store invariant, and with unique ids
      leaves no election with the removed one's id. */
  lemma RemoveAtKeepsInvariant(elections: seq<Election>, i: nat)
    requires StoreInvariant(elections) && i < |elections|
    ensures var after := elections[..i] + elections[i + 1..];
      StoreInvariant(after) && forall k :: 0 <= k < |after| ==> after[k].id != elections[i].id
  {
    RemoveAtShift(elections, i);
  }

  /** Every election with another id is still there after the removal. */
  lemma RemoveAtKeepsOthers(elections: seq<Election>, i: nat)
    requires i < |elections|
    ensures var after := elections[..i] + elections[i + 1..];
      forall k :: 0 <= k < |elections| && elections[k].id != elections[i].id ==> elections[k] in after
  {
    var after := elections[..i] + elections[i + 1..];
    RemoveAtShift(elections, i);
    forall k | 0 <= k < |elections| && elections[k].id != elections[i].id ensures elections[k] in after {
      if k < i { assert after[k] == elections[k]; } else { assert after[k - 1] == elections[k]; }
    }
  }

  /** The election collection. */
  class ElectionStore {
    var elections: seq<Election>

    ghost predicate Valid()
      reads this
    {
      StoreInvariant(elections)
    }

    constructor()
      ensures Valid() && elections == []
    {
      elections := [];
    }

    /** `GET /:electionId`: the election, or None for 404. */
    method Find(id: ElectionId) returns (found: Option<Election>)
      ensures found.Some? <==> exists k :: 0 <= k < |elections| && elections[k].id == id
      ensures found.Some? ==> found.value in elections && found.value.id == id
    {
      var i := ElectionIndex(elections, id);
      if i.None? {
        return None;
      }
      return Some(elections[i.value]);
    }

    method CastVote(users: seq<User>, caller: Claims, electionId: ElectionId, candidateId: CandidateId,
                    today: CalendarDate, now: Instant) returns (outcome: VoteOutcome)
      requires Valid()
      modifies this
      ensures Valid()
      ensures (elections, outcome) == CastVoteOn(old(elections), users, caller, electionId, candidateId, today, now)
    {
      VoteKeepsInvariant(elections, users, caller, electionId, candidateId, today, now);
      if AdminCheck(caller) {
        return AdminsMayNotVote;
      }
      var v := IndexById(users, caller.id);
      if v.None? {
        return ProfileIncomplete;
      }
      var voter := users[v.value];
      if !ProfileComplete(voter) {
        return ProfileIncomplete;
      }
      if Age(today, voter.dob.value) < 18 {
        return Underage;
      }
      var i := ElectionIndex(elections, electionId);
      if i.None? {
        return ElectionNotFound;
      }
      if HasVoted(elections[i.value], caller.id) {
        return AlreadyVoted;
      }
      var j := FirstPartyIndex(elections[i.value].parties, candidateId);
      if j.None? {
        return CandidateNotInElection;
      }
      var record := VoteRecord(caller.id, now, voter.address.value.state);
      elections := elections[i.value := RecordVote(elections[i.value], j.value, record)];
      outcome := VoteCounted;
    }

    method AddElection(caller: Claims, title: Option<string>, dateOfElection: Option<Instant>,
                       candidateIds: Option<seq<CandidateId>>, newId: ElectionId, now: Instant)
      returns (outcome: AddOutcome)
      requires Valid()
      requires ElectionIndex(elections, newId).None?
      modifies this
      ensures Valid()
      ensures (elections, outcome) == AddElectionOn(old(elections), caller, title, dateOfElection, candidateIds, newId, now)
    {
      AddElectionEffect(elections, caller, title, dateOfElection, candidateIds, newId, now);
      if !AdminCheck(caller) {
        return AddForbidden;
      }
      if candidateIds.None? || |candidateIds.value| == 0 {
        return CandidatesRequired;
      }
      var e := CastElection(ElectionDraft(title, dateOfElection, None, InitialParties(candidateIds.value)), newId, now);
      if e.None? {
        return AddFailed;
      }
      elections := elections + [e.value];
      outcome := ElectionCreated(e.value);
    }

    method DeleteElection(caller: Claims, id: ElectionId) returns (outcome: DeleteOutcome)
      requires Valid()
      modifies this
      ensures Valid()
      ensures (elections, outcome) == DeleteElectionOn(old(elections), caller, id)
    {
      DeleteElectionEffect(elections, caller, id);
      if !AdminCheck(caller) {
        return DeleteForbidden;
      }
      var i := ElectionIndex(elections, id);
      if i.None? {
        return DeleteNotFound;
      }
      elections := elections[..i.value] + elections[i.value + 1..];
      outcome := ElectionDeleted;
    }
  }
}
