/** The election document (backend/models/election.js): a title, a date,
    and one entry per participating candidate holding that candidate's vote
    count and its embedded vote records. The schema's required fields and
    defaults are modelled by casting a draft, whose fields may be absent,
    into a document. */
module ElectionSchema {
  import opened Common

  datatype VoteRecord = VoteRecord(user: UserId, votedAt: Instant, voterState: string)
  datatype PartyEntry = PartyEntry(candidate: CandidateId, voteCount: int, votes: seq<VoteRecord>)
  datatype Election = Election(id: ElectionId, title: string, dateOfElection: Instant,
                               createdAt: Instant, parties: seq<PartyEntry>)

  /** A document as built by `new Election({...})`, before validation. */
  datatype VoteDraft = VoteDraft(user: Option<UserId>, votedAt: Option<Instant>, voterState: Option<string>)
  datatype PartyDraft = PartyDraft(candidate: Option<CandidateId>, voteCount: Option<int>, votes: seq<VoteDraft>)
  datatype ElectionDraft = ElectionDraft(title: Option<string>, dateOfElection: Option<Instant>,
                                         createdAt: Option<Instant>, parties: seq<PartyDraft>)

  /** A value or the schema default. */
  function OrDefault<T>(v: Option<T>, default: T): (r: T)
    ensures v.Some? ==> r == v.value
    ensures v.None? ==> r == default
  {
    if v.Some? then v.value else default
  }

  /** A vote record requires its user and the voter's state; `votedAt`
      defaults to the moment the record is created. */
  function CastVoteRecord(d: VoteDraft, now: Instant): (r: Option<VoteRecord>)
    ensures r.Some? <==> d.user.Some? && Truthy(d.voterState)
    ensures r.Some? ==> r.value.user == d.user.value && r.value.voterState == d.voterState.value
    ensures r.Some? ==> r.value.votedAt == (if d.votedAt.Some? then d.votedAt.value else now)
  {
    if d.user.Some? && Truthy(d.voterState) then Some(VoteRecord(d.user.value, OrDefault(d.votedAt, now), d.voterState.value))
    else None
  }

  /** All records of a list cast, or None when one of them fails. */
  function CastVoteRecords(ds: seq<VoteDraft>, now: Instant): (r: Option<seq<VoteRecord>>)
    ensures r.Some? <==> forall k :: 0 <= k < |ds| ==> CastVoteRecord(ds[k], now).Some?
    ensures r.Some? ==> |r.value| == |ds| && forall k :: 0 <= k < |ds| ==> r.value[k] == CastVoteRecord(ds[k], now).value
  {
    if ds == [] then Some([])
    else if CastVoteRecord(ds[0], now).None? then None
    else if CastVoteRecords(ds[1..], now).None? then
      assert exists k :: 1 <= k < |ds| && CastVoteRecord(ds[k], now).None? by {
        var k :| 0 <= k < |ds[1..]| && CastVoteRecord(ds[1..][k], now).None?;
        assert CastVoteRecord(ds[k + 1], now).None?;
      }
      None
    else Some([CastVoteRecord(ds[0], now).value] + CastVoteRecords(ds[1..], now).value)
  }

  /** A party entry requires its candidate reference; `voteCount` defaults
      to 0. */
  function CastParty(d: PartyDraft, now: Instant): (r: Option<PartyEntry>)
    ensures r.Some? <==> d.candidate.Some? && CastVoteRecords(d.votes, now).Some?
    ensures r.Some? ==> r.value.candidate == d.candidate.value
    ensures r.Some? ==> r.value.voteCount == (if d.voteCount.Some? then d.voteCount.value else 0)
    ensures r.Some? ==> r.value.votes == CastVoteRecords(d.votes, now).value
  {
    if d.candidate.Some? && CastVoteRecords(d.votes, now).Some? then
      Some(PartyEntry(d.candidate.value, OrDefault(d.voteCount, 0), CastVoteRecords(d.votes, now).value))
    else None
  }

  function CastParties(ds: seq<PartyDraft>, now: Instant): (r: Option<seq<PartyEntry>>)
    ensures r.Some? <==> forall k :: 0 <= k < |ds| ==> CastParty(ds[k], now).Some?
    ensures r.Some? ==> |r.value| == |ds| && forall k :: 0 <= k < |ds| ==> r.value[k] == CastParty(ds[k], now).value
  {
    if ds == [] then Some([])
    else if CastParty(ds[0], now).None? then None
    else if CastParties(ds[1..], now).None? then
      assert exists k :: 1 <= k < |ds| && CastParty(ds[k], now).None? by {
        var k :| 0 <= k < |ds[1..]| && CastParty(ds[1..][k], now).None?;
        assert CastParty(ds[k + 1], now).None?;
      }
      None
    else Some([CastParty(ds[0], now).value] + CastParties(ds[1..], now).value)
  }

  /** An election requires a non-empty title and a date; `createdAt`
      defaults to the moment the document is created. */
  function CastElection(d: ElectionDraft, id: ElectionId, now: Instant): (r: Option<Election>)
    ensures r.Some? <==> Truthy(d.title) && d.dateOfElection.Some? && CastParties(d.parties, now).Some?
    ensures r.Some? ==> r.value.id == id && r.value.title == d.title.value && r.value.dateOfElection == d.dateOfElection.value
    ensures r.Some? ==> r.value.createdAt == (if d.createdAt.Some? then d.createdAt.value else now)
    ensures r.Some? ==> r.value.parties == CastParties(d.parties, now).value
  {
    if Truthy(d.title) && d.dateOfElection.Some? && CastParties(d.parties, now).Some? then
      Some(Election(id, d.title.value, d.dateOfElection.value, OrDefault(d.createdAt, now), CastParties(d.parties, now).value))
    else None
  }

  /** A party's count agrees with its records. */
  predicate Tallied(p: PartyEntry) {
    p.voteCount == |p.votes|
  }

  predicate AllTallied(e: Election) {
    forall i :: 0 <= i < |e.parties| ==> Tallied(e.parties[i])
  }

  /** Some record of the election, under any candidate, is by this user. */
  predicate HasVoted(e: Election, user: UserId) {
    exists i, j :: 0 <= i < |e.parties| && 0 <= j < |e.parties[i].votes| && e.parties[i].votes[j].user == user
  }

  /** Each user has at most one record in the whole election. */
  predicate OneRecordPerVoter(e: Election) {
    forall i, j, i', j' ::
      (0 <= i < |e.parties| && 0 <= j < |e.parties[i].votes| &&
       0 <= i' < |e.parties| && 0 <= j' < |e.parties[i'].votes| &&
       e.parties[i].votes[j].user == e.parties[i'].votes[j'].user) ==> i == i' && j == j'
  }

  /** A draft that leaves out the title, or the date, never becomes a
      document, whatever else it holds. */
  lemma TitleAndDateRequired(d: ElectionDraft, id: ElectionId, now: Instant)
    ensures d.title.None? || d.title == Some("") || d.dateOfElection.None? ==> CastElection(d, id, now).None?
  {
  }

  /** Fresh party entries (candidate only) cast to zero-count entries with
      no records, which are tallied and hold no voter twice. */
  lemma {:induction false} FreshPartiesTallied(ids: seq<CandidateId>, now: Instant)
    ensures var ds := seq(|ids|, k requires 0 <= k < |ids| => PartyDraft(Some(ids[k]), None, []));
      var r := CastParties(ds, now);
      r.Some? && |r.value| == |ids|
      && forall k :: 0 <= k < |ids| ==> r.value[k] == PartyEntry(ids[k], 0, [])
  {
    var ds := seq(|ids|, k requires 0 <= k < |ids| => PartyDraft(Some(ids[k]), None, []));
    forall k | 0 <= k < |ids| ensures CastParty(ds[k], now) == Some(PartyEntry(ids[k], 0, [])) {
      assert CastVoteRecords([], now) == Some([]);
    }
  }
}
