/** `GET /elections/:electionId/audit` (backend/routes/electionRoutes.js):
    the admin-only report listing each voter of an election once. The route
    walks every party's records in order and keeps a map from user id to
    the populated user document; a record whose user no longer exists
    populates to null and is skipped. The walk is a method with nested
    loops, proved against `AuditIds`, a fold over the flattened records. */
module ElectionAudit {
  import opened Common
  import opened Jwt
  import opened UserSchema
  import opened UserRoutes
  import opened ElectionSchema
  import opened ElectionRoutes
  import opened ElectionResults

  /** The users of a list of records, in order. */
  function VoteUsers(votes: seq<VoteRecord>): (r: seq<UserId>)
    ensures |r| == |votes| && forall k :: 0 <= k < |votes| ==> r[k] == votes[k].user
  {
    seq(|votes|, k requires 0 <= k < |votes| => votes[k].user)
  }

  /** Every record's user, party by party, in the order the route visits
      them. */
  function AllVoteUsers(parties: seq<PartyEntry>): seq<UserId> {
    if parties == [] then [] else AllVoteUsers(parties[..|parties| - 1]) + VoteUsers(parties[|parties| - 1].votes)
  }

  /** Populating the record's user finds a document. */
  predicate Registered(users: seq<User>, id: UserId) {
    IndexById(users, id).Some?
  }

  /** One step of the walk: a registered user not yet in the map is added
      at the end. */
  function AddVoter(ids: seq<UserId>, users: seq<User>, id: UserId): seq<UserId> {
    if Registered(users, id) && id !in ids then ids + [id] else ids
  }

  /** The map's keys, in insertion order, after visiting `s`. */
  function AuditIds(s: seq<UserId>, users: seq<User>): (r: seq<UserId>)
    ensures |r| <= |s|
    ensures forall k :: 0 <= k < |r| ==> r[k] in s
  {
    if s == [] then [] else AddVoter(AuditIds(s[..|s| - 1], users), users, s[|s| - 1])
  }

  predicate NoDuplicates(ids: seq<UserId>) {
    forall a, b :: 0 <= a < b < |ids| ==> ids[a] != ids[b]
  }

  /** The position of the first occurrence of `x` in `s`. */
  function FirstIndex(s: seq<UserId>, x: UserId): (r: nat)
    requires x in s
    ensures r < |s| && s[r] == x && x !in s[..r]
  {
    if s[0] == x then 0 else 1 + FirstIndex(s[1..], x)
  }

  /** The voters are each registered user that has a record, once each,
      and nobody else. */
  lemma {:induction false} AuditIdsMembers(s: seq<UserId>, users: seq<User>)
    ensures NoDuplicates(AuditIds(s, users))
    ensures forall x :: x in AuditIds(s, users) <==> x in s && Registered(users, x)
  {
    if s != [] {
      var init := s[..|s| - 1];
      AuditIdsMembers(init, users);
      assert s == init + [s[|s| - 1]];
    }
  }

  /** Every element of `r` occurs in `s`, and `r` lists them in the order
      of their first occurrences there. */
  predicate InFirstOccurrenceOrder(r: seq<UserId>, s: seq<UserId>) {
    && (forall a :: 0 <= a < |r| ==> r[a] in s)
    && forall a, b :: 0 <= a < b < |r| ==> FirstIndex(s, r[a]) < FirstIndex(s, r[b])
  }

  /** The voters are listed in the order of their first record. */
  lemma {:induction false} AuditIdsFirstOccurrenceOrder(s: seq<UserId>, users: seq<User>)
    ensures InFirstOccurrenceOrder(AuditIds(s, users), s)
  {
    if s != [] {
      var init := s[..|s| - 1];
      var x := s[|s| - 1];
      var d := AuditIds(init, users);
      AuditIdsFirstOccurrenceOrder(init, users);
      AuditIdsMembers(init, users);
      assert s == init + [x];
      if Registered(users, x) && x !in d {
        FirstOccurrenceAppend(d, init, x);
      } else {
        FirstOccurrenceExtend(d, init, x);
      }
    }
  }

  /** Extending the visited sequence keeps the order of the voters found. */
  lemma FirstOccurrenceExtend(d: seq<UserId>, init: seq<UserId>, x: UserId)
    requires InFirstOccurrenceOrder(d, init)
    ensures InFirstOccurrenceOrder(d, init + [x])
    ensures forall a :: 0 <= a < |d| ==> FirstIndex(init + [x], d[a]) == FirstIndex(init, d[a])
  {
    forall a | 0 <= a < |d| ensures d[a] in init + [x] && FirstIndex(init + [x], d[a]) == FirstIndex(init, d[a]) {
      FirstIndexExtend(init, x, d[a]);
    }
  }

  /** A voter first seen at the new last position goes after all others. */
  lemma FirstOccurrenceAppend(d: seq<UserId>, init: seq<UserId>, x: UserId)
    requires InFirstOccurrenceOrder(d, init)
    requires forall y :: y in d ==> y in init
    requires x !in d && (x in init ==> x in d)
    ensures InFirstOccurrenceOrder(d + [x], init + [x])
  {
    var s, r := init + [x], d + [x];
    FirstOccurrenceExtend(d, init, x);
    FirstIndexLast(init, x);
    assert forall a :: 0 <= a < |r| ==> r[a] in s by {
      forall a | 0 <= a < |r| ensures r[a] in s {
        if a < |d| { assert r[a] == d[a]; }
      }
    }
    forall a, b | 0 <= a < b < |r| ensures FirstIndex(s, r[a]) < FirstIndex(s, r[b]) {
      assert r[a] == d[a];
      if b == |d| {
        assert r[b] == x;
      } else {
        assert r[b] == d[b];
      }
    }
  }

  lemma {:induction false} FirstIndexExtend(s: seq<UserId>, x: UserId, y: UserId)
    requires y in s
    ensures FirstIndex(s + [x], y) == FirstIndex(s, y)
  {
    if s[0] != y {
      assert (s + [x])[1..] == s[1..] + [x];
      FirstIndexExtend(s[1..], x, y);
    }
  }

  lemma {:induction false} FirstIndexLast(s: seq<UserId>, x: UserId)
    requires x !in s
    ensures FirstIndex(s + [x], x) == |s|
  {
    if s != [] {
      assert (s + [x])[1..] == s[1..] + [x];
      FirstIndexLast(s[1..], x);
    }
  }

  /** When every record is by a different registered user, every record
      yields a voter, in record order. */
  lemma {:induction false} AuditIdsKeepsDistinctRecords(s: seq<UserId>, users: seq<User>)
    requires NoDuplicates(s)
    requires forall k :: 0 <= k < |s| ==> Registered(users, s[k])
    ensures AuditIds(s, users) == s
  {
    if s != [] {
      var init, last := s[..|s| - 1], s[|s| - 1];
      DropLastDistinct(s, users);
      AuditIdsKeepsDistinctRecords(init, users);
      assert init + [last] == s;
    }
  }

  /** Dropping the last of distinct registered ids leaves distinct
      registered ids, none of them the dropped one. */
  lemma DropLastDistinct(s: seq<UserId>, users: seq<User>)
    requires s != [] && NoDuplicates(s)
    requires forall k :: 0 <= k < |s| ==> Registered(users, s[k])
    ensures var init := s[..|s| - 1];
      && NoDuplicates(init) && (forall k :: 0 <= k < |init| ==> Registered(users, init[k]))
      && s[|s| - 1] !in init && Registered(users, s[|s| - 1])
  {
    var init, last := s[..|s| - 1], s[|s| - 1];
    forall k | 0 <= k < |init| ensures init[k] == s[k] {
    }
  }

  /** The registered document of a user id. */
  function Doc(users: seq<User>, id: UserId): (u: User)
    requires Registered(users, id)
    ensures u in users && u.id == id
  {
    users[IndexById(users, id).value]
  }

  /** The populated documents of registered ids. */
  function Docs(users: seq<User>, ids: seq<UserId>): (r: seq<User>)
    requires forall k :: 0 <= k < |ids| ==> Registered(users, ids[k])
    ensures |r| == |ids| && forall k :: 0 <= k < |ids| ==> r[k] == Doc(users, ids[k]) && r[k].id == ids[k]
  {
    seq(|ids|, k requires 0 <= k < |ids| => Doc(users, ids[k]))
  }

  lemma AuditIdsSnoc(s: seq<UserId>, users: seq<User>, u: UserId)
    ensures AuditIds(s + [u], users) == AddVoter(AuditIds(s, users), users, u)
  {
    assert (s + [u])[..|s|] == s;
  }

  lemma DocsSnoc(users: seq<User>, ids: seq<UserId>, u: UserId)
    requires forall k :: 0 <= k < |ids| ==> Registered(users, ids[k])
    requires Registered(users, u)
    ensures Docs(users, ids + [u]) == Docs(users, ids) + [Doc(users, u)]
  {
  }

  lemma AllVoteUsersSnoc(parties: seq<PartyEntry>, i: nat)
    requires i < |parties|
    ensures AllVoteUsers(parties[..i + 1]) == AllVoteUsers(parties[..i]) + VoteUsers(parties[i].votes)
  {
    assert parties[..i + 1][..i] == parties[..i];
  }

  lemma VoteUsersSnoc(votes: seq<VoteRecord>, j: nat)
    requires j < |votes|
    ensures VoteUsers(votes[..j + 1]) == VoteUsers(votes[..j]) + [votes[j].user]
  {
  }

  /** What the walk holds after visiting the users `s`: the map's keys
      `seen`, and its values `voters` in insertion order. */
  ghost predicate WalkState(s: seq<UserId>, users: seq<User>, seen: set<UserId>, voters: seq<User>) {
    var ids := AuditIds(s, users);
    && (forall x :: x in seen <==> x in ids)
    && (forall k :: 0 <= k < |ids| ==> Registered(users, ids[k]))
    && voters == Docs(users, ids)
  }

  /** Visiting a registered user not yet seen adds it to the keys and its
      document to the values. */
  lemma WalkAdd(s: seq<UserId>, users: seq<User>, seen: set<UserId>, voters: seq<User>, u: UserId)
    requires WalkState(s, users, seen, voters)
    requires Registered(users, u) && u !in seen
    ensures WalkState(s + [u], users, seen + {u}, voters + [Doc(users, u)])
  {
    var ids := AuditIds(s, users);
    AuditIdsSnoc(s, users, u);
    assert AuditIds(s + [u], users) == ids + [u];
    DocsSnoc(users, ids, u);
  }

  /** Visiting an unregistered or already seen user changes nothing. */
  lemma WalkSkip(s: seq<UserId>, users: seq<User>, seen: set<UserId>, voters: seq<User>, u: UserId)
    requires WalkState(s, users, seen, voters)
    requires !Registered(users, u) || u in seen
    ensures WalkState(s + [u], users, seen, voters)
  {
    AuditIdsSnoc(s, users, u);
    assert AuditIds(s + [u], users) == AuditIds(s, users);
  }

  /** One step of the inner walk, the `j`-th record of a party, in the
      terms of its loop invariant. */
  lemma VisitAdd(before: seq<UserId>, votes: seq<VoteRecord>, j: nat, users: seq<User>, seen: set<UserId>, voters: seq<User>)
    requires j < |votes|
    requires WalkState(before + VoteUsers(votes[..j]), users, seen, voters)
    requires Registered(users, votes[j].user) && votes[j].user !in seen
    ensures WalkState(before + VoteUsers(votes[..j + 1]), users, seen + {votes[j].user}, voters + [Doc(users, votes[j].user)])
  {
    VoteUsersSnoc(votes, j);
    assert before + VoteUsers(votes[..j + 1]) == (before + VoteUsers(votes[..j])) + [votes[j].user];
    WalkAdd(before + VoteUsers(votes[..j]), users, seen, voters, votes[j].user);
  }

  lemma VisitSkip(before: seq<UserId>, votes: seq<VoteRecord>, j: nat, users: seq<User>, seen: set<UserId>, voters: seq<User>)
    requires j < |votes|
    requires WalkState(before + VoteUsers(votes[..j]), users, seen, voters)
    requires !Registered(users, votes[j].user) || votes[j].user in seen
    ensures WalkState(before + VoteUsers(votes[..j + 1]), users, seen, voters)
  {
    VoteUsersSnoc(votes, j);
    assert before + VoteUsers(votes[..j + 1]) == (before + VoteUsers(votes[..j])) + [votes[j].user];
    WalkSkip(before + VoteUsers(votes[..j]), users, seen, voters, votes[j].user);
  }

  /** The inner walk over one party's records. */
  method VisitRecords(votes: seq<VoteRecord>, users: seq<User>, seen0: set<UserId>, voters0: seq<User>,
                      ghost before: seq<UserId>)
    returns (seen: set<UserId>, voters: seq<User>)
    requires WalkState(before, users, seen0, voters0)
    ensures WalkState(before + VoteUsers(votes), users, seen, voters)
  {
    seen, voters := seen0, voters0;
    var j := 0;
    assert before + VoteUsers(votes[..0]) == before;
    while j < |votes|
      invariant 0 <= j <= |votes|
      invariant WalkState(before + VoteUsers(votes[..j]), users, seen, voters)
    {
      var u := votes[j].user;
      var doc := IndexById(users, u);
      if doc.Some? && u !in seen {
        VisitAdd(before, votes, j, users, seen, voters);
        voters := voters + [users[doc.value]];
        seen := seen + {u};
      } else {
        VisitSkip(before, votes, j, users, seen, voters);
      }
      j := j + 1;
    }
    assert votes[..|votes|] == votes;
  }

  /** The walk over the records: for each party in order, for each record
      in order, keep the user's document the first time the user is met. */
  method CollectVoters(parties: seq<PartyEntry>, users: seq<User>) returns (voters: seq<User>)
    ensures var ids := AuditIds(AllVoteUsers(parties), users);
      && (forall k :: 0 <= k < |ids| ==> Registered(users, ids[k]))
      && voters == Docs(users, ids)
  {
    voters := [];
    var seen: set<UserId> := {};
    var i := 0;
    while i < |parties|
      invariant 0 <= i <= |parties|
      invariant WalkState(AllVoteUsers(parties[..i]), users, seen, voters)
    {
      AllVoteUsersSnoc(parties, i);
      seen, voters := VisitRecords(parties[i].votes, users, seen, voters, AllVoteUsers(parties[..i]));
      i := i + 1;
    }
    assert parties[..|parties|] == parties;
  }

  datatype AuditOutcome =
    | AuditForbidden
    | AuditElectionNotFound
    | AuditReport(electionId: ElectionId, title: string, dateOfElection: Instant,
                  totalVotes: int, participants: seq<Participant>, voters: seq<User>)
  {
    function Status(): int {
      match this
      case AuditForbidden => 403
      case AuditElectionNotFound => 404
      case AuditReport(_, _, _, _, _, _) => 200
    }
  }

  /** The report: admins only, 404 for an unknown election; otherwise the
      election's standings in stored order and its voters, `totalVotes`
      being their number. */
  function AuditOn(elections: seq<Election>, users: seq<User>, caller: Claims, id: ElectionId): (r: AuditOutcome)
    ensures !AdminCheck(caller) ==> r == AuditForbidden
    ensures r.AuditReport? ==> r.electionId == id && r.totalVotes == |r.voters|
    ensures r.AuditReport? ==> forall k :: 0 <= k < |r.voters| ==> Registered(users, r.voters[k].id)
  {
    if !AdminCheck(caller) then AuditForbidden
    else match ElectionIndex(elections, id)
      case None => AuditElectionNotFound
      case Some(i) =>
        var e := elections[i];
        var ids := AuditIds(AllVoteUsers(e.parties), users);
        AuditIdsRegistered(AllVoteUsers(e.parties), users);
        AuditReport(e.id, e.title, e.dateOfElection, |ids|, Standings(e.parties), Docs(users, ids))
  }

  lemma AuditIdsRegistered(s: seq<UserId>, users: seq<User>)
    ensures forall k :: 0 <= k < |AuditIds(s, users)| ==> Registered(users, AuditIds(s, users)[k])
  {
    AuditIdsMembers(s, users);
  }

  /** The route. */
  method Audit(elections: seq<Election>, users: seq<User>, caller: Claims, id: ElectionId) returns (r: AuditOutcome)
    ensures r == AuditOn(elections, users, caller, id)
    ensures r.AuditReport? ==>
      r.totalVotes == |r.voters| && forall a, b :: 0 <= a < b < |r.voters| ==> r.voters[a].id != r.voters[b].id
  {
    if !AdminCheck(caller) {
      return AuditForbidden;
    }
    var i := ElectionIndex(elections, id);
    if i.None? {
      return AuditElectionNotFound;
    }
    var e := elections[i.value];
    var voters := CollectVoters(e.parties, users);
    AuditIdsMembers(AllVoteUsers(e.parties), users);
    r := AuditReport(e.id, e.title, e.dateOfElection, |voters|, Standings(e.parties), voters);
  }
}
