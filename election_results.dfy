/** `GET /elections/results` (backend/routes/electionRoutes.js): for each
    election dated before now, its party entries ordered by descending vote
    count (a stable sort, as `Array.prototype.sort` is), the total of the
    counts, and either the single winner or, when the two highest counts
    are equal, every party with the highest count. Candidates appear by id;
    filling in their names and parties is rendering. */
module ElectionResults {
  import opened Common
  import opened ElectionSchema

  /** One row of the standings: a candidate and its count. */
  datatype Participant = Participant(candidate: CandidateId, voteCount: int)

  datatype Verdict = WinnerDeclared(winner: Participant) | Tie(winners: seq<Participant>)

  datatype ElectionResult =
    | NoCandidates(electionId: ElectionId, title: string)
    | Decided(electionId: ElectionId, title: string, dateOfElection: Instant,
              totalVotesCasted: int, verdict: Verdict, participants: seq<Participant>)

  /** The party entries as standings rows, in the election's order. */
  function Standings(parties: seq<PartyEntry>): (r: seq<Participant>)
    ensures |r| == |parties|
    ensures forall k :: 0 <= k < |parties| ==> r[k] == Participant(parties[k].candidate, parties[k].voteCount)
  {
    seq(|parties|, k requires 0 <= k < |parties| => Participant(parties[k].candidate, parties[k].voteCount))
  }

  /** `parties.reduce((sum, p) => sum + p.voteCount, 0)`. */
  function TotalVotes(parties: seq<PartyEntry>): int {
    if parties == [] then 0 else parties[0].voteCount + TotalVotes(parties[1..])
  }

  function SumCounts(s: seq<Participant>): int {
    if s == [] then 0 else s[0].voteCount + SumCounts(s[1..])
  }

  /** The rows holding exactly `c` votes, in their order. */
  function WithCount(s: seq<Participant>, c: int): seq<Participant> {
    if s == [] then [] else (if s[0].voteCount == c then [s[0]] else []) + WithCount(s[1..], c)
  }

  /** The highest count among non-empty standings. */
  function MaxCount(s: seq<Participant>): (m: int)
    requires |s| > 0
    ensures forall k :: 0 <= k < |s| ==> s[k].voteCount <= m
    ensures exists k :: 0 <= k < |s| && s[k].voteCount == m
  {
    if |s| == 1 then s[0].voteCount
    else
      var m := MaxCount(s[1..]);
      assert forall k :: 1 <= k < |s| ==> s[k] == s[1..][k - 1];
      if s[0].voteCount >= m then s[0].voteCount else m
  }

  predicate NonIncreasing(s: seq<Participant>) {
    forall a, b :: 0 <= a < b < |s| ==> s[a].voteCount >= s[b].voteCount
  }

  /** Places `p` before the first row with no more votes than it. */
  function InsertByVotes(p: Participant, t: seq<Participant>): (r: seq<Participant>)
    ensures |r| == |t| + 1
    ensures r[0] == p || (t != [] && r[0] == t[0])
  {
    if t == [] then [p]
    else if t[0].voteCount <= p.voteCount then [p] + t
    else [t[0]] + InsertByVotes(p, t[1..])
  }

  /** `[...parties].sort((a, b) => b.voteCount - a.voteCount)`, stable. */
  function SortByVotes(s: seq<Participant>): (r: seq<Participant>)
    ensures |r| == |s|
  {
    if s == [] then [] else InsertByVotes(s[0], SortByVotes(s[1..]))
  }

  lemma {:induction false} InsertKeepsOrder(p: Participant, t: seq<Participant>)
    requires NonIncreasing(t)
    ensures NonIncreasing(InsertByVotes(p, t))
  {
    if t != [] && t[0].voteCount > p.voteCount {
      InsertKeepsOrder(p, t[1..]);
      var r := InsertByVotes(p, t);
      var tail := InsertByVotes(p, t[1..]);
      assert r == [t[0]] + tail;
      forall b | 0 < b < |r| ensures t[0].voteCount >= r[b].voteCount {
        assert r[b] in tail;
        InsertMembers(p, t[1..]);
      }
    }
  }

  lemma {:induction false} InsertMembers(p: Participant, t: seq<Participant>)
    ensures multiset(InsertByVotes(p, t)) == multiset{p} + multiset(t)
  {
    if t != [] && t[0].voteCount > p.voteCount {
      InsertMembers(p, t[1..]);
      assert t == [t[0]] + t[1..];
    }
  }

  lemma {:induction false} InsertWithCount(p: Participant, t: seq<Participant>, c: int)
    ensures WithCount(InsertByVotes(p, t), c) == WithCount([p], c) + WithCount(t, c)
  {
    if t == [] {
      assert InsertByVotes(p, t) == [p];
      assert WithCount(t, c) == [];
      assert WithCount([p], c) + [] == WithCount([p], c);
    } else if t[0].voteCount <= p.voteCount {
      assert InsertByVotes(p, t) == [p] + t;
      WithCountCons(p, t, c);
    } else {
      InsertWithCount(p, t[1..], c);
      InsertPastHead(p, t, c);
    }
  }

  /** Proof helper, the step of `InsertWithCount` where `p` goes past a head with more
      votes: at most one of the two has `c` votes, so their order among
      the rows with `c` votes does not matter. */
  lemma InsertPastHead(p: Participant, t: seq<Participant>, c: int)
    requires t != [] && t[0].voteCount > p.voteCount
    requires WithCount(InsertByVotes(p, t[1..]), c) == WithCount([p], c) + WithCount(t[1..], c)
    ensures WithCount(InsertByVotes(p, t), c) == WithCount([p], c) + WithCount(t, c)
  {
    ConsInsert(p, t, c);
    SwapIntoPlace(WithCount(InsertByVotes(p, t), c), WithCount(t, c),
                  WithCount([t[0]], c), WithCount([p], c), WithCount(t[1..], c));
  }

  /** Proof helper: unfolding one step of an insertion that goes past the head. */
  lemma ConsInsert(p: Participant, t: seq<Participant>, c: int)
    requires t != [] && t[0].voteCount > p.voteCount
    ensures WithCount(InsertByVotes(p, t), c) == WithCount([t[0]], c) + WithCount(InsertByVotes(p, t[1..]), c)
    ensures WithCount(t, c) == WithCount([t[0]], c) + WithCount(t[1..], c)
    ensures WithCount([t[0]], c) == [] || WithCount([p], c) == []
  {
    var tail := InsertByVotes(p, t[1..]);
    assert InsertByVotes(p, t) == [t[0]] + tail;
    WithCountCons(t[0], tail, c);
    assert [t[0]] + t[1..] == t;
    WithCountCons(t[0], t[1..], c);
    WithCountOne(p, c);
    WithCountOne(t[0], c);
  }

  /** Proof helper: of two parts, one empty, either may come first; the
      parts are plain names so no function is unfolded here. */
  lemma SwapIntoPlace<T>(whole: seq<T>, rest: seq<T>, a: seq<T>, q: seq<T>, b: seq<T>)
    requires whole == a + (q + b) && rest == a + b && (a == [] || q == [])
    ensures whole == q + rest
  {
    SwapEmpty(a, q, b);
  }

  /** Proof helper: the concatenation fact behind `SwapIntoPlace`. */
  lemma SwapEmpty<T>(a: seq<T>, q: seq<T>, b: seq<T>)
    requires a == [] || q == []
    ensures a + (q + b) == q + (a + b)
  {
    if a == [] {
      assert a + (q + b) == q + b && a + b == b;
    } else {
      assert q + (a + b) == a + b && q + b == b;
    }
  }

  lemma WithCountOne(x: Participant, c: int)
    ensures WithCount([x], c) == if x.voteCount == c then [x] else []
  {
    assert [x][1..] == [];
  }

  lemma WithCountCons(x: Participant, s: seq<Participant>, c: int)
    ensures WithCount([x] + s, c) == WithCount([x], c) + WithCount(s, c)
  {
    assert ([x] + s)[1..] == s;
    assert [x][1..] == [];
  }

  lemma {:induction false} WithCountAppend(a: seq<Participant>, b: seq<Participant>, c: int)
    ensures WithCount(a + b, c) == WithCount(a, c) + WithCount(b, c)
  {
    if a == [] {
      assert a + b == b;
      assert WithCount(a, c) == [];
      assert [] + WithCount(b, c) == WithCount(b, c);
    } else {
      WithCountAppend(a[1..], b, c);
      AppendPastHead(a, b, c);
    }
  }

  /** Proof helper, the step of `WithCountAppend`: the head of `a` is filtered the same
      way in `a` and in `a + b`. */
  lemma AppendPastHead(a: seq<Participant>, b: seq<Participant>, c: int)
    requires a != []
    requires WithCount(a[1..] + b, c) == WithCount(a[1..], c) + WithCount(b, c)
    ensures WithCount(a + b, c) == WithCount(a, c) + WithCount(b, c)
  {
    ConsAppend(a, b, c);
    Regroup(WithCount(a + b, c), WithCount(a, c), WithCount([a[0]], c), WithCount(a[1..], c), WithCount(b, c));
  }

  /** Proof helper: the head of a non-empty `a` is filtered first, alone and before `b`. */
  lemma ConsAppend(a: seq<Participant>, b: seq<Participant>, c: int)
    requires a != []
    ensures WithCount(a + b, c) == WithCount([a[0]], c) + WithCount(a[1..] + b, c)
    ensures WithCount(a, c) == WithCount([a[0]], c) + WithCount(a[1..], c)
  {
    assert a + b == [a[0]] + (a[1..] + b);
    WithCountCons(a[0], a[1..] + b, c);
    assert a == [a[0]] + a[1..];
    WithCountCons(a[0], a[1..], c);
  }

  lemma {:induction false} InsertSum(p: Participant, t: seq<Participant>)
    ensures SumCounts(InsertByVotes(p, t)) == p.voteCount + SumCounts(t)
  {
    if t != [] && t[0].voteCount > p.voteCount {
      InsertSum(p, t[1..]);
    }
  }

  /** The sort orders by non-increasing count, is a permutation and keeps
      the sum. */
  lemma {:induction false} SortByVotesCorrect(s: seq<Participant>)
    ensures NonIncreasing(SortByVotes(s))
    ensures multiset(SortByVotes(s)) == multiset(s)
    ensures SumCounts(SortByVotes(s)) == SumCounts(s)
  {
    if s != [] {
      SortByVotesCorrect(s[1..]);
      InsertKeepsOrder(s[0], SortByVotes(s[1..]));
      InsertMembers(s[0], SortByVotes(s[1..]));
      InsertSum(s[0], SortByVotes(s[1..]));
      assert s == [s[0]] + s[1..];
    }
  }

  /** The sort is stable: the rows with any one count keep their relative
      order. */
  lemma {:induction false} SortByVotesStable(s: seq<Participant>, c: int)
    ensures WithCount(SortByVotes(s), c) == WithCount(s, c)
  {
    if s != [] {
      SortByVotesStable(s[1..], c);
      InsertWithCount(s[0], SortByVotes(s[1..]), c);
      WithCountCons(s[0], s[1..], c);
      assert [s[0]] + s[1..] == s;
    }
  }

  /** Rows all below `c` hold none with `c`. */
  lemma {:induction false} NoneWithCount(s: seq<Participant>, c: int)
    requires forall k :: 0 <= k < |s| ==> s[k].voteCount < c
    ensures WithCount(s, c) == []
  {
    if s != [] {
      NoneWithCount(s[1..], c);
    }
  }

  lemma {:induction false} StandingsSum(parties: seq<PartyEntry>)
    ensures SumCounts(Standings(parties)) == TotalVotes(parties)
  {
    if parties != [] {
      StandingsSum(parties[1..]);
      assert Standings(parties)[1..] == Standings(parties[1..]);
    }
  }

  /** One election's result: no candidates, or the sorted standings with
      the total and the verdict. */
  function DeclareResult(e: Election): (r: ElectionResult)
    ensures r.electionId == e.id && r.title == e.title
    ensures r.NoCandidates? <==> |e.parties| == 0
    ensures r.Decided? ==> r.totalVotesCasted == TotalVotes(e.parties) && |r.participants| == |e.parties|
  {
    if |e.parties| == 0 then NoCandidates(e.id, e.title)
    else
      var sorted := SortByVotes(Standings(e.parties));
      var winner := sorted[0];
      var isTie := |sorted| > 1 && sorted[1].voteCount == winner.voteCount;
      Decided(e.id, e.title, e.dateOfElection, TotalVotes(e.parties),
              if isTie then Tie(WithCount(sorted, winner.voteCount)) else WinnerDeclared(winner),
              sorted)
  }

  /** What a declared result means: the participants are the election's
      standings reordered by non-increasing count, adding up to the total;
      the top count is the maximum; it is a tie exactly when at least two
      parties hold the maximum, and the tied winners are then exactly
      those parties, in the election's order; otherwise the winner is the
      one party holding the maximum. */
  lemma {:induction false} DeclareResultCorrect(e: Election)
    requires |e.parties| > 0
    ensures var r := DeclareResult(e);
      var standings := Standings(e.parties);
      var top := MaxCount(standings);
      && r.Decided?
      && NonIncreasing(r.participants)
      && multiset(r.participants) == multiset(standings)
      && SumCounts(r.participants) == r.totalVotesCasted == TotalVotes(e.parties)
      && (r.verdict.Tie? <==> |WithCount(standings, top)| >= 2)
      && (r.verdict.Tie? ==> r.verdict.winners == WithCount(standings, top))
      && (r.verdict.WinnerDeclared? ==>
            r.verdict.winner.voteCount == top && r.verdict.winner in standings
            && WithCount(standings, top) == [r.verdict.winner])
  {
    var standings := Standings(e.parties);
    var sorted := SortByVotes(standings);
    var top := MaxCount(standings);
    SortByVotesCorrect(standings);
    SortByVotesStable(standings, top);
    StandingsSum(e.parties);
    SortedHeadIsMax(standings);
    TopRows(sorted, top);
    assert sorted[0] in multiset(standings);
  }

  /** The first row of the sorted standings holds the maximum count. */
  lemma SortedHeadIsMax(s: seq<Participant>)
    requires |s| > 0
    ensures |SortByVotes(s)| == |s|
    ensures SortByVotes(s)[0].voteCount == MaxCount(s)
  {
    var sorted := SortByVotes(s);
    SortByVotesCorrect(s);
    assert |sorted| == |multiset(sorted)| == |multiset(s)| == |s|;
    var top := MaxCount(s);
    assert sorted[0] in multiset(s);
    var k :| 0 <= k < |s| && s[k].voteCount == top;
    assert s[k] in multiset(sorted);
  }

  /** In rows of non-increasing count headed by `top`, the rows with `top`
      are the head alone unless the second row also has `top`. */
  lemma TopRows(sorted: seq<Participant>, top: int)
    requires |sorted| > 0 && NonIncreasing(sorted) && sorted[0].voteCount == top
    ensures |WithCount(sorted, top)| >= 2 <==> |sorted| > 1 && sorted[1].voteCount == top
    ensures !(|sorted| > 1 && sorted[1].voteCount == top) ==> WithCount(sorted, top) == [sorted[0]]
  {
    assert WithCount(sorted, top) == [sorted[0]] + WithCount(sorted[1..], top);
    if |sorted| > 1 && sorted[1].voteCount == top {
      assert WithCount(sorted[1..], top) == [sorted[1]] + WithCount(sorted[2..], top);
    } else {
      NoneWithCount(sorted[1..], top);
    }
  }

  /** `Election.find({ dateOfElection: { $lt: now } })`. */
  function Completed(elections: seq<Election>, now: Instant): (r: seq<Election>)
    ensures forall k :: 0 <= k < |r| ==> r[k] in elections && r[k].dateOfElection < now
    ensures forall k :: 0 <= k < |elections| && elections[k].dateOfElection < now ==> elections[k] in r
  {
    if elections == [] then []
    else (if elections[0].dateOfElection < now then [elections[0]] else []) + Completed(elections[1..], now)
  }

  /** The whole route: one result per completed election, in stored order
      (an empty list when none is completed). */
  function ResultsOn(elections: seq<Election>, now: Instant): (r: seq<ElectionResult>)
    ensures |r| == |Completed(elections, now)|
    ensures forall k :: 0 <= k < |r| ==> r[k] == DeclareResult(Completed(elections, now)[k])
  {
    var done := Completed(elections, now);
    seq(|done|, k requires 0 <= k < |done| => DeclareResult(done[k]))
  }

  /** An election with no party entries reports "no candidates"; no
      election dated now or later is reported. */
  lemma ResultsCoverCompletedOnly(elections: seq<Election>, now: Instant)
    ensures forall k :: 0 <= k < |ResultsOn(elections, now)| ==>
      (ResultsOn(elections, now)[k].NoCandidates? <==> Completed(elections, now)[k].parties == [])
    ensures forall e :: e in elections && e.dateOfElection >= now ==> e !in Completed(elections, now)
  {
  }
}
