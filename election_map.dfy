/** `GET /elections/:electionId/map-results` (backend/routes/electionRoutes.js):
    the aggregation pipeline's meaning over in-memory sequences. Each vote
    record of the election becomes a row (the voter's state, the party of
    the record's candidate looked up in the candidate collection); a row
    whose state or party is missing or is the literal "Unknown" is dropped;
    the rows are grouped by state, and within a state counted per party;
    each state reports its total and the party of the first entry holding
    strictly the most votes. A party entry without records contributes no
    row, since its unwound document has no state. The order of states and
    of parties within a state is the order of first appearance. */
module ElectionMap {
  import opened Common
  import opened ElectionSchema
  import opened CandidateSchema
  import opened CandidateRoutes

  /** The placeholder `$ifNull` substitutes, which the filter then drops. */
  const UnknownName := "Unknown"

  datatype Row = Row(state: string, party: string)
  datatype PartyVotes = PartyVotes(party: string, votes: int)
  datatype StateSummary = StateSummary(state: string, results: seq<PartyVotes>, totalVotes: int, winningParty: string)

  /** The `$lookup` of a party entry's candidate: its party, or None when no
      candidate has that id. */
  function PartyOf(candidates: seq<Candidate>, id: CandidateId): Option<string> {
    match CandidateIndex(candidates, id)
    case None => None
    case Some(k) => Some(candidates[k].party)
  }

  /** The row of one record, when neither its state nor its party is
      unknown. */
  function RowOf(v: VoteRecord, party: Option<string>): (r: Option<Row>)
    ensures r.Some? <==> v.voterState != UnknownName && party.Some? && party.value != UnknownName
    ensures r.Some? ==> r.value == Row(v.voterState, party.value)
  {
    if v.voterState != UnknownName && party.Some? && party.value != UnknownName then Some(Row(v.voterState, party.value))
    else None
  }

  function RowsOfVotes(votes: seq<VoteRecord>, party: Option<string>): (r: seq<Row>)
    ensures |r| <= |votes|
  {
    if votes == [] then []
    else (if RowOf(votes[0], party).Some? then [RowOf(votes[0], party).value] else []) + RowsOfVotes(votes[1..], party)
  }

  /** The number of vote records over all party entries. */
  function RecordCount(parties: seq<PartyEntry>): nat {
    if parties == [] then 0 else |parties[0].votes| + RecordCount(parties[1..])
  }

  /** Every kept row, party entry by party entry: at most one per record. */
  function KeptRows(parties: seq<PartyEntry>, candidates: seq<Candidate>): (r: seq<Row>)
    ensures |r| <= RecordCount(parties)
  {
    if parties == [] then []
    else RowsOfVotes(parties[0].votes, PartyOf(candidates, parties[0].candidate)) + KeptRows(parties[1..], candidates)
  }

  /** No kept row names the unknown placeholder. */
  lemma {:induction false} KeptRowsKnown(parties: seq<PartyEntry>, candidates: seq<Candidate>)
    ensures forall k :: 0 <= k < |KeptRows(parties, candidates)| ==>
      KeptRows(parties, candidates)[k].state != UnknownName && KeptRows(parties, candidates)[k].party != UnknownName
  {
    if parties != [] {
      KeptRowsKnown(parties[1..], candidates);
      RowsOfVotesKnown(parties[0].votes, PartyOf(candidates, parties[0].candidate));
    }
  }

  lemma {:induction false} RowsOfVotesKnown(votes: seq<VoteRecord>, party: Option<string>)
    ensures forall k :: 0 <= k < |RowsOfVotes(votes, party)| ==>
      RowsOfVotes(votes, party)[k].state != UnknownName && RowsOfVotes(votes, party)[k].party != UnknownName
  {
    if votes != [] {
      RowsOfVotesKnown(votes[1..], party);
    }
  }

  /** Adds `x` at the end unless already present. */
  function AddNew(xs: seq<string>, x: string): seq<string> {
    if x in xs then xs else xs + [x]
  }

  /** The states of the rows, once each, in order of first appearance. */
  function StatesOf(rows: seq<Row>): seq<string> {
    if rows == [] then [] else AddNew(StatesOf(rows[..|rows| - 1]), rows[|rows| - 1].state)
  }

  /** The parties of the rows in one state, once each, in order of first
      appearance. */
  function PartiesIn(rows: seq<Row>, state: string): seq<string> {
    if rows == [] then []
    else
      var init := PartiesIn(rows[..|rows| - 1], state);
      if rows[|rows| - 1].state == state then AddNew(init, rows[|rows| - 1].party) else init
  }

  /** The number of rows with this state and party: the first `$group`'s
      `$sum`. */
  function CountRows(rows: seq<Row>, state: string, party: string): nat {
    if rows == [] then 0
    else CountRows(rows[..|rows| - 1], state, party) + (if rows[|rows| - 1] == Row(state, party) then 1 else 0)
  }

  /** The number of rows in this state. */
  function CountState(rows: seq<Row>, state: string): nat {
    if rows == [] then 0
    else CountState(rows[..|rows| - 1], state) + (if rows[|rows| - 1].state == state then 1 else 0)
  }

  function SumVotes(results: seq<PartyVotes>): int {
    if results == [] then 0 else results[0].votes + SumVotes(results[1..])
  }

  /** The `$reduce` that picks the winner, starting from `acc`: an entry
      replaces the current one only with strictly more votes. */
  function ReduceWinner(results: seq<PartyVotes>, acc: PartyVotes): (r: PartyVotes)
    ensures r.votes >= acc.votes
    ensures r == acc || r in results
  {
    if results == [] then acc
    else ReduceWinner(results[1..], if results[0].votes > acc.votes then results[0] else acc)
  }

  /** `$reduce` with the initial value `{ votes: -1, party: 'N/A' }`. */
  function WinningParty(results: seq<PartyVotes>): string {
    ReduceWinner(results, PartyVotes("N/A", -1)).party
  }

  /** One state's summary: each party of the state with its count, and a
      winner that is one of those parties ("N/A" only when there is none). */
  function Summary(rows: seq<Row>, state: string): (r: StateSummary)
    ensures r.state == state && |r.results| == |PartiesIn(rows, state)|
    ensures forall j :: 0 <= j < |r.results| ==> r.results[j].votes == CountRows(rows, state, r.results[j].party)
    ensures r.winningParty == "N/A" || exists j :: 0 <= j < |r.results| && r.results[j].party == r.winningParty
  {
    var parties := PartiesIn(rows, state);
    var results := seq(|parties|, k requires 0 <= k < |parties| => PartyVotes(parties[k], CountRows(rows, state, parties[k])));
    StateSummary(state, results, SumVotes(results), WinningParty(results))
  }

  /** The route's answer for one election: one summary per listed state,
      each being the summary of its own state. */
  function MapResults(parties: seq<PartyEntry>, candidates: seq<Candidate>): (r: seq<StateSummary>)
    ensures |r| == |StatesOf(KeptRows(parties, candidates))|
    ensures forall k :: 0 <= k < |r| ==> r[k] == Summary(KeptRows(parties, candidates), r[k].state)
  {
    var rows := KeptRows(parties, candidates);
    var states := StatesOf(rows);
    seq(|states|, k requires 0 <= k < |states| => Summary(rows, states[k]))
  }

  // ---------------------------------------------------------------------
  // Properties
  // ---------------------------------------------------------------------

  /** The states listed are exactly the states of kept rows. */
  lemma {:induction false} StatesOfMembers(rows: seq<Row>)
    ensures forall s :: s in StatesOf(rows) <==> exists k :: 0 <= k < |rows| && rows[k].state == s
  {
    if rows != [] {
      var init := rows[..|rows| - 1];
      StatesOfMembers(init);
      forall s | exists k :: 0 <= k < |rows| && rows[k].state == s ensures s in StatesOf(rows) {
        var k :| 0 <= k < |rows| && rows[k].state == s;
        if k < |rows| - 1 {
          assert init[k].state == s;
        }
      }
      forall s | s in StatesOf(rows) ensures exists k :: 0 <= k < |rows| && rows[k].state == s {
        if s in StatesOf(init) {
          var k :| 0 <= k < |init| && init[k].state == s;
          assert rows[k].state == s;
        } else {
          assert rows[|rows| - 1].state == s;
        }
      }
    }
  }

  /** No placeholder state or party appears in any summary: every listed
      state and every listed party comes from a kept row. */
  lemma UnknownExcluded(parties: seq<PartyEntry>, candidates: seq<Candidate>)
    ensures var m := MapResults(parties, candidates);
      forall k :: 0 <= k < |m| ==>
        m[k].state != UnknownName && forall j :: 0 <= j < |m[k].results| ==> m[k].results[j].party != UnknownName
  {
    var rows := KeptRows(parties, candidates);
    var m := MapResults(parties, candidates);
    KeptRowsKnown(parties, candidates);
    StatesOfMembers(rows);
    forall k | 0 <= k < |m|
      ensures m[k].state != UnknownName && forall j :: 0 <= j < |m[k].results| ==> m[k].results[j].party != UnknownName
    {
      var st := StatesOf(rows)[k];
      assert st in StatesOf(rows);
      PartiesInDistinct(rows, st);
      forall j | 0 <= j < |m[k].results| ensures m[k].results[j].party != UnknownName {
        var p := PartiesIn(rows, st)[j];
        assert p in PartiesIn(rows, st);
        CountRowsWitness(rows, st, p);
      }
    }
  }

  /** A positive count has a row behind it. */
  lemma {:induction false} CountRowsWitness(rows: seq<Row>, state: string, party: string)
    requires CountRows(rows, state, party) > 0
    ensures exists k :: 0 <= k < |rows| && rows[k] == Row(state, party)
  {
    var init := rows[..|rows| - 1];
    if rows[|rows| - 1] != Row(state, party) {
      CountRowsWitness(init, state, party);
      var k :| 0 <= k < |init| && init[k] == Row(state, party);
      assert rows[k] == init[k];
    }
  }

  /** Exactly the records with a known state and a known party yield rows:
      each such record's row is kept, and each kept row is the row of such
      a record. */
  lemma {:induction false} KeptRowsExactly(parties: seq<PartyEntry>, candidates: seq<Candidate>)
    ensures forall i, j ::
      (0 <= i < |parties| && 0 <= j < |parties[i].votes|
       && RowOf(parties[i].votes[j], PartyOf(candidates, parties[i].candidate)).Some?) ==>
      RowOf(parties[i].votes[j], PartyOf(candidates, parties[i].candidate)).value in KeptRows(parties, candidates)
    ensures forall r :: r in KeptRows(parties, candidates) ==>
      exists i, j ::
        && 0 <= i < |parties| && 0 <= j < |parties[i].votes|
        && RowOf(parties[i].votes[j], PartyOf(candidates, parties[i].candidate)) == Some(r)
  {
    if parties != [] {
      var tail := parties[1..];
      var party := PartyOf(candidates, parties[0].candidate);
      KeptRowsExactly(tail, candidates);
      RowsOfVotesExactly(parties[0].votes, party);
      forall r | r in KeptRows(parties, candidates)
        ensures exists i, j ::
          && 0 <= i < |parties| && 0 <= j < |parties[i].votes|
          && RowOf(parties[i].votes[j], PartyOf(candidates, parties[i].candidate)) == Some(r)
      {
        if r in RowsOfVotes(parties[0].votes, party) {
          var j :| 0 <= j < |parties[0].votes| && RowOf(parties[0].votes[j], party) == Some(r);
        } else {
          var i, j :| 0 <= i < |tail| && 0 <= j < |tail[i].votes|
            && RowOf(tail[i].votes[j], PartyOf(candidates, tail[i].candidate)) == Some(r);
          assert tail[i] == parties[i + 1];
        }
      }
      forall i, j | 0 <= i < |parties| && 0 <= j < |parties[i].votes|
        && RowOf(parties[i].votes[j], PartyOf(candidates, parties[i].candidate)).Some?
        ensures RowOf(parties[i].votes[j], PartyOf(candidates, parties[i].candidate)).value in KeptRows(parties, candidates)
      {
        if i > 0 {
          assert parties[i] == tail[i - 1];
        }
      }
    }
  }

  lemma {:induction false} RowsOfVotesExactly(votes: seq<VoteRecord>, party: Option<string>)
    ensures forall j :: 0 <= j < |votes| && RowOf(votes[j], party).Some? ==> RowOf(votes[j], party).value in RowsOfVotes(votes, party)
    ensures forall r :: r in RowsOfVotes(votes, party) ==> exists j :: 0 <= j < |votes| && RowOf(votes[j], party) == Some(r)
  {
    if votes != [] {
      RowsOfVotesExactly(votes[1..], party);
      forall r | r in RowsOfVotes(votes, party) ensures exists j :: 0 <= j < |votes| && RowOf(votes[j], party) == Some(r) {
        if r !in RowsOfVotes(votes[1..], party) {
          assert RowOf(votes[0], party) == Some(r);
        } else {
          var j :| 0 <= j < |votes[1..]| && RowOf(votes[1..][j], party) == Some(r);
          assert votes[j + 1] == votes[1..][j];
        }
      }
      forall j | 0 <= j < |votes| && RowOf(votes[j], party).Some? ensures RowOf(votes[j], party).value in RowsOfVotes(votes, party) {
        if j > 0 {
          assert votes[j] == votes[1..][j - 1];
        }
      }
    }
  }

  /** The parties listed under a state have no repeats. */
  lemma {:induction false} PartiesInDistinct(rows: seq<Row>, state: string)
    ensures forall a, b :: 0 <= a < b < |PartiesIn(rows, state)| ==> PartiesIn(rows, state)[a] != PartiesIn(rows, state)[b]
    ensures forall p :: p in PartiesIn(rows, state) <==> CountRows(rows, state, p) > 0
  {
    if rows != [] {
      PartiesInDistinct(rows[..|rows| - 1], state);
    }
  }

  /** Summing `CountRows` over a list of distinct parties. */
  function SumCounts(ps: seq<string>, rows: seq<Row>, state: string): int {
    if ps == [] then 0 else CountRows(rows, state, ps[0]) + SumCounts(ps[1..], rows, state)
  }

  /** Adding one row of the state raises the count of its party only. */
  lemma {:induction false} SumCountsSnoc(ps: seq<string>, rows: seq<Row>, x: Row, state: string)
    requires x.state == state
    requires forall a, b :: 0 <= a < b < |ps| ==> ps[a] != ps[b]
    ensures SumCounts(ps, rows + [x], state) == SumCounts(ps, rows, state) + (if x.party in ps then 1 else 0)
  {
    assert (rows + [x])[..|rows|] == rows;
    if ps != [] {
      SumCountsSnoc(ps[1..], rows, x, state);
      if x.party == ps[0] {
        assert x.party !in ps[1..];
      }
    }
  }

  /** Adding a row of another state changes no count. */
  lemma {:induction false} SumCountsOther(ps: seq<string>, rows: seq<Row>, x: Row, state: string)
    requires x.state != state
    ensures SumCounts(ps, rows + [x], state) == SumCounts(ps, rows, state)
  {
    assert (rows + [x])[..|rows|] == rows;
    if ps != [] {
      SumCountsOther(ps[1..], rows, x, state);
    }
  }

  lemma {:induction false} SumCountsAppend(ps: seq<string>, p: string, rows: seq<Row>, state: string)
    ensures SumCounts(ps + [p], rows, state) == SumCounts(ps, rows, state) + CountRows(rows, state, p)
  {
    if ps != [] {
      assert (ps + [p])[1..] == ps[1..] + [p];
      SumCountsAppend(ps[1..], p, rows, state);
    }
  }

  /** The per-party counts of a state add up to its number of rows. */
  lemma {:induction false} PartyCountsPartitionState(rows: seq<Row>, state: string)
    ensures SumCounts(PartiesIn(rows, state), rows, state) == CountState(rows, state)
  {
    if rows != [] {
      var init := rows[..|rows| - 1];
      var x := rows[|rows| - 1];
      var ps := PartiesIn(init, state);
      PartyCountsPartitionState(init, state);
      PartiesInDistinct(init, state);
      assert rows == init + [x];
      if x.state == state {
        SumCountsSnoc(ps, init, x, state);
        if x.party !in ps {
          SumCountsAppend(ps, x.party, rows, state);
          assert CountRows(init, state, x.party) == 0;
        }
      } else {
        SumCountsOther(ps, init, x, state);
      }
    }
  }

  lemma {:induction false} SumVotesOfCounts(ps: seq<string>, rows: seq<Row>, state: string)
    ensures SumVotes(seq(|ps|, k requires 0 <= k < |ps| => PartyVotes(ps[k], CountRows(rows, state, ps[k]))))
      == SumCounts(ps, rows, state)
  {
    if ps != [] {
      var full := seq(|ps|, k requires 0 <= k < |ps| => PartyVotes(ps[k], CountRows(rows, state, ps[k])));
      var tail := seq(|ps| - 1, k requires 0 <= k < |ps| - 1 => PartyVotes(ps[1..][k], CountRows(rows, state, ps[1..][k])));
      assert full[1..] == tail;
      SumVotesOfCounts(ps[1..], rows, state);
    }
  }

  /** A state's total is the sum of its party counts, and equals the
      number of kept records from that state. */
  lemma StateTotalIsSum(rows: seq<Row>, state: string)
    ensures Summary(rows, state).totalVotes == SumVotes(Summary(rows, state).results)
    ensures Summary(rows, state).totalVotes == CountState(rows, state)
  {
    SumVotesOfCounts(PartiesIn(rows, state), rows, state);
    PartyCountsPartitionState(rows, state);
  }

  /** The reduction from an accumulator: the result is the accumulator or
      an entry; it is the first entry beating everything before it. */
  lemma {:induction false} ReduceWinnerSpec(results: seq<PartyVotes>, acc: PartyVotes)
    ensures var w := ReduceWinner(results, acc);
      && w.votes >= acc.votes
      && (forall k :: 0 <= k < |results| ==> results[k].votes <= w.votes)
      && (w == acc || exists k :: 0 <= k < |results| && results[k] == w
                                  && (forall j :: 0 <= j < k ==> results[j].votes < w.votes)
                                  && acc.votes < w.votes)
  {
    if results != [] {
      var next := if results[0].votes > acc.votes then results[0] else acc;
      ReduceWinnerSpec(results[1..], next);
      var w := ReduceWinner(results, acc);
      assert w == ReduceWinner(results[1..], next);
      if w != next {
        var k :| 0 <= k < |results[1..]| && results[1..][k] == w
                 && (forall j :: 0 <= j < k ==> results[1..][j].votes < w.votes) && next.votes < w.votes;
        assert results[k + 1] == w;
        forall j | 0 <= j < k + 1 ensures results[j].votes < w.votes {
          if j > 0 {
            assert results[j] == results[1..][j - 1];
          }
        }
      } else if next == results[0] && w != acc {
        assert results[0] == w;
      }
    }
  }

  /** The winning party is the party of the earliest entry holding the
      greatest count: every entry before it has strictly fewer votes and
      none after it has more. */
  lemma WinnerIsFirstMaximum(results: seq<PartyVotes>)
    requires |results| > 0
    requires forall k :: 0 <= k < |results| ==> results[k].votes >= 0
    ensures exists k ::
      && 0 <= k < |results| && WinningParty(results) == results[k].party
      && (forall j :: 0 <= j < k ==> results[j].votes < results[k].votes)
      && (forall j :: 0 <= j < |results| ==> results[j].votes <= results[k].votes)
  {
    ReduceWinnerSpec(results, PartyVotes("N/A", -1));
  }

  /** Every summary's counts are those of its state's kept records: the
      total is their number and the sum of the party counts, and the winner
      is the first of its parties with the strictly greatest count. */
  lemma SummaryCorrect(parties: seq<PartyEntry>, candidates: seq<Candidate>, k: nat)
    requires k < |MapResults(parties, candidates)|
    ensures var rows := KeptRows(parties, candidates);
      var s := MapResults(parties, candidates)[k];
      && s.state != UnknownName
      && s.totalVotes == SumVotes(s.results) == CountState(rows, s.state)
      && |s.results| > 0
      && exists w :: 0 <= w < |s.results| && s.winningParty == s.results[w].party
           && (forall j :: 0 <= j < w ==> s.results[j].votes < s.results[w].votes)
           && (forall j :: 0 <= j < |s.results| ==> s.results[j].votes <= s.results[w].votes)
  {
    var rows := KeptRows(parties, candidates);
    var states := StatesOf(rows);
    var s := MapResults(parties, candidates)[k];
    assert s == Summary(rows, states[k]);
    UnknownExcluded(parties, candidates);
    StateTotalIsSum(rows, states[k]);
    StatesOfMembers(rows);
    assert states[k] in states;
    var i :| 0 <= i < |rows| && rows[i].state == states[k];
    SummaryHasWinner(rows, i);
  }

  /** The summary of a state that has a row lists at least one party, and
      its winner is the first party with the greatest count. */
  lemma SummaryHasWinner(rows: seq<Row>, i: nat)
    requires i < |rows|
    ensures var s := Summary(rows, rows[i].state);
      && |s.results| > 0
      && exists w :: 0 <= w < |s.results| && s.winningParty == s.results[w].party
           && (forall j :: 0 <= j < w ==> s.results[j].votes < s.results[w].votes)
           && (forall j :: 0 <= j < |s.results| ==> s.results[j].votes <= s.results[w].votes)
  {
    var s := Summary(rows, rows[i].state);
    PartiesInDistinct(rows, rows[i].state);
    CountRowsPositive(rows, i);
    assert rows[i].party in PartiesIn(rows, rows[i].state);
    WinnerIsFirstMaximum(s.results);
  }

  lemma {:induction false} CountRowsPositive(rows: seq<Row>, i: nat)
    requires i < |rows|
    ensures CountRows(rows, rows[i].state, rows[i].party) > 0
  {
    if i < |rows| - 1 {
      assert rows[..|rows| - 1][i] == rows[i];
      CountRowsPositive(rows[..|rows| - 1], i);
    }
  }

  /** The states listed have no repeats. */
  lemma {:induction false} StatesOfDistinct(rows: seq<Row>)
    ensures forall a, b :: 0 <= a < b < |StatesOf(rows)| ==> StatesOf(rows)[a] != StatesOf(rows)[b]
  {
    if rows != [] {
      StatesOfDistinct(rows[..|rows| - 1]);
    }
  }

  /** The second `$group` gives one summary per state: no state has two. */
  lemma MapResultsStatesDistinct(parties: seq<PartyEntry>, candidates: seq<Candidate>)
    ensures var m := MapResults(parties, candidates);
      forall a, b :: 0 <= a < b < |m| ==> m[a].state != m[b].state
  {
    StatesOfDistinct(KeptRows(parties, candidates));
  }

  /** Proof helper: the `k`th summary is that of the `k`th state listed. */
  lemma MapResultsShape(parties: seq<PartyEntry>, candidates: seq<Candidate>)
    ensures |MapResults(parties, candidates)| == |StatesOf(KeptRows(parties, candidates))|
    ensures forall k :: 0 <= k < |MapResults(parties, candidates)| ==>
      MapResults(parties, candidates)[k].state == StatesOf(KeptRows(parties, candidates))[k]
  {
  }

  /** Some summary in `m` is the summary of `state`. */
  predicate HasSummary(m: seq<StateSummary>, state: string) {
    exists k :: 0 <= k < |m| && m[k].state == state
  }

  /** Some row in `rows` is from `state`. */
  predicate HasRowFrom(rows: seq<Row>, state: string) {
    exists i :: 0 <= i < |rows| && rows[i].state == state
  }

  /** Proof helper: summaries listed in the order of a list of states that
      are exactly the rows' states cover exactly the rows' states. */
  lemma CoverByStates(rows: seq<Row>, states: seq<string>, m: seq<StateSummary>)
    requires |m| == |states| && forall k :: 0 <= k < |m| ==> m[k].state == states[k]
    requires forall s :: s in states <==> exists i :: 0 <= i < |rows| && rows[i].state == s
    ensures forall i :: 0 <= i < |rows| ==> HasSummary(m, rows[i].state)
    ensures forall k :: 0 <= k < |m| ==> HasRowFrom(rows, m[k].state)
  {
    forall i | 0 <= i < |rows| ensures HasSummary(m, rows[i].state) {
      assert rows[i].state in states;
      var k :| 0 <= k < |states| && states[k] == rows[i].state;
      assert m[k].state == rows[i].state;
    }
    forall k | 0 <= k < |m| ensures HasRowFrom(rows, m[k].state) {
      assert states[k] in states;
    }
  }

  /** Each state of a kept row has a summary, and no other state has one. */
  lemma MapResultsCoverStates(parties: seq<PartyEntry>, candidates: seq<Candidate>)
    ensures forall i :: 0 <= i < |KeptRows(parties, candidates)| ==>
      HasSummary(MapResults(parties, candidates), KeptRows(parties, candidates)[i].state)
    ensures forall k :: 0 <= k < |MapResults(parties, candidates)| ==>
      HasRowFrom(KeptRows(parties, candidates), MapResults(parties, candidates)[k].state)
  {
    var rows := KeptRows(parties, candidates);
    StatesOfMembers(rows);
    MapResultsShape(parties, candidates);
    CoverByStates(rows, StatesOf(rows), MapResults(parties, candidates));
  }

  /** The number of one entry's records whose row is `row`. */
  function RecordsWithRow(votes: seq<VoteRecord>, party: Option<string>, row: Row): nat {
    if votes == [] then 0
    else (if RowOf(votes[0], party) == Some(row) then 1 else 0) + RecordsWithRow(votes[1..], party, row)
  }

  /** The number of the election's records, over all its entries, whose row
      is `row`: those from that state for a candidate of that party. */
  function ElectionRecordsWithRow(parties: seq<PartyEntry>, candidates: seq<Candidate>, row: Row): nat {
    if parties == [] then 0
    else RecordsWithRow(parties[0].votes, PartyOf(candidates, parties[0].candidate), row)
         + ElectionRecordsWithRow(parties[1..], candidates, row)
  }

  lemma {:induction false} CountRowsAppend(a: seq<Row>, b: seq<Row>, state: string, party: string)
    ensures CountRows(a + b, state, party) == CountRows(a, state, party) + CountRows(b, state, party)
  {
    if b == [] {
      assert a + b == a;
    } else {
      var bi := b[..|b| - 1];
      CountRowsAppend(a, bi, state, party);
      assert (a + b)[..|a + b| - 1] == a + bi;
      assert (a + b)[|a + b| - 1] == b[|b| - 1];
    }
  }

  lemma {:induction false} RowsOfVotesCount(votes: seq<VoteRecord>, party: Option<string>, state: string, p: string)
    ensures CountRows(RowsOfVotes(votes, party), state, p) == RecordsWithRow(votes, party, Row(state, p))
  {
    if votes != [] {
      RowsOfVotesCount(votes[1..], party, state, p);
      var head: seq<Row> := if RowOf(votes[0], party).Some? then [RowOf(votes[0], party).value] else [];
      CountRowsAppend(head, RowsOfVotes(votes[1..], party), state, p);
      if head != [] {
        assert head[..0] == [];
      }
    }
  }

  /** The first `$group`'s count of a (state, party) pair is the number of
      records from that state for a candidate of that party. */
  lemma {:induction false} KeptRowsCount(parties: seq<PartyEntry>, candidates: seq<Candidate>, state: string, p: string)
    ensures CountRows(KeptRows(parties, candidates), state, p) == ElectionRecordsWithRow(parties, candidates, Row(state, p))
  {
    if parties != [] {
      var party := PartyOf(candidates, parties[0].candidate);
      KeptRowsCount(parties[1..], candidates, state, p);
      RowsOfVotesCount(parties[0].votes, party, state, p);
      CountRowsAppend(RowsOfVotes(parties[0].votes, party), KeptRows(parties[1..], candidates), state, p);
    }
  }

  /** Each party's `votes` in a state's summary is the number of the
      election's records from that state for a candidate of that party. */
  lemma MapResultsCounts(parties: seq<PartyEntry>, candidates: seq<Candidate>, k: nat, j: nat)
    requires k < |MapResults(parties, candidates)| && j < |MapResults(parties, candidates)[k].results|
    ensures var s := MapResults(parties, candidates)[k];
      s.results[j].votes == ElectionRecordsWithRow(parties, candidates, Row(s.state, s.results[j].party))
  {
    var s := MapResults(parties, candidates)[k];
    KeptRowsCount(parties, candidates, s.state, s.results[j].party);
  }
}
