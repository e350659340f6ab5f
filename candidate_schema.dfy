/** The candidate document (backend/models/candidate.js): a required name
    and party, an age defaulting to 25, and an optional image URL with the
    public id the image host needs to delete it. The schema declares no
    vote fields: `votes` and `voteCount` are commented out. `image` is
    declared twice and the second declaration, without a default, is the
    one that holds, so an image is absent unless one is given. */
module CandidateSchema {
  import opened Common

  datatype Candidate = Candidate(id: CandidateId, name: string, party: string, age: int,
                                 image: Option<string>, imagePublicId: Option<string>)

  /** The fields handed to `new Candidate({...})`, each possibly absent. */
  datatype CandidateDraft = CandidateDraft(name: Option<string>, party: Option<string>, age: Option<int>,
                                           image: Option<string>, imagePublicId: Option<string>)

  const DefaultAge := 25

  /** What the schema demands of a stored candidate. */
  predicate ValidCandidate(c: Candidate) {
    c.name != "" && c.party != ""
  }

  /** Building and validating a candidate: name and party must be
      non-empty, the age defaults to 25, and the image fields stay absent
      unless given. */
  function CastCandidate(d: CandidateDraft, id: CandidateId): (r: Option<Candidate>)
    ensures r.Some? <==> Truthy(d.name) && Truthy(d.party)
    ensures r.Some? ==> ValidCandidate(r.value) && r.value.id == id
    ensures r.Some? ==> r.value.name == d.name.value && r.value.party == d.party.value
    ensures r.Some? ==> r.value.age == (if d.age.Some? then d.age.value else DefaultAge)
    ensures r.Some? ==> r.value.image == d.image && r.value.imagePublicId == d.imagePublicId
  {
    if Truthy(d.name) && Truthy(d.party) then
      Some(Candidate(id, d.name.value, d.party.value, if d.age.Some? then d.age.value else DefaultAge,
                     d.image, d.imagePublicId))
    else None
  }

  /** A draft without a name, or without a party, is never stored. */
  lemma NameAndPartyRequired(d: CandidateDraft, id: CandidateId)
    ensures !Truthy(d.name) || !Truthy(d.party) ==> CastCandidate(d, id).None?
  {
  }

  /** A candidate built from just a name and a party is 25 years old and
      has no image. */
  lemma CandidateDefaults(name: string, party: string, id: CandidateId)
    requires name != "" && party != ""
    ensures CastCandidate(CandidateDraft(Some(name), Some(party), None, None, None), id)
      == Some(Candidate(id, name, party, 25, None, None))
  {
  }
}
