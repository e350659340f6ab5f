# Voting backend — a verified model

This project models the core of an Express/MongoDB voting backend in Dafny. The backend's parts are:

- **User accounts:** signup with a single-administrator rule, login with an Aadhaar number and password, the profile lookup and the password change.
- **Authentication and CORS:** bearer-token authentication, and the server's allow-list of cross-origin callers.
- **Candidates:** the candidate collection, which an administrator manages.
- **Elections:** the election collection. Each election holds one entry per participating candidate, with that candidate's vote count and the embedded vote records.

The election routes do most of the work:

- casting a vote, behind the admin, profile, age, existing-vote and candidate guards
- adding and deleting elections
- the results of completed elections, with tie handling
- the administrator's voter audit
- the per-state map of results that the aggregation pipeline computes

Each collection is a sequence in insertion order, so "find one" means the first match.

**Specification functions and classes.** Each route is a pure specification function. It returns the new collection and the response, and the response's `Status()` gives the HTTP code.

The three collections are classes whose fields the routes update in place:

- `UserRoutes.UserRegistry`
- `ElectionRoutes.ElectionStore`
- `CandidateRoutes.CandidateRegistry` and `CandidateRoutes.TallyBoard`

Each of their methods is proved to follow its specification function and to keep the collection's invariant. The invariants are:

- user ids and Aadhaar numbers are unique, and there is at most one administrator
- election ids are unique
- every party entry's count equals its number of records, and every voter has at most one record per election
- candidate ids are unique, and every candidate has a non-empty name and party

The voter audit's walk over the records is a pair of nested loops, proved against a fold over the records.

**Symbolic parts.** Password hashing and token signing are symbolic. A digest records what was hashed and with which salt, and a token records its claims, its secret and its validity window. Everything the environment supplies is a parameter:

- the clock
- fresh identifiers
- salts
- the token secret
- the token parser
- image-host results

| module | file | source |
|---|---|---|
| `Common` | common.dfy | shared identifiers, `Option`, JavaScript truthiness |
| `JsString` | js_string.dfy | `trim`, `split`, `join`, `startsWith`, the trailing-slash `replace` |
| `Cors` | cors.dfy | backend/server.js |
| `Jwt` | jwt.dfy | backend/jwt.js |
| `UserSchema` | user_schema.dfy | backend/models/user.js |
| `UserRoutes` | user_routes.dfy | backend/routes/userRoutes.js |
| `ElectionSchema` | election_schema.dfy | backend/models/election.js |
| `ElectionRoutes` | election_routes.dfy | vote, add, delete and lookup in backend/routes/electionRoutes.js |
| `ElectionResults` | election_results.dfy | `GET /elections/results` |
| `ElectionAudit` | election_audit.dfy | `GET /elections/:electionId/audit` |
| `ElectionMap` | election_map.dfy | `GET /elections/:electionId/map-results` |
| `CandidateSchema` | candidate_schema.dfy | backend/models/candidate.js |
| `CandidateRoutes` | candidate_routes.dfy | backend/routes/candidateRoutes.js |

## Model

| member | source | states |
|---|---|---|
| JsString.TrimStartRemovesWhitespacePrefix | backend/server.js:29 | trimming the start removes exactly the longest whitespace prefix |
| JsString.TrimEndRemovesWhitespaceSuffix | backend/server.js:29 | trimming the end removes exactly the longest whitespace suffix |
| JsString.TrimIsTrimmed | backend/server.js:29 | a trimmed string neither starts nor ends with whitespace, and trimming it again changes nothing |
| JsString.Trim | backend/server.js:29 | `trim` keeps a contiguous middle part of the string and removes only whitespace before and after it |
| JsString.Split | backend/server.js:28 | `split` always yields at least one field |
| JsString.SplitFieldsFree | backend/server.js:28 | no field of a split contains the separator |
| JsString.JoinSplit | backend/server.js:25-28 | joining the fields of a split gives the original string back |
| JsString.SplitJoin | backend/server.js:25-28 | splitting a join of separator-free fields gives the fields back |
| JsString.Join | backend/server.js:25-26 | joined fields start with the first field, followed by the separator when more fields follow |
| JsString.SplitField | backend/jwt.js:12 | a separator-free first field followed by a separator is split off as the first field |
| JsString.StripTrailingSlash | backend/server.js:29 | removes exactly one trailing `/` when there is one, and otherwise leaves the string as it is |
| Cors.MapNormalise | backend/server.js:28-29 | each allow-list entry is the corresponding field, trimmed and stripped of a trailing slash |
| Cors.NormaliseOrigin | backend/server.js:29 | an entry is its field trimmed, less one final `/` when the trimmed field ends with one |
| Cors.AllowListOf | backend/server.js:25-29 | one entry per comma field of either variable, so at least two entries |
| Cors.SplitCommaJoined | backend/server.js:25-28 | splitting two texts joined by a comma gives the fields of the first, then those of the second |
| Cors.DecideOrigin | backend/server.js:32-39 | an origin is rejected exactly when it is present, non-empty and not an entry as sent |
| Cors.JoinAppend | backend/server.js:25-27 | joining two field lists puts exactly one comma between them |
| Cors.AllowListFromBothVariables | backend/server.js:25-29 | the allow-list is the front-end variable's comma fields followed by the back-end variable's, each normalised |
| Cors.TwoEntryAllowList | backend/server.js:25-29 | with comma-free variables the list has exactly two entries, one per variable |
| Cors.MapNormalisePair | backend/server.js:29 | normalising two fields gives the two normalised entries |
| Cors.SplitWithoutSeparator | backend/server.js:28 | a comma-free value is one field |
| Cors.UnsetVariableAllowsUndefined | backend/server.js:25-39 | an unset URL variable puts the entry "undefined" in the list, so the origin "undefined" is allowed |
| Cors.UndefinedEntry | backend/server.js:25-29 | the text "undefined" is a single field and is left unchanged by trimming and slash removal |
| Cors.ConfiguredOriginAllowed | backend/server.js:25-39 | the configured front-end origin, normalised, is allowed; a request without an origin is always allowed |
| Cors.IncomingOriginNotNormalised | backend/server.js:29-39 | incoming origins are compared as sent: the host passes, but the configured host with its trailing slash is rejected |
| Cors.SlashedHostNormalises | backend/server.js:29 | a configured host with one trailing slash becomes the bare host in the allow-list |
| Jwt.GenerateToken | backend/jwt.js:32-42 | refused exactly when the secret is missing or empty; otherwise the token carries exactly the given claims and is valid for 86400 seconds from now |
| Jwt.VerifyToken | backend/jwt.js:20 | a missing secret, another secret, or a time at or after the expiry never verifies; a verified token decodes to exactly its claims and times |
| Jwt.Authenticate | backend/jwt.js:3-30 | no request authenticates without a secret; an authenticated request had a "Bearer " header with a non-empty token that parsed and verified to exactly the request's user |
| Jwt.TakeUntil | backend/jwt.js:12 | the result is the prefix that runs up to the first separator |
| Jwt.FirstFieldIsPrefix | backend/jwt.js:12 | the first field of a split is the prefix up to the first separator |
| Jwt.TokenFollowsPrefix | backend/jwt.js:7-12 | under the "Bearer " prefix, the token is the text after it, up to the next space |
| Jwt.EmptyTokenNotFound | backend/jwt.js:12-16 | "Bearer " followed by nothing or by a space is answered "Token not found" |
| Jwt.MalformedHeaderRejected | backend/jwt.js:4-9 | a missing header, or one without the "Bearer " prefix, is answered "missing or malformed" |
| Jwt.IssuedTokenAuthenticates | backend/jwt.js:3-41 | an issued token authenticates as exactly its claims during its day of validity, and is rejected afterwards |
| Jwt.TakeUntilWhole | backend/jwt.js:12 | a space-free token is taken whole |
| UserSchema.ParseRole | backend/models/user.js:64-68 | the role is accepted exactly when it is "voter", "admin" or absent; absent means voter |
| UserSchema.ParseSex | backend/models/user.js:40-44 | the sex is accepted exactly when it is Male, Female or Other |
| UserSchema.ParseRelationType | backend/models/user.js:47-52 | the relation is accepted exactly when it is S/O, W/O or D/O |
| UserSchema.CastUser | backend/models/user.js:5-88 | a document is built exactly when every validator passes; it satisfies the schema, and defaults to not voted, not verified and the voter role |
| UserSchema.PreSave | backend/models/user.js:92-112 | the save hook changes only the password, and changes it exactly when the password was modified |
| UserSchema.Hash | backend/models/user.js:102-105 | the digest is of exactly the given secret |
| UserSchema.EncodeChar | backend/models/user.js:105 | a character's UTF-8 encoding is one to four bytes, as many as its lead byte announces |
| UserSchema.DecodeEncode | backend/models/user.js:105 | decoding a character's UTF-8 bytes gives the character back |
| UserSchema.EncodeCharInjective | backend/models/user.js:105 | two characters with the same encoding are the same character |
| UserSchema.Utf8Injective | backend/models/user.js:105-119 | two strings with the same UTF-8 bytes are the same string |
| UserSchema.Utf8Append | backend/models/user.js:105-119 | the encoding of a concatenation is the concatenation of the encodings |
| UserSchema.BcryptKey | backend/models/user.js:105-119 | the bytes bcrypt uses are a prefix of the UTF-8 encoding: all of it up to 72 bytes, otherwise its first 72 |
| UserSchema.ComparePassword | backend/models/user.js:114-126 | only a digest of a plain password can match, and its own text always does |
| UserSchema.HashedPasswordMatches | backend/models/user.js:92-126 | after a set password is saved, `comparePassword` accepts exactly the texts whose bcrypt bytes (first 72 UTF-8 bytes) are the password's; when both fit in 72 bytes, exactly that text |
| UserSchema.TruncatedPasswordMatches | backend/models/user.js:105-119 | a password of 72 bytes or more still matches with any text appended to it |
| UserSchema.UnmodifiedPasswordKept | backend/models/user.js:96-99 | a save that does not modify the password leaves the accepted password as it was |
| UserSchema.PincodeExamples | backend/models/user.js:36 | the pincode rule accepts six digits and rejects five, seven, or a letter |
| UserRoutes.IndexById | backend/routes/userRoutes.js:150 | finds the first user with the id, or reports that none has it |
| UserRoutes.IndexByAadhar | backend/routes/userRoutes.js:123 | finds the first user with the Aadhaar number, or reports that none has it |
| UserRoutes.SignupOn | backend/routes/userRoutes.js:12-66 | signup stores nothing or appends exactly one user, with a hashed password; a 201 answer carries the appended user |
| UserRoutes.LoginOn | backend/routes/userRoutes.js:120-142 | an unknown number gets 401; a login returns a stored user with that number whose password matches, with a token for its id and role |
| UserRoutes.ProfileOn | backend/routes/userRoutes.js:146-159 | the profile is found exactly when a user has the id, and it is a stored user with that id |
| UserRoutes.ChangePasswordOn | backend/routes/userRoutes.js:163-191 | the collection keeps its size; only a successful change alters it, and users with other ids are never touched |
| UserRoutes.SignupAdminGate | backend/routes/userRoutes.js:24-27 | an admin signup while an admin exists gets 400 and stores nothing; other signups are never refused for this reason |
| UserRoutes.SignupErrorMapping | backend/routes/userRoutes.js:12-66 | a validation error is 400 and other failures are 500; success is 201 with a token for exactly the saved user's id and role |
| UserRoutes.SignupPreservesInvariants | backend/routes/userRoutes.js:24-46 | signup keeps ids and Aadhaar numbers unique and keeps at most one administrator |
| UserRoutes.AppendUserKeepsInvariants | backend/routes/userRoutes.js:24-46 | saving under an unused id and number, and as admin only when none exists, keeps both uniqueness rules and the single admin |
| UserRoutes.LoginFailureCollapse | backend/routes/userRoutes.js:120-142 | 401 exactly when the number is unknown or the password does not match; a login token carries the user's id and role |
| UserRoutes.SignupThenLogin | backend/routes/userRoutes.js:12-142 | after a signup, logging in with the same number and password yields the same user and claims |
| UserRoutes.ChangePasswordEffect | backend/routes/userRoutes.js:163-192 | 404 exactly for an unknown id; an absent current password answers 500; 401 exactly for a wrong one; only a successful change alters the collection, only that user's password, and afterwards a text matches exactly when its bcrypt bytes are the new password's |
| UserRoutes.UserRegistry.Signup | backend/routes/userRoutes.js:12-66 | the collection and response follow `SignupOn`, and the registry invariant holds |
| UserRoutes.UserRegistry.Login | backend/routes/userRoutes.js:120-142 | follows `LoginOn`: 401 exactly for an unknown number or a wrong password; the token is the user's payload |
| UserRoutes.UserRegistry.GetProfile | backend/routes/userRoutes.js:146-159 | the profile is found exactly when a user has the id, and it is that user |
| UserRoutes.UserRegistry.ChangePassword | backend/routes/userRoutes.js:163-192 | the collection and response follow `ChangePasswordOn`, and the registry invariant holds |
| ElectionSchema.OrDefault | backend/models/election.js:6-14 | a given value is kept; an absent one takes the schema default |
| ElectionSchema.CastVoteRecord | backend/models/election.js:12-16 | a record requires its user and a non-empty state; `votedAt` defaults to now |
| ElectionSchema.CastVoteRecords | backend/models/election.js:11-17 | a record list casts exactly when every record does, and is then the records, one for one |
| ElectionSchema.CastParty | backend/models/election.js:8-18 | an entry requires its candidate and valid records; `voteCount` defaults to 0 |
| ElectionSchema.CastParties | backend/models/election.js:7-19 | the entry list casts exactly when every entry does, one for one |
| ElectionSchema.CastElection | backend/models/election.js:3-20 | an election requires a non-empty title, a date and valid entries; `createdAt` defaults to now |
| ElectionSchema.TitleAndDateRequired | backend/models/election.js:4-5 | a draft without a title or a date is never stored |
| ElectionSchema.FreshPartiesTallied | backend/models/election.js:7-19 | entries built from candidate ids alone cast to zero-count entries with no records |
| ElectionRoutes.ElectionIndex | backend/routes/electionRoutes.js:129 | finds the first election with the id, or reports that none has it |
| ElectionRoutes.FirstPartyIndex | backend/routes/electionRoutes.js:143-147 | the positional `$` finds the first entry naming the candidate, or none |
| ElectionRoutes.AdminCheck | backend/routes/electionRoutes.js:9-15 | only a token with a role passes; for a token issued to a user, it passes exactly when that user is the admin |
| ElectionRoutes.Age | backend/routes/electionRoutes.js:114-122 | the age is the difference of the years, or one less |
| ElectionRoutes.MayVote | backend/routes/electionRoutes.js:101-126 | a caller who passes is not the admin and is a stored user with a complete profile, aged 18 or more |
| ElectionRoutes.RecordVote | backend/routes/electionRoutes.js:143-149 | the matched entry gains exactly one vote and the new record; nothing else changes |
| ElectionRoutes.CastVoteOn | backend/routes/electionRoutes.js:92-159 | every refusal leaves the collection unchanged, and its size never changes |
| ElectionRoutes.AgeThreshold | backend/routes/electionRoutes.js:114-126 | the age is at least n exactly when the n-th birthday has been reached |
| ElectionRoutes.EighteenthBirthday | backend/routes/electionRoutes.js:116-126 | on the 18th birthday the age is 18; the day before, it is 17 |
| ElectionRoutes.AdminCannotVote | backend/routes/electionRoutes.js:101-104 | an admin's vote gets 403 and changes nothing |
| ElectionRoutes.VoteCountedExactly | backend/routes/electionRoutes.js:92-159 | a vote counts exactly when the caller is a non-admin with a complete profile and age at least 18, the election exists, the caller has no record in it, and the candidate is in it |
| ElectionRoutes.RepeatVoteRejected | backend/routes/electionRoutes.js:134-140 | a caller with a record anywhere in the election gets 400 and changes nothing |
| ElectionRoutes.UnknownCandidateRejected | backend/routes/electionRoutes.js:143-153 | a candidate not in the election gets 404 and changes nothing |
| ElectionRoutes.VoteCountedEffect | backend/routes/electionRoutes.js:143-155 | a counted vote changes exactly one entry of one election: one more vote and the caller's record with their state |
| ElectionRoutes.RecordVoteKeeps | backend/routes/electionRoutes.js:143-149 | recording a first vote keeps counts equal to records and one record per voter |
| ElectionRoutes.VoteKeepsInvariant | backend/routes/electionRoutes.js:92-159 | the vote route keeps the store invariant |
| ElectionRoutes.SecondVoteRejected | backend/routes/electionRoutes.js:134-140 | after a counted vote, the same caller's next vote in that election is rejected with 400 |
| ElectionRoutes.ElectionIndexSameIds | backend/routes/electionRoutes.js:129 | the lookup depends only on the ids |
| ElectionRoutes.InitialParties | backend/routes/electionRoutes.js:28 | each candidate id becomes an entry with count 0 and no records |
| ElectionRoutes.AddElectionOn | backend/routes/electionRoutes.js:22-35 | anything but a creation leaves the collection unchanged |
| ElectionRoutes.AddElectionEffect | backend/routes/electionRoutes.js:22-35 | 403 for non-admins and 400 for an empty candidate list; a created election has the title, the date, zero-count entries in the given order, and is appended |
| ElectionRoutes.InitialPartiesCast | backend/routes/electionRoutes.js:28-29 | every requested candidate id becomes an entry with zero votes and no records, in the given order |
| ElectionRoutes.AppendKeepsInvariant | backend/routes/electionRoutes.js:29-31 | appending a well-kept election under an unused id keeps ids unique and every election well kept |
| ElectionRoutes.DeleteElectionEffect | backend/routes/electionRoutes.js:55-65 | deleted exactly when an admin names a stored id; then no election with the id remains and every other is kept, and anything else changes nothing |
| ElectionRoutes.DeleteElectionOn | backend/routes/electionRoutes.js:55-65 | only a deletion changes the collection; it removes exactly one election and adds none |
| ElectionRoutes.RemoveAtKeepsInvariant | backend/routes/electionRoutes.js:57-61 | removing one election keeps the store invariant and, with unique ids, leaves none with its id |
| ElectionRoutes.RemoveAtKeepsOthers | backend/routes/electionRoutes.js:57-61 | every election with another id survives the removal |
| ElectionRoutes.ElectionStore.Find | backend/routes/electionRoutes.js:285-300 | an election is found exactly when one has the id, and it is that election |
| ElectionRoutes.ElectionStore.CastVote | backend/routes/electionRoutes.js:92-159 | the collection and response follow `CastVoteOn`, and the store invariant holds |
| ElectionRoutes.ElectionStore.AddElection | backend/routes/electionRoutes.js:22-35 | the collection and response follow `AddElectionOn`, and the store invariant holds |
| ElectionRoutes.ElectionStore.DeleteElection | backend/routes/electionRoutes.js:55-65 | the collection and response follow `DeleteElectionOn`, and the store invariant holds |
| ElectionResults.Standings | backend/routes/electionRoutes.js:219-223 | one row per entry, with its candidate and count, in stored order |
| ElectionResults.MaxCount | backend/routes/electionRoutes.js:203-208 | the highest count: no row exceeds it, and some row holds it |
| ElectionResults.InsertByVotes | backend/routes/electionRoutes.js:203 | inserting adds exactly one row |
| ElectionResults.SortByVotes | backend/routes/electionRoutes.js:203 | the sort keeps the length |
| ElectionResults.InsertKeepsOrder | backend/routes/electionRoutes.js:203 | insertion keeps a non-increasing order |
| ElectionResults.InsertMembers | backend/routes/electionRoutes.js:203 | insertion adds exactly the inserted row |
| ElectionResults.InsertWithCount | backend/routes/electionRoutes.js:203 | insertion puts the row before its equals |
| ElectionResults.WithCountAppend | backend/routes/electionRoutes.js:217 | filtering by a count distributes over concatenation |
| ElectionResults.InsertSum | backend/routes/electionRoutes.js:203-205 | insertion adds the row's count to the sum |
| ElectionResults.SortByVotesCorrect | backend/routes/electionRoutes.js:203 | the sorted rows are non-increasing, a permutation of the input, and have the same sum |
| ElectionResults.SortByVotesStable | backend/routes/electionRoutes.js:203 | the sort is stable: rows with equal counts keep their order |
| ElectionResults.NoneWithCount | backend/routes/electionRoutes.js:217 | rows all below a count contain none with that count |
| ElectionResults.StandingsSum | backend/routes/electionRoutes.js:205 | the standings sum to the election's total |
| ElectionResults.DeclareResult | backend/routes/electionRoutes.js:198-224 | the result carries the election's id and title; "no candidates" exactly for an election with no entries; otherwise the election's total and one participant per entry |
| ElectionResults.DeclareResultCorrect | backend/routes/electionRoutes.js:198-224 | participants are the standings in non-increasing order and sum to the total; it is a tie exactly when two or more hold the maximum, and the tie winners are exactly those; otherwise the winner is the unique maximum |
| ElectionResults.SortedHeadIsMax | backend/routes/electionRoutes.js:203-204 | sorting keeps the length and puts a row with the maximum count first |
| ElectionResults.TopRows | backend/routes/electionRoutes.js:208-217 | in counts sorted downward, two or more rows hold the top count exactly when the second does; otherwise only the first does |
| ElectionResults.Completed | backend/routes/electionRoutes.js:191 | exactly the elections dated before now |
| ElectionResults.ResultsOn | backend/routes/electionRoutes.js:188-231 | one result per completed election, in stored order |
| ElectionResults.ResultsCoverCompletedOnly | backend/routes/electionRoutes.js:191-201 | "no candidates" exactly for an election with no entries; no election dated now or later is reported |
| ElectionAudit.VoteUsers | backend/routes/electionRoutes.js:255-256 | the records' users, in order |
| ElectionAudit.FirstIndex | backend/routes/electionRoutes.js:256 | the position of the first occurrence of an id |
| ElectionAudit.AuditIds | backend/routes/electionRoutes.js:252-260 | at most one voter per record, and every voter is the user of some record |
| ElectionAudit.AuditIdsMembers | backend/routes/electionRoutes.js:252-262 | the voters are distinct, and are exactly the registered users that have a record |
| ElectionAudit.AuditIdsFirstOccurrenceOrder | backend/routes/electionRoutes.js:252-262 | voters are listed in the order of their first record |
| ElectionAudit.FirstOccurrenceAppend | backend/routes/electionRoutes.js:255-259 | a voter first seen at the newly visited record is listed after every earlier voter |
| ElectionAudit.FirstIndexExtend | backend/routes/electionRoutes.js:256 | appending does not move an existing first occurrence |
| ElectionAudit.FirstIndexLast | backend/routes/electionRoutes.js:256 | a new id first occurs where it is appended |
| ElectionAudit.AuditIdsKeepsDistinctRecords | backend/routes/electionRoutes.js:252-262 | when every record is by a different registered user, every record yields its voter, in order |
| ElectionAudit.Doc | backend/routes/electionRoutes.js:245 | a registered id's populated document has that id |
| ElectionAudit.Docs | backend/routes/electionRoutes.js:245-262 | one populated document per voter id, in order |
| ElectionAudit.AuditIdsSnoc | backend/routes/electionRoutes.js:256-258 | visiting one more record is one insertion step |
| ElectionAudit.DocsSnoc | backend/routes/electionRoutes.js:257 | one more voter adds one document |
| ElectionAudit.AllVoteUsersSnoc | backend/routes/electionRoutes.js:254 | one more entry adds its records' users |
| ElectionAudit.VoteUsersSnoc | backend/routes/electionRoutes.js:255 | one more record adds its user |
| ElectionAudit.VisitRecords | backend/routes/electionRoutes.js:255-259 | the inner loop over one entry's records advances the walk by exactly those records |
| ElectionAudit.CollectVoters | backend/routes/electionRoutes.js:252-262 | the nested loops yield exactly the documents of the registered voters, first records first |
| ElectionAudit.AuditIdsRegistered | backend/routes/electionRoutes.js:256 | every listed voter has a document |
| ElectionAudit.AuditOn | backend/routes/electionRoutes.js:238-282 | non-admins get 403; a report is for the requested election, its `totalVotes` is its number of voters, and every voter is registered |
| ElectionAudit.Audit | backend/routes/electionRoutes.js:238-282 | follows `AuditOn`; `totalVotes` is the number of voters, who are distinct |
| CandidateSchema.CastCandidate | backend/models/candidate.js:5-42 | a candidate is built exactly when name and party are non-empty; the age defaults to 25; the image fields are absent unless given |
| CandidateSchema.NameAndPartyRequired | backend/models/candidate.js:6-13 | a draft without a name or a party is never stored |
| CandidateSchema.CandidateDefaults | backend/models/candidate.js:14-41 | a name and a party alone give age 25 and no image |
| CandidateRoutes.FindUser | backend/routes/candidateRoutes.js:19 | the user is found exactly when someone has the id |
| CandidateRoutes.CheckAdminRole | backend/routes/candidateRoutes.js:17-26 | only a found user can pass, and a found user passes exactly when an administrator |
| CandidateRoutes.CheckAdminRoleExact | backend/routes/candidateRoutes.js:17-26 | the gate passes exactly for a found administrator; with unique ids, exactly when the caller is an administrator |
| CandidateRoutes.CandidateIndex | backend/routes/candidateRoutes.js:81 | finds the first candidate with the id, or reports that none has it |
| CandidateRoutes.CreateCandidateOn | backend/routes/candidateRoutes.js:30-65 | anything but a creation leaves the collection unchanged |
| CandidateRoutes.CreateCandidateEffect | backend/routes/candidateRoutes.js:30-65 | 403 and 400 come before any upload; a created candidate has the name, the party, age 25 and the upload's URL and id, and is appended |
| CandidateRoutes.ApplyPatch | backend/routes/candidateRoutes.js:78-105 | each given field replaces the stored one; the others and the id are kept |
| CandidateRoutes.UpdateCandidateOn | backend/routes/candidateRoutes.js:70-112 | a failed update leaves the collection unchanged, and its size never changes |
| CandidateRoutes.UpdateCandidateGuards | backend/routes/candidateRoutes.js:70-99 | 403 and 404 touch nothing; with a file, the old image is destroyed and the new one uploaded even when validation then fails |
| CandidateRoutes.UpdateCandidateEffect | backend/routes/candidateRoutes.js:101-107 | a successful update changes exactly the candidate with the id, to the patched record |
| CandidateRoutes.ReplaceKeepsInvariant | backend/routes/candidateRoutes.js:101-107 | replacing a candidate by a valid one with the same id keeps ids unique and every candidate valid |
| CandidateRoutes.DeleteCandidateEffect | backend/routes/candidateRoutes.js:116-136 | 403 for non-admins, then 404 for an unknown id; otherwise the candidate is removed and the rest kept |
| CandidateRoutes.DeleteCandidateOn | backend/routes/candidateRoutes.js:116-136 | only a deletion changes the collection; it removes exactly one candidate and adds none |
| CandidateRoutes.RemoveCandidateKeepsInvariant | backend/routes/candidateRoutes.js:126-131 | removing one candidate keeps the invariant and, with unique ids, leaves none with its id |
| CandidateRoutes.RemoveCandidateKeepsOthers | backend/routes/candidateRoutes.js:126-131 | every candidate with another id survives the removal |
| CandidateRoutes.LegacyGuard | backend/routes/candidateRoutes.js:145-161 | a guard refusal is never a success and never the 500 |
| CandidateRoutes.LegacyVoteOn | backend/routes/candidateRoutes.js:140-179 | as written, never a success; "candidate not found" exactly when no candidate has the id |
| CandidateRoutes.LegacyVoteNeverCounts | backend/routes/candidateRoutes.js:140-179 | as written, a vote that passes every guard fails with 500, and no vote ever succeeds |
| CandidateRoutes.LegacyGuardOrder | backend/routes/candidateRoutes.js:156-161 | an administrator who has already voted is told "already voted" |
| CandidateRoutes.TallyIndex | backend/routes/candidateRoutes.js:145 | finds a tally for the candidate id, or reports that none has it |
| CandidateRoutes.IntendedLegacyVoteOn | backend/routes/candidateRoutes.js:140-179 | a refusal changes nothing, and no collection changes size |
| CandidateRoutes.IntendedLegacyVoteEffect | backend/routes/candidateRoutes.js:163-171 | a counted vote adds the voter and one vote to exactly one tally and marks exactly the voter as having voted; counts stay equal to voters |
| CandidateRoutes.MarkVotedKeepsInvariants | backend/routes/candidateRoutes.js:169-171 | setting one user's voted flag keeps unique ids, unique numbers and the single admin |
| CandidateRoutes.IntendedLegacyVoteOnce | backend/routes/candidateRoutes.js:156-171 | after a counted vote, the voter's next vote for any candidate is "already voted" and changes nothing |
| CandidateRoutes.IndexByIdSameIds | backend/routes/candidateRoutes.js:152 | the user lookup depends only on the ids |
| CandidateRoutes.TallyIndexSameIds | backend/routes/candidateRoutes.js:145 | the candidate lookup depends only on the ids |
| CandidateRoutes.VoteCountRows | backend/routes/candidateRoutes.js:183-198 | as written, one row per candidate in stored order, each without a count |
| CandidateRoutes.VoteCountHasNoCounts | backend/routes/candidateRoutes.js:183-198 | as written, no row of the listing carries a count |
| CandidateRoutes.TalliedVoteCountOrdered | backend/routes/candidateRoutes.js:183-198 | as intended, one row per candidate with its count, in non-increasing order |
| CandidateRoutes.TalliedVoteCount | backend/routes/candidateRoutes.js:183-198 | as intended, one row per tally, in non-increasing order of count |
| CandidateRoutes.CandidateRegistry.Create | backend/routes/candidateRoutes.js:30-65 | the collection, image events and response follow `CreateCandidateOn`; the invariant holds |
| CandidateRoutes.CandidateRegistry.Update | backend/routes/candidateRoutes.js:70-112 | the collection, image events and response follow `UpdateCandidateOn`; the invariant holds |
| CandidateRoutes.CandidateRegistry.Delete | backend/routes/candidateRoutes.js:116-136 | follows `DeleteCandidateOn`; there are no image events |
| CandidateRoutes.CandidateRegistry.LegacyVote | backend/routes/candidateRoutes.js:140-179 | as written: follows `LegacyVoteOn` and never succeeds |
| CandidateRoutes.CandidateRegistry.VoteCount | backend/routes/candidateRoutes.js:183-203 | as written: one row per candidate, in order, each without a count |
| CandidateRoutes.TallyBoard.Vote | backend/routes/candidateRoutes.js:140-179 | the tallies, users and response follow `IntendedLegacyVoteOn`; both invariants hold |
| CandidateRoutes.TallyBoard.VoteCount | backend/routes/candidateRoutes.js:183-203 | the intended listing, in non-increasing order of count |
| ElectionMap.RowOf | backend/routes/electionRoutes.js:318-325 | a record yields a row exactly when its state and party are known and not "Unknown" |
| ElectionMap.KeptRows | backend/routes/electionRoutes.js:310-325 | at most one kept row per vote record |
| ElectionMap.KeptRowsKnown | backend/routes/electionRoutes.js:325 | no kept row names "Unknown" |
| ElectionMap.RowsOfVotesKnown | backend/routes/electionRoutes.js:325 | no row of an entry names "Unknown" |
| ElectionMap.StatesOfMembers | backend/routes/electionRoutes.js:326-332 | the states listed are exactly the states of the kept rows |
| ElectionMap.UnknownExcluded | backend/routes/electionRoutes.js:324-325 | no summary names the "Unknown" state or party |
| ElectionMap.CountRowsWitness | backend/routes/electionRoutes.js:314-323 | a positive count has a row behind it |
| ElectionMap.KeptRowsExactly | backend/routes/electionRoutes.js:308-325 | the kept rows are exactly the rows of the records with a known state and party |
| ElectionMap.RowsOfVotesExactly | backend/routes/electionRoutes.js:311-325 | an entry's rows are exactly those of its records that yield one |
| ElectionMap.PartiesInDistinct | backend/routes/electionRoutes.js:326-329 | a state lists each party once, exactly the parties with a positive count |
| ElectionMap.SumCountsSnoc | backend/routes/electionRoutes.js:321 | a row of the state raises only its party's count |
| ElectionMap.SumCountsOther | backend/routes/electionRoutes.js:321 | a row of another state changes no count |
| ElectionMap.SumCountsAppend | backend/routes/electionRoutes.js:330 | summing over one more party adds its count |
| ElectionMap.PartyCountsPartitionState | backend/routes/electionRoutes.js:326-330 | a state's party counts add up to its number of rows |
| ElectionMap.SumVotesOfCounts | backend/routes/electionRoutes.js:330 | the `results` votes sum to the party counts |
| ElectionMap.StateTotalIsSum | backend/routes/electionRoutes.js:329-330 | a state's total is the sum of its party counts and its number of rows |
| ElectionMap.ReduceWinnerSpec | backend/routes/electionRoutes.js:334-341 | the reduction yields the first entry that beats everything before it, or its starting value |
| ElectionMap.ReduceWinner | backend/routes/electionRoutes.js:334-341 | the reduction yields its starting value or one of the entries, with at least the starting value's votes |
| ElectionMap.WinnerIsFirstMaximum | backend/routes/electionRoutes.js:333-350 | the winning party is the earliest entry holding the greatest count |
| ElectionMap.SummaryCorrect | backend/routes/electionRoutes.js:308-353 | every summary: a known state, the total equals its rows and its party sum, and the winner is the first maximum |
| ElectionMap.SummaryHasWinner | backend/routes/electionRoutes.js:326-351 | a state with a record lists at least one party, and its winner is the first party with the greatest count |
| ElectionMap.CountRowsPositive | backend/routes/electionRoutes.js:321 | every kept row's state and party have a positive count |
| ElectionMap.Summary | backend/routes/electionRoutes.js:326-351 | a state's summary lists each of its parties with that party's count, and its winner is one of them, or "N/A" when there is none |
| ElectionMap.MapResults | backend/routes/electionRoutes.js:308-353 | one summary per listed state, each the summary of its own state |
| ElectionMap.StatesOfDistinct | backend/routes/electionRoutes.js:327-328 | the listed states have no repeats |
| ElectionMap.MapResultsStatesDistinct | backend/routes/electionRoutes.js:326-331 | no two summaries are for the same state |
| ElectionMap.MapResultsCoverStates | backend/routes/electionRoutes.js:325-331 | every state of a kept row has a summary, and every summary's state has a kept row |
| ElectionMap.CountRowsAppend | backend/routes/electionRoutes.js:321 | counting over two row lists adds their counts |
| ElectionMap.RowsOfVotesCount | backend/routes/electionRoutes.js:311-325 | an entry's count for a state and party is its number of records from that state when its candidate has that party |
| ElectionMap.KeptRowsCount | backend/routes/electionRoutes.js:310-325 | the first `$group`'s count for a state and party is the number of the election's records from that state for a candidate of that party |
| ElectionMap.MapResultsCounts | backend/routes/electionRoutes.js:315-331 | each party's votes in a state's summary is the number of the election's records from that state for a candidate of that party |

## Left out

- **Symbolic hashing and signing:** bcrypt hashing, salt generation and JWT signing are symbolic. A digest records the secret and its salt, and a comparison looks at the first 72 bytes of the UTF-8 encodings, as bcrypt does. Their cryptographic strength is not modelled. `jwt.verify` checks only the secret and the expiry.
- **Token parsing:** parsing a token's compact text form is the parameter `parse`.
- **Runtime and I/O:** the clock, the database's fresh ids, environment variables, logging and the start-up token log are parameters or are left out.
- **The HTTP machinery:** Express routing, body parsing and the `listen` call are left out.
- **The image host and the file system:** calls to the image host are an event log. The local file removal after an upload is not modelled, and neither are failed image destroys.
- **Concurrency:** concurrent requests, and the atomicity of the single `updateOne`, are not modelled. Each route runs alone on the collection.
- **`nModified` in the vote route:** `updateOne`'s report at backend/routes/electionRoutes.js:151 is modelled as intended: "no entry names the candidate" gives 404. Whether the driver fills in `nModified` depends on its version, and that version is not part of this model.
- **Unparsable identifiers:** a malformed ObjectId makes the database throw, which answers 500. The model treats every id as a plain string, so a malformed id is an unknown one.
- **Listings and single-election reads:** the listing `GET /elections` (sorted by date), `GET /elections/current` (today's election) and the candidate listing `GET /candidates` only read and render. `GET /elections/:electionId` is modelled by `ElectionStore.Find`.
- **Rendering of referenced candidates:** the candidate's name, party and image are filled in on output. In the results and audit routes, an entry whose candidate was deleted makes the rendering throw (500). Results and audit report candidates by id.
- **`PATCH /elections/:electionId`:** it applies an arbitrary `$set` from the request body. It could overwrite counts and records, so it would break the tally invariant the model keeps.
- **A non-array candidate list in `/add`:** the request is modelled as a sequence of ids or as absent.
- **Order left to the database:** the order of the map route's `$group` output is modelled as order of first appearance. Ties under the database's sorts keep stored order.
- **Login with missing fields:** a login body without the number or the password is modelled as a lookup of the given strings.
- **Deleting a candidate:** deletion does not remove the candidate's entries from elections. The model keeps those entries, as the route does.
- **ElectionRoutes.CastVoteOn:** the age check uses calendar dates in local time. Time zones and `Date` parsing are not modelled.
- **UserRoutes.SignupOn:** a duplicate Aadhaar number is the unique index's error, which answers 500. The database's other write errors are not modelled.

## Findings

| source | as written | input that shows it | evidently intended | confidence | as-written member | corrected member |
|---|---|---|---|---|---|---|
| backend/routes/candidateRoutes.js:164-165 | the legacy vote pushes to `candidate.votes` and increments `candidate.voteCount`, but the candidate schema (backend/models/candidate.js:22-39) has those fields commented out, so the push throws and the route answers 500 | one stored candidate and a registered voter who has not voted, voting for it | the voter is added to the candidate's votes, the count rises by one, and the voter is marked as having voted | not executed | CandidateRoutes.LegacyVoteNeverCounts | CandidateRoutes.IntendedLegacyVoteOnce |
| backend/routes/candidateRoutes.js:186-195 | the count listing sorts by and reports `voteCount`, a field no candidate has, so every row's count is missing and the order is the stored order | any non-empty candidate collection | each candidate's count, in non-increasing order of count | not executed | CandidateRoutes.VoteCountHasNoCounts | CandidateRoutes.TalliedVoteCountOrdered |
