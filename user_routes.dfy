/** The user routes (backend/routes/userRoutes.js) over the user collection:
    signup with its single-admin check, login, profile lookup and password
    change. The collection is a sequence in insertion order, so "find one"
    means the first match. Each route is a specification function over the
    collection; the class `UserRegistry` holds the collection and its
    methods are proved to follow those functions. */
module UserRoutes {
  import opened Common
  import opened UserSchema
  import opened Jwt

  /** `User.findById`: the first user with this id. */
  function IndexById(users: seq<User>, id: UserId): (r: Option<nat>)
    ensures r.Some? ==> r.value < |users| && users[r.value].id == id
    ensures r.Some? ==> forall j :: 0 <= j < r.value ==> users[j].id != id
    ensures r.None? ==> forall j :: 0 <= j < |users| ==> users[j].id != id
  {
    if users == [] then None
    else if users[0].id == id then Some(0)
    else match IndexById(users[1..], id)
      case None => None
      case Some(k) => Some(k + 1)
  }

  /** `User.findOne({ addharCardNumber })`: the first user with this number. */
  function IndexByAadhar(users: seq<User>, aadhar: string): (r: Option<nat>)
    ensures r.Some? ==> r.value < |users| && users[r.value].addharCardNumber == aadhar
    ensures r.Some? ==> forall j :: 0 <= j < r.value ==> users[j].addharCardNumber != aadhar
    ensures r.None? ==> forall j :: 0 <= j < |users| ==> users[j].addharCardNumber != aadhar
  {
    if users == [] then None
    else if users[0].addharCardNumber == aadhar then Some(0)
    else match IndexByAadhar(users[1..], aadhar)
      case None => None
      case Some(k) => Some(k + 1)
  }

  /** `User.findOne({ role: 'admin' })` found someone. */
  predicate AdminExists(users: seq<User>) {
    exists i :: 0 <= i < |users| && users[i].role == Admin
  }

  /** The unique index on `_id`. */
  predicate UniqueIds(users: seq<User>) {
    forall i, j :: 0 <= i < j < |users| ==> users[i].id != users[j].id
  }

  /** The unique index on `addharCardNumber`. */
  predicate UniqueAadhar(users: seq<User>) {
    forall i, j :: 0 <= i < j < |users| ==> users[i].addharCardNumber != users[j].addharCardNumber
  }

  /** The rule the signup route enforces: at most one administrator. */
  predicate AtMostOneAdmin(users: seq<User>) {
    forall i, j :: 0 <= i < |users| && 0 <= j < |users| && users[i].role == Admin && users[j].role == Admin ==> i == j
  }

  /** The token payload of a saved user: exactly its id and role. */
  function PayloadOf(u: User): Claims {
    Claims(u.id, Some(RoleName(u.role)))
  }

  datatype SignupResponse =
    | AdminAlreadyExists
    | ValidationFailed
    | SignupFailed
    | Created(user: User, token: Token)
  {
    function Status(): int {
      match this
      case AdminAlreadyExists => 400
      case ValidationFailed => 400
      case SignupFailed => 500
      case Created(_, _) => 201
    }
  }

  /** POST /signup. In order: an admin signup while an admin exists is
      refused; a body the schema rejects is a validation error; a number
      already registered breaks the unique index, which is not a validation
      error and so answers 500; otherwise the user is saved with the password
      hashed. Issuing the token comes after the save, so a missing token
      secret answers 500 with the user already stored. */
  function SignupOn(users: seq<User>, input: UserInput, newId: UserId, salt: nat,
                    secret: Option<string>, now: int): (r: (seq<User>, SignupResponse))
    ensures r.0 == users || (|r.0| == |users| + 1 && r.0[..|users|] == users && r.0[|users|].password.Digest?)
    ensures r.1.Created? ==> r.0 == users + [r.1.user]
  {
    if input.role == Some("admin") && AdminExists(users) then (users, AdminAlreadyExists)
    else
      match CastUser(input, newId)
      case None => (users, ValidationFailed)
      case Some(doc) =>
        if IndexByAadhar(users, doc.addharCardNumber).Some? then (users, SignupFailed)
        else
          var saved := PreSave(doc, true, salt);
          match GenerateToken(PayloadOf(saved), secret, now)
          case SecretMissing => (users + [saved], SignupFailed)
          case Issued(t) => (users + [saved], Created(saved, t))
  }

  datatype LoginResponse = InvalidCredentials | LoginFailed | LoggedIn(token: Token, user: User)
  {
    function Status(): int {
      match this
      case InvalidCredentials => 401
      case LoginFailed => 500
      case LoggedIn(_, _) => 200
    }
  }

  /** POST /login: an unknown number and a wrong password get the same
      answer; on success the token carries the user's id and role and the
      user record is returned with it. */
  function LoginOn(users: seq<User>, aadhar: string, password: string,
                   secret: Option<string>, now: int): (r: LoginResponse)
    ensures IndexByAadhar(users, aadhar).None? ==> r == InvalidCredentials
    ensures r.LoggedIn? ==> r.user in users && r.user.addharCardNumber == aadhar && ComparePassword(password, r.user.password)
    ensures r.LoggedIn? ==> r.token.claims == PayloadOf(r.user)
  {
    match IndexByAadhar(users, aadhar)
    case None => InvalidCredentials
    case Some(i) =>
      if !ComparePassword(password, users[i].password) then InvalidCredentials
      else
        match GenerateToken(PayloadOf(users[i]), secret, now)
        case SecretMissing => LoginFailed
        case Issued(t) => LoggedIn(t, users[i])
  }

  datatype ProfileResponse = ProfileNotFound | ProfileFound(user: User)

  /** GET /profile for the authenticated id. */
  function ProfileOn(users: seq<User>, userId: UserId): (r: ProfileResponse)
    ensures r.ProfileFound? <==> exists k :: 0 <= k < |users| && users[k].id == userId
    ensures r.ProfileFound? ==> r.user in users && r.user.id == userId
  {
    match IndexById(users, userId)
    case None => ProfileNotFound
    case Some(i) => ProfileFound(users[i])
  }

  datatype PasswordResponse = PasswordUserNotFound | WrongPassword | PasswordUpdateFailed | PasswordUpdated
  {
    function Status(): int {
      match this
      case PasswordUserNotFound => 404
      case WrongPassword => 401
      case PasswordUpdateFailed => 500
      case PasswordUpdated => 200
    }
  }

  /** PUT /profile/password: a missing user is 404; an absent current
      password makes `bcrypt.compare` throw, which answers 500; a wrong one
      is 401 and changes nothing; otherwise the new plain password is set
      and the document saved, which validates it (an absent or empty
      password, or a stored document the schema no longer accepts, fails
      with 500) and hashes the new password. */
  function ChangePasswordOn(users: seq<User>, userId: UserId, currentPassword: Option<string>,
                            newPassword: Option<string>, salt: nat): (r: (seq<User>, PasswordResponse))
    ensures |r.0| == |users|
    ensures r.1 != PasswordUpdated ==> r.0 == users
    ensures forall k :: 0 <= k < |users| && users[k].id != userId ==> r.0[k] == users[k]
  {
    match IndexById(users, userId)
    case None => (users, PasswordUserNotFound)
    case Some(i) =>
      if currentPassword.None? then (users, PasswordUpdateFailed)
      else if !ComparePassword(currentPassword.value, users[i].password) then (users, WrongPassword)
      else if newPassword.None? then (users, PasswordUpdateFailed)
      else
        var edited := users[i].(password := Plain(newPassword.value));
        if !ValidUser(edited) then (users, PasswordUpdateFailed)
        else (users[i := PreSave(edited, true, salt)], PasswordUpdated)
  }

  /** An admin signup while an admin exists is answered 400 and stores
      nothing; a signup that does not ask for the admin role is never
      refused for that reason. */
  lemma SignupAdminGate(users: seq<User>, input: UserInput, newId: UserId, salt: nat, secret: Option<string>, now: int)
    ensures input.role == Some("admin") && AdminExists(users) ==>
      SignupOn(users, input, newId, salt, secret, now) == (users, AdminAlreadyExists)
    ensures input.role != Some("admin") ==> SignupOn(users, input, newId, salt, secret, now).1 != AdminAlreadyExists
  {
  }

  /** Signup's failures: a schema rejection is 400, every other failure is
      500, and a successful signup answers 201 with a token whose payload is
      exactly the saved user's id and role. */
  lemma SignupErrorMapping(users: seq<User>, input: UserInput, newId: UserId, salt: nat, secret: Option<string>, now: int)
    ensures var (after, resp) := SignupOn(users, input, newId, salt, secret, now);
      && (resp.ValidationFailed? <==> !(input.role == Some("admin") && AdminExists(users)) && !InputValid(input))
      && (resp.SignupFailed? ==> resp.Status() == 500 && InputValid(input))
      && (resp.Created? ==> resp.Status() == 201 && resp.token.claims == PayloadOf(resp.user)
                            && resp.user.id == newId && after == users + [resp.user])
      && (!resp.Created? && after != users ==> !Truthy(secret))
  {
    if !(input.role == Some("admin") && AdminExists(users)) && InputValid(input) {
      var doc := CastUser(input, newId).value;
      if IndexByAadhar(users, doc.addharCardNumber).None? {
        var saved := PreSave(doc, true, salt);
        assert saved.id == newId;
      }
    }
  }

  /** Signup keeps the collection's invariants: unique ids, unique numbers,
      and at most one administrator. */
  lemma {:induction false} SignupPreservesInvariants(users: seq<User>, input: UserInput, newId: UserId, salt: nat, secret: Option<string>, now: int)
    requires UniqueIds(users) && UniqueAadhar(users) && AtMostOneAdmin(users)
    requires IndexById(users, newId).None?
    ensures var after := SignupOn(users, input, newId, salt, secret, now).0;
      UniqueIds(after) && UniqueAadhar(after) && AtMostOneAdmin(after)
  {
    var after := SignupOn(users, input, newId, salt, secret, now).0;
    if after != users {
      var doc := CastUser(input, newId).value;
      var saved := PreSave(doc, true, salt);
      assert saved.role == Admin ==> RoleName(doc.role) == "admin";
      AppendUserKeepsInvariants(users, saved);
    }
  }

  /** Saving a user under an unused id and an unregistered number, and as
      an administrator only when there is none, keeps the invariants. */
  lemma AppendUserKeepsInvariants(users: seq<User>, saved: User)
    requires UniqueIds(users) && UniqueAadhar(users) && AtMostOneAdmin(users)
    requires IndexById(users, saved.id).None? && IndexByAadhar(users, saved.addharCardNumber).None?
    requires saved.role == Admin ==> !AdminExists(users)
    ensures var after := users + [saved];
      UniqueIds(after) && UniqueAadhar(after) && AtMostOneAdmin(after)
  {
    AppendKeepsUniqueIds(users, saved);
    AppendKeepsUniqueAadhar(users, saved);
    AppendKeepsOneAdmin(users, saved);
  }

  lemma AppendKeepsUniqueIds(users: seq<User>, saved: User)
    requires UniqueIds(users) && IndexById(users, saved.id).None?
    ensures UniqueIds(users + [saved])
  {
    var after := users + [saved];
    assert forall k :: 0 <= k < |users| ==> after[k] == users[k];
  }

  lemma AppendKeepsUniqueAadhar(users: seq<User>, saved: User)
    requires UniqueAadhar(users) && IndexByAadhar(users, saved.addharCardNumber).None?
    ensures UniqueAadhar(users + [saved])
  {
    var after := users + [saved];
    assert forall k :: 0 <= k < |users| ==> after[k] == users[k];
  }

  lemma AppendKeepsOneAdmin(users: seq<User>, saved: User)
    requires AtMostOneAdmin(users) && (saved.role == Admin ==> !AdminExists(users))
    ensures AtMostOneAdmin(users + [saved])
  {
    var after := users + [saved];
    assert forall k :: 0 <= k < |users| ==> after[k] == users[k];
    assert saved.role == Admin ==> forall k :: 0 <= k < |users| ==> users[k].role != Admin;
  }

  /** Login answers the one 401 exactly when the number is unknown or the
      password does not match, so the two cases cannot be told apart. */
  lemma LoginFailureCollapse(users: seq<User>, aadhar: string, password: string, secret: Option<string>, now: int)
    ensures LoginOn(users, aadhar, password, secret, now) == InvalidCredentials <==>
      (IndexByAadhar(users, aadhar).None? || !ComparePassword(password, users[IndexByAadhar(users, aadhar).value].password))
    ensures LoginOn(users, aadhar, password, secret, now).LoggedIn? ==>
      var r := LoginOn(users, aadhar, password, secret, now);
      r.token.claims == PayloadOf(r.user) && r.user in users && r.user.addharCardNumber == aadhar
  {
  }

  /** After a successful signup, logging in with the same number and
      password succeeds and yields the same identity and role. */
  lemma {:induction false} SignupThenLogin(users: seq<User>, input: UserInput, newId: UserId, salt: nat,
                                          secret: Option<string>, now: int, later: int)
    requires SignupOn(users, input, newId, salt, secret, now).1.Created?
    ensures var (after, resp) := SignupOn(users, input, newId, salt, secret, now);
      var login := LoginOn(after, input.addharCardNumber.value, input.password.value, secret, later);
      login.LoggedIn? && login.user == resp.user && login.token.claims == resp.token.claims
  {
    var (after, resp) := SignupOn(users, input, newId, salt, secret, now);
    var doc := CastUser(input, newId).value;
    var saved := PreSave(doc, true, salt);
    assert after == users + [saved];
    var a := input.addharCardNumber.value;
    assert IndexByAadhar(users, a).None?;
    assert after[|users|].addharCardNumber == a;
    assert forall j :: 0 <= j < |users| ==> after[j].addharCardNumber != a;
    assert IndexByAadhar(after, a) == Some(|users|);
    HashedPasswordMatches(doc, input.password.value, input.password.value, salt);
  }

  /** A wrong current password leaves every stored password as it was, and
      so does an absent one, which answers 500; a successful change makes
      exactly the texts that agree with the new password in their first 72
      bytes match. Other users are never touched. */
  lemma ChangePasswordEffect(users: seq<User>, userId: UserId, currentPassword: Option<string>,
                             newPassword: Option<string>, salt: nat, candidate: string)
    ensures var (after, resp) := ChangePasswordOn(users, userId, currentPassword, newPassword, salt);
      && (resp != PasswordUpdated ==> after == users)
      && (resp == PasswordUserNotFound <==> IndexById(users, userId).None?)
      && (IndexById(users, userId).Some? && currentPassword.None? ==> resp == PasswordUpdateFailed)
      && (resp == WrongPassword <==>
            IndexById(users, userId).Some? && currentPassword.Some?
            && !ComparePassword(currentPassword.value, users[IndexById(users, userId).value].password))
      && (resp == PasswordUpdated ==>
            var i := IndexById(users, userId).value;
            currentPassword.Some? && newPassword.Some?
            && ComparePassword(currentPassword.value, users[i].password)
            && |after| == |users|
            && (forall j :: 0 <= j < |users| && j != i ==> after[j] == users[j])
            && after[i].(password := users[i].password) == users[i]
            && (ComparePassword(candidate, after[i].password) <==> BcryptKey(candidate) == BcryptKey(newPassword.value)))
  {
  }

  /** The user collection. */
  class UserRegistry {
    var users: seq<User>

    ghost predicate Valid()
      reads this
    {
      UniqueIds(users) && UniqueAadhar(users) && AtMostOneAdmin(users)
    }

    constructor ()
      ensures Valid() && users == []
    {
      users := [];
    }

    /** POST /signup; `newId` is the fresh id the database assigns, `salt`
        the one bcrypt generates, `now` the clock in seconds. */
    method Signup(input: UserInput, newId: UserId, salt: nat, secret: Option<string>, now: int)
      returns (resp: SignupResponse)
      requires Valid()
      requires IndexById(users, newId).None?
      modifies this
      ensures Valid()
      ensures (users, resp) == SignupOn(old(users), input, newId, salt, secret, now)
    {
      SignupPreservesInvariants(users, input, newId, salt, secret, now);
      if input.role == Some("admin") && AdminExists(users) {
        return AdminAlreadyExists;
      }
      var doc := CastUser(input, newId);
      if doc.None? {
        return ValidationFailed;
      }
      if IndexByAadhar(users, doc.value.addharCardNumber).Some? {
        return SignupFailed;
      }
      var saved := PreSave(doc.value, true, salt);
      users := users + [saved];
      var token := GenerateToken(PayloadOf(saved), secret, now);
      if token.SecretMissing? {
        return SignupFailed;
      }
      resp := Created(saved, token.token);
    }

    /** POST /login: reads the collection, changes nothing. */
    method Login(aadhar: string, password: string, secret: Option<string>, now: int)
      returns (resp: LoginResponse)
      ensures resp == LoginOn(users, aadhar, password, secret, now)
      ensures resp.LoggedIn? ==> resp.user in users && resp.token.claims == PayloadOf(resp.user)
      ensures resp == InvalidCredentials <==>
        (forall j :: 0 <= j < |users| ==> users[j].addharCardNumber != aadhar)
        || !ComparePassword(password, users[IndexByAadhar(users, aadhar).value].password)
    {
      var found := IndexByAadhar(users, aadhar);
      if found.None? || !ComparePassword(password, users[found.value].password) {
        return InvalidCredentials;
      }
      var user := users[found.value];
      var token := GenerateToken(PayloadOf(user), secret, now);
      if token.SecretMissing? {
        return LoginFailed;
      }
      resp := LoggedIn(token.token, user);
    }

    /** GET /profile. */
    method GetProfile(userId: UserId) returns (resp: ProfileResponse)
      ensures resp == ProfileOn(users, userId)
      ensures resp.ProfileFound? <==> exists j :: 0 <= j < |users| && users[j].id == userId
      ensures resp.ProfileFound? ==> resp.user in users && resp.user.id == userId
    {
      var found := IndexById(users, userId);
      if found.None? {
        return ProfileNotFound;
      }
      resp := ProfileFound(users[found.value]);
    }

    /** PUT /profile/password. */
    method ChangePassword(userId: UserId, currentPassword: Option<string>, newPassword: Option<string>, salt: nat)
      returns (resp: PasswordResponse)
      requires Valid()
      modifies this
      ensures Valid()
      ensures (users, resp) == ChangePasswordOn(old(users), userId, currentPassword, newPassword, salt)
    {
      var found := IndexById(users, userId);
      if found.None? {
        return PasswordUserNotFound;
      }
      var i := found.value;
      if currentPassword.None? {
        return PasswordUpdateFailed;
      }
      if !ComparePassword(currentPassword.value, users[i].password) {
        return WrongPassword;
      }
      if newPassword.None? {
        return PasswordUpdateFailed;
      }
      var edited := users[i].(password := Plain(newPassword.value));
      if !ValidUser(edited) {
        return PasswordUpdateFailed;
      }
      users := users[i := PreSave(edited, true, salt)];
      resp := PasswordUpdated;
    }
  }
}
