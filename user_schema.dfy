/** The user document (backend/models/user.js): its fields, the schema's
    validation (required fields, enumerations, the six-digit pincode), the
    defaults it fills in, and the save hook that hashes the password only
    when it was modified. Password hashing is modelled symbolically: a
    digest records what was hashed and with which salt. */
module UserSchema {
  import opened Common
  import opened JsString

  datatype Role = Voter | Admin
  datatype Sex = Male | Female | Other
  datatype RelationType = SonOf | WifeOf | DaughterOf

  /** A password as the document holds it: the plain text a request put
      there, or a salted one-way digest of an earlier value. */
  datatype Secret = Plain(text: string) | Digest(of: Secret, salt: nat)

  datatype Address = Address(city: string, state: string, street: Option<string>, pincode: string)
  datatype Relative = Relative(relationType: RelationType, relativeName: string)

  /** A stored user. `dob` and `address` are optional here because the vote
      route checks for them: documents written before the schema required
      them can lack them. */
  datatype User = User(
    id: UserId,
    name: string,
    age: int,
    email: Option<string>,
    password: Secret,
    phone: string,
    address: Option<Address>,
    sex: Sex,
    relative: Relative,
    addharCardNumber: string,
    role: Role,
    isVoted: bool,
    isVerified: bool,
    dob: Option<CalendarDate>,
    profilePhoto: string)

  /** The fields of a signup request body, each possibly absent. */
  datatype AddressInput = AddressInput(city: Option<string>, state: Option<string>, street: Option<string>, pincode: Option<string>)
  datatype RelativeInput = RelativeInput(relationType: Option<string>, relativeName: Option<string>)
  datatype UserInput = UserInput(
    name: Option<string>,
    age: Option<int>,
    email: Option<string>,
    password: Option<string>,
    phone: Option<string>,
    address: Option<AddressInput>,
    sex: Option<string>,
    relative: Option<RelativeInput>,
    addharCardNumber: Option<string>,
    role: Option<string>,
    profilePhoto: Option<string>,
    dob: Option<CalendarDate>)

  /** The role as the database and the token carry it. */
  function RoleName(r: Role): string {
    match r
    case Voter => "voter"
    case Admin => "admin"
  }

  /** `role: { enum: ['voter', 'admin'], default: 'voter' }`: an absent role
      takes the default; any other value outside the enumeration is a
      validation error (None). */
  function ParseRole(role: Option<string>): (r: Option<Role>)
    ensures r.Some? <==> role.None? || role.value == "voter" || role.value == "admin"
    ensures role.None? ==> r == Some(Voter)
    ensures r.Some? && role.Some? ==> RoleName(r.value) == role.value
  {
    if role.None? then Some(Voter)
    else if role.value == "voter" then Some(Voter)
    else if role.value == "admin" then Some(Admin)
    else None
  }

  function ParseSex(sex: Option<string>): (r: Option<Sex>)
    ensures r.Some? <==> sex == Some("Male") || sex == Some("Female") || sex == Some("Other")
  {
    if sex == Some("Male") then Some(Male)
    else if sex == Some("Female") then Some(Female)
    else if sex == Some("Other") then Some(Other)
    else None
  }

  function ParseRelationType(t: Option<string>): (r: Option<RelationType>)
    ensures r.Some? <==> t == Some("S/O") || t == Some("W/O") || t == Some("D/O")
  {
    if t == Some("S/O") then Some(SonOf)
    else if t == Some("W/O") then Some(WifeOf)
    else if t == Some("D/O") then Some(DaughterOf)
    else None
  }

  /** The pincode rule `/^\d{6}$/`: exactly six decimal digits. */
  predicate IsPincode(p: string) {
    |p| == 6 && forall i :: 0 <= i < 6 ==> IsAsciiDigit(p[i])
  }

  /** The text a stored password's validation sees; a digest is never
      empty. */
  function SecretText(s: Secret): string {
    match s
    case Plain(t) => t
    case Digest(_, _) => "$2b$"
  }

  /** What the schema's validators demand of a document when it is saved:
      the required strings are non-empty, the pincode has six digits, and
      date of birth and address are present. */
  predicate ValidUser(u: User) {
    && u.name != "" && SecretText(u.password) != "" && u.phone != ""
    && u.address.Some? && u.address.value.city != "" && u.address.value.state != ""
    && IsPincode(u.address.value.pincode)
    && u.relative.relativeName != "" && u.addharCardNumber != ""
    && u.dob.Some? && u.profilePhoto != ""
  }

  predicate AddressInputValid(a: Option<AddressInput>) {
    a.Some? && Truthy(a.value.city) && Truthy(a.value.state) && a.value.pincode.Some? && IsPincode(a.value.pincode.value)
  }

  predicate RelativeInputValid(r: Option<RelativeInput>) {
    r.Some? && ParseRelationType(r.value.relationType).Some? && Truthy(r.value.relativeName)
  }

  /** Every validator of the schema passes on the request body. */
  predicate InputValid(input: UserInput) {
    && Truthy(input.name) && input.age.Some? && Truthy(input.password) && Truthy(input.phone)
    && AddressInputValid(input.address)
    && ParseSex(input.sex).Some?
    && RelativeInputValid(input.relative)
    && Truthy(input.addharCardNumber)
    && ParseRole(input.role).Some?
    && Truthy(input.profilePhoto)
    && input.dob.Some?
  }

  /** `new User({...})` followed by validation: the document with the
      schema's defaults applied (role voter, not voted, not verified,
      email trimmed or null), or None for a validation error. The password
      is still the plain text; the save hook hashes it. */
  function CastUser(input: UserInput, id: UserId): (r: Option<User>)
    ensures r.Some? <==> InputValid(input)
    ensures r.Some? ==> ValidUser(r.value) && r.value.id == id
    ensures r.Some? ==> !r.value.isVoted && !r.value.isVerified && r.value.password == Plain(input.password.value)
    ensures r.Some? ==> r.value.addharCardNumber == input.addharCardNumber.value
    ensures r.Some? ==> (input.role.None? ==> r.value.role == Voter)
    ensures r.Some? ==> (input.role.Some? ==> RoleName(r.value.role) == input.role.value)
    ensures r.Some? ==> (input.email.None? <==> r.value.email.None?)
  {
    if !InputValid(input) then None
    else
      var a := input.address.value;
      var rel := input.relative.value;
      Some(User(
        id,
        input.name.value,
        input.age.value,
        if input.email.Some? then Some(Trim(input.email.value)) else None,
        Plain(input.password.value),
        input.phone.value,
        Some(Address(a.city.value, a.state.value, a.street, a.pincode.value)),
        ParseSex(input.sex).value,
        Relative(ParseRelationType(rel.relationType).value, rel.relativeName.value),
        input.addharCardNumber.value,
        ParseRole(input.role).value,
        false,
        false,
        input.dob,
        input.profilePhoto.value))
  }

  /** `bcrypt.hash` with a given salt. */
  function Hash(s: Secret, salt: nat): (r: Secret)
    ensures r.Digest? && r.of == s
  {
    Digest(s, salt)
  }

  /** The UTF-8 encoding of one character, as byte values. */
  function EncodeChar(c: char): (r: seq<int>)
    ensures 1 <= |r| <= 4 && forall k :: 0 <= k < |r| ==> 0 <= r[k] < 256
    ensures |r| == LeadLength(r[0])
  {
    var n := c as int;
    if n < 0x80 then [n]
    else if n < 0x800 then [0xC0 + n / 64, 0x80 + n % 64]
    else if n < 0x1_0000 then [0xE0 + n / 64 / 64, 0x80 + n / 64 % 64, 0x80 + n % 64]
    else [0xF0 + n / 64 / 64 / 64, 0x80 + n / 64 / 64 % 64, 0x80 + n / 64 % 64, 0x80 + n % 64]
  }

  /** The length of an encoded character, read from its first byte. */
  function LeadLength(b: int): nat {
    if b < 0x80 then 1 else if b < 0xE0 then 2 else if b < 0xF0 then 3 else 4
  }

  function Utf8(s: string): (r: seq<int>)
    ensures |r| >= |s|
  {
    if s == [] then [] else EncodeChar(s[0]) + Utf8(s[1..])
  }

  /** Reading a character back from its encoding. */
  function DecodeChar(e: seq<int>): int
    requires 1 <= |e| <= 4
  {
    if |e| == 1 then e[0]
    else if |e| == 2 then (e[0] - 0xC0) * 64 + (e[1] - 0x80)
    else if |e| == 3 then ((e[0] - 0xE0) * 64 + (e[1] - 0x80)) * 64 + (e[2] - 0x80)
    else (((e[0] - 0xF0) * 64 + (e[1] - 0x80)) * 64 + (e[2] - 0x80)) * 64 + (e[3] - 0x80)
  }

  lemma DecodeEncode(c: char)
    ensures DecodeChar(EncodeChar(c)) == c as int
  {
    var n := c as int;
    var q := n / 64;
    var q2 := q / 64;
    assert n == q * 64 + n % 64;
    assert q == q2 * 64 + q % 64;
    assert q2 == q2 / 64 * 64 + q2 % 64;
  }

  lemma EncodeCharInjective(c: char, d: char)
    requires EncodeChar(c) == EncodeChar(d)
    ensures c == d
  {
    DecodeEncode(c);
    DecodeEncode(d);
  }

  lemma {:induction false} Utf8Injective(s: string, t: string)
    requires Utf8(s) == Utf8(t)
    ensures s == t
  {
    if s != [] && t != [] {
      var es, et := EncodeChar(s[0]), EncodeChar(t[0]);
      assert Utf8(s)[0] == es[0] && Utf8(t)[0] == et[0];
      assert |es| == |et|;
      assert Utf8(s)[..|es|] == es && Utf8(t)[..|et|] == et;
      EncodeCharInjective(s[0], t[0]);
      assert Utf8(s)[|es|..] == Utf8(s[1..]);
      assert Utf8(t)[|et|..] == Utf8(t[1..]);
      Utf8Injective(s[1..], t[1..]);
      assert s == [s[0]] + s[1..] && t == [t[0]] + t[1..];
    }
  }

  /** Encoding distributes over concatenation. */
  lemma {:induction false} Utf8Append(a: string, b: string)
    ensures Utf8(a + b) == Utf8(a) + Utf8(b)
  {
    if a == [] {
      assert a + b == b;
    } else {
      assert (a + b)[0] == a[0] && (a + b)[1..] == a[1..] + b;
      Utf8Append(a[1..], b);
      var e := EncodeChar(a[0]);
      assert e + (Utf8(a[1..]) + Utf8(b)) == (e + Utf8(a[1..])) + Utf8(b);
    }
  }

  /** bcrypt reads at most this many bytes of a password. */
  const BcryptMaxBytes := 72

  /** The bytes bcrypt hashes and compares: the password's UTF-8 encoding,
      cut after 72 bytes. */
  function BcryptKey(s: string): (r: seq<int>)
    ensures |r| <= BcryptMaxBytes && r <= Utf8(s)
    ensures |r| == BcryptMaxBytes || r == Utf8(s)
  {
    var b := Utf8(s);
    if |b| <= BcryptMaxBytes then b else b[..BcryptMaxBytes]
  }

  /** `bcrypt.compare(candidate, stored)`: true exactly when the stored value
      is a digest of a plain text whose first 72 bytes are the candidate's. */
  function ComparePassword(candidate: string, stored: Secret): (r: bool)
    ensures r ==> stored.Digest? && stored.of.Plain?
    ensures stored.Digest? && stored.of.Plain? && candidate == stored.of.text ==> r
  {
    stored.Digest? && stored.of.Plain? && BcryptKey(candidate) == BcryptKey(stored.of.text)
  }

  /** The `pre('save')` hook: re-hash the password only when this save
      modifies it; nothing else changes. */
  function PreSave(u: User, passwordModified: bool, salt: nat): (r: User)
    ensures r.(password := u.password) == u
    ensures !passwordModified ==> r == u
    ensures passwordModified ==> r.password != u.password
  {
    if passwordModified then u.(password := Hash(u.password, salt)) else u
  }

  /** A password that was set and then saved matches exactly the texts
      that agree with it in their first 72 bytes; when neither text is
      longer than that, it matches exactly the text that was set. */
  lemma HashedPasswordMatches(u: User, text: string, candidate: string, salt: nat)
    ensures ComparePassword(candidate, PreSave(u.(password := Plain(text)), true, salt).password)
      <==> BcryptKey(candidate) == BcryptKey(text)
    ensures |Utf8(text)| <= BcryptMaxBytes && |Utf8(candidate)| <= BcryptMaxBytes ==>
      (ComparePassword(candidate, PreSave(u.(password := Plain(text)), true, salt).password) <==> candidate == text)
  {
    if |Utf8(text)| <= BcryptMaxBytes && |Utf8(candidate)| <= BcryptMaxBytes && BcryptKey(candidate) == BcryptKey(text) {
      Utf8Injective(candidate, text);
    }
  }

  /** Past 72 bytes nothing counts: a saved password of at least 72 bytes
      is also matched by itself followed by any text. */
  lemma TruncatedPasswordMatches(u: User, text: string, extra: string, salt: nat)
    requires |Utf8(text)| >= BcryptMaxBytes
    ensures ComparePassword(text + extra, PreSave(u.(password := Plain(text)), true, salt).password)
  {
    Utf8Append(text, extra);
    assert (Utf8(text) + Utf8(extra))[..BcryptMaxBytes] == Utf8(text)[..BcryptMaxBytes];
  }

  /** A save that does not touch the password keeps the stored digest, so
      the old password still matches and no other does. */
  lemma UnmodifiedPasswordKept(u: User, salt: nat, candidate: string)
    ensures ComparePassword(candidate, PreSave(u, false, salt).password) <==> ComparePassword(candidate, u.password)
  {
  }

  /** The pincode rule accepts "560001" and rejects five digits, seven
      digits, and a letter among six characters. */
  lemma PincodeExamples()
    ensures IsPincode("560001")
    ensures !IsPincode("56000") && !IsPincode("5600012") && !IsPincode("56O001")
  {
    assert "56O001"[2] == 'O';
  }
}
