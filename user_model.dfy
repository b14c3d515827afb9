/** The `User` document (identity-service/src/models/user.model.js): its
    fields, the role and gender enums with their defaults, the pre-save hook
    that re-hashes the password, `matchPassword`, and the `toJSON` transform
    that strips the password and the version key. */
module UserModel {
  import opened Common

  /** Stand-in for MongoDB's ObjectId. */
  type UserId = nat

  /** bcrypt, abstracted as a deterministic function from a plain password
      to the stored hash; the salt is not modelled. */
  type Hasher = string -> string

  datatype Role = Regular | Admin | SuperAdmin

  function RoleName(r: Role): string {
    match r
    case Regular => "user"
    case Admin => "admin"
    case SuperAdmin => "super-admin"
  }

  /** The `enum` validator on `role`. */
  function ParseRole(s: string): (r: Option<Role>)
    ensures r.Some? <==> s == "user" || s == "admin" || s == "super-admin"
    ensures r.Some? ==> RoleName(r.value) == s
  {
    if s == "user" then Some(Regular)
    else if s == "admin" then Some(Admin)
    else if s == "super-admin" then Some(SuperAdmin)
    else None
  }

  lemma RoleRoundTrip(r: Role)
    ensures ParseRole(RoleName(r)) == Some(r)
  {
  }

  /** A user created without a role is a plain "user". */
  const DefaultRole: Role := Regular

  datatype Gender = Male | Female

  function GenderName(g: Gender): string {
    match g
    case Male => "male"
    case Female => "female"
  }

  /** The `enum` validator on `gender` (the field is required). */
  function ParseGender(s: string): (r: Option<Gender>)
    ensures r.Some? <==> s == "male" || s == "female"
    ensures r.Some? ==> GenderName(r.value) == s
  {
    if s == "male" then Some(Male) else if s == "female" then Some(Female) else None
  }

  lemma GenderRoundTrip(g: Gender)
    ensures ParseGender(GenderName(g)) == Some(g)
  {
  }

  datatype Address = Address(city: string, state: string, country: string, homeAddress: string)

  /** A stored user. Times are milliseconds since the epoch; `dateOfBirth`
      is the instant the date parser produced. */
  datatype User = User(
    id: UserId,
    firstName: string,
    lastName: string,
    email: string,
    phoneNumber: string,
    password: string,
    role: Role,
    gender: Gender,
    dateOfBirth: int,
    address: Address,
    isEmailVerified: bool,
    createdAt: int,
    updatedAt: int)

  function UserEmail(u: User): string { u.email }
  function UserIdOf(u: User): UserId { u.id }
  function EmailIs(email: string): User -> bool { (u: User) => u.email == email }
  function IdIs(id: UserId): User -> bool { (u: User) => u.id == id }

  /** The second `pre("save")` hook: the password is replaced by its hash
      exactly when the password path was modified, and nothing else changes. */
  function HashIfModified(doc: User, passwordModified: bool, hash: Hasher): (r: User)
    ensures passwordModified ==> r.password == hash(doc.password)
    ensures !passwordModified ==> r == doc
    ensures r.(password := doc.password) == doc
  {
    if passwordModified then doc.(password := hash(doc.password)) else doc
  }

  /** `User.create(...)`: the schema defaults fill `role` and
      `is_email_verified`, a new document has every path modified so the hook
      hashes the password, and the timestamps are set to `now`. */
  function NewUser(id: UserId, firstName: string, lastName: string, email: string, phoneNumber: string,
                   password: string, gender: Gender, dateOfBirth: int, address: Address,
                   now: int, hash: Hasher): (u: User)
    ensures u.id == id && u.email == email
    ensures u.role == DefaultRole && u.isEmailVerified
    ensures u.password == hash(password)
  {
    var doc := User(id, firstName, lastName, email, phoneNumber, password, DefaultRole, gender,
                    dateOfBirth, address, true, now, now);
    HashIfModified(doc, true, hash)
  }

  /** `user.password = p; await user.save()`. Mongoose marks the path
      modified only when the value changes, so only then is the new value
      hashed and `updatedAt` moved to `now`. */
  function AssignPasswordAndSave(u: User, p: string, now: int, hash: Hasher): (r: User)
    ensures p != u.password ==> r == u.(password := hash(p), updatedAt := now)
    ensures p == u.password ==> r == u
  {
    var modified := p != u.password;
    var hooked := HashIfModified(u.(password := p), modified, hash);
    if modified then hooked.(updatedAt := now) else hooked
  }

  /** `matchPassword`: bcrypt's compare of the entered password with the
      stored hash. */
  predicate MatchPassword(entered: string, u: User, hash: Hasher): (b: bool)
    ensures b <==> HashIfModified(u.(password := entered), true, hash).password == u.password
  {
    hash(entered) == u.password
  }

  /** After a password is set through `save`, that password matches. */
  lemma SavedPasswordMatches(u: User, p: string, now: int, hash: Hasher)
    requires p != u.password
    ensures MatchPassword(p, AssignPasswordAndSave(u, p, now, hash), hash)
  {
  }

  /** The profile fields the identity service returns and caches: every
      field of the user except the password. */
  datatype UserView = UserView(
    id: UserId,
    firstName: string,
    lastName: string,
    email: string,
    phoneNumber: string,
    address: Address,
    gender: Gender,
    dateOfBirth: int,
    role: Role,
    createdAt: int,
    updatedAt: int)

  /** The profile built from a user: it loses the password and the
      verification flag and nothing else, so together with those two it
      gives the user back. */
  function View(u: User): (v: UserView)
    ensures u == User(v.id, v.firstName, v.lastName, v.email, v.phoneNumber, u.password, v.role, v.gender,
                      v.dateOfBirth, v.address, u.isEmailVerified, v.createdAt, v.updatedAt)
  {
    UserView(u.id, u.firstName, u.lastName, u.email, u.phoneNumber, u.address, u.gender,
             u.dateOfBirth, u.role, u.createdAt, u.updatedAt)
  }

  /** The stored document, whatever its version key, holds every field of
      the profile under that field's key. */
  lemma ViewMatchesDocument(u: User, version: nat)
    ensures AgreesWithDocument(View(u), Document(u, version))
  {
  }

  /** Every field of the view has the same value under its key in the
      document. */
  predicate AgreesWithDocument(v: UserView, j: map<string, Value>) {
    && "_id" in j && j["_id"] == Num(v.id)
    && "first_name" in j && j["first_name"] == Str(v.firstName)
    && "last_name" in j && j["last_name"] == Str(v.lastName)
    && "email" in j && j["email"] == Str(v.email)
    && "phone_number" in j && j["phone_number"] == Str(v.phoneNumber)
    && "address" in j && j["address"] == Obj(map[
         "city" := Str(v.address.city),
         "state" := Str(v.address.state),
         "country" := Str(v.address.country),
         "home_address" := Str(v.address.homeAddress)])
    && "gender" in j && j["gender"] == Str(GenderName(v.gender))
    && "date_of_birth" in j && j["date_of_birth"] == Num(v.dateOfBirth)
    && "role" in j && j["role"] == Str(RoleName(v.role))
    && "createdAt" in j && j["createdAt"] == Num(v.createdAt)
    && "updatedAt" in j && j["updatedAt"] == Num(v.updatedAt)
  }

  /** The view does not depend on the password. */
  lemma ViewIgnoresPassword(u: User, p: string)
    ensures View(u.(password := p)) == View(u)
  {
  }

  // ---------------------------------------------------------------------
  // Serialisation

  /** A JSON value as Mongoose hands it to the `toJSON` transform. */
  datatype Value = Str(s: string) | Num(n: int) | Bool(b: bool) | Obj(fields: map<string, Value>)

  /** The stored document of a user, with its `_id` and version key `__v`. */
  function Document(u: User, version: nat): map<string, Value> {
    map[
      "_id" := Num(u.id),
      "first_name" := Str(u.firstName),
      "last_name" := Str(u.lastName),
      "email" := Str(u.email),
      "phone_number" := Str(u.phoneNumber),
      "password" := Str(u.password),
      "role" := Str(RoleName(u.role)),
      "gender" := Str(GenderName(u.gender)),
      "date_of_birth" := Num(u.dateOfBirth),
      "address" := Obj(map[
        "city" := Str(u.address.city),
        "state" := Str(u.address.state),
        "country" := Str(u.address.country),
        "home_address" := Str(u.address.homeAddress)]),
      "is_email_verified" := Bool(u.isEmailVerified),
      "createdAt" := Num(u.createdAt),
      "updatedAt" := Num(u.updatedAt),
      "__v" := Num(version)]
  }

  /** The `toJSON` transform: `password` and `__v` are deleted, every other
      key is kept with its value. */
  function ToJson(ret: map<string, Value>): (r: map<string, Value>)
    ensures "password" !in r && "__v" !in r
    ensures forall k :: k in r ==> k in ret && r[k] == ret[k]
    ensures forall k :: k in ret && k != "password" && k != "__v" ==> k in r
  {
    ret - {"password", "__v"}
  }

  /** A serialised user carries its email and never its password. */
  lemma JsonHidesPassword(u: User, version: nat)
    ensures "password" !in ToJson(Document(u, version))
    ensures "email" in ToJson(Document(u, version)) && ToJson(Document(u, version))["email"] == Str(u.email)
  {
  }
}
