/** The User document: its fields and defaults, the `trim`/`lowercase`
    setters on name and email, the `required` and `minlength` validators and
    the unique index on email. */
module UserModel {
  import opened Base
  import opened Text

  /** One entry of a user's `experience` array; dates are timestamps. */
  datatype Experience = Experience(
    title: string,
    company: string,
    startDate: Option<int>,
    endDate: Option<int>,
    current: bool,
    description: string)

  /** A stored user. The password hash is not modelled. */
  datatype User = User(
    name: string,
    email: string,
    bio: string,
    avatar: string,
    skills: seq<string>,
    experience: seq<Experience>,
    connections: seq<Id>,
    connectionRequests: seq<Id>)

  const MinPasswordLength := 6

  /** The schema's setters, which run whenever name or email is assigned:
      the name is trimmed, the email trimmed and lower-cased. */
  function ApplySetters(u: User): (v: User)
    ensures v.name == Trim(u.name) && v.email == NormaliseEmail(u.email)
    ensures Trimmed(v.name) && Trimmed(v.email) && NoUpper(v.email)
    ensures v.(name := u.name, email := u.email) == u
  {
    u.(name := Trim(u.name), email := NormaliseEmail(u.email))
  }

  /** A user as the schema stores it: name and email present and already in
      their normalised form. */
  predicate Conforms(u: User) {
    && u.name != "" && Trimmed(u.name)
    && u.email != "" && Trimmed(u.email) && NoUpper(u.email)
  }

  /** A user conforms exactly when name and email are present and the
      setters leave the document as it is. */
  lemma ConformsIffSettersFixed(u: User)
    ensures Conforms(u) <==> u.name != "" && u.email != "" && ApplySetters(u) == u
  {
    TrimFixedIffTrimmed(u.name);
    NormaliseEmailFixedIff(u.email);
    if ApplySetters(u) == u {
      assert Trim(u.name) == u.name && NormaliseEmail(u.email) == u.email;
    }
  }

  /** Running the setters a second time changes nothing. */
  lemma ApplySettersIdempotent(u: User)
    ensures ApplySetters(ApplySetters(u)) == ApplySetters(u)
  {
    TrimIdempotent(u.name);
    NormaliseEmailIdempotent(u.email);
  }

  /** Document validation on save: the setters, then the `required` checks on
      the two normalised strings. */
  function Validate(u: User): (r: Result<User>)
    ensures r.Ok? <==> !AllSpace(u.name) && !AllSpace(u.email)
    ensures r.Err? ==> r.error == Invalid(ValidationFailed)
    ensures r.Ok? ==> r.value.name == Trim(u.name) && r.value.email == NormaliseEmail(u.email)
    ensures r.Ok? ==> Conforms(r.value) && r.value.(name := u.name, email := u.email) == u
    ensures Conforms(u) ==> r == Ok(u)
  {
    var v := ApplySetters(u);
    NameSetter(u.name);
    EmailSetter(u.email);
    if v.name == "" || v.email == "" then Err(Invalid(ValidationFailed)) else Ok(v)
  }

  /** What the `trim` setter does to a required name: it empties exactly an
      all-space value and leaves a trimmed one as it is. */
  lemma NameSetter(name: string)
    ensures Trim(name) == "" <==> AllSpace(name)
    ensures Trimmed(name) ==> Trim(name) == name
  {
    TrimEmptyIffAllSpace(name);
    TrimFixedIffTrimmed(name);
  }

  /** What the `trim` and `lowercase` setters do to a required email: they
      empty exactly an all-space value and leave a normalised one as it is. */
  lemma EmailSetter(email: string)
    ensures NormaliseEmail(email) == "" <==> AllSpace(email)
    ensures Trimmed(email) && NoUpper(email) ==> NormaliseEmail(email) == email
  {
    TrimEmptyIffAllSpace(email);
    NormaliseEmailFixedIff(email);
  }

  /** Some user other than `id` already stores this email. */
  predicate EmailTaken(users: map<Id, User>, id: Id, email: string) {
    exists k | k in users :: k != id && users[k].email == email
  }

  /** The unique index on email holds. */
  predicate EmailsUnique(users: map<Id, User>) {
    forall a, b | a in users && b in users && a != b :: users[a].email != users[b].email
  }

  /** Every user conforms to the schema. */
  predicate AllConform(users: map<Id, User>) {
    forall u | u in users :: Conforms(users[u])
  }

  /** `user.save()` of user `id`: validation, then the unique index. Only the
      saved user's document changes. */
  function Save(users: map<Id, User>, id: Id, u: User): (r: Result<map<Id, User>>)
    ensures r.Ok? <==>
      !AllSpace(u.name) && !AllSpace(u.email) && !EmailTaken(users, id, NormaliseEmail(u.email))
    ensures r.Err? ==> r.error.Invalid?
    ensures !AllSpace(u.name) && !AllSpace(u.email) && r.Err? ==> r.error == Invalid(DuplicateKey)
    ensures r.Ok? ==> id in r.value && r.value == users[id := r.value[id]]
    ensures r.Ok? ==> Conforms(r.value[id]) && r.value[id].(name := u.name, email := u.email) == u
    ensures r.Ok? ==> r.value[id] == ApplySetters(u)
    ensures r.Ok? && Conforms(u) ==> r.value[id] == u
    ensures r.Ok? && EmailsUnique(users) ==> EmailsUnique(r.value)
    ensures r.Ok? && AllConform(users) ==> AllConform(r.value)
    ensures Conforms(u) && !EmailTaken(users, id, u.email) ==> r == Ok(users[id := u])
  {
    match Validate(u)
    case Err(e) => Err(e)
    case Ok(v) =>
      if EmailTaken(users, id, v.email) then Err(Invalid(DuplicateKey))
      else
        UniqueAfterUpdate(users, id, v);
        ConformAfterUpdate(users, id, v);
        Ok(users[id := v])
  }

  /** Replacing one user by one whose email nobody else stores keeps the
      index unique. */
  lemma UniqueAfterUpdate(users: map<Id, User>, id: Id, v: User)
    requires !EmailTaken(users, id, v.email)
    ensures EmailsUnique(users) ==> EmailsUnique(users[id := v])
  {
  }

  /** Replacing one user by a conforming one keeps every user conforming. */
  lemma ConformAfterUpdate(users: map<Id, User>, id: Id, v: User)
    requires Conforms(v)
    ensures AllConform(users) ==> AllConform(users[id := v])
  {
  }

  /** A new user document with the schema's defaults: empty bio and avatar,
      empty skills, experience, connections and connection requests. The
      password is checked against `minlength` and then handed to the hashing
      hook, which is not modelled. */
  function New(name: string, email: string, password: string): (r: Result<User>)
    ensures r.Ok? <==> !AllSpace(name) && !AllSpace(email) && |password| >= MinPasswordLength
    ensures r.Err? ==> r.error == Invalid(ValidationFailed)
    ensures r.Ok? ==>
      && Conforms(r.value) && r.value.name == Trim(name) && r.value.email == NormaliseEmail(email)
    ensures r.Ok? ==>
      && r.value.bio == "" && r.value.avatar == "" && r.value.skills == [] && r.value.experience == []
      && r.value.connections == [] && r.value.connectionRequests == []
  {
    if |password| < MinPasswordLength then Err(Invalid(ValidationFailed))
    else Validate(User(name, email, "", "", [], [], [], []))
  }
}
