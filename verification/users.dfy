/** The user controller: reading profiles, the profile update with its
    keep-unless-given rule, and the avatar upload. An upload is the path the
    upload middleware stored the file under, or `None` without a file. */
module Users {
  import opened Base
  import opened Listing
  import opened Store
  import opened Text
  import UserModel

  /** `getUserProfile` and `getUserById`: 404 for an unknown id. */
  function Profile(s: Store, id: Id): (r: Result<User>)
    ensures r.Ok? <==> id in s.users
    ensures r.Err? ==> r.error == NotFound
    ensures r.Ok? ==> r.value == s.users[id]
  {
    if id in s.users then Ok(s.users[id]) else Err(NotFound)
  }

  /** `getUsers`: every user, in storage order. */
  function AllUsers(s: Store): (r: seq<(Id, User)>)
    ensures forall i | 0 <= i < |r| :: r[i].0 in s.users && r[i].1 == s.users[r[i].0]
    ensures forall k | k in s.users :: (k, s.users[k]) in r
    ensures forall i, j | 0 <= i < j < |r| :: r[i].0 < r[j].0
  {
    var r := Ascending(s.users, (u: User) => true, s.nextId);
    forall k | k in s.users
      ensures (k, s.users[k]) in r
    {
      assert k < s.nextId;
    }
    r
  }

  /** The request body of a profile update. A string field counts only when
      it is non-empty; an array counts whenever it is present, because every
      array is truthy. */
  datatype ProfileChanges = ProfileChanges(
    name: Option<string>,
    email: Option<string>,
    bio: Option<string>,
    skills: Option<seq<string>>,
    experience: Option<seq<UserModel.Experience>>)

  /** The request carries nothing that would change a profile. */
  predicate NoChanges(changes: ProfileChanges) {
    !Truthy(changes.name) && !Truthy(changes.email) && !Truthy(changes.bio)
    && changes.skills.None? && changes.experience.None?
  }

  /** The document `updateUserProfile` assigns before saving: each field
      takes the supplied value when it counts and keeps the stored one
      otherwise, the avatar changes only with an upload, and the
      `connections` lists are not touched. */
  function Revised(u: User, changes: ProfileChanges, file: Option<string>): (v: User)
    ensures v.connections == u.connections && v.connectionRequests == u.connectionRequests
    ensures Truthy(changes.name) ==> v.name == changes.name.value
    ensures !Truthy(changes.name) ==> v.name == u.name
    ensures Truthy(changes.email) ==> v.email == changes.email.value
    ensures !Truthy(changes.email) ==> v.email == u.email
    ensures Truthy(changes.bio) ==> v.bio == changes.bio.value
    ensures !Truthy(changes.bio) ==> v.bio == u.bio
    ensures changes.skills.Some? ==> v.skills == changes.skills.value
    ensures changes.skills.None? ==> v.skills == u.skills
    ensures changes.experience.Some? ==> v.experience == changes.experience.value
    ensures changes.experience.None? ==> v.experience == u.experience
    ensures file.Some? ==> v.avatar == SlashPath(file.value) && '\\' !in v.avatar
    ensures file.None? ==> v.avatar == u.avatar
  {
    u.(name := OrElse(changes.name, u.name),
       email := OrElse(changes.email, u.email),
       bio := OrElse(changes.bio, u.bio),
       avatar := if file.Some? then SlashPath(file.value) else u.avatar,
       skills := if changes.skills.Some? then changes.skills.value else u.skills,
       experience := if changes.experience.Some? then changes.experience.value else u.experience)
  }

  /** `updateUserProfile`: 404 for an unknown caller; otherwise the revised
      document is saved, which applies the setters and can fail validation or
      the unique email index. Only the caller's document changes. */
  function UpdateProfile(s: Store, caller: Id, changes: ProfileChanges, file: Option<string>): (r: Result<Step<User>>)
    ensures caller !in s.users ==> r == Err(NotFound)
    ensures caller in s.users ==>
      (r.Ok? <==> UserModel.Save(s.users, caller, Revised(s.users[caller], changes, file)).Ok?)
    ensures r.Err? && caller in s.users ==> r.error.Invalid?
    ensures r.Ok? ==>
      var v := Revised(s.users[caller], changes, file);
      && r.value.store == s.(users := s.users[caller := r.value.reply])
      && r.value.reply == v.(name := Trim(v.name), email := NormaliseEmail(v.email))
      && UserModel.Conforms(r.value.reply)
  {
    if caller !in s.users then Err(NotFound)
    else
      var users :- UserModel.Save(s.users, caller, Revised(s.users[caller], changes, file));
      Ok(Step(WithUsers(s, users), users[caller]))
  }

  /** A profile update replaces the caller's document only, and keeps its
      `connections` list. */
  lemma UpdateProfileKeepsLinks(s: Store, caller: Id, changes: ProfileChanges, file: Option<string>)
    requires UpdateProfile(s, caller, changes, file).Ok?
    ensures var t := UpdateProfile(s, caller, changes, file).value;
      t.store.users == s.users[caller := t.reply] && t.reply.connections == s.users[caller].connections
  {
  }

  /** Replacing one user document changes what reading that user gives and
      nothing else. */
  lemma ReadAfterReplace(s: Store, t: Store, caller: Id, u: User, other: Id)
    requires t.users == s.users[caller := u]
    ensures Profile(t, caller) == Ok(u)
    ensures other != caller ==> Profile(t, other) == Profile(s, other)
  {
  }

  /** After a profile update, reading the caller's profile gives the reply,
      and every other profile reads as before. */
  lemma ProfileAfterUpdate(s: Store, caller: Id, changes: ProfileChanges, file: Option<string>, other: Id)
    requires UpdateProfile(s, caller, changes, file).Ok?
    ensures var step := UpdateProfile(s, caller, changes, file).value;
      && Profile(step.store, caller) == Ok(step.reply)
      && (other != caller ==> Profile(step.store, other) == Profile(s, other))
  {
    var step := UpdateProfile(s, caller, changes, file).value;
    ReadAfterReplace(s, step.store, caller, step.reply, other);
  }

  /** A request that changes nothing leaves a store whose users conform as
      it was. */
  lemma UpdateProfileWithoutChanges(s: Store, caller: Id, changes: ProfileChanges)
    requires caller in s.users && UsersConform(s.users)
    requires NoChanges(changes)
    ensures UpdateProfile(s, caller, changes, None) == Ok(Step(s, s.users[caller]))
  {
    var u := s.users[caller];
    assert Revised(u, changes, None) == u;
    assert UserModel.Conforms(u) && !UserModel.EmailTaken(s.users, caller, u.email);
    UpdateSame(s.users, caller);
  }

  /** A successful save keeps every user conforming and the email index
      unique, and keeps the set of users. */
  lemma SaveKeepsUsersConform(users: map<Id, User>, id: Id, u: User)
    requires UsersConform(users) && id in users
    requires UserModel.Save(users, id, u).Ok?
    ensures UsersConform(UserModel.Save(users, id, u).value)
    ensures UserModel.Save(users, id, u).value.Keys == users.Keys
  {
  }

  /** Users whose `connections` lists are unchanged keep the list
      invariants. */
  lemma SameLinksKeepLinks(before: map<Id, User>, after: map<Id, User>, connections: map<Id, Connection>)
    requires after.Keys == before.Keys
    requires forall u | u in before :: after[u].connections == before[u].connections
    requires LinksSymmetric(before) && LinksDistinct(before) && PartiesExist(before, connections)
    ensures LinksSymmetric(after) && LinksDistinct(after) && PartiesExist(after, connections)
  {
  }

  /** Replacing one user by a document with the same `connections` list
      keeps every user's list. */
  lemma ReplacingKeepsLinks(users: map<Id, User>, id: Id, v: User)
    requires id in users && v.connections == users[id].connections
    ensures forall u | u in users :: u in users[id := v] && users[id := v][u].connections == users[u].connections
  {
  }

  /** Replacing the users by conforming ones with the same ids and the same
      `connections` lists keeps every invariant. */
  lemma RelistedUsersValid(s: Store, users: map<Id, User>)
    requires Valid(s) && UsersConform(users) && users.Keys == s.users.Keys
    requires forall u | u in s.users :: u in users && users[u].connections == s.users[u].connections
    ensures Valid(WithUsers(s, users))
  {
    SameLinksKeepLinks(s.users, users, s.connections);
  }

  /** A profile update changes the users and nothing else. */
  lemma UpdateProfileOnlyUsers(s: Store, caller: Id, changes: ProfileChanges, file: Option<string>)
    requires UpdateProfile(s, caller, changes, file).Ok?
    ensures var t := UpdateProfile(s, caller, changes, file).value.store;
      t == s.(users := t.users) && t.users.Keys == s.users.Keys
  {
  }

  /** A successful profile update stores exactly what the save produced. */
  lemma UpdateProfileSaves(s: Store, caller: Id, changes: ProfileChanges, file: Option<string>)
    requires UpdateProfile(s, caller, changes, file).Ok?
    ensures UpdateProfile(s, caller, changes, file).value.store.users
      == UserModel.Save(s.users, caller, Revised(s.users[caller], changes, file)).value
  {
  }

  /** A profile update keeps every user conforming and the email index
      unique. */
  lemma UpdateProfileConforms(s: Store, caller: Id, changes: ProfileChanges, file: Option<string>)
    requires UsersConform(s.users)
    requires UpdateProfile(s, caller, changes, file).Ok?
    ensures UsersConform(UpdateProfile(s, caller, changes, file).value.store.users)
  {
    UpdateProfileSaves(s, caller, changes, file);
  }

  /** A profile update keeps every `connections` list. */
  lemma UpdateProfileKeepsConnections(s: Store, caller: Id, changes: ProfileChanges, file: Option<string>)
    requires UpdateProfile(s, caller, changes, file).Ok?
    ensures var t := UpdateProfile(s, caller, changes, file).value.store;
      forall u | u in s.users :: u in t.users && t.users[u].connections == s.users[u].connections
  {
    UpdateProfileKeepsLinks(s, caller, changes, file);
    ReplacingKeepsLinks(s.users, caller, UpdateProfile(s, caller, changes, file).value.reply);
  }

  /** A profile update keeps every invariant, the unique email index
      included. */
  lemma UpdateProfileValid(s: Store, caller: Id, changes: ProfileChanges, file: Option<string>)
    requires Valid(s)
    requires UpdateProfile(s, caller, changes, file).Ok?
    ensures Valid(UpdateProfile(s, caller, changes, file).value.store)
  {
    UpdateProfileOnlyUsers(s, caller, changes, file);
    UpdateProfileConforms(s, caller, changes, file);
    UpdateProfileKeepsConnections(s, caller, changes, file);
    RelistedUsersValid(s, UpdateProfile(s, caller, changes, file).value.store.users);
  }

  /** `uploadUserAvatar`: without a file the request fails before the user
      is looked up; then 404 for an unknown caller; otherwise the avatar
      becomes the upload's path with forward slashes and is saved. */
  function UploadAvatar(s: Store, caller: Id, file: Option<string>): (r: Result<Step<User>>)
    ensures file.None? ==> r == Err(BadRequest)
    ensures file.Some? && caller !in s.users ==> r == Err(NotFound)
    ensures file.Some? && caller in s.users ==>
      (r.Ok? <==> UserModel.Save(s.users, caller, s.users[caller].(avatar := SlashPath(file.value))).Ok?)
    ensures r.Ok? ==>
      && r.value.reply.avatar == SlashPath(file.value) && '\\' !in r.value.reply.avatar
      && r.value.reply.connections == s.users[caller].connections
      && r.value.store == s.(users := s.users[caller := r.value.reply])
  {
    if file.None? then Err(BadRequest)
    else if caller !in s.users then Err(NotFound)
    else
      var users :- UserModel.Save(s.users, caller, s.users[caller].(avatar := SlashPath(file.value)));
      Ok(Step(WithUsers(s, users), users[caller]))
  }

  /** For a stored, conforming user an upload cannot fail: only the avatar
      changes. */
  lemma UploadAvatarSucceeds(s: Store, caller: Id, path: string)
    requires UsersConform(s.users) && caller in s.users
    ensures UploadAvatar(s, caller, Some(path)).Ok?
    ensures UploadAvatar(s, caller, Some(path)).value.reply == s.users[caller].(avatar := SlashPath(path))
  {
    assert UserModel.Conforms(s.users[caller]);
    var v := s.users[caller].(avatar := SlashPath(path));
    NormaliseEmailFixedIff(v.email);
    assert !UserModel.EmailTaken(s.users, caller, NormaliseEmail(v.email));
  }

  /** An upload changes the users and nothing else. */
  lemma UploadAvatarOnlyUsers(s: Store, caller: Id, file: Option<string>)
    requires UploadAvatar(s, caller, file).Ok?
    ensures var t := UploadAvatar(s, caller, file).value.store;
      t == s.(users := t.users) && t.users.Keys == s.users.Keys
  {
  }

  /** A successful upload stores exactly what the save produced. */
  lemma UploadAvatarSaves(s: Store, caller: Id, file: Option<string>)
    requires UploadAvatar(s, caller, file).Ok?
    ensures UploadAvatar(s, caller, file).value.store.users
      == UserModel.Save(s.users, caller, s.users[caller].(avatar := SlashPath(file.value))).value
  {
  }

  /** An upload keeps every user conforming and the email index unique. */
  lemma UploadAvatarConforms(s: Store, caller: Id, file: Option<string>)
    requires UsersConform(s.users)
    requires UploadAvatar(s, caller, file).Ok?
    ensures UsersConform(UploadAvatar(s, caller, file).value.store.users)
  {
    UploadAvatarSaves(s, caller, file);
  }

  /** An upload keeps every `connections` list. */
  lemma UploadAvatarKeepsLinks(s: Store, caller: Id, file: Option<string>)
    requires UploadAvatar(s, caller, file).Ok?
    ensures var t := UploadAvatar(s, caller, file).value.store;
      forall u | u in s.users :: u in t.users && t.users[u].connections == s.users[u].connections
  {
  }

  /** After an upload, reading the caller's profile gives the reply, and
      every other profile reads as before. */
  lemma ProfileAfterUpload(s: Store, caller: Id, file: Option<string>, other: Id)
    requires UploadAvatar(s, caller, file).Ok?
    ensures var step := UploadAvatar(s, caller, file).value;
      && Profile(step.store, caller) == Ok(step.reply)
      && (other != caller ==> Profile(step.store, other) == Profile(s, other))
  {
    var step := UploadAvatar(s, caller, file).value;
    ReadAfterReplace(s, step.store, caller, step.reply, other);
  }

  lemma UploadAvatarValid(s: Store, caller: Id, file: Option<string>)
    requires Valid(s)
    requires UploadAvatar(s, caller, file).Ok?
    ensures Valid(UploadAvatar(s, caller, file).value.store)
  {
    UploadAvatarOnlyUsers(s, caller, file);
    UploadAvatarConforms(s, caller, file);
    UploadAvatarKeepsLinks(s, caller, file);
    RelistedUsersValid(s, UploadAvatar(s, caller, file).value.store.users);
  }
}
