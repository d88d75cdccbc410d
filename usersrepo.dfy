/** The user repository (src/repositories/users/index.ts): lookups, creation with the
    duplicate-email check, updates, and the Google sign-in that finds a user by Google
    id, else links an account with the same email, else creates one. */
module UsersRepository {
  import opened JsSemantics
  import opened Errors
  import opened UserStore

  const EMAIL_TAKEN := "User with this email already exists"

  function NotFoundById(userId: string): Thrown
  {
    Raise("User with id " + userId + " not found", 404)
  }

  /** The profile Google reports. Absent and null fields are both `None`. */
  datatype GoogleUserData = GoogleUserData(
    googleId: string,
    email: string,
    firstName: Option<string>,
    lastName: Option<string>,
    profileImage: Option<string>)

  /** `findUserById`: the row, or 404 naming the id. */
  method FindUserById(t: UserTable, userId: string) returns (r: Result<User>)
    ensures !t.readable ==> r == Fail(FindByIdError())
    ensures t.readable && RowById(t.rows, userId).None? ==> r == Fail(NotFoundById(userId))
    ensures t.readable && RowById(t.rows, userId).Some? ==> r == Ok(RowById(t.rows, userId).value)
  {
    var found := t.FindById(userId);
    if found.Fail? {
      return Fail(found.error);
    }
    if found.value.None? {
      return Fail(NotFoundById(userId));
    }
    r := Ok(found.value.value);
  }

  /** `createUser`: with a non-empty email, an existing user with that email is a 409
      and nothing is written; then the row is created. */
  method CreateUser(t: UserTable, f: Fields, freshId: string, now: int) returns (r: Result<User>)
    requires t.Valid()
    modifies t
    ensures t.Valid() && t.readable == old(t.readable) && t.writable == old(t.writable)
    ensures Filled(f.email) && !t.readable ==> r == Fail(FindOneError()) && t.rows == old(t.rows)
    ensures Filled(f.email) && t.readable && FirstMatch(old(t.rows), ByEmail(f.email.value)).Some? ==>
              r == Fail(Raise(EMAIL_TAKEN, 409)) && t.rows == old(t.rows)
    ensures !Filled(f.email) || (t.readable && FirstMatch(old(t.rows), ByEmail(f.email.value)).None?) ==>
              if old(t.writable) && f.email.Some? && EmailChecked(f, t.isEmail) && Insertable(old(t.rows), NewUser(f, freshId, now))
              then r == Ok(NewUser(f, freshId, now)) && t.rows == old(t.rows) + [NewUser(f, freshId, now)]
              else r == Fail(CreateError()) && t.rows == old(t.rows)
    ensures f.email.Some? && !t.isEmail(f.email.value) ==> r.Fail? && t.rows == old(t.rows)
  {
    if Filled(f.email) {
      var existing := t.FindOne(ByEmail(f.email.value));
      if existing.Fail? {
        return Fail(existing.error);
      }
      if existing.value.Some? {
        return Fail(Raise(EMAIL_TAKEN, 409));
      }
    }
    r := t.Create(f, freshId, now);
  }

  /** `updateUser`: the number of rows with that id, which may be 0; an update that
      gives no attribute reports 0 and writes nothing. */
  method UpdateUser(t: UserTable, userId: string, f: Fields, now: int) returns (r: Result<nat>)
    requires t.Valid()
    modifies t
    ensures t.Valid() && t.readable == old(t.readable) && t.writable == old(t.writable)
    ensures WritesNothing(f) ==> r == Ok(0) && t.rows == old(t.rows)
    ensures !WritesNothing(f) && old(t.writable) && EmailChecked(f, t.isEmail) && Consistent(UpdateRows(old(t.rows), userId, f, now)) ==>
              r == Ok(Affected(old(t.rows), userId)) && t.rows == UpdateRows(old(t.rows), userId, f, now)
    ensures !WritesNothing(f) && !(old(t.writable) && EmailChecked(f, t.isEmail) && Consistent(UpdateRows(old(t.rows), userId, f, now))) ==>
              r == Fail(UpdateError()) && t.rows == old(t.rows)
  {
    r := t.Update(userId, f, now);
  }

  /** The profile fields a returning Google user gets: a name or image Google reports
      is written only where the stored one is empty. */
  function ProfileFill(u: User, data: GoogleUserData): Fields
  {
    NO_FIELDS.(
      firstName := if Filled(data.firstName) && !Filled(u.firstName) then Some(data.firstName) else None,
      lastName := if Filled(data.lastName) && !Filled(u.lastName) then Some(data.lastName) else None,
      profileImage := if Filled(data.profileImage) && !Filled(u.profileImage) then Some(data.profileImage) else None)
  }

  /** What linking an email account to Google writes: the Google id, the verified
      flag, and the reported image or else the stored one. */
  function LinkFields(u: User, data: GoogleUserData): Fields
  {
    NO_FIELDS.(
      googleId := Some(Some(data.googleId)),
      isVerified := Some(true),
      profileImage := Some(if Filled(data.profileImage) then data.profileImage else u.profileImage))
  }

  /** The attributes of a user created at first Google sign-in. */
  function GoogleDraft(data: GoogleUserData): Fields
  {
    Fields(Some(data.email), Some(NonEmptyOrNull(data.firstName)), Some(NonEmptyOrNull(data.lastName)), None,
           Some(Some(data.googleId)), Some(NonEmptyOrNull(data.profileImage)), None, Some(true), None)
  }

  /** What `findOrCreateGoogleUser` returns for a table `rows`. */
  function SignIn(rows: seq<User>, readable: bool, writable: bool, isEmail: string -> bool, data: GoogleUserData,
                  freshId: string, now: int)
    : Result<User>
  {
    if !readable then Fail(FindOneError())
    else match FirstMatch(rows, ByGoogleId(data.googleId))
      case Some(u) =>
        if ProfileFill(u, data) == NO_FIELDS then Ok(u)
        else if writable then Ok(Applied(u, ProfileFill(u, data), now))
        else Fail(UpdateError())
      case None =>
        match FirstMatch(rows, ByEmail(data.email))
        case Some(u) => if writable then Ok(Applied(u, LinkFields(u, data), now)) else Fail(UpdateError())
        case None =>
          var row := NewUser(GoogleDraft(data), freshId, now);
          if writable && isEmail(data.email) && Insertable(rows, row) then Ok(row) else Fail(CreateError())
  }

  /** The table after `findOrCreateGoogleUser`. */
  function AfterSignIn(rows: seq<User>, readable: bool, writable: bool, isEmail: string -> bool, data: GoogleUserData,
                       freshId: string, now: int)
    : seq<User>
  {
    if !readable || !writable then rows
    else match FirstMatch(rows, ByGoogleId(data.googleId))
      case Some(u) =>
        if ProfileFill(u, data) == NO_FIELDS then rows else UpdateRows(rows, u.id, ProfileFill(u, data), now)
      case None =>
        match FirstMatch(rows, ByEmail(data.email))
        case Some(u) => UpdateRows(rows, u.id, LinkFields(u, data), now)
        case None =>
          var row := NewUser(GoogleDraft(data), freshId, now);
          if isEmail(data.email) && Insertable(rows, row) then rows + [row] else rows
  }

  /** `findOrCreateGoogleUser(userData)`. */
  method FindOrCreateGoogleUser(t: UserTable, data: GoogleUserData, freshId: string, now: int)
    returns (r: Result<User>)
    requires t.Valid()
    modifies t
    ensures t.Valid() && t.readable == old(t.readable) && t.writable == old(t.writable)
    ensures r == SignIn(old(t.rows), t.readable, t.writable, t.isEmail, data, freshId, now)
    ensures t.rows == AfterSignIn(old(t.rows), t.readable, t.writable, t.isEmail, data, freshId, now)
  {
    var byGoogle := t.FindOne(ByGoogleId(data.googleId));
    if byGoogle.Fail? {
      return Fail(byGoogle.error);
    }
    if byGoogle.value.Some? {
      r := RefreshProfile(t, byGoogle.value.value, data, now);
      return;
    }
    var byEmail := t.FindOne(ByEmail(data.email));
    assert byEmail.Ok?;
    if byEmail.value.Some? {
      r := LinkGoogle(t, byEmail.value.value, data, now);
      return;
    }
    r := CreateUser(t, GoogleDraft(data), freshId, now);
  }

  /** The returning-user branch: collect the empty fields Google can fill, write them
      if there are any, and read the user back. */
  method RefreshProfile(t: UserTable, u: User, data: GoogleUserData, now: int) returns (r: Result<User>)
    requires t.Valid() && t.readable && FirstMatch(t.rows, ByGoogleId(data.googleId)) == Some(u)
    modifies t
    ensures t.Valid() && t.readable == old(t.readable) && t.writable == old(t.writable)
    ensures ProfileFill(u, data) == NO_FIELDS ==> r == Ok(u) && t.rows == old(t.rows)
    ensures ProfileFill(u, data) != NO_FIELDS && !old(t.writable) ==> r == Fail(UpdateError()) && t.rows == old(t.rows)
    ensures ProfileFill(u, data) != NO_FIELDS && old(t.writable) ==>
              r == Ok(Applied(u, ProfileFill(u, data), now)) && t.rows == UpdateRows(old(t.rows), u.id, ProfileFill(u, data), now)
  {
    var updates := CollectFill(u, data);
    if updates == NO_FIELDS {
      return Ok(u);
    }
    FoundRowById(t.rows, ByGoogleId(data.googleId));
    ProfileUpdateConsistent(t.rows, u.id, updates, now);
    RowByIdAfterUpdate(t.rows, u.id, updates, now);
    var n := UpdateUser(t, u.id, updates, now);
    if n.Fail? {
      return Fail(n.error);
    }
    r := FindUserById(t, u.id);
  }

  /** The `updates` object of the returning-user branch, one field at a time. */
  method CollectFill(u: User, data: GoogleUserData) returns (updates: Fields)
    ensures updates == ProfileFill(u, data)
  {
    updates := NO_FIELDS;
    if Filled(data.firstName) && !Filled(u.firstName) {
      updates := updates.(firstName := Some(data.firstName));
    }
    if Filled(data.lastName) && !Filled(u.lastName) {
      updates := updates.(lastName := Some(data.lastName));
    }
    if Filled(data.profileImage) && !Filled(u.profileImage) {
      updates := updates.(profileImage := Some(data.profileImage));
    }
  }

  /** The email-match branch: link the Google id and read the user back. */
  method LinkGoogle(t: UserTable, u: User, data: GoogleUserData, now: int) returns (r: Result<User>)
    requires t.Valid() && t.readable && FirstMatch(t.rows, ByEmail(data.email)) == Some(u)
    requires FirstMatch(t.rows, ByGoogleId(data.googleId)).None?
    modifies t
    ensures t.Valid() && t.readable == old(t.readable) && t.writable == old(t.writable)
    ensures !old(t.writable) ==> r == Fail(UpdateError()) && t.rows == old(t.rows)
    ensures old(t.writable) ==>
              r == Ok(Applied(u, LinkFields(u, data), now)) && t.rows == UpdateRows(old(t.rows), u.id, LinkFields(u, data), now)
  {
    var link := LinkFields(u, data);
    FoundRowById(t.rows, ByEmail(data.email));
    LinkConsistent(t.rows, u.id, data.googleId, link, now);
    RowByIdAfterUpdate(t.rows, u.id, link, now);
    var n := UpdateUser(t, u.id, link, now);
    if n.Fail? {
      return Fail(n.error);
    }
    r := FindUserById(t, u.id);
  }

  /** The fill never overwrites: a stored non-empty name or image is kept, an empty one
      takes the reported value when there is one, and nothing else changes. */
  lemma FillNeverOverwrites(u: User, data: GoogleUserData, now: int)
    ensures var v := Applied(u, ProfileFill(u, data), now);
      (Filled(u.firstName) ==> v.firstName == u.firstName) &&
      (!Filled(u.firstName) && Filled(data.firstName) ==> v.firstName == data.firstName) &&
      (Filled(u.lastName) ==> v.lastName == u.lastName) &&
      (!Filled(u.lastName) && Filled(data.lastName) ==> v.lastName == data.lastName) &&
      (Filled(u.profileImage) ==> v.profileImage == u.profileImage) &&
      (!Filled(u.profileImage) && Filled(data.profileImage) ==> v.profileImage == data.profileImage) &&
      v.email == u.email && v.googleId == u.googleId && v.isVerified == u.isVerified && v.isActive == u.isActive
    ensures ProfileFill(u, data) == NO_FIELDS <==>
      (Filled(data.firstName) ==> Filled(u.firstName)) && (Filled(data.lastName) ==> Filled(u.lastName)) &&
      (Filled(data.profileImage) ==> Filled(u.profileImage))
  {
  }

  /** A linked account carries the Google id and is verified; its email and names stay. */
  lemma LinkedAccount(u: User, data: GoogleUserData, now: int)
    ensures var v := Applied(u, LinkFields(u, data), now);
      v.googleId == Some(data.googleId) && v.isVerified && v.email == u.email &&
      v.firstName == u.firstName && v.lastName == u.lastName &&
      v.profileImage == (if Filled(data.profileImage) then data.profileImage else u.profileImage)
  {
  }

  /** A user created at sign-in is verified and linked, with nulls for empty names. */
  lemma CreatedGoogleUser(data: GoogleUserData, id: string, now: int)
    ensures var v := NewUser(GoogleDraft(data), id, now);
      v.email == data.email && v.googleId == Some(data.googleId) && v.isVerified && v.isActive &&
      v.password.None? && v.firstName == NonEmptyOrNull(data.firstName) &&
      v.lastName == NonEmptyOrNull(data.lastName) && v.profileImage == NonEmptyOrNull(data.profileImage)
  {
  }

  /** A first sign-in whose email the validator refuses creates nobody: it fails with
      the create error and the table is unchanged. */
  lemma RefusedEmailNotCreated(rows: seq<User>, isEmail: string -> bool, data: GoogleUserData, freshId: string, now: int)
    requires FirstMatch(rows, ByGoogleId(data.googleId)).None? && FirstMatch(rows, ByEmail(data.email)).None?
    requires !isEmail(data.email)
    ensures SignIn(rows, true, true, isEmail, data, freshId, now) == Fail(CreateError())
    ensures AfterSignIn(rows, true, true, isEmail, data, freshId, now) == rows
  {
  }

  /** Under the unique Google-id column, a row holding that id is the one found. */
  lemma GoogleIdFound(rows: seq<User>, i: nat, googleId: string)
    requires Consistent(rows) && i < |rows| && rows[i].googleId == Some(googleId)
    ensures FirstMatch(rows, ByGoogleId(googleId)) == Some(rows[i])
  {
    var v := FirstMatch(rows, ByGoogleId(googleId)).value;
    var k :| 0 <= k < |rows| && rows[k] == v;
  }

  /** After a successful sign-in, the Google id finds the user returned. */
  lemma SignInFindsUser(rows: seq<User>, isEmail: string -> bool, data: GoogleUserData, freshId: string, now: int)
    requires Consistent(rows) && SignIn(rows, true, true, isEmail, data, freshId, now).Ok?
    ensures Consistent(AfterSignIn(rows, true, true, isEmail, data, freshId, now))
    ensures FirstMatch(AfterSignIn(rows, true, true, isEmail, data, freshId, now), ByGoogleId(data.googleId)) ==
            Some(SignIn(rows, true, true, isEmail, data, freshId, now).value)
  {
    var out := AfterSignIn(rows, true, true, isEmail, data, freshId, now);
    var v := SignIn(rows, true, true, isEmail, data, freshId, now).value;
    match FirstMatch(rows, ByGoogleId(data.googleId))
    case Some(u) =>
      var i :| 0 <= i < |rows| && rows[i] == u;
      ProfileUpdateConsistent(rows, u.id, ProfileFill(u, data), now);
      GoogleIdFound(out, i, data.googleId);
    case None =>
      match FirstMatch(rows, ByEmail(data.email))
      case Some(u) =>
        var i :| 0 <= i < |rows| && rows[i] == u;
        LinkConsistent(rows, u.id, data.googleId, LinkFields(u, data), now);
        GoogleIdFound(out, i, data.googleId);
      case None =>
        AppendKeepsConsistent(rows, v);
        GoogleIdFound(out, |rows|, data.googleId);
  }

  /** Signing in again with the same profile writes nothing and returns the same user,
      unless the first sign-in linked an email account: linking fills no names. */
  lemma RepeatedSignInWritesNothing(rows: seq<User>, isEmail: string -> bool, data: GoogleUserData, freshId: string, id2: string,
                                    now: int, later: int)
    requires Consistent(rows) && SignIn(rows, true, true, isEmail, data, freshId, now).Ok?
    requires FirstMatch(rows, ByGoogleId(data.googleId)).Some? || FirstMatch(rows, ByEmail(data.email)).None?
    ensures var out := AfterSignIn(rows, true, true, isEmail, data, freshId, now);
      SignIn(out, true, true, isEmail, data, id2, later) == SignIn(rows, true, true, isEmail, data, freshId, now) &&
      AfterSignIn(out, true, true, isEmail, data, id2, later) == out
  {
    SignInFindsUser(rows, isEmail, data, freshId, now);
  }

  /** A linked account whose first name is empty gets Google's first name only at the
      next sign-in. */
  lemma LinkDefersNames(rows: seq<User>, isEmail: string -> bool, data: GoogleUserData, freshId: string, id2: string, now: int, later: int)
    requires Consistent(rows) && SignIn(rows, true, true, isEmail, data, freshId, now).Ok?
    requires FirstMatch(rows, ByGoogleId(data.googleId)).None? && FirstMatch(rows, ByEmail(data.email)).Some?
    requires Filled(data.firstName) && !Filled(FirstMatch(rows, ByEmail(data.email)).value.firstName)
    ensures SignIn(rows, true, true, isEmail, data, freshId, now).value.firstName != data.firstName
    ensures var out := AfterSignIn(rows, true, true, isEmail, data, freshId, now);
      SignIn(out, true, true, isEmail, data, id2, later).Ok? &&
      SignIn(out, true, true, isEmail, data, id2, later).value.firstName == data.firstName
  {
    SignInFindsUser(rows, isEmail, data, freshId, now);
  }
}
