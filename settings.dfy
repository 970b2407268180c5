/** The two settings server actions: `updateUserSettings` rewrites the
    profile fields of the signed-in user and, when both new-password
    fields are filled in, the password; `updateUserInfo` replaces the
    user-info row with its allergy list. The Argon2 `verify` and `hash`
    are parameters. */
module SettingsActions {
  import opened Optional
  import opened Store
  import Schema

  /** The action's answer; `Rejected` is a promise that rejects because a
      Prisma call threw. */
  datatype ActionResult = Failure(error: string) | Success(message: string) | Rejected

  const UnauthorizedMsg := "Unauthorized"
  const MismatchMsg := "Passwords do not match"
  const WrongCurrentMsg := "Incorrect current password"
  const SettingsSavedMsg := "User settings updated successfully"
  const InfoMissingMsg := "User info not found"
  const InfoSavedMsg := "User info updated successfully"

  /** JavaScript truthiness of an optional string: present and non-empty. */
  predicate Truthy(o: Option<string>) {
    o.Some? && o.value != ""
  }

  /** `newPassword && confirmNewPassword`: the password change is
      considered only when both fields are filled in. */
  predicate WantsNewPassword(v: Schema.SettingsForm) {
    Truthy(v.newPassword) && Truthy(v.confirmNewPassword)
  }

  datatype SettingsOutcome = SettingsOutcome(result: ActionResult, users: map<string, UserRecord>)

  /** Another user already has `username`. The column is unique (the profile
      page finds a user by it with `findUnique`), so writing it makes the
      `update` throw. */
  predicate UsernameTakenByOther(users: map<string, UserRecord>, id: string, username: string) {
    exists k :: k in users && k != id && users[k].username == username
  }

  /** What `updateUserSettings` answers and what the user table becomes. */
  function SettingsUpdate(users: map<string, UserRecord>, sessionId: Option<string>,
                          v: Schema.SettingsForm, verify: (string, Option<string>) -> bool,
                          hash: string -> string): SettingsOutcome
  {
    if sessionId.None? || sessionId.value !in users then
      SettingsOutcome(Failure(UnauthorizedMsg), users)
    else
      var u := users[sessionId.value];
      var data := UserRecord(v.firstName, v.lastName, v.username, v.email, Some(v.image), v.bio, u.password);
      if WantsNewPassword(v) && v.newPassword.value != v.confirmNewPassword.value then
        SettingsOutcome(Failure(MismatchMsg), users)
      else if WantsNewPassword(v) && !verify(u.password, v.currentPassword) then
        SettingsOutcome(Failure(WrongCurrentMsg), users)
      else if UsernameTakenByOther(users, sessionId.value, v.username) then
        SettingsOutcome(Rejected, users)
      else if WantsNewPassword(v) then
        SettingsOutcome(Success(SettingsSavedMsg),
                        users[sessionId.value := data.(password := hash(v.newPassword.value))])
      else
        SettingsOutcome(Success(SettingsSavedMsg), users[sessionId.value := data])
  }

  /** The action against the store: the record is built field by field, the
      password is added only after the checks, and one write follows. */
  method UpdateUserSettings(db: Database, sessionId: Option<string>, v: Schema.SettingsForm,
                            verify: (string, Option<string>) -> bool, hash: string -> string)
    returns (r: ActionResult)
    requires db.Valid()
    modifies db
    ensures SettingsOutcome(r, db.users) == SettingsUpdate(old(db.users), sessionId, v, verify, hash)
    ensures db.infos == old(db.infos)
    ensures db.Valid()
  {
    if sessionId.None? || sessionId.value !in db.users {
      return Failure(UnauthorizedMsg);
    }
    var id := sessionId.value;
    var existing := db.users[id];
    var updated := UserRecord(v.firstName, v.lastName, v.username, v.email, Some(v.image), v.bio, existing.password);
    if Truthy(v.newPassword) && Truthy(v.confirmNewPassword) {
      if v.newPassword.value != v.confirmNewPassword.value {
        return Failure(MismatchMsg);
      } else {
        var validPassword := verify(existing.password, v.currentPassword);
        if validPassword {
          updated := updated.(password := hash(v.newPassword.value));
        } else {
          return Failure(WrongCurrentMsg);
        }
      }
    }
    if exists k :: k in db.users && k != id && db.users[k].username == v.username {
      return Rejected;
    }
    db.users := db.users[id := updated];
    r := Success(SettingsSavedMsg);
  }

  /** Without a user for the session the action refuses and writes
      nothing. */
  lemma SettingsUnauthorized(users: map<string, UserRecord>, sessionId: Option<string>,
                             v: Schema.SettingsForm, verify: (string, Option<string>) -> bool,
                             hash: string -> string)
    ensures var o := SettingsUpdate(users, sessionId, v, verify, hash);
      (sessionId.None? || sessionId.value !in users) <==> o.result == Failure(UnauthorizedMsg)
    ensures var o := SettingsUpdate(users, sessionId, v, verify, hash);
      o.result.Failure? ==> o.users == users
  {
  }

  /** A successful update writes the six profile fields of the session's
      user, the image as `profileImage`, and no other user. */
  lemma SettingsWritesProfile(users: map<string, UserRecord>, sessionId: Option<string>,
                              v: Schema.SettingsForm, verify: (string, Option<string>) -> bool,
                              hash: string -> string)
    ensures var o := SettingsUpdate(users, sessionId, v, verify, hash);
      o.result.Success? ==>
        sessionId.Some? && sessionId.value in users && o.users.Keys == users.Keys &&
        var u := o.users[sessionId.value];
        u.firstName == v.firstName && u.lastName == v.lastName &&
        u.username == v.username && u.email == v.email &&
        u.profileImage == Some(v.image) && u.bio == v.bio
    ensures var o := SettingsUpdate(users, sessionId, v, verify, hash);
      forall k :: k in users && Some(k) != sessionId ==> k in o.users && o.users[k] == users[k]
  {
  }

  /** Unless both new-password fields are filled in, the stored password
      stays as it was and the update succeeds for a signed-in user. */
  lemma SettingsKeepsPassword(users: map<string, UserRecord>, sessionId: Option<string>,
                              v: Schema.SettingsForm, verify: (string, Option<string>) -> bool,
                              hash: string -> string)
    requires sessionId.Some? && sessionId.value in users
    requires !WantsNewPassword(v)
    requires !UsernameTakenByOther(users, sessionId.value, v.username)
    ensures var o := SettingsUpdate(users, sessionId, v, verify, hash);
      o.result == Success(SettingsSavedMsg) &&
      o.users[sessionId.value].password == users[sessionId.value].password
  {
  }

  /** With both fields filled in: different values refuse with the
      mismatch message, a failed check of the current password refuses with
      its own message, and otherwise the password becomes the hash of the
      new one. A refusal writes nothing. */
  lemma SettingsChangesPassword(users: map<string, UserRecord>, sessionId: Option<string>,
                                v: Schema.SettingsForm, verify: (string, Option<string>) -> bool,
                                hash: string -> string)
    requires sessionId.Some? && sessionId.value in users
    requires WantsNewPassword(v)
    ensures var o := SettingsUpdate(users, sessionId, v, verify, hash);
      v.newPassword.value != v.confirmNewPassword.value ==>
        o.result == Failure(MismatchMsg) && o.users == users
    ensures var o := SettingsUpdate(users, sessionId, v, verify, hash);
      v.newPassword.value == v.confirmNewPassword.value &&
      !verify(users[sessionId.value].password, v.currentPassword) ==>
        o.result == Failure(WrongCurrentMsg) && o.users == users
    ensures var o := SettingsUpdate(users, sessionId, v, verify, hash);
      v.newPassword.value == v.confirmNewPassword.value &&
      verify(users[sessionId.value].password, v.currentPassword) &&
      !UsernameTakenByOther(users, sessionId.value, v.username) ==>
        o.result == Success(SettingsSavedMsg) &&
        o.users[sessionId.value].password == hash(v.newPassword.value)
  {
  }

  /** A username another user already has is never saved: past the
      password checks the update throws, and nothing is written. */
  lemma SettingsUsernameTaken(users: map<string, UserRecord>, sessionId: Option<string>,
                              v: Schema.SettingsForm, verify: (string, Option<string>) -> bool,
                              hash: string -> string)
    requires sessionId.Some? && sessionId.value in users
    requires UsernameTakenByOther(users, sessionId.value, v.username)
    ensures var o := SettingsUpdate(users, sessionId, v, verify, hash);
      !o.result.Success? && o.users == users
    ensures var o := SettingsUpdate(users, sessionId, v, verify, hash);
      (!WantsNewPassword(v) ||
       (v.newPassword.value == v.confirmNewPassword.value &&
        verify(users[sessionId.value].password, v.currentPassword))) ==>
        o.result == Rejected
  {
  }

  /** Values that passed the settings schema never reach the mismatch
      refusal: the schema already demands equal new passwords. */
  lemma SchemaRulesOutMismatch(users: map<string, UserRecord>, sessionId: Option<string>,
                               v: Schema.SettingsForm, emailFormatOk: bool,
                               verify: (string, Option<string>) -> bool, hash: string -> string)
    requires Schema.SettingsIssues(v, emailFormatOk) == []
    ensures SettingsUpdate(users, sessionId, v, verify, hash).result != Failure(MismatchMsg)
  {
    Schema.SettingsAccepts(v, emailFormatOk);
  }

  /** `updateUserSettings` exactly as written. Without a session the id is
      `undefined`, which Prisma drops from `findFirst`'s filter, so the
      lookup finds the table's first user rather than none. The password
      checks then run against that user, and the final `update`, whose
      unique filter is empty as well, throws. */
  function SettingsUpdateAsWritten(users: map<string, UserRecord>, first: Option<string>,
                                   sessionId: Option<string>, v: Schema.SettingsForm,
                                   verify: (string, Option<string>) -> bool,
                                   hash: string -> string): SettingsOutcome
    requires FirstRow(users, first)
  {
    if sessionId.Some? then SettingsUpdate(users, sessionId, v, verify, hash)
    else if first.None? then SettingsOutcome(Failure(UnauthorizedMsg), users)
    else
      var u := users[first.value];
      if WantsNewPassword(v) && v.newPassword.value != v.confirmNewPassword.value then
        SettingsOutcome(Failure(MismatchMsg), users)
      else if WantsNewPassword(v) && !verify(u.password, v.currentPassword) then
        SettingsOutcome(Failure(WrongCurrentMsg), users)
      else
        SettingsOutcome(Rejected, users)
  }

  /** As written, a caller without a session is never told "Unauthorized"
      while any user exists: the checks run against the first user's
      password, and what gets past them makes the update throw. The
      intended answer is the refusal `SettingsUpdate` gives. */
  lemma SignedOutSettingsAsWritten(users: map<string, UserRecord>, first: Option<string>,
                                   v: Schema.SettingsForm, verify: (string, Option<string>) -> bool,
                                   hash: string -> string)
    requires FirstRow(users, first) && users != map[]
    ensures var o := SettingsUpdateAsWritten(users, first, None, v, verify, hash);
      o.result != Failure(UnauthorizedMsg) && o.users == users
    ensures var o := SettingsUpdateAsWritten(users, first, None, v, verify, hash);
      !WantsNewPassword(v) ==> o.result == Rejected
    ensures SettingsUpdate(users, None, v, verify, hash) == SettingsOutcome(Failure(UnauthorizedMsg), users)
  {
    assert first.Some?;
  }

  datatype InfoOutcome = InfoOutcome(result: ActionResult, infos: map<string, InfoRecord>)

  /** The row `updateUserInfo` writes: every submitted field, and exactly
      the submitted allergies. */
  function InfoOf(v: Schema.UserInfoForm): InfoRecord {
    InfoRecord(v.birthDate, v.height, v.weight, v.monthlyBudget, v.allergies)
  }

  /** What `updateUserInfo` answers and what the user-info table
      becomes. */
  function InfoUpdate(infos: map<string, InfoRecord>, sessionId: Option<string>,
                      v: Schema.UserInfoForm): InfoOutcome
  {
    if sessionId.None? || sessionId.value !in infos then
      InfoOutcome(Failure(InfoMissingMsg), infos)
    else
      InfoOutcome(Success(InfoSavedMsg), infos[sessionId.value := InfoOf(v)])
  }

  /** The action against the store: the old allergies are deleted first,
      then the row is rewritten with the submitted ones. */
  method UpdateUserInfo(db: Database, sessionId: Option<string>, v: Schema.UserInfoForm)
    returns (r: ActionResult)
    requires db.Valid()
    modifies db
    ensures InfoOutcome(r, db.infos) == InfoUpdate(old(db.infos), sessionId, v)
    ensures db.users == old(db.users)
    ensures db.Valid()
  {
    if sessionId.None? || sessionId.value !in db.infos {
      return Failure(InfoMissingMsg);
    }
    var id := sessionId.value;
    db.infos := db.infos[id := db.infos[id].(allergies := [])];
    db.infos := db.infos[id := InfoRecord(v.birthDate, v.height, v.weight, v.monthlyBudget, v.allergies)];
    r := Success(InfoSavedMsg);
  }

  /** Without a user-info row the action refuses and changes nothing; with
      one, it replaces that row, allergies included, and no other. */
  lemma InfoUpdateFacts(infos: map<string, InfoRecord>, sessionId: Option<string>,
                        v: Schema.UserInfoForm)
    ensures var o := InfoUpdate(infos, sessionId, v);
      (sessionId.None? || sessionId.value !in infos) <==> o.result == Failure(InfoMissingMsg)
    ensures var o := InfoUpdate(infos, sessionId, v);
      o.result.Failure? ==> o.infos == infos
    ensures var o := InfoUpdate(infos, sessionId, v);
      o.result.Success? ==>
        o.infos.Keys == infos.Keys &&
        o.infos[sessionId.value].allergies == v.allergies &&
        o.infos[sessionId.value].birthDate == v.birthDate &&
        o.infos[sessionId.value].height == v.height &&
        o.infos[sessionId.value].weight == v.weight &&
        o.infos[sessionId.value].budget == v.monthlyBudget
    ensures var o := InfoUpdate(infos, sessionId, v);
      forall k :: k in infos && Some(k) != sessionId ==> k in o.infos && o.infos[k] == infos[k]
  {
  }

  /** `updateUserInfo` exactly as written. Without a session `findFirst`
      finds the first user-info row, the allergies of that row are deleted,
      and then the `update`, with an empty unique filter, throws. */
  function InfoUpdateAsWritten(infos: map<string, InfoRecord>, first: Option<string>,
                               sessionId: Option<string>, v: Schema.UserInfoForm): InfoOutcome
    requires FirstRow(infos, first)
  {
    if sessionId.Some? then InfoUpdate(infos, sessionId, v)
    else if first.None? then InfoOutcome(Failure(InfoMissingMsg), infos)
    else InfoOutcome(Rejected, infos[first.value := infos[first.value].(allergies := [])])
  }

  /** As written, a caller without a session wipes the first user-info
      row's allergies before the action throws; every other field and row
      is kept. The intended answer is the refusal `InfoUpdate` gives, which
      writes nothing. */
  lemma SignedOutInfoAsWritten(infos: map<string, InfoRecord>, first: Option<string>,
                               v: Schema.UserInfoForm)
    requires FirstRow(infos, first) && infos != map[]
    ensures var o := InfoUpdateAsWritten(infos, first, None, v);
      o.result == Rejected && o.infos.Keys == infos.Keys &&
      o.infos[first.value] == infos[first.value].(allergies := []) &&
      forall k :: k in infos && k != first.value ==> o.infos[k] == infos[k]
    ensures InfoUpdate(infos, None, v) == InfoOutcome(Failure(InfoMissingMsg), infos)
  {
    assert first.Some?;
  }

  /** Submitting the same values twice is the same as submitting them
      once: the old allergies never survive a replacement. */
  lemma InfoUpdateIdempotent(infos: map<string, InfoRecord>, sessionId: Option<string>,
                             v: Schema.UserInfoForm)
    ensures var once := InfoUpdate(infos, sessionId, v);
      InfoUpdate(once.infos, sessionId, v) == once
  {
  }
}
