/** The onboarding server actions: `getUser` decides where a user is sent
    on the onboarding page, and `submitUserInfo` creates or replaces the
    user-info row with its allergies. */
module OnboardingActions {
  import opened Optional
  import opened Store
  import SettingsActions
  import Schema

  /** A fetched user with the user-info row the query includes. */
  datatype FetchedUser = FetchedUser(user: UserRecord, userInfo: Option<InfoRecord>)

  /** The lookup of user `id` with its user-info row. */
  function Fetch(users: map<string, UserRecord>, infos: map<string, InfoRecord>, id: string): Option<FetchedUser> {
    if id in users then
      Some(FetchedUser(users[id], if id in infos then Some(infos[id]) else None))
    else None
  }

  datatype GetUserResult = Redirect(path: string) | Found(user: Option<FetchedUser>)

  /** `getUser` over the fetched user, every branch as written, the last two
      included. */
  function GetUser(id: string, user: Option<FetchedUser>): GetUserResult {
    if user.None? then Redirect("/login")
    else if user.value.userInfo.Some? then Redirect("/home")
    else if user.Some? && user.value.userInfo.None? then Redirect("/onboarding/" + id)
    else if user.None? then Redirect("/login")
    else Found(user)
  }

  /** `getUser` always redirects: to the login page without a user, home
      with a user-info row, and to the user's own onboarding page
      otherwise. The fall-through returning the user is never reached. */
  lemma GetUserRedirects(users: map<string, UserRecord>, infos: map<string, InfoRecord>, id: string)
    ensures GetUser(id, Fetch(users, infos, id)).Redirect?
    ensures GetUser(id, Fetch(users, infos, id)) == Redirect("/login") <==> id !in users
    ensures GetUser(id, Fetch(users, infos, id)) == Redirect("/home") <==> id in users && id in infos
    ensures GetUser(id, Fetch(users, infos, id)) == Redirect("/onboarding/" + id) <==> id in users && id !in infos
  {
    var r := GetUser(id, Fetch(users, infos, id));
    assert "/onboarding/" + id != "/login" by {
      assert ("/onboarding/" + id)[1] != "/login"[1];
    }
    assert "/onboarding/" + id != "/home" by {
      assert ("/onboarding/" + id)[1] != "/home"[1];
    }
  }

  /** The submitted values; the budget may be missing, since a server
      action receives whatever the client sends. */
  datatype OnboardingValues = OnboardingValues(
    birthDate: string, height: real, weight: real, monthlyBudget: Option<real>,
    allergies: seq<string>)

  datatype SubmitResult = SubmitError(error: string) | Submitted

  const NotFoundMsg := "User not found"
  const UnknownErrorMsg := "An unknown error occurred"

  /** The row written in both branches; `monthlyBudget ?? 0`. */
  function InfoOf(v: OnboardingValues): InfoRecord {
    InfoRecord(v.birthDate, v.height, v.weight, v.monthlyBudget.GetOr(0.0), v.allergies)
  }

  datatype SubmitOutcome = SubmitOutcome(result: SubmitResult, infos: map<string, InfoRecord>)

  /** What `submitUserInfo` answers and what the user-info table becomes.
      The update of a missing user fails and lands in the `catch`; on the
      replace branch the allergies are already deleted by then. */
  function Submit(users: map<string, UserRecord>, infos: map<string, InfoRecord>,
                  sessionId: Option<string>, userId: string, v: OnboardingValues): SubmitOutcome
  {
    if sessionId != Some(userId) then SubmitOutcome(SubmitError(NotFoundMsg), infos)
    else if userId in infos then
      var cleared := infos[userId := infos[userId].(allergies := [])];
      if userId in users then SubmitOutcome(Submitted, infos[userId := InfoOf(v)])
      else SubmitOutcome(SubmitError(UnknownErrorMsg), cleared)
    else if userId in users then SubmitOutcome(Submitted, infos[userId := InfoOf(v)])
    else SubmitOutcome(SubmitError(UnknownErrorMsg), infos)
  }

  /** The action against the store: on the replace branch the allergies are
      deleted, then the row is rewritten; otherwise a row is created. */
  method SubmitUserInfo(db: Database, sessionId: Option<string>, userId: string, v: OnboardingValues)
    returns (r: SubmitResult)
    requires db.Valid()
    modifies db
    ensures SubmitOutcome(r, db.infos) == Submit(old(db.users), old(db.infos), sessionId, userId, v)
    ensures db.users == old(db.users)
    ensures db.Valid()
  {
    if sessionId != Some(userId) {
      return SubmitError(NotFoundMsg);
    }
    var budget := if v.monthlyBudget.Some? then v.monthlyBudget.value else 0.0;
    if userId in db.infos {
      db.infos := db.infos[userId := db.infos[userId].(allergies := [])];
      db.infos := db.infos[userId := InfoRecord(v.birthDate, v.height, v.weight, budget, v.allergies)];
      r := Submitted;
    } else if userId in db.users {
      db.infos := db.infos[userId := InfoRecord(v.birthDate, v.height, v.weight, budget, v.allergies)];
      r := Submitted;
    } else {
      r := SubmitError(UnknownErrorMsg);
    }
  }

  /** A session that is not the user's own is refused and nothing is
      written. */
  lemma SubmitWrongSession(users: map<string, UserRecord>, infos: map<string, InfoRecord>,
                           sessionId: Option<string>, userId: string, v: OnboardingValues)
    requires sessionId != Some(userId)
    ensures Submit(users, infos, sessionId, userId, v) == SubmitOutcome(SubmitError(NotFoundMsg), infos)
  {
  }

  /** For the user's own session, on a consistent store, the row ends up
      holding exactly the submitted values and allergies, with a missing
      budget stored as 0; an existing row is replaced, a missing one
      created, and no other row changes. */
  lemma SubmitWritesRow(users: map<string, UserRecord>, infos: map<string, InfoRecord>,
                        userId: string, v: OnboardingValues)
    requires infos.Keys <= users.Keys && userId in users
    ensures var o := Submit(users, infos, Some(userId), userId, v);
      o.result == Submitted && userId in o.infos &&
      o.infos[userId].birthDate == v.birthDate &&
      o.infos[userId].height == v.height && o.infos[userId].weight == v.weight &&
      o.infos[userId].allergies == v.allergies &&
      o.infos[userId].budget == (if v.monthlyBudget.Some? then v.monthlyBudget.value else 0.0) &&
      o.infos.Keys == infos.Keys + {userId} &&
      o.infos.Keys <= users.Keys
    ensures var o := Submit(users, infos, Some(userId), userId, v);
      forall k :: k in infos && k != userId ==> o.infos[k] == infos[k]
  {
  }

  /** Without a user record the update fails into the `catch`: a missing
      row stays missing, and an existing row has already lost its
      allergies to the delete that ran first. */
  lemma SubmitWithoutUser(users: map<string, UserRecord>, infos: map<string, InfoRecord>,
                          userId: string, v: OnboardingValues)
    requires userId !in users
    ensures var o := Submit(users, infos, Some(userId), userId, v);
      o.result == SubmitError(UnknownErrorMsg) && o.infos.Keys == infos.Keys &&
      (userId in infos ==> o.infos[userId] == infos[userId].(allergies := []))
    ensures var o := Submit(users, infos, Some(userId), userId, v);
      forall k :: k in infos && k != userId ==> o.infos[k] == infos[k]
  {
  }

  /** After a successful submission the onboarding page sends the user
      home. */
  lemma SubmitThenGoesHome(users: map<string, UserRecord>, infos: map<string, InfoRecord>,
                           userId: string, v: OnboardingValues)
    requires infos.Keys <= users.Keys && userId in users
    ensures var o := Submit(users, infos, Some(userId), userId, v);
      GetUser(userId, Fetch(users, o.infos, userId)) == Redirect("/home")
  {
    SubmitWritesRow(users, infos, userId, v);
  }

  /** When a row exists and a budget is given, onboarding and the settings
      action store the same row. */
  lemma SubmitAgreesWithSettings(users: map<string, UserRecord>, infos: map<string, InfoRecord>,
                                 userId: string, v: OnboardingValues, budget: real)
    requires userId in users && userId in infos && v.monthlyBudget == Some(budget)
    ensures Submit(users, infos, Some(userId), userId, v).infos ==
      SettingsActions.InfoUpdate(infos, Some(userId),
        Schema.UserInfoForm(v.birthDate, v.height, v.weight, budget, v.allergies)).infos
  {
  }
}
