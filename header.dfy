/** The page header's data: the display fields of the signed-in user and
    `getUsers`, the list of other users with a `followed` flag that the
    search bar shows. The two queries are inputs: the user rows the first
    one selects and the followed ids the second one returns. */
module Header {
  import opened Optional
  import opened Store

  /** A user row as `getUsers` selects it. */
  datatype UserRow = UserRow(id: string, username: string, profileImage: Option<string>)

  /** An entry of the search bar's list. */
  datatype ListedUser = ListedUser(followed: bool, id: string, username: string, profileImage: Option<string>)

  /** The session's user id, or "" without a session. */
  function CurrentUserId(sessionId: Option<string>): string {
    sessionId.GetOr("")
  }

  /** The rows the first query keeps: every user except the current one,
      in order. */
  function OtherUsers(rows: seq<UserRow>, currentUserId: string): (r: seq<UserRow>)
    ensures |r| <= |rows|
  {
    if rows == [] then []
    else if rows[0].id != currentUserId then [rows[0]] + OtherUsers(rows[1..], currentUserId)
    else OtherUsers(rows[1..], currentUserId)
  }

  /** The current user is never listed, and every other row is. */
  lemma {:induction false} OtherUsersFacts(rows: seq<UserRow>, currentUserId: string)
    ensures forall i :: 0 <= i < |OtherUsers(rows, currentUserId)| ==>
      OtherUsers(rows, currentUserId)[i].id != currentUserId
    ensures forall row :: row in OtherUsers(rows, currentUserId) <==> row in rows && row.id != currentUserId
  {
    if rows != [] {
      OtherUsersFacts(rows[1..], currentUserId);
      assert rows == [rows[0]] + rows[1..];
    }
  }

  /** `getUsers`: each row gains `followed`, true when its id is among the
      followed ids. */
  function GetUsers(rows: seq<UserRow>, followingIds: seq<string>): (r: seq<ListedUser>)
    ensures |r| == |rows|
  {
    if rows == [] then []
    else [ListedUser(rows[0].id in followingIds, rows[0].id, rows[0].username, rows[0].profileImage)]
         + GetUsers(rows[1..], followingIds)
  }

  /** Entry by entry, the list keeps the rows' order and fields, and an
      entry is followed exactly when its id is a followed id. */
  lemma {:induction false} GetUsersFacts(rows: seq<UserRow>, followingIds: seq<string>)
    ensures forall i :: 0 <= i < |rows| ==>
      GetUsers(rows, followingIds)[i].id == rows[i].id &&
      GetUsers(rows, followingIds)[i].username == rows[i].username &&
      GetUsers(rows, followingIds)[i].profileImage == rows[i].profileImage &&
      (GetUsers(rows, followingIds)[i].followed <==> rows[i].id in followingIds)
  {
    if rows != [] {
      GetUsersFacts(rows[1..], followingIds);
      forall i | 1 <= i < |rows|
        ensures GetUsers(rows, followingIds)[i] == GetUsers(rows[1..], followingIds)[i - 1]
      {
      }
    }
  }

  /** The same list comes out for any two followed-id lists that hold the
      same ids. */
  lemma {:induction false} GetUsersOnlyMembership(rows: seq<UserRow>, a: seq<string>, b: seq<string>)
    requires forall x :: x in a <==> x in b
    ensures GetUsers(rows, a) == GetUsers(rows, b)
  {
    if rows != [] {
      GetUsersOnlyMembership(rows[1..], a, b);
    }
  }

  datatype Display = Display(firstName: string, lastName: string, username: string,
                             email: string, profileImage: string)

  /** The fields the header hands the user button: those of the user row
      whose id is the current user id, each `?? ""`, so a missing row and a
      missing image both give "". */
  function DisplayOf(users: map<string, UserRecord>, sessionId: Option<string>): Display {
    var id := CurrentUserId(sessionId);
    if id in users then
      var u := users[id];
      Display(u.firstName, u.lastName, u.username, u.email, u.profileImage.GetOr(""))
    else Display("", "", "", "", "")
  }

  /** Without a row for the current user every field is blank. With one,
      the names and the email are that row's, and the image is blank exactly
      when the row has none or an empty one; a non-blank image is the
      stored one. */
  lemma DisplayFacts(users: map<string, UserRecord>, sessionId: Option<string>)
    ensures var id := CurrentUserId(sessionId);
      id !in users ==> DisplayOf(users, sessionId) == Display("", "", "", "", "")
    ensures var id, d := CurrentUserId(sessionId), DisplayOf(users, sessionId);
      id in users ==>
        d.firstName == users[id].firstName && d.lastName == users[id].lastName &&
        d.username == users[id].username && d.email == users[id].email
    ensures var id, d := CurrentUserId(sessionId), DisplayOf(users, sessionId);
      d.profileImage == "" <==>
        (id !in users || users[id].profileImage.None? || users[id].profileImage.value == "")
    ensures var id, d := CurrentUserId(sessionId), DisplayOf(users, sessionId);
      d.profileImage != "" ==> id in users && users[id].profileImage == Some(d.profileImage)
  {
  }
}
