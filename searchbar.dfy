/** The search bar's user list: a follow button per user that calls the
    follow or unfollow action and then sets that user's `followed` flag,
    with a `loading` flag that disables every button meanwhile. The
    follow actions themselves are outside this model; the call is split
    into the click that starts it and the completion that applies it. */
module Searchbar {
  import opened Optional
  import opened Header

  /** The `followed` flag of every entry with id `id` becomes `follow`. */
  function SetFollowed(list: seq<ListedUser>, id: string, follow: bool): (r: seq<ListedUser>)
    ensures |r| == |list|
  {
    if list == [] then []
    else [if list[0].id == id then list[0].(followed := follow) else list[0]]
         + SetFollowed(list[1..], id, follow)
  }

  /** Exactly the entries with that id get the new flag; every other entry,
      the order and the other fields stay as they were. */
  lemma {:induction false} SetFollowedFacts(list: seq<ListedUser>, id: string, follow: bool)
    ensures forall i :: 0 <= i < |list| ==>
      if list[i].id == id then SetFollowed(list, id, follow)[i] == list[i].(followed := follow)
      else SetFollowed(list, id, follow)[i] == list[i]
  {
    if list != [] {
      SetFollowedFacts(list[1..], id, follow);
      forall i | 1 <= i < |list|
        ensures SetFollowed(list, id, follow)[i] == SetFollowed(list[1..], id, follow)[i - 1]
      {
      }
    }
  }

  /** The button text. */
  function Label(u: ListedUser): (s: string)
    ensures s == "(-) Unfollow" <==> u.followed
  {
    if u.followed then "(-) Unfollow" else "(+) Follow"
  }

  predicate DistinctIds(list: seq<ListedUser>) {
    forall i, j :: 0 <= i < j < |list| ==> list[i].id != list[j].id
  }

  /** With distinct ids, a click flips that user's flag and label, and a
      second click on the same user restores the list. */
  lemma ClickTwiceRestores(list: seq<ListedUser>, i: int)
    requires DistinctIds(list) && 0 <= i < |list|
    ensures var once := SetFollowed(list, list[i].id, !list[i].followed);
      once[i].followed == !list[i].followed && Label(once[i]) != Label(list[i]) &&
      SetFollowed(once, once[i].id, !once[i].followed) == list
  {
    var id := list[i].id;
    var once := SetFollowed(list, id, !list[i].followed);
    SetFollowedFacts(list, id, !list[i].followed);
    assert once[i].id == id;
    var twice := SetFollowed(once, id, !once[i].followed);
    SetFollowedFacts(once, id, !once[i].followed);
    assert forall k :: 0 <= k < |list| ==> twice[k] == list[k] by {
      forall k | 0 <= k < |list| ensures twice[k] == list[k] {
        if k != i {
          assert list[k].id != id by {
            if k < i { assert list[k].id != list[i].id; } else { assert list[i].id != list[k].id; }
          }
        }
      }
    }
  }

  /** The ids in `ids` other than `id`. */
  function Without(ids: seq<string>, id: string): (r: seq<string>)
    ensures forall x :: x in r <==> x in ids && x != id
  {
    if ids == [] then [] else (if ids[0] == id then [] else [ids[0]]) + Without(ids[1..], id)
  }

  /** After a follow the list is what the header builds with that id
      added to the followed ids, and after an unfollow what it builds with
      the id removed: the flags shown agree with the server's follows. */
  lemma {:induction false} FollowAgreesWithHeader(rows: seq<UserRow>, followingIds: seq<string>, id: string)
    ensures SetFollowed(GetUsers(rows, followingIds), id, true) == GetUsers(rows, followingIds + [id])
    ensures SetFollowed(GetUsers(rows, followingIds), id, false) == GetUsers(rows, Without(followingIds, id))
  {
    if rows != [] {
      FollowAgreesWithHeader(rows[1..], followingIds, id);
      assert GetUsers(rows, followingIds)[1..] == GetUsers(rows[1..], followingIds);
    }
  }

  datatype Pending = Pending(id: string, follow: bool)

  class SearchbarState {
    var userList: seq<ListedUser>
    var loading: bool
    /** The follow or unfollow call under way, if any. */
    var pending: Option<Pending>

    /** `loading` is set exactly while a call is under way. */
    ghost predicate Valid()
      reads this
    {
      loading <==> pending.Some?
    }

    constructor (users: seq<ListedUser>)
      ensures userList == users && !loading && pending == None
      ensures Valid()
    {
      userList := users;
      loading := false;
      pending := None;
    }

    /** A click on the button of entry `index`: ignored while loading,
        since the buttons are disabled; otherwise the call for
        `!followed` starts and `loading` is set. */
    method Click(index: int)
      requires Valid() && 0 <= index < |userList|
      modifies this
      ensures Valid()
      ensures userList == old(userList)
      ensures old(loading) ==> loading == old(loading) && pending == old(pending)
      ensures !old(loading) ==> loading && pending == Some(Pending(old(userList)[index].id, !old(userList)[index].followed))
    {
      if !loading {
        loading := true;
        pending := Some(Pending(userList[index].id, !userList[index].followed));
      }
    }

    /** The call returns: the flag is applied and `loading` is cleared. */
    method Complete()
      requires Valid() && pending.Some?
      modifies this
      ensures Valid() && !loading && pending == None
      ensures userList == SetFollowed(old(userList), old(pending).value.id, old(pending).value.follow)
    {
      userList := SetFollowed(userList, pending.value.id, pending.value.follow);
      loading := false;
      pending := None;
    }
  }
}
