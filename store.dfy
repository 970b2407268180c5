/** The two tables the server actions read and write, keyed by user id:
    the user rows and their optional user-info rows with the allergy list.
    The database itself is abstract; only the rows the actions touch are
    modelled. */
module Store {
  import opened Optional

  datatype UserRecord = UserRecord(
    firstName: string, lastName: string, username: string, email: string,
    profileImage: Option<string>, bio: string, password: string)

  /** A user-info row with its allergies, by name. */
  datatype InfoRecord = InfoRecord(
    birthDate: string, height: real, weight: real, budget: real,
    allergies: seq<string>)

  /** `first` is the row a query without a filter returns: some row of the
      table (the first in the database's order), or none for an empty
      table. Prisma treats a filter field that is `undefined` as absent. */
  predicate FirstRow<V>(m: map<string, V>, first: Option<string>) {
    if first.Some? then first.value in m else m == map[]
  }

  class Database {
    var users: map<string, UserRecord>
    var infos: map<string, InfoRecord>

    /** A user-info row belongs to an existing user. */
    ghost predicate Valid()
      reads this
    {
      infos.Keys <= users.Keys
    }

    constructor (users: map<string, UserRecord>, infos: map<string, InfoRecord>)
      requires infos.Keys <= users.Keys
      ensures this.users == users && this.infos == infos
      ensures Valid()
    {
      this.users := users;
      this.infos := infos;
    }
  }
}
