/** The document store: the three collections the services read and write,
    and the clock that stamps new records. The user collection's schema is
    not part of this model; a user record holds what the authentication
    service reads and writes. */
module Database {
  import opened AnalysisSchema
  import opened RepositorySchema

  datatype User = User(id: string, email: string, passwordHash: string)

  /** Registration looks the email up before inserting, so no two users share
      one; ids are distinct. */
  predicate ValidUsers(t: seq<User>) {
    forall i, j | 0 <= i < j < |t| :: t[i].id != t[j].id && t[i].email != t[j].email
  }

  class Db {
    var users: seq<User>
    var repositories: seq<Repository>
    var analyses: seq<Analysis>
    /** `Date.now()`: it only moves forward. */
    var clock: nat

    ghost predicate Valid()
      reads this
    {
      ValidUsers(users) && ValidRepositories(repositories) && ValidAnalyses(analyses)
    }

    constructor ()
      ensures Valid()
      ensures users == [] && repositories == [] && analyses == [] && clock == 0
    {
      users, repositories, analyses, clock := [], [], [], 0;
    }
  }
}
