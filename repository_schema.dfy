/** The repository record: owner, URL, display name, last-analysed time (null
    until the first analysis) and the creation timestamp the schema's
    `timestamps` option adds. */
module RepositorySchema {
  import opened Wrappers

  datatype Repository = Repository(
    id: string,
    userId: string,
    repoUrl: string,
    repoName: string,
    analyzedAt: Option<nat>,
    createdAt: nat)

  /** The message prefix of the validation error `create` throws. */
  const ValidationFailed: string := "Repository validation failed"

  /** `repoUrl` and `repoName` are required strings, so neither may be empty. */
  predicate SatisfiesRequired(r: Repository) {
    r.repoUrl != "" && r.repoName != ""
  }

  function CreatedAt(r: Repository): nat {
    r.createdAt
  }

  /** What the collection keeps true: distinct ids, validated records, and at
      most one record per (owner, URL) pair, which registration maintains by
      looking the pair up before inserting. */
  predicate ValidRepositories(t: seq<Repository>) {
    && (forall i, j | 0 <= i < j < |t| :: t[i].id != t[j].id)
    && (forall i, j | 0 <= i < j < |t| :: t[i].userId == t[j].userId ==> t[i].repoUrl != t[j].repoUrl)
    && (forall i | 0 <= i < |t| :: SatisfiesRequired(t[i]))
  }

  /** Appending a validated record with a fresh id and a fresh (owner, URL)
      pair keeps the collection valid. */
  lemma AppendKeepsValid(t: seq<Repository>, r: Repository)
    requires ValidRepositories(t) && SatisfiesRequired(r)
    requires forall k | 0 <= k < |t| :: t[k].id != r.id
    requires forall k | 0 <= k < |t| :: !(t[k].userId == r.userId && t[k].repoUrl == r.repoUrl)
    ensures ValidRepositories(t + [r])
  {
    var t' := t + [r];
    assert forall k | 0 <= k < |t| :: t'[k] == t[k];
  }
}
