/** The repository handlers: the signed-in guard, the service call, and the
    choice of status from the error message. Each service call is a function
    of the caller's id. */
module RepositoryController {
  import opened Wrappers
  import opened Strings
  import opened Http
  import opened RepositorySchema
  import RepositoryService

  /** `createRepository`'s rule: a message mentioning "Invalid" or "not
      found" is the client's fault (400), anything else 500. */
  function CreateStatus(msg: string): (s: Status)
    ensures s == BadRequest <==> Contains(msg, "Invalid") || Contains(msg, "not found")
    ensures s != BadRequest ==> s == InternalServerError
  {
    if Contains(msg, "Invalid") || Contains(msg, "not found") then BadRequest else InternalServerError
  }

  /** POST `/` */
  function CreateRepository(userId: Option<string>, service: string -> Result<RepositoryService.Registration>)
    : (r: Response<RepositoryService.Registration>)
    ensures !SignedIn(userId) ==> r == Failure(Unauthorized, UnauthorizedMessage)
    ensures SignedIn(userId) && service(userId.value).Ok? ==> r == Success(Created, service(userId.value).value)
    ensures SignedIn(userId) && service(userId.value).Err? ==>
      var msg := ErrorMessage(service(userId.value).thrown, "Failed to add repository");
      r == Failure(CreateStatus(msg), msg)
  {
    if !SignedIn(userId) then Failure(Unauthorized, UnauthorizedMessage)
    else
      match service(userId.value)
      case Ok(reg) => Success(Created, reg)
      case Err(e) =>
        var msg := ErrorMessage(e, "Failed to add repository");
        Failure(CreateStatus(msg), msg)
  }

  /** GET `/:id`: every failure is 404. */
  function GetRepository(userId: Option<string>, service: string -> Result<Repository>): (r: Response<Repository>)
    ensures !SignedIn(userId) ==> r == Failure(Unauthorized, UnauthorizedMessage)
    ensures SignedIn(userId) && service(userId.value).Ok? ==> r == Success(OK, service(userId.value).value)
    ensures SignedIn(userId) && service(userId.value).Err? ==>
      r == Failure(NotFound, ErrorMessage(service(userId.value).thrown, "Repository not found"))
  {
    if !SignedIn(userId) then Failure(Unauthorized, UnauthorizedMessage)
    else
      match service(userId.value)
      case Ok(repo) => Success(OK, repo)
      case Err(e) => Failure(NotFound, ErrorMessage(e, "Repository not found"))
  }

  /** GET `/`: every failure is 500. */
  function ListRepositories(userId: Option<string>, service: string -> Result<seq<Repository>>)
    : (r: Response<seq<Repository>>)
    ensures !SignedIn(userId) ==> r == Failure(Unauthorized, UnauthorizedMessage)
    ensures SignedIn(userId) && service(userId.value).Ok? ==> r == Success(OK, service(userId.value).value)
    ensures SignedIn(userId) && service(userId.value).Err? ==>
      r == Failure(InternalServerError, ErrorMessage(service(userId.value).thrown, "Failed to list repositories"))
  {
    if !SignedIn(userId) then Failure(Unauthorized, UnauthorizedMessage)
    else
      match service(userId.value)
      case Ok(repos) => Success(OK, repos)
      case Err(e) => Failure(InternalServerError, ErrorMessage(e, "Failed to list repositories"))
  }

  /** The message GitHub's client throws for a repository it cannot see. */
  const GitHubNotFound: string := "Not Found"

  lemma ValidationFailedLacksInvalid()
    ensures !Contains(ValidationFailed, "Invalid")
  {
    NotContainsByChar(ValidationFailed, "Invalid", 'I');
  }

  lemma ValidationFailedLacksNotFound()
    ensures !Contains(ValidationFailed, "not found")
  {
    NotContainsByChar(ValidationFailed, "not found", 'u');
  }

  lemma GitHubNotFoundLacksInvalid()
    ensures !Contains(GitHubNotFound, "Invalid")
  {
    NotContainsByChar(GitHubNotFound, "Invalid", 'I');
  }

  lemma GitHubNotFoundLacksNotFound()
    ensures !Contains(GitHubNotFound, "not found")
  {
    NotContainsByChar(GitHubNotFound, "not found", 'f');
  }

  /** An unparsable URL is the client's fault (400). */
  lemma CreateStatusOfInvalidUrl()
    ensures CreateStatus(RepositoryService.InvalidRepoUrl) == BadRequest
  {
    ContainsAt(RepositoryService.InvalidRepoUrl, "Invalid", 0);
  }

  /** A failed record validation answers 500, and so does GitHub's own
      "Not Found" for a repository that does not exist or is private: the
      test is case-sensitive. */
  lemma CreateStatusOfServerErrors()
    ensures CreateStatus(ValidationFailed) == InternalServerError
    ensures CreateStatus(GitHubNotFound) == InternalServerError
  {
    ValidationFailedLacksInvalid();
    ValidationFailedLacksNotFound();
    GitHubNotFoundLacksInvalid();
    GitHubNotFoundLacksNotFound();
  }
}
