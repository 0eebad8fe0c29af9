/** The analysis handlers: the signed-in guard, the service call, and the
    choice of status from the error message. Each service call is a function
    of the caller's id (and of the request's other inputs). */
module AnalysisController {
  import opened Wrappers
  import opened Strings
  import opened Http
  import opened AnalysisSchema
  import AnalysisService
  import RepositoryService

  /** `runAnalysis`'s rule: a message mentioning "not found" is 404, anything
      else 500. */
  function RunStatus(msg: string): (s: Status)
    ensures s == NotFound <==> Contains(msg, "not found")
    ensures s != NotFound ==> s == InternalServerError
  {
    if Contains(msg, "not found") then NotFound else InternalServerError
  }

  /** The rule shared by delete, create-share and revoke: "not found" or
      "Unauthorized" is 404, anything else 500. */
  function OwnerActionStatus(msg: string): (s: Status)
    ensures s == NotFound <==> Contains(msg, "not found") || Contains(msg, "Unauthorized")
    ensures s != NotFound ==> s == InternalServerError
  {
    if Contains(msg, "not found") || Contains(msg, "Unauthorized") then NotFound else InternalServerError
  }

  /** POST `/:repositoryId` */
  function RunAnalysis(userId: Option<string>, service: string -> Result<Analysis>): (r: Response<Analysis>)
    ensures !SignedIn(userId) ==> r == Failure(Unauthorized, UnauthorizedMessage)
    ensures SignedIn(userId) && service(userId.value).Ok? ==> r == Success(Created, service(userId.value).value)
    ensures SignedIn(userId) && service(userId.value).Err? ==>
      var msg := ErrorMessage(service(userId.value).thrown, "Analysis failed");
      r == Failure(RunStatus(msg), msg)
  {
    if !SignedIn(userId) then Failure(Unauthorized, UnauthorizedMessage)
    else
      match service(userId.value)
      case Ok(a) => Success(Created, a)
      case Err(e) =>
        var msg := ErrorMessage(e, "Analysis failed");
        Failure(RunStatus(msg), msg)
  }

  /** GET `/:repositoryId`: every failure is 404. */
  function GetAnalysis(userId: Option<string>, service: string -> Result<Analysis>): (r: Response<Analysis>)
    ensures !SignedIn(userId) ==> r == Failure(Unauthorized, UnauthorizedMessage)
    ensures SignedIn(userId) && service(userId.value).Ok? ==> r == Success(OK, service(userId.value).value)
    ensures SignedIn(userId) && service(userId.value).Err? ==>
      r == Failure(NotFound, ErrorMessage(service(userId.value).thrown, "Analysis not found"))
  {
    if !SignedIn(userId) then Failure(Unauthorized, UnauthorizedMessage)
    else
      match service(userId.value)
      case Ok(a) => Success(OK, a)
      case Err(e) => Failure(NotFound, ErrorMessage(e, "Analysis not found"))
  }

  /** GET `/:repositoryId/history`: every failure is 500, "Repository not
      found" included. */
  function ListAnalyses(userId: Option<string>, service: string -> Result<seq<Analysis>>): (r: Response<seq<Analysis>>)
    ensures !SignedIn(userId) ==> r == Failure(Unauthorized, UnauthorizedMessage)
    ensures SignedIn(userId) && service(userId.value).Ok? ==> r == Success(OK, service(userId.value).value)
    ensures SignedIn(userId) && service(userId.value).Err? ==>
      r == Failure(InternalServerError, ErrorMessage(service(userId.value).thrown, "Failed to list analyses"))
  {
    if !SignedIn(userId) then Failure(Unauthorized, UnauthorizedMessage)
    else
      match service(userId.value)
      case Ok(list) => Success(OK, list)
      case Err(e) => Failure(InternalServerError, ErrorMessage(e, "Failed to list analyses"))
  }

  /** DELETE `/:id` */
  function DeleteAnalysis(userId: Option<string>, service: string -> Result<()>): (r: Response<Note>)
    ensures !SignedIn(userId) ==> r == Failure(Unauthorized, UnauthorizedMessage)
    ensures SignedIn(userId) && service(userId.value).Ok? ==> r == Success(OK, Note("Analysis deleted"))
    ensures SignedIn(userId) && service(userId.value).Err? ==>
      var msg := ErrorMessage(service(userId.value).thrown, "Failed to delete analysis");
      r == Failure(OwnerActionStatus(msg), msg)
  {
    if !SignedIn(userId) then Failure(Unauthorized, UnauthorizedMessage)
    else
      match service(userId.value)
      case Ok(_) => Success(OK, Note("Analysis deleted"))
      case Err(e) =>
        var msg := ErrorMessage(e, "Failed to delete analysis");
        Failure(OwnerActionStatus(msg), msg)
  }

  datatype ShareLink = ShareLink(shareToken: string, shareUrl: string)

  /** POST `/:id/share`: a body without `isPublic` shares publicly, and the
      link is `/share/<token>`. */
  function CreateShareLink(userId: Option<string>, isPublic: Option<bool>, service: (string, bool) -> Result<string>)
    : (r: Response<ShareLink>)
    ensures !SignedIn(userId) ==> r == Failure(Unauthorized, UnauthorizedMessage)
    ensures SignedIn(userId) ==>
      var outcome := service(userId.value, if isPublic.Some? then isPublic.value else true);
      && (outcome.Ok? ==> r == Success(OK, ShareLink(outcome.value, "/share/" + outcome.value)))
      && (outcome.Err? ==>
            var msg := ErrorMessage(outcome.thrown, "Failed to create share link");
            r == Failure(OwnerActionStatus(msg), msg))
  {
    if !SignedIn(userId) then Failure(Unauthorized, UnauthorizedMessage)
    else
      match service(userId.value, isPublic.GetOr(true))
      case Ok(token) => Success(OK, ShareLink(token, "/share/" + token))
      case Err(e) =>
        var msg := ErrorMessage(e, "Failed to create share link");
        Failure(OwnerActionStatus(msg), msg)
  }

  /** DELETE `/:id/share` */
  function RevokeShareLink(userId: Option<string>, service: string -> Result<()>): (r: Response<Note>)
    ensures !SignedIn(userId) ==> r == Failure(Unauthorized, UnauthorizedMessage)
    ensures SignedIn(userId) && service(userId.value).Ok? ==> r == Success(OK, Note("Share link revoked"))
    ensures SignedIn(userId) && service(userId.value).Err? ==>
      var msg := ErrorMessage(service(userId.value).thrown, "Failed to revoke share link");
      r == Failure(OwnerActionStatus(msg), msg)
  {
    if !SignedIn(userId) then Failure(Unauthorized, UnauthorizedMessage)
    else
      match service(userId.value)
      case Ok(_) => Success(OK, Note("Share link revoked"))
      case Err(e) =>
        var msg := ErrorMessage(e, "Failed to revoke share link");
        Failure(OwnerActionStatus(msg), msg)
  }

  /** GET `/share/:token`: no sign-in, every failure is 404. */
  function GetSharedAnalysis(outcome: Result<Analysis>): (r: Response<Analysis>)
    ensures outcome.Ok? ==> r == Success(OK, outcome.value)
    ensures outcome.Err? ==> r == Failure(NotFound, ErrorMessage(outcome.thrown, "Analysis not found"))
  {
    match outcome
    case Ok(a) => Success(OK, a)
    case Err(e) => Failure(NotFound, ErrorMessage(e, "Analysis not found"))
  }

  lemma InvalidJsonIsNotNotFound()
    ensures !Contains(AnalysisService.InvalidJson, "not found")
  {
    NotContainsByChar(AnalysisService.InvalidJson, "not found", 'f');
  }

  lemma ValidationFailedIsNotNotFound()
    ensures !Contains(ValidationFailed, "not found")
  {
    NotContainsByChar(ValidationFailed, "not found", 'u');
  }

  lemma DuplicateKeyIsNotNotFound()
    ensures !Contains(AnalysisService.DuplicateKey, "not found")
  {
    NotContainsByChar(AnalysisService.DuplicateKey, "not found", 'f');
  }

  lemma DuplicateKeyIsNotUnauthorized()
    ensures !Contains(AnalysisService.DuplicateKey, "Unauthorized")
  {
    NotContainsByChar(AnalysisService.DuplicateKey, "Unauthorized", 'U');
  }

  /** The service's own messages land where `runAnalysis` means them to: a
      missing repository is 404, a reply that is not JSON and a failed
      validation are 500. */
  lemma RunStatusOfServiceMessages()
    ensures RunStatus(RepositoryService.RepositoryNotFound) == NotFound
    ensures RunStatus(AnalysisService.InvalidJson) == InternalServerError
    ensures RunStatus(ValidationFailed) == InternalServerError
  {
    ContainsAt(RepositoryService.RepositoryNotFound, "not found", 11);
    InvalidJsonIsNotNotFound();
    ValidationFailedIsNotNotFound();
  }

  /** On the owner-only actions a missing analysis and someone else's
      analysis both answer 404. */
  lemma OwnerActionStatusOfRefusals()
    ensures OwnerActionStatus(AnalysisService.AnalysisNotFound) == NotFound
    ensures OwnerActionStatus(AnalysisService.Unauthorized) == NotFound
  {
    ContainsAt(AnalysisService.AnalysisNotFound, "not found", 9);
    ContainsAt(AnalysisService.Unauthorized, "Unauthorized", 0);
  }

  /** A share token another analysis holds answers 500. */
  lemma OwnerActionStatusOfTokenClash()
    ensures OwnerActionStatus(AnalysisService.DuplicateKey) == InternalServerError
  {
    DuplicateKeyIsNotNotFound();
    DuplicateKeyIsNotUnauthorized();
  }

  /** A signed-out request gets the same 401 answer from every guarded
      handler, whatever the service would have done. */
  lemma SignedOutIgnoresService(userId: Option<string>, s1: string -> Result<Analysis>, s2: string -> Result<Analysis>)
    requires !SignedIn(userId)
    ensures RunAnalysis(userId, s1) == RunAnalysis(userId, s2) == Failure(Unauthorized, UnauthorizedMessage)
  {
  }
}
