/** The request schemas of the analysis routes, as the field errors they
    report: an empty list means the request is accepted. */
module AnalysisValidators {
  import opened Wrappers
  import opened Strings
  import opened Json
  import opened ValidateMiddleware

  const InvalidRepositoryId: string := "Invalid repository ID"
  const InvalidAnalysisId: string := "Invalid analysis ID"
  const QuestionRequired: string := "Question is required"
  const QuestionTooLong: string := "Question too long"
  const MaxQuestionLength: nat := 2000

  /** `/^[a-f0-9]{24}$/`: a database id in lower-case hexadecimal. */
  predicate IsHexId(s: string) {
    |s| == 24 && AllLowerHex(s)
  }

  /** A field that must match the id pattern, reported under `field` with
      `message` when it does not. */
  function IdErrors(field: string, id: string, message: string): (r: FieldErrors)
    ensures r == [] <==> |id| == 24 && forall i | 0 <= i < |id| :: IsLowerHex(id[i])
    ensures r != [] ==> r == [(field, Messages([message]))]
  {
    if IsHexId(id) then [] else [(field, Messages([message]))]
  }

  /** `runAnalysisParamsSchema` */
  function RunAnalysisParamsErrors(repositoryId: string): (r: FieldErrors)
    ensures r == [] <==> IsHexId(repositoryId)
    ensures r != [] ==> FormatFieldErrors(r) == "repositoryId: " + InvalidRepositoryId
  {
    IdErrors("repositoryId", repositoryId, InvalidRepositoryId)
  }

  /** `analysisIdParamsSchema` */
  function AnalysisIdParamsErrors(id: string): (r: FieldErrors)
    ensures r == [] <==> IsHexId(id)
    ensures r != [] ==> FormatFieldErrors(r) == "id: " + InvalidAnalysisId
  {
    IdErrors("id", id, InvalidAnalysisId)
  }

  /** The answer languages `runAnalysisBodySchema` accepts. */
  const LanguageCodes: seq<string> := ["en", "hi", "hry", "bho", "es", "fr", "de", "pt", "ja"]

  /** `language: z.enum(LANGUAGE_CODES).optional()`: absent, or one of the
      nine codes as a string. */
  function AcceptsLanguage(language: Option<Json>): (b: bool)
    ensures b <==> language.None? || (language.value.JString? && language.value.s in LanguageCodes)
  {
    match language
    case None => true
    case Some(v) => v.JString? && v.s in LanguageCodes
  }

  /** `shareTokenParamsSchema`: a share token is any non-empty string. */
  function AcceptsShareToken(token: string): (b: bool)
    ensures b <==> |token| >= 1
  {
    |token| >= 1
  }

  /** `createShareLinkSchema`: `isPublic` is absent or a boolean (not null),
      and the parsed value says which. None means the body is rejected. */
  function ParseIsPublic(isPublic: Option<Json>): (r: Option<Option<bool>>)
    ensures r.Some? <==> isPublic.None? || isPublic.value.JBool?
    ensures r == Some(None) <==> isPublic.None?
    ensures forall b :: r == Some(Some(b)) <==> isPublic == Some(JBool(b))
  {
    match isPublic
    case None => Some(None)
    case Some(v) => if v.JBool? then Some(Some(v.b)) else None
  }

  /** `askQuestionBodySchema`: both bounds are checked, and at most one can
      fail. */
  function QuestionErrors(question: string): (r: FieldErrors)
    ensures r == [] <==> 1 <= |question| <= MaxQuestionLength
    ensures |question| == 0 ==> r == [("question", Messages([QuestionRequired]))]
    ensures |question| > MaxQuestionLength ==> r == [("question", Messages([QuestionTooLong]))]
  {
    if |question| < 1 then [("question", Messages([QuestionRequired]))]
    else if |question| > MaxQuestionLength then [("question", Messages([QuestionTooLong]))]
    else []
  }

  /** A 2001-character question is refused with "Question too long", and one
      of 2000 characters is accepted. */
  lemma QuestionBoundary()
    ensures FormatFieldErrors(QuestionErrors(seq(2001, _ => 'a'))) == "question: " + QuestionTooLong
    ensures QuestionErrors(seq(2000, _ => 'a')) == []
  {
  }
}
