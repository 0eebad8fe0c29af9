/** The analysis record: its seven-field structured result, the defaults a
    new record takes, and what the collection keeps true of its records
    (unique ids, unique share tokens among the records that have one, and
    the `required` check on every structured-result field). */
module AnalysisSchema {
  import opened Wrappers
  import opened Strings

  /** The seven string fields every analysis carries. */
  datatype StructuredResult = StructuredResult(
    summary: string,
    technicalOverview: string,
    architectureExplanation: string,
    featureBreakdown: string,
    scalabilityNotes: string,
    risks: string,
    portfolioDescription: string)

  /** The keys of the structured result, in declaration order. */
  const RequiredKeys: seq<string> := [
    "summary",
    "technicalOverview",
    "architectureExplanation",
    "featureBreakdown",
    "scalabilityNotes",
    "risks",
    "portfolioDescription"
  ]

  /** Builds the structured result from a dictionary that holds every
      required key. */
  function FromFields(fields: map<string, string>): (r: StructuredResult)
    requires forall k | k in RequiredKeys :: k in fields
    ensures forall i | 0 <= i < 7 :: Field(r, i) == fields[RequiredKeys[i]]
  {
    StructuredResult(
      fields["summary"], fields["technicalOverview"], fields["architectureExplanation"],
      fields["featureBreakdown"], fields["scalabilityNotes"], fields["risks"],
      fields["portfolioDescription"])
  }

  /** The field stored under `RequiredKeys[i]`. */
  function Field(r: StructuredResult, i: nat): string
    requires i < 7
  {
    if i == 0 then r.summary
    else if i == 1 then r.technicalOverview
    else if i == 2 then r.architectureExplanation
    else if i == 3 then r.featureBreakdown
    else if i == 4 then r.scalabilityNotes
    else if i == 5 then r.risks
    else r.portfolioDescription
  }

  /** A `String` path declared `required: true` passes validation only when
      it holds a non-empty string. */
  predicate SatisfiesRequired(r: StructuredResult) {
    forall i | 0 <= i < 7 :: Field(r, i) != ""
  }

  /** The message prefix of the validation error `create` throws. */
  const ValidationFailed: string := "Analysis validation failed"

  datatype Analysis = Analysis(
    id: string,
    repositoryId: string,
    structuredResult: StructuredResult,
    shareToken: Option<string>,
    isPublic: Option<bool>,
    createdAt: nat)

  /** A record as `create({ repositoryId, structuredResult })` stores it:
      no share token, `isPublic` false, `createdAt` the creation time. */
  function NewAnalysis(id: string, repositoryId: string, sr: StructuredResult, now: nat): (a: Analysis)
    ensures a.shareToken.None? && a.isPublic == Some(false)
    ensures a.id == id && a.repositoryId == repositoryId && a.structuredResult == sr && a.createdAt == now
  {
    Analysis(id, repositoryId, sr, None, Some(false), now)
  }

  function CreatedAt(a: Analysis): nat {
    a.createdAt
  }

  /** What the collection keeps true: distinct ids, a share token held by at
      most one record (the index is unique and sparse, so records without a
      token do not clash), and validated structured results. */
  predicate ValidAnalyses(t: seq<Analysis>) {
    && (forall i, j | 0 <= i < j < |t| :: t[i].id != t[j].id)
    && (forall i, j | 0 <= i < j < |t| && t[i].shareToken.Some? :: t[i].shareToken != t[j].shareToken)
    && (forall i | 0 <= i < |t| :: SatisfiesRequired(t[i].structuredResult))
  }

  /** Appending a validated record with a fresh id and no share token keeps
      the collection valid. */
  lemma AppendKeepsValid(t: seq<Analysis>, a: Analysis)
    requires ValidAnalyses(t) && SatisfiesRequired(a.structuredResult) && a.shareToken.None?
    requires forall k | 0 <= k < |t| :: t[k].id != a.id
    ensures ValidAnalyses(t + [a])
  {
    var t' := t + [a];
    assert forall k | 0 <= k < |t| :: t'[k] == t[k];
  }
}
