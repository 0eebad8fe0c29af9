/** The analysis service: the prompt's file-tree summary, pulling the JSON
    object out of the model's reply, coercing its fields into the structured
    result, the analysis run itself, the owner-scoped reads, and the share
    link lifecycle. The language model is a function parameter; the JSON
    parser is an oracle. */
module AnalysisService {
  import opened Wrappers
  import opened Strings
  import opened Json
  import opened Collections
  import opened AnalysisSchema
  import RepositorySchema
  import opened Database
  import opened RepositoryService

  /** At most this many tree entries go into the prompt. */
  const MaxTreeEntries: nat := 150

  /** One line of the tree summary: `[dir] path` for a tree node, `[file] path`
      for anything else, a node without a type included. */
  function EntryLine(e: TreeEntry): string {
    (if e.nodeType == Some("tree") then "[dir]" else "[file]") + " " + e.path
  }

  /** A line's tag tells directories from files, and the path follows it. */
  lemma EntryLineParts(e: TreeEntry)
    ensures StartsWith(EntryLine(e), "[dir] ") <==> e.nodeType == Some("tree")
    ensures e.nodeType == Some("tree") ==> EntryLine(e)[6..] == e.path
    ensures e.nodeType != Some("tree") ==> StartsWith(EntryLine(e), "[file] ") && EntryLine(e)[7..] == e.path
  {
    var line := EntryLine(e);
    if e.nodeType != Some("tree") {
      assert line[1] == 'f';
    }
  }

  /** The lines of the summary: the first `MaxTreeEntries` entries, in order. */
  function TreeLines(tree: seq<TreeEntry>): (r: seq<string>)
    ensures |r| == if |tree| < MaxTreeEntries then |tree| else MaxTreeEntries
    ensures forall k | 0 <= k < |r| :: r[k] == EntryLine(tree[k])
  {
    var n := if |tree| < MaxTreeEntries then |tree| else MaxTreeEntries;
    seq(n, k requires 0 <= k < n => EntryLine(tree[k]))
  }

  /** `buildFileTreeSummary`: empty for an empty tree; otherwise it starts
      with the first entry's line and holds the line of each of the first
      `MaxTreeEntries` entries. */
  function BuildFileTreeSummary(tree: seq<TreeEntry>): (r: string)
    ensures |tree| == 0 ==> r == ""
    ensures |tree| > 0 ==> StartsWith(r, EntryLine(tree[0]))
    ensures forall k | 0 <= k < |tree| && k < MaxTreeEntries :: Contains(r, EntryLine(tree[k]))
  {
    var lines := TreeLines(tree);
    assert forall k | 0 <= k < |lines| :: Contains(Join(lines, "\n"), lines[k]) by {
      forall k | 0 <= k < |lines| ensures Contains(Join(lines, "\n"), lines[k]) {
        JoinContains(lines, "\n", k);
      }
    }
    Join(lines, "\n")
  }

  /** When no path holds a line break, the summary splits back into one line
      per entry, the first 150 in tree order. */
  lemma FileTreeSummaryLines(tree: seq<TreeEntry>)
    requires |tree| >= 1
    requires forall k | 0 <= k < |tree| :: '\n' !in tree[k].path
    ensures Split(BuildFileTreeSummary(tree), '\n') == TreeLines(tree)
  {
    var lines := TreeLines(tree);
    forall k | 0 <= k < |lines| ensures '\n' !in lines[k] {
      var tag := if tree[k].nodeType == Some("tree") then "[dir]" else "[file]";
      assert lines[k] == tag + " " + tree[k].path;
    }
    SplitJoin(lines, '\n');
  }

  /** `t[i..j + 1]` is the text from the first `{` of `t` to its last `}`. */
  predicate OuterBraceSpan(t: string, i: nat, j: nat) {
    && i < j < |t| && t[i] == '{' && t[j] == '}'
    && (forall k | 0 <= k < i :: t[k] != '{')
    && (forall k | j < k < |t| :: t[k] != '}')
  }

  /** Some `{` comes before some `}` in `t`. */
  predicate HasBracePair(t: string) {
    exists i, j | 0 <= i < j < |t| :: t[i] == '{' && t[j] == '}'
  }

  /** There is a `{` before a `}` exactly when the first `{` comes before
      the last `}`. */
  lemma BracePairByIndices(t: string)
    ensures HasBracePair(t) <==>
      IndexOf(t, '{') != -1 && LastIndexOf(t, '}') != -1 && IndexOf(t, '{') < LastIndexOf(t, '}')
  {
    if HasBracePair(t) {
      var i, j :| 0 <= i < j < |t| && t[i] == '{' && t[j] == '}';
      assert IndexOf(t, '{') <= i && j <= LastIndexOf(t, '}');
    }
    if IndexOf(t, '{') != -1 && LastIndexOf(t, '}') != -1 && IndexOf(t, '{') < LastIndexOf(t, '}') {
      assert t[IndexOf(t, '{')] == '{';
    }
  }

  /** The outer span is the one from the first `{` to the last `}`. */
  lemma OuterBraceSpanIsFirstToLast(t: string, i: nat, j: nat)
    requires OuterBraceSpan(t, i, j)
    ensures i == IndexOf(t, '{') && j == LastIndexOf(t, '}')
  {
  }

  /** The extraction on already-trimmed text. */
  function ExtractFromTrimmed(t: string): (r: string)
    ensures |r| >= 2 && r[0] == '{' && r[|r| - 1] == '}'
    ensures HasBracePair(t) ==> exists i: nat, j: nat | OuterBraceSpan(t, i, j) :: r == t[i..j + 1]
    ensures !HasBracePair(t) ==> r == "{}"
  {
    var first := IndexOf(t, '{');
    var last := LastIndexOf(t, '}');
    BracePairByIndices(t);
    if first == -1 || last == -1 || last <= first then "{}"
    else
      assert OuterBraceSpan(t, first, last);
      t[first..last + 1]
  }

  /** `extractJsonFromText`: from the trimmed reply, the text between the
      first `{` and the last `}`, both included; `{}` when there is no `{`,
      no `}`, or the last `}` comes before the first `{`. */
  function ExtractJsonFromText(text: string): (r: string)
    ensures |r| >= 2 && r[0] == '{' && r[|r| - 1] == '}'
    ensures HasBracePair(Trim(text)) ==> exists i: nat, j: nat | OuterBraceSpan(Trim(text), i, j) :: r == Trim(text)[i..j + 1]
    ensures !HasBracePair(Trim(text)) ==> r == "{}"
  {
    ExtractFromTrimmed(Trim(text))
  }

  /** A reply that is already a bare JSON object is passed on unchanged. */
  lemma ExtractKeepsBareObject(text: string)
    requires |text| >= 2 && text[0] == '{' && text[|text| - 1] == '}'
    ensures ExtractJsonFromText(text) == text
  {
    assert TrimStart(text) == text;
    assert TrimEnd(text) == text;
    var t := Trim(text);
    assert t == text;
    assert OuterBraceSpan(t, 0, |t| - 1);
  }

  /** One field of the structured result as the loop stores it: a string
      is kept, null or a missing key becomes the empty string, and any other
      value is rendered with `String`. */
  function CoerceField(parsed: map<string, Json>, key: string): (r: string)
    ensures r == ToJsString(if key in parsed && !parsed[key].JNull? then parsed[key] else JString(""))
  {
    if key !in parsed then ""
    else match parsed[key]
      case JString(s) => s
      case JNull => ""
      case other => ToJsString(other)
  }

  /** The dictionary the loop fills. */
  function CoercedFields(parsed: map<string, Json>): (r: map<string, string>)
    ensures r.Keys == set k | k in RequiredKeys
  {
    map k | k in RequiredKeys :: CoerceField(parsed, k)
  }

  /** The loop over the required keys: every key gets its coerced value and
      no other key is added. */
  method BuildStructuredResult(parsed: map<string, Json>) returns (fields: map<string, string>)
    ensures fields == CoercedFields(parsed)
  {
    fields := map[];
    var n := 0;
    while n < |RequiredKeys|
      invariant 0 <= n <= |RequiredKeys|
      invariant fields.Keys == set k | k in RequiredKeys[..n]
      invariant forall k | k in fields :: fields[k] == CoerceField(parsed, k)
    {
      var key := RequiredKeys[n];
      fields := fields[key := CoerceField(parsed, key)];
      n := n + 1;
      assert RequiredKeys[..n] == RequiredKeys[..n - 1] + [key];
    }
    assert RequiredKeys[..n] == RequiredKeys;
  }

  /** The structured result a parsed reply yields. */
  function StructuredFrom(parsed: map<string, Json>): (r: StructuredResult)
    ensures forall i | 0 <= i < 7 :: Field(r, i) == CoerceField(parsed, RequiredKeys[i])
  {
    FromFields(CoercedFields(parsed))
  }

  /** A reply whose seven values are non-empty strings is stored as is and
      passes validation. */
  lemma StringFieldsPassThrough(parsed: map<string, Json>)
    requires forall k | k in RequiredKeys :: k in parsed && parsed[k].JString? && parsed[k].s != ""
    ensures SatisfiesRequired(StructuredFrom(parsed))
    ensures forall i | 0 <= i < 7 :: Field(StructuredFrom(parsed), i) == parsed[RequiredKeys[i]].s
  {
  }

  /** A missing or null key leaves its field empty, which the schema's
      `required` rejects. */
  lemma MissingFieldFailsValidation(parsed: map<string, Json>, i: nat)
    requires i < 7
    requires RequiredKeys[i] !in parsed || parsed[RequiredKeys[i]].JNull?
    ensures !SatisfiesRequired(StructuredFrom(parsed))
  {
    assert Field(StructuredFrom(parsed), i) == "";
  }

  const AnalysisNotFound: string := "Analysis not found"
  const InvalidJson: string := "AI returned invalid JSON"
  const Unauthorized: string := "Unauthorized"
  const NotFoundOrNotPublic: string := "Analysis not found or not public"
  /** The leading words of the error the unique share-token index raises. */
  const DuplicateKey: string := "E11000 duplicate key error"
  const NoPackageJson: string := "Not found or not applicable"

  /** The facts the prompt carries; its fixed instructions and the output
      schema it quotes are not modelled. */
  datatype Prompt = Prompt(
    fullName: string, defaultBranch: string, fileTreeSummary: string, repoStats: string, packageJson: string)

  const LanguagesLabel: string := "Languages: "
  const FileCountLabel: string := "\nTotal files in tree: "

  /** `Languages: a, b\nTotal files in tree: n`: every language name is
      listed, and the text ends with the decimal count of tree entries. The
      names appear in the order `listLanguages` gave them, separated by `, `
      (`Strings.JoinAppend` pins the separators down). */
  function RepoStats(languages: seq<(string, nat)>, treeSize: nat): (r: string)
    ensures StartsWith(r, LanguagesLabel)
    ensures forall k | 0 <= k < |languages| :: Contains(r, languages[k].0)
    ensures EndsWith(r, FileCountLabel + NatToString(treeSize))
    ensures r == LanguagesLabel + Join(LanguageNames(languages), ", ") + FileCountLabel + NatToString(treeSize)
  {
    var names := LanguageNames(languages);
    var list := Join(names, ", ");
    var tail := FileCountLabel + NatToString(treeSize);
    var r := LanguagesLabel + list + FileCountLabel + NatToString(treeSize);
    assert r == LanguagesLabel + (list + tail);
    assert forall k | 0 <= k < |languages| :: Contains(r, languages[k].0) by {
      forall k | 0 <= k < |languages| ensures Contains(r, languages[k].0) {
        JoinContains(names, ", ", k);
        ContainsExtend(list, tail, names[k]);
        ContainsShift(LanguagesLabel, list + tail, names[k]);
      }
    }
    assert r[|r| - |tail|..] == tail;
    r
  }

  /** The prompt's facts: the full name and branch of the metadata, the tree
      summary, the statistics over the whole tree, and the manifest text or
      the fixed note when there is none. */
  function BuildPrompt(signals: Signals, packageJson: Option<string>): (p: Prompt)
    ensures p.fullName == signals.metadata.fullName && p.defaultBranch == signals.metadata.defaultBranch
    ensures p.fileTreeSummary == BuildFileTreeSummary(signals.tree)
    ensures p.repoStats == RepoStats(signals.languages, |signals.tree|)
    ensures packageJson.Some? ==> p.packageJson == packageJson.value
    ensures packageJson.None? ==> p.packageJson == NoPackageJson
  {
    Prompt(
      signals.metadata.fullName, signals.metadata.defaultBranch, BuildFileTreeSummary(signals.tree),
      RepoStats(signals.languages, |signals.tree|), packageJson.GetOr(NoPackageJson))
  }

  /** The language model: a reply whose text may be missing, or an error. */
  type LanguageModel = Prompt -> Result<Option<string>>

  /** The model's answer to the prompt built from the signals. */
  function Reply(api: GitHubApi, model: LanguageModel, signals: Signals): Result<Option<string>> {
    model(BuildPrompt(signals, api.packageJson(signals.owner, signals.repoName, signals.metadata.defaultBranch)))
  }

  /** What `JSON.parse` makes of the object extracted from the reply text,
      `response.text ?? ""`. */
  function ParsedReply(parse: Parser, text: Option<string>): Option<map<string, Json>> {
    parse(ExtractJsonFromText(text.GetOr("")))
  }

  /** Everything `runAnalysis` does between finding the repository and
      storing the record: gather the signals, ask the model, extract and
      parse its JSON, coerce the fields, and validate them. A failed fetch
      or model call is passed on; an unparsable reply is "AI returned invalid
      JSON"; otherwise the coerced fields are the result when they pass the
      schema's `required` checks. */
  function Analyze(api: GitHubApi, model: LanguageModel, parse: Parser, repoUrl: string): (r: Result<StructuredResult>)
    ensures FetchSignals(api, repoUrl).Err? ==> r == Err(FetchSignals(api, repoUrl).thrown)
    ensures FetchSignals(api, repoUrl).Ok? ==>
      var reply := Reply(api, model, FetchSignals(api, repoUrl).value);
      && (reply.Err? ==> r == Err(reply.thrown))
      && (reply.Ok? && ParsedReply(parse, reply.value).None? ==> r == Throw(InvalidJson))
      && (reply.Ok? && ParsedReply(parse, reply.value).Some? ==>
            var sr := StructuredFrom(ParsedReply(parse, reply.value).value);
            r == if SatisfiesRequired(sr) then Ok(sr) else Throw(ValidationFailed))
    ensures r.Ok? ==> SatisfiesRequired(r.value)
  {
    match FetchSignals(api, repoUrl)
    case Err(e) => Err(e)
    case Ok(signals) =>
      match Reply(api, model, signals)
      case Err(e) => Err(e)
      case Ok(text) =>
        var parsed := ParsedReply(parse, text);
        if parsed.None? then Throw(InvalidJson)
        else
          var sr := StructuredFrom(parsed.value);
          if SatisfiesRequired(sr) then Ok(sr) else Throw(ValidationFailed)
  }

  /** A reply whose object holds the seven keys as non-empty strings is the
      result, field for field. */
  lemma ReplyFieldsAreTheResult(api: GitHubApi, model: LanguageModel, parse: Parser, repoUrl: string)
    requires FetchSignals(api, repoUrl).Ok?
    requires Reply(api, model, FetchSignals(api, repoUrl).value).Ok?
    requires var parsed := ParsedReply(parse, Reply(api, model, FetchSignals(api, repoUrl).value).value);
      parsed.Some? && forall k | k in RequiredKeys :: k in parsed.value && parsed.value[k].JString? && parsed.value[k].s != ""
    ensures var parsed := ParsedReply(parse, Reply(api, model, FetchSignals(api, repoUrl).value).value).value;
      && Analyze(api, model, parse, repoUrl).Ok?
      && forall i | 0 <= i < 7 :: Field(Analyze(api, model, parse, repoUrl).value, i) == parsed[RequiredKeys[i]].s
  {
    var parsed := ParsedReply(parse, Reply(api, model, FetchSignals(api, repoUrl).value).value).value;
    StringFieldsPassThrough(parsed);
  }

  /** A reply with no JSON object in it, or no text at all, is read as `{}`:
      every field comes out empty and the record fails validation. */
  lemma ReplyWithoutObjectFails(api: GitHubApi, model: LanguageModel, parse: Parser, repoUrl: string)
    requires ParsesEmptyObject(parse)
    requires FetchSignals(api, repoUrl).Ok?
    requires var reply := Reply(api, model, FetchSignals(api, repoUrl).value);
      reply.Ok? && !HasBracePair(Trim(reply.value.GetOr("")))
    ensures Analyze(api, model, parse, repoUrl) == Throw(ValidationFailed)
  {
    MissingFieldFailsValidation(map[], 0);
  }

  function RepositoryWithId(id: string): RepositorySchema.Repository -> bool {
    (r: RepositorySchema.Repository) => r.id == id
  }

  function AnalysisWithId(id: string): Analysis -> bool {
    (a: Analysis) => a.id == id
  }

  function OfRepository(repositoryId: string): Analysis -> bool {
    (a: Analysis) => a.repositoryId == repositoryId
  }

  /** `Repository.updateOne({ _id }, { $set: { analyzedAt } })` */
  function MarkAnalyzed(t: seq<RepositorySchema.Repository>, id: string, at: nat): (r: seq<RepositorySchema.Repository>)
    ensures |r| == |t|
    ensures forall k | 0 <= k < |t| :: r[k] == t[k] || (t[k].id == id && r[k] == t[k].(analyzedAt := Some(at)))
  {
    var f := (r: RepositorySchema.Repository) => r.(analyzedAt := Some(at));
    UpdateOneEffect(t, RepositoryWithId(id), f);
    UpdateOne(t, RepositoryWithId(id), f)
  }

  /** Marking a repository analysed keeps the collection valid: ids, owners
      and URLs stay as they were. */
  lemma MarkAnalyzedKeepsValid(t: seq<RepositorySchema.Repository>, id: string, at: nat)
    requires RepositorySchema.ValidRepositories(t)
    ensures RepositorySchema.ValidRepositories(MarkAnalyzed(t, id, at))
  {
    var r := MarkAnalyzed(t, id, at);
    UpdateOneEffect(t, RepositoryWithId(id), (r: RepositorySchema.Repository) => r.(analyzedAt := Some(at)));
    assert forall k | 0 <= k < |t| :: r[k].id == t[k].id && r[k].userId == t[k].userId && r[k].repoUrl == t[k].repoUrl;
  }

  /** Marking a repository analysed sets the time of the record with that
      id and leaves every other record as it was. */
  lemma MarkAnalyzedEffect(t: seq<RepositorySchema.Repository>, id: string, at: nat)
    requires RepositorySchema.ValidRepositories(t)
    ensures |MarkAnalyzed(t, id, at)| == |t|
    ensures forall k | 0 <= k < |t| ::
      MarkAnalyzed(t, id, at)[k] == if t[k].id == id then t[k].(analyzedAt := Some(at)) else t[k]
  {
    var i := FirstIndex(t, RepositoryWithId(id));
    UpdateOneEffect(t, RepositoryWithId(id), (r: RepositorySchema.Repository) => r.(analyzedAt := Some(at)));
    assert forall k | 0 <= k < |t| && t[k].id == id :: k == i;
  }

  /** The steps of `runAnalysis` from the signals to the validated result,
      the field loop included. */
  method AnalyzeRepository(api: GitHubApi, model: LanguageModel, parse: Parser, repoUrl: string)
    returns (r: Result<StructuredResult>)
    ensures r == Analyze(api, model, parse, repoUrl)
  {
    var signals := FetchSignals(api, repoUrl);
    if signals.Err? {
      return Err(signals.thrown);
    }
    var packageJson := api.packageJson(signals.value.owner, signals.value.repoName, signals.value.metadata.defaultBranch);
    var reply := model(BuildPrompt(signals.value, packageJson));
    if reply.Err? {
      return Err(reply.thrown);
    }
    var text := reply.value.GetOr("");
    var parsed := parse(ExtractJsonFromText(text));
    if parsed.None? {
      return Throw(InvalidJson);
    }
    var fields := BuildStructuredResult(parsed.value);
    var sr := FromFields(fields);
    assert sr == StructuredFrom(parsed.value);
    if !SatisfiesRequired(sr) {
      return Throw(ValidationFailed);
    }
    r := Ok(sr);
  }

  /** `Analysis.create` followed by stamping the repository: the record is
      appended, and the repository it belongs to gets the time the clock
      shows after both steps. */
  method StoreAnalysis(db: Db, a: Analysis, repositoryId: string, now: nat)
    requires db.Valid() && SatisfiesRequired(a.structuredResult) && a.shareToken.None?
    requires forall k | 0 <= k < |db.analyses| :: db.analyses[k].id != a.id
    requires a.repositoryId == repositoryId && db.clock <= now
    modifies db
    ensures db.Valid() && db.users == old(db.users)
    ensures db.analyses == old(db.analyses) + [a]
    ensures db.repositories == MarkAnalyzed(old(db.repositories), repositoryId, now)
    ensures db.clock == now
  {
    AppendKeepsValid(db.analyses, a);
    MarkAnalyzedKeepsValid(db.repositories, repositoryId, now);
    db.analyses := db.analyses + [a];
    db.repositories := MarkAnalyzed(db.repositories, repositoryId, now);
    db.clock := now;
  }

  /** What `runAnalysis` yields before anything is stored: the caller's
      repository must exist, then the analysis runs on its URL. */
  function RunOutcome(repositories: seq<RepositorySchema.Repository>, api: GitHubApi, model: LanguageModel, parse: Parser,
                      repositoryId: string, userId: string): (r: Result<StructuredResult>)
    ensures FindOne(repositories, OwnedRepository(repositoryId, userId)).None? ==> r == Throw(RepositoryNotFound)
    ensures FindOne(repositories, OwnedRepository(repositoryId, userId)).Some? ==>
      r == Analyze(api, model, parse, FindOne(repositories, OwnedRepository(repositoryId, userId)).value.repoUrl)
    ensures r.Ok? ==> SatisfiesRequired(r.value)
  {
    var repository := FindOne(repositories, OwnedRepository(repositoryId, userId));
    if repository.None? then Throw(RepositoryNotFound) else Analyze(api, model, parse, repository.value.repoUrl)
  }

  method AnalyzeOwned(repositories: seq<RepositorySchema.Repository>, api: GitHubApi, model: LanguageModel, parse: Parser,
                      repositoryId: string, userId: string) returns (r: Result<StructuredResult>)
    ensures r == RunOutcome(repositories, api, model, parse, repositoryId, userId)
  {
    var repository := FindOne(repositories, OwnedRepository(repositoryId, userId));
    if repository.None? {
      return Throw(RepositoryNotFound);
    }
    r := AnalyzeRepository(api, model, parse, repository.value.repoUrl);
  }

  /** `runAnalysis`. The repository must belong to the caller; the analysis
      then runs; a record is created with the structured result and the
      repository is stamped as analysed. Every failure leaves the store as
      it was. */
  method RunAnalysis(db: Db, api: GitHubApi, model: LanguageModel, parse: Parser,
                     repositoryId: string, userId: string, newId: string, elapsed: nat, stampDelay: nat)
    returns (r: Result<Analysis>)
    requires db.Valid()
    requires forall k | 0 <= k < |db.analyses| :: db.analyses[k].id != newId
    modifies db
    ensures db.Valid() && db.users == old(db.users)
    ensures var outcome := RunOutcome(old(db.repositories), api, model, parse, repositoryId, userId);
      outcome.Err? ==>
        r == Err(outcome.thrown) && db.repositories == old(db.repositories)
        && db.analyses == old(db.analyses) && db.clock == old(db.clock)
    ensures var outcome := RunOutcome(old(db.repositories), api, model, parse, repositoryId, userId);
      outcome.Ok? ==>
        var a := NewAnalysis(newId, repositoryId, outcome.value, old(db.clock) + elapsed);
        && r == Ok(a)
        && db.analyses == old(db.analyses) + [a]
        && db.repositories == MarkAnalyzed(old(db.repositories), repositoryId, old(db.clock) + elapsed + stampDelay)
        && db.clock == old(db.clock) + elapsed + stampDelay
  {
    var outcome := AnalyzeOwned(db.repositories, api, model, parse, repositoryId, userId);
    if outcome.Err? {
      return Err(outcome.thrown);
    }
    var a := NewAnalysis(newId, repositoryId, outcome.value, db.clock + elapsed);
    assert a == NewAnalysis(newId, repositoryId, RunOutcome(old(db.repositories), api, model, parse, repositoryId, userId).value, old(db.clock) + elapsed);
    ghost var stamped := MarkAnalyzed(db.repositories, repositoryId, db.clock + elapsed + stampDelay);
    assert stamped == MarkAnalyzed(old(db.repositories), repositoryId, old(db.clock) + elapsed + stampDelay);
    StoreAnalysis(db, a, repositoryId, db.clock + elapsed + stampDelay);
    r := Ok(a);
  }

  /** The caller owns a repository with this id. */
  predicate OwnsRepository(repositories: seq<RepositorySchema.Repository>, repositoryId: string, userId: string) {
    exists k | 0 <= k < |repositories| :: repositories[k].id == repositoryId && repositories[k].userId == userId
  }

  /** `Analysis.find({ repositoryId }).sort({ createdAt: -1 })` */
  function AnalysesOf(analyses: seq<Analysis>, repositoryId: string): (r: seq<Analysis>)
    ensures NewestFirst(r, CreatedAt)
    ensures forall x :: multiset(r)[x] == if x.repositoryId == repositoryId then multiset(analyses)[x] else 0
  {
    var matching := Find(analyses, OfRepository(repositoryId));
    assert forall x :: multiset(matching)[x] == if x.repositoryId == repositoryId then multiset(analyses)[x] else 0 by {
      forall x ensures multiset(matching)[x] == if x.repositoryId == repositoryId then multiset(analyses)[x] else 0 {
        FindCounts(analyses, OfRepository(repositoryId), x);
      }
    }
    SortNewestFirst(matching, CreatedAt)
  }

  /** `listAnalysesByRepositoryId`: the ownership check first, then every
      analysis of the repository, each as often as stored, newest first. */
  function ListAnalysesByRepositoryId(repositories: seq<RepositorySchema.Repository>, analyses: seq<Analysis>,
                                      repositoryId: string, userId: string): (r: Result<seq<Analysis>>)
    ensures r.Ok? <==> OwnsRepository(repositories, repositoryId, userId)
    ensures r.Err? ==> r == Throw(RepositoryNotFound)
    ensures r.Ok? ==> NewestFirst(r.value, CreatedAt)
    ensures r.Ok? ==> forall x :: multiset(r.value)[x] == if x.repositoryId == repositoryId then multiset(analyses)[x] else 0
  {
    if FindOne(repositories, OwnedRepository(repositoryId, userId)).None? then Throw(RepositoryNotFound)
    else Ok(AnalysesOf(analyses, repositoryId))
  }

  /** The head of a newest-first permutation is at least as new as every
      document it holds. */
  lemma NewestFirstHead(s: seq<Analysis>, x: Analysis)
    requires NewestFirst(s, CreatedAt) && x in s
    ensures CreatedAt(s[0]) >= CreatedAt(x)
  {
    var j :| 0 <= j < |s| && s[j] == x;
    if j > 0 {
      assert CreatedAt(s[0]) >= CreatedAt(s[j]);
    }
  }

  /** `getAnalysisByRepositoryId`: the ownership check first; then the
      newest analysis of the repository, or "Analysis not found". */
  function GetAnalysisByRepositoryId(repositories: seq<RepositorySchema.Repository>, analyses: seq<Analysis>,
                                     repositoryId: string, userId: string): (r: Result<Analysis>)
    ensures !OwnsRepository(repositories, repositoryId, userId) <==> r == Throw(RepositoryNotFound)
    ensures OwnsRepository(repositories, repositoryId, userId) ==>
      (r == Throw(AnalysisNotFound) <==> forall k | 0 <= k < |analyses| :: analyses[k].repositoryId != repositoryId)
    ensures r.Ok? ==> r.value in analyses && r.value.repositoryId == repositoryId
    ensures r.Ok? ==> forall k | 0 <= k < |analyses| && analyses[k].repositoryId == repositoryId ::
      analyses[k].createdAt <= r.value.createdAt
  {
    if FindOne(repositories, OwnedRepository(repositoryId, userId)).None? then Throw(RepositoryNotFound)
    else
      var sorted := AnalysesOf(analyses, repositoryId);
      if |sorted| == 0 then
        assert forall k | 0 <= k < |analyses| :: analyses[k].repositoryId != repositoryId by {
          forall k | 0 <= k < |analyses| ensures analyses[k].repositoryId != repositoryId {
            assert multiset(sorted)[analyses[k]] == 0;
          }
        }
        Throw(AnalysisNotFound)
      else
        assert multiset(sorted)[sorted[0]] > 0;
        assert forall k | 0 <= k < |analyses| && analyses[k].repositoryId == repositoryId ::
          analyses[k].createdAt <= sorted[0].createdAt by {
          forall k | 0 <= k < |analyses| && analyses[k].repositoryId == repositoryId
            ensures analyses[k].createdAt <= sorted[0].createdAt
          {
            assert multiset(sorted)[analyses[k]] > 0;
            NewestFirstHead(sorted, analyses[k]);
          }
        }
        Ok(sorted[0])
  }

  /** `findById` on the analysis, then on its repository, then the owner
      comparison: the check `deleteAnalysis`, `generateShareToken` and
      `revokeShareToken` share. */
  function Authorize(repositories: seq<RepositorySchema.Repository>, analyses: seq<Analysis>,
                     analysisId: string, userId: string): (r: Result<Analysis>)
    ensures r == Throw(AnalysisNotFound) <==> forall k | 0 <= k < |analyses| :: analyses[k].id != analysisId
    ensures r.Err? ==> r == Throw(AnalysisNotFound) || r == Throw(Unauthorized)
    ensures r.Ok? ==> r.value in analyses && r.value.id == analysisId
    ensures r.Ok? ==> OwnsRepository(repositories, r.value.repositoryId, userId)
  {
    var analysis := FindOne(analyses, AnalysisWithId(analysisId));
    if analysis.None? then Throw(AnalysisNotFound)
    else
      var repository := FindOne(repositories, RepositoryWithId(analysis.value.repositoryId));
      if repository.None? || repository.value.userId != userId then Throw(Unauthorized)
      else Ok(analysis.value)
  }

  /** With distinct ids in both collections, the check passes exactly when
      the analysis exists and its repository belongs to the caller. */
  lemma AuthorizeExact(repositories: seq<RepositorySchema.Repository>, analyses: seq<Analysis>,
                       analysisId: string, userId: string)
    requires RepositorySchema.ValidRepositories(repositories) && ValidAnalyses(analyses)
    ensures Authorize(repositories, analyses, analysisId, userId).Ok? <==>
      exists i | 0 <= i < |analyses| ::
        analyses[i].id == analysisId && OwnsRepository(repositories, analyses[i].repositoryId, userId)
  {
    if i :| 0 <= i < |analyses| && analyses[i].id == analysisId && OwnsRepository(repositories, analyses[i].repositoryId, userId) {
      var k :| 0 <= k < |repositories| && repositories[k].id == analyses[i].repositoryId && repositories[k].userId == userId;
      var a := FindOne(analyses, AnalysisWithId(analysisId));
      var m := FirstIndex(analyses, AnalysisWithId(analysisId));
      assert m == i;
      var n := FirstIndex(repositories, RepositoryWithId(analyses[i].repositoryId));
      assert n == k;
    }
  }

  /** `crypto.randomBytes(32).toString("hex")`: 64 lower-case hex digits.
      The random source is a parameter of the operations that use one. */
  type HexToken = s: string | |s| == 64 && AllLowerHex(s) witness seq(64, _ => '0')

  /** `Analysis.deleteOne({ _id })` */
  function RemoveAnalysis(t: seq<Analysis>, id: string): (r: seq<Analysis>)
    ensures (forall k | 0 <= k < |t| :: t[k].id != id) ==> r == t
    ensures (exists k | 0 <= k < |t| :: t[k].id == id) ==> |r| == |t| - 1 && multiset(r) <= multiset(t)
  {
    var r := DeleteOne(t, AnalysisWithId(id));
    assert |multiset(r)| == |r|;
    r
  }

  /** With distinct ids, deleting removes exactly the analysis with that id,
      once, and keeps the collection valid. */
  lemma RemoveAnalysisEffect(t: seq<Analysis>, id: string)
    requires ValidAnalyses(t)
    ensures ValidAnalyses(RemoveAnalysis(t, id))
    ensures forall x: Analysis :: x in RemoveAnalysis(t, id) <==> x in t && x.id != id
    ensures forall x: Analysis | x.id != id :: multiset(RemoveAnalysis(t, id))[x] == multiset(t)[x]
  {
    var i := FirstIndex(t, AnalysisWithId(id));
    var r := RemoveAnalysis(t, id);
    if i >= 0 {
      WithoutKeepsValid(t, i);
      assert r == t[..i] + t[i + 1..];
      forall x: Analysis ensures x in r <==> x in t && x.id != id {
        if x.id != id {
          assert multiset(r)[x] == multiset(t)[x];
        }
      }
    }
  }

  /** Dropping one record keeps a collection valid. */
  lemma WithoutKeepsValid(t: seq<Analysis>, i: nat)
    requires ValidAnalyses(t) && i < |t|
    ensures ValidAnalyses(t[..i] + t[i + 1..])
  {
    var r := t[..i] + t[i + 1..];
    assert forall k | 0 <= k < |r| :: r[k] == t[if k < i then k else k + 1];
  }

  /** `$set: { shareToken, isPublic }` on the analysis with that id. */
  function ShareAnalysis(t: seq<Analysis>, id: string, token: string, isPublic: bool): (r: seq<Analysis>)
    ensures |r| == |t|
    ensures forall k | 0 <= k < |t| ::
      r[k] == t[k] || (t[k].id == id && r[k] == t[k].(shareToken := Some(token), isPublic := Some(isPublic)))
  {
    var f := (a: Analysis) => a.(shareToken := Some(token), isPublic := Some(isPublic));
    UpdateOneEffect(t, AnalysisWithId(id), f);
    UpdateOne(t, AnalysisWithId(id), f)
  }

  /** `$unset: { shareToken, isPublic }` on the analysis with that id: both
      fields become absent. */
  function UnshareAnalysis(t: seq<Analysis>, id: string): (r: seq<Analysis>)
    ensures |r| == |t|
    ensures forall k | 0 <= k < |t| ::
      r[k] == t[k] || (t[k].id == id && r[k] == t[k].(shareToken := None, isPublic := None))
  {
    var f := (a: Analysis) => a.(shareToken := None, isPublic := None);
    UpdateOneEffect(t, AnalysisWithId(id), f);
    UpdateOne(t, AnalysisWithId(id), f)
  }

  /** Another analysis already holds the token, so the unique index refuses
      the update. */
  predicate TokenTaken(t: seq<Analysis>, id: string, token: string) {
    exists k | 0 <= k < |t| :: t[k].id != id && t[k].shareToken == Some(token)
  }

  /** Sharing changes the two sharing fields of the analysis with that id and
      nothing else; with the token free, the collection stays valid. */
  lemma ShareAnalysisEffect(t: seq<Analysis>, id: string, token: string, isPublic: bool)
    requires ValidAnalyses(t) && !TokenTaken(t, id, token)
    ensures ValidAnalyses(ShareAnalysis(t, id, token, isPublic))
    ensures |ShareAnalysis(t, id, token, isPublic)| == |t|
    ensures forall k | 0 <= k < |t| ::
      ShareAnalysis(t, id, token, isPublic)[k] ==
        if t[k].id == id then t[k].(shareToken := Some(token), isPublic := Some(isPublic)) else t[k]
  {
    var f := (a: Analysis) => a.(shareToken := Some(token), isPublic := Some(isPublic));
    UpdateOneEffect(t, AnalysisWithId(id), f);
    var i := FirstIndex(t, AnalysisWithId(id));
    assert forall k | 0 <= k < |t| && t[k].id == id :: k == i;
  }

  /** Unsharing removes the two sharing fields of the analysis with that id
      and changes nothing else; the collection stays valid. */
  lemma UnshareAnalysisEffect(t: seq<Analysis>, id: string)
    requires ValidAnalyses(t)
    ensures ValidAnalyses(UnshareAnalysis(t, id))
    ensures |UnshareAnalysis(t, id)| == |t|
    ensures forall k | 0 <= k < |t| ::
      UnshareAnalysis(t, id)[k] == if t[k].id == id then t[k].(shareToken := None, isPublic := None) else t[k]
  {
    var f := (a: Analysis) => a.(shareToken := None, isPublic := None);
    UpdateOneEffect(t, AnalysisWithId(id), f);
    var i := FirstIndex(t, AnalysisWithId(id));
    assert forall k | 0 <= k < |t| && t[k].id == id :: k == i;
  }

  /** `Analysis.findOne({ shareToken, isPublic: true })` */
  function SharedWith(token: string): Analysis -> bool {
    (a: Analysis) => a.shareToken == Some(token) && a.isPublic == Some(true)
  }

  /** `getAnalysisByShareToken`: an unknown token and a private analysis give
      the same answer. */
  function GetAnalysisByShareToken(analyses: seq<Analysis>, token: string): (r: Result<Analysis>)
    ensures r.Ok? <==> exists k | 0 <= k < |analyses| ::
      analyses[k].shareToken == Some(token) && analyses[k].isPublic == Some(true)
    ensures r.Ok? ==> r.value in analyses && r.value.shareToken == Some(token) && r.value.isPublic == Some(true)
    ensures r.Err? ==> r == Throw(NotFoundOrNotPublic)
  {
    var found := FindOne(analyses, SharedWith(token));
    if found.None? then Throw(NotFoundOrNotPublic) else Ok(found.value)
  }

  /** After sharing, the token finds the shared analysis when it was made
      public, and nothing when it was made private. */
  lemma ShareThenLookup(t: seq<Analysis>, id: string, token: string, isPublic: bool, i: nat)
    requires ValidAnalyses(t) && !TokenTaken(t, id, token)
    requires i < |t| && t[i].id == id
    ensures var shared := t[i].(shareToken := Some(token), isPublic := Some(isPublic));
      GetAnalysisByShareToken(ShareAnalysis(t, id, token, isPublic), token) ==
        if isPublic then Ok(shared) else Throw(NotFoundOrNotPublic)
  {
    var u := ShareAnalysis(t, id, token, isPublic);
    ShareAnalysisEffect(t, id, token, isPublic);
    assert forall k | 0 <= k < |u| && u[k].shareToken == Some(token) :: k == i;
    if isPublic {
      var j := FirstIndex(u, SharedWith(token));
      assert SharedWith(token)(u[i]);
      assert j == i;
    }
  }

  /** After revoking, the analysis's old share token finds nothing. */
  lemma RevokeThenLookup(t: seq<Analysis>, id: string, token: string)
    requires ValidAnalyses(t)
    requires exists k | 0 <= k < |t| :: t[k].id == id && t[k].shareToken == Some(token)
    ensures GetAnalysisByShareToken(UnshareAnalysis(t, id), token) == Throw(NotFoundOrNotPublic)
  {
    var u := UnshareAnalysis(t, id);
    UnshareAnalysisEffect(t, id);
    var i :| 0 <= i < |t| && t[i].id == id && t[i].shareToken == Some(token);
    assert forall k | 0 <= k < |t| && t[k].shareToken == Some(token) :: k == i;
    assert forall k | 0 <= k < |u| :: !SharedWith(token)(u[k]);
  }

  /** `deleteAnalysis`: after the check, the analysis is removed. */
  method DeleteAnalysis(db: Db, analysisId: string, userId: string) returns (r: Result<()>)
    requires db.Valid()
    modifies db
    ensures db.Valid()
    ensures db.users == old(db.users) && db.repositories == old(db.repositories) && db.clock == old(db.clock)
    ensures var check := Authorize(old(db.repositories), old(db.analyses), analysisId, userId);
      if check.Err? then r == Err(check.thrown) && db.analyses == old(db.analyses)
      else r == Ok(()) && db.analyses == RemoveAnalysis(old(db.analyses), analysisId)
  {
    var check := Authorize(db.repositories, db.analyses, analysisId, userId);
    if check.Err? {
      return Err(check.thrown);
    }
    RemoveAnalysisEffect(db.analyses, analysisId);
    db.analyses := RemoveAnalysis(db.analyses, analysisId);
    r := Ok(());
  }

  /** `generateShareToken`: after the check, the fresh token and the
      visibility are set on the analysis and the token is returned; a token
      another analysis holds is refused by the unique index. */
  method GenerateShareToken(db: Db, analysisId: string, userId: string, isPublic: bool, token: HexToken)
    returns (r: Result<string>)
    requires db.Valid()
    modifies db
    ensures db.Valid()
    ensures db.users == old(db.users) && db.repositories == old(db.repositories) && db.clock == old(db.clock)
    ensures var check := Authorize(old(db.repositories), old(db.analyses), analysisId, userId);
      if check.Err? then r == Err(check.thrown) && db.analyses == old(db.analyses)
      else if TokenTaken(old(db.analyses), analysisId, token) then r == Throw(DuplicateKey) && db.analyses == old(db.analyses)
      else r == Ok(token) && db.analyses == ShareAnalysis(old(db.analyses), analysisId, token, isPublic)
  {
    var check := Authorize(db.repositories, db.analyses, analysisId, userId);
    if check.Err? {
      return Err(check.thrown);
    }
    if exists k | 0 <= k < |db.analyses| :: db.analyses[k].id != analysisId && db.analyses[k].shareToken == Some(token) {
      return Throw(DuplicateKey);
    }
    ShareAnalysisEffect(db.analyses, analysisId, token, isPublic);
    db.analyses := ShareAnalysis(db.analyses, analysisId, token, isPublic);
    r := Ok(token);
  }

  /** `revokeShareToken`: after the check, the token and the visibility are
      removed from the analysis. */
  method RevokeShareToken(db: Db, analysisId: string, userId: string) returns (r: Result<()>)
    requires db.Valid()
    modifies db
    ensures db.Valid()
    ensures db.users == old(db.users) && db.repositories == old(db.repositories) && db.clock == old(db.clock)
    ensures var check := Authorize(old(db.repositories), old(db.analyses), analysisId, userId);
      if check.Err? then r == Err(check.thrown) && db.analyses == old(db.analyses)
      else r == Ok(()) && db.analyses == UnshareAnalysis(old(db.analyses), analysisId)
  {
    var check := Authorize(db.repositories, db.analyses, analysisId, userId);
    if check.Err? {
      return Err(check.thrown);
    }
    UnshareAnalysisEffect(db.analyses, analysisId);
    db.analyses := UnshareAnalysis(db.analyses, analysisId);
    r := Ok(());
  }
}
