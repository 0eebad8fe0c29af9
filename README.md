# repo-explainer-backend, modelled in Dafny

repo-explainer-backend is an HTTP service. A signed-in user registers GitHub repositories. The service asks a language model for a structured analysis of each repository. It keeps the analyses, and it lets their owner publish one behind a share link.

This project models the parts of the service that make decisions:

- **The document store.** `Database.Db` holds the user, repository and analysis collections and a monotone clock. Each collection is a sequence in insertion order. `findOne`, `find`, `deleteOne`, `updateOne` and the newest-first sort are functions in `Collections`. The record shapes, their defaults, the `required` checks and the sparse unique share-token index are in `AnalysisSchema` and `RepositorySchema`.
- **Repository registration** (`RepositoryService`):
  - the un-anchored `owner/repo` pattern, read as a scan over characters;
  - the metadata fallbacks;
  - the tree filter and projection;
  - registration that returns an existing (user, URL) record instead of inserting a second one;
  - the owner-scoped lookups.
- **Analysis** (`AnalysisService`):
  - the file-tree summary of the prompt;
  - the extraction of the JSON object from the model's reply;
  - the field-coercion loop;
  - the analysis run and its two writes;
  - the newest-first reads;
  - the ownership check behind delete, share and revoke;
  - the share-link lifecycle.
- **Users** (`AuthService`): registration, login and token refresh. Password hashing and token signing are oracles.
- **The HTTP boundary**:
  - the controllers' mapping from error message to status (`AnalysisController`, `RepositoryController`, `AuthController`);
  - the request schemas (`RepositoryValidators`, `AnalysisValidators`);
  - the validation, authentication and error middlewares, over an Express request object (`Express.Request`).

GitHub, the language model, `JSON.parse`, zod's URL check, bcrypt, jsonwebtoken and the random token source are parameters of the operations that use them. A service call seen from a controller is a function of the caller's id.

Where the code differs from what its schemas or comments suggest, the model follows the code:

- **Missing fields of the model's reply.** The coercion loop turns a missing or null field into `""`. The schema declares every field `required`, and Mongoose's `required` check refuses an empty string. So such a reply ends in "Analysis validation failed" rather than in a stored empty field (`AnalysisService.MissingFieldFailsValidation`, `AnalysisService.ReplyWithoutObjectFails`).
- **The `isPublic` default.** The schema's default for `isPublic` is false, but the share endpoint passes `true` when the body leaves it out.
- **"Unauthorized" becomes 404.** The service's "Unauthorized" answers 404 at the controller.
- **The tree filter.** It tests `path` only.
- **The `.git` suffix.** The parser can strip two `.git` suffixes from a URL that the request validator accepts (`RepositoryService.DoubleSuffixExample`).

## Model

| member | source | states |
|---|---|---|
| Collections.FirstIndex | src/app/features/analysis/analysis.service.ts:158 | the position of the first matching document, or -1 exactly when none matches |
| Collections.FindOne | src/app/features/repository/repository.service.ts:67-70 | `findOne` yields a stored matching document, and nothing exactly when no document matches |
| Collections.Find | src/app/features/repository/repository.service.ts:118 | `find` yields only stored matching documents and every one of them |
| Collections.FindCounts | src/app/features/analysis/analysis.service.ts:150 | `find` keeps each matching document as often as it is stored, and no other |
| Collections.DeleteOne | src/app/features/analysis/analysis.service.ts:168 | `deleteOne` removes exactly one copy of the first match, or changes nothing when none matches |
| Collections.UpdateOne | src/app/features/analysis/analysis.service.ts:185-188 | `updateOne` keeps the collection's size |
| Collections.UpdateOneEffect | src/app/features/analysis/analysis.service.ts:185-188 | `updateOne` rewrites only the first match, with the update applied to it |
| Collections.InsertNewestFirst | src/app/features/analysis/analysis.service.ts:134 | inserting into a newest-first list keeps it newest first and adds exactly that document |
| Collections.SortNewestFirst | src/app/features/analysis/analysis.service.ts:150-152 | `sort({ createdAt: -1 })` is a permutation of its input, newest first |
| Strings.TrimStart | src/app/features/analysis/analysis.service.ts:43 | removes a prefix made only of white space, and leaves no white space at the front |
| Strings.TrimEnd | src/app/features/analysis/analysis.service.ts:43 | removes a suffix made only of white space, and leaves no white space at the end |
| Strings.Trim | src/app/features/analysis/analysis.service.ts:43 | what is left neither starts nor ends with white space |
| Strings.TrimCutsWhitespace | src/app/features/analysis/analysis.service.ts:43 | `trim` keeps one slice of the text (a prefix of what follows the leading white space), and everything cut off at either end is white space |
| Strings.IndexOf | src/app/features/analysis/analysis.service.ts:44 | `indexOf` finds the first occurrence, or -1 exactly when the character is absent |
| Strings.LastIndexOf | src/app/features/analysis/analysis.service.ts:45 | `lastIndexOf` finds the last occurrence, or -1 exactly when the character is absent |
| Strings.ContainsAt | src/app/features/analysis/analysis.controller.ts:18 | an occurrence at some position makes `includes` true |
| Strings.NotContainsByChar | src/app/features/analysis/analysis.controller.ts:18 | a character of the needle that the text lacks makes `includes` false |
| Strings.Split | src/app/features/repository/repository.service.ts:63 | `split` gives at least one piece, and no piece holds the separator |
| Strings.SplitJoin | src/app/features/analysis/analysis.service.ts:39 | splitting on the separator gives back the pieces that were joined, when none holds the separator |
| Strings.JoinContains | src/app/features/analysis/analysis.service.ts:39 | a joined text contains each of its pieces |
| Strings.Join | src/app/features/analysis/analysis.service.ts:39 | no pieces join to `""`; one piece joins to itself; the text starts with the first piece |
| Strings.JoinAppend | src/app/features/analysis/analysis.service.ts:39 | joining two non-empty lists puts exactly one separator between their joins, which with the one-piece case fixes the joined text |
| Strings.NatToString | src/app/features/analysis/analysis.service.ts:64 | the rendering of a count is a non-empty run of decimal digits whose value is the count, with no leading zero |
| Strings.AllLowerHex | src/app/features/analysis/analysis.validators.ts:4 | `[a-f0-9]*` holds exactly when every character is a lower-case hex digit |
| Json.ToJsString | src/app/features/analysis/analysis.service.ts:111 | `String(v)`: a string as is, `null`, `true`/`false`, a number as its JavaScript text, `[object Object]`, and an array as its elements joined by commas |
| Json.StringArrayRendering | src/app/features/analysis/analysis.service.ts:111 | an array of strings renders as those strings joined by commas |
| Http.ErrorMessage | src/app/features/analysis/analysis.controller.ts:17 | an `Error`'s own message, and the handler's fallback text for any other thrown value |
| Http.SignedIn | src/app/features/analysis/analysis.controller.ts:7-8 | the `!userId` guard fails exactly for a missing or empty user id |
| Strings.NameRun | src/app/features/repository/repository.service.ts:9 | the longest `[\w.-]` prefix: all of its characters are name characters, and the next one is not |
| AnalysisSchema.FromFields | src/app/features/analysis/analysis.schema.ts:3-14 | the record's seven fields are the dictionary's values under the seven required keys |
| AnalysisSchema.NewAnalysis | src/app/features/analysis/analysis.schema.ts:16-41 | a new record has no share token, `isPublic` false, and the creation time as `createdAt` |
| AnalysisSchema.AppendKeepsValid | src/app/features/analysis/analysis.schema.ts:21-33 | appending a validated record with a fresh id and no token keeps ids and tokens unique |
| RepositorySchema.AppendKeepsValid | src/app/features/repository/repository.schema.ts:5-24 | appending a validated record with a fresh id and a fresh (owner, URL) pair keeps the collection valid |
| RepositoryValidators.MatchRepoPathSound | src/app/features/repository/repository.validators.ts:3 | the path matcher accepts only `owner/repo[/]` made of name characters, and reports those pieces |
| RepositoryValidators.MatchRepoPathComplete | src/app/features/repository/repository.validators.ts:3 | every well-formed `owner/repo[/]` path is accepted, with its own pieces |
| RepositoryValidators.MatchScheme | src/app/features/repository/repository.validators.ts:3 | `https?://` is recognised exactly as written |
| RepositoryValidators.MatchSchemeComplete | src/app/features/repository/repository.validators.ts:3 | each scheme is recognised before any rest |
| RepositoryValidators.MatchHost | src/app/features/repository/repository.validators.ts:3 | `(www\.)?github\.com/` is recognised exactly as written |
| RepositoryValidators.MatchHostComplete | src/app/features/repository/repository.validators.ts:3 | each host form is recognised before any path |
| RepositoryValidators.NameRunOfPath | src/app/features/repository/repository.validators.ts:3 | in `owner/repo[/]`, the first run of name characters is the owner |
| RepositoryValidators.MatchRepoUrlSound | src/app/features/repository/repository.validators.ts:3 | an accepted URL is exactly the URL composed of the well-formed pieces it reports |
| RepositoryValidators.MatchRepoUrlComplete | src/app/features/repository/repository.validators.ts:3 | every URL composed of well-formed pieces is accepted, with those pieces |
| RepositoryValidators.AcceptsRepoUrl | src/app/features/repository/repository.validators.ts:5-12 | the body is accepted exactly when the URL check passes and the URL is `http(s)://[www.]github.com/owner/repo[/]` |
| RepositoryValidators.AcceptsRepositoryId | src/app/features/repository/repository.validators.ts:14-16 | an id is accepted exactly when it is 24 lower-case hex digits |
| RepositoryService.StripGitSuffix | src/app/features/repository/repository.service.ts:11 | only a trailing `.git` is removed, and putting it back restores the input |
| RepositoryService.LazyRepoGroup | src/app/features/repository/repository.service.ts:9 | the lazy repository group is a non-empty run of name characters at the start of the rest, after which only nothing, `/` or `.git` remains; it is the shortest such run; no match exactly when there is none |
| RepositoryService.ParseAt | src/app/features/repository/repository.service.ts:9-11 | a match yields a non-empty owner and a repository name of name characters |
| RepositoryService.ParseAtSound | src/app/features/repository/repository.service.ts:9-11 | a match at a position is the whole rest of the text: `github.com/`, the owner, `/`, a repository group (its `.git` stripped into the name) and nothing, `/` or `.git` |
| RepositoryService.ParseAtComplete | src/app/features/repository/repository.service.ts:9-10 | text of that shape from a position on matches there, with that owner |
| RepositoryService.ExtraSegmentDoesNotParse | src/app/features/repository/repository.service.ts:9-10 | `github.com/o/p/x` with a non-empty further segment `x` does not match at that position |
| RepositoryService.ExtraSegmentUrlDoesNotParse | src/app/features/repository/repository.service.ts:8-10 | a URL with a further path segment after the repository is rejected when `github.com/` occurs only at its host |
| RepositoryService.FirstSlash | src/app/features/repository/repository.service.ts:9 | the owner group stops at the first `/`: two texts split there agree on both sides |
| RepositoryService.GroupIsLastSegment | src/app/features/repository/repository.service.ts:9 | a repository group and its ending never hold a `/` followed by more text |
| RepositoryService.ParseFrom | src/app/features/repository/repository.service.ts:9 | the leftmost match; no result exactly when no position matches |
| RepositoryService.ParseRepoFromUrl | src/app/features/repository/repository.service.ts:8-12 | null exactly when no position matches; otherwise the result of a match at some position, with a `[\w.-]` owner and repository |
| RepositoryService.ParseFromSkips | src/app/features/repository/repository.service.ts:9 | positions where nothing matches do not change the result |
| RepositoryService.ComposedUrlParses | src/app/features/repository/repository.service.ts:9-11 | a URL built from valid pieces parses to its owner and its name with `.git` removed |
| RepositoryService.ValidatedUrlParses | src/app/features/repository/repository.service.ts:9-11 | every URL the request validator accepts is parsed into the owner and repository it matched |
| RepositoryService.ParsedNameStripsOneSuffix | src/app/features/repository/repository.service.ts:9-11 | without a `.git.git` ending (or with a trailing `/`), exactly one `.git` is removed |
| RepositoryService.DoubleSuffixExample | src/app/features/repository/repository.service.ts:9-11 | `.../r.git.git` is read as the repository `r`: both suffixes are stripped |
| RepositoryService.FetchRepoMetadata | src/app/features/repository/repository.service.ts:14-26 | an unparsable URL throws "Invalid GitHub repository URL"; a missing full name or branch falls back to `owner/repo` and `main` |
| RepositoryService.FetchRepoTree | src/app/features/repository/repository.service.ts:28-39 | a failed tree request is passed on; otherwise the projection of the returned nodes |
| RepositoryService.ProjectTree | src/app/features/repository/repository.service.ts:37-39 | every node with a non-empty path is kept, and every entry is the path-and-type projection of some such node |
| RepositoryService.ProjectTreeAppend | src/app/features/repository/repository.service.ts:37-39 | the filter works piecewise, so the tree's order is preserved |
| RepositoryService.ProjectTreeSingle | src/app/features/repository/repository.service.ts:37-39 | one node gives its projection when its path is non-empty, and nothing otherwise |
| RepositoryService.SplitFullName | src/app/features/repository/repository.service.ts:63 | the owner is the text before the first `/` (the whole text when there is none); the repository is present exactly when there is a `/`, and is the text after it up to the next `/` or the end |
| RepositoryService.SplitFullNameIsSplit | src/app/features/repository/repository.service.ts:63 | the destructuring takes pieces 0 and 1 of `split("/")` |
| RepositoryService.SplitFullNameOfPair | src/app/features/repository/repository.service.ts:63 | `owner/repo` splits back into its owner and repository |
| RepositoryService.FetchSignals | src/app/features/repository/repository.service.ts:62-65 | a metadata failure, then a tree failure, then a languages failure is passed on; otherwise the metadata, the split full name, the projected tree and the languages |
| RepositoryService.LanguageNames | src/app/features/repository/repository.service.ts:77 | `Object.keys` lists the histogram's languages in order |
| RepositoryService.Summarize | src/app/features/repository/repository.service.ts:75-79 | the metadata returned is the first 200 tree entries, the language names and the fetched default branch |
| RepositoryService.NewRecord | src/app/features/repository/repository.service.ts:83-88 | the new record is named by the full name, is not yet analysed and is stamped now |
| RepositoryService.RegisterSignals | src/app/features/repository/repository.service.ts:67-103 | an existing (user, URL) record is returned and nothing is inserted; otherwise exactly one validated record is appended |
| RepositoryService.CreateRepository | src/app/features/repository/repository.service.ts:58-104 | the fetches come first, so a bad URL throws even for a registered pair; then registration as above, and the store stays valid |
| RepositoryService.RegisteredIsFound | src/app/features/repository/repository.service.ts:67-81 | after an insert, the same (user, URL) pair finds the new record, so registering again is idempotent |
| RepositoryService.GetRepositoryById | src/app/features/repository/repository.service.ts:106-115 | a record is returned exactly when one matches both id and owner; otherwise "Repository not found" |
| RepositoryService.ListUserRepositories | src/app/features/repository/repository.service.ts:117-122 | exactly the user's records, each as often as stored, newest first |
| AnalysisService.EntryLineParts | src/app/features/analysis/analysis.service.ts:39 | a line starts `[dir] ` exactly for a tree node and `[file] ` otherwise, followed by the path |
| AnalysisService.TreeLines | src/app/features/analysis/analysis.service.ts:37-39 | min(n, 150) lines, where line k describes tree entry k |
| AnalysisService.FileTreeSummaryLines | src/app/features/analysis/analysis.service.ts:36-40 | the summary splits on line breaks back into those lines |
| AnalysisService.BuildFileTreeSummary | src/app/features/analysis/analysis.service.ts:36-40 | empty exactly for an empty tree; otherwise it starts with the first entry's line and contains the line of each of the first 150 entries |
| AnalysisService.BracePairByIndices | src/app/features/analysis/analysis.service.ts:44-46 | the guard passes exactly when some `{` precedes some `}` |
| AnalysisService.OuterBraceSpanIsFirstToLast | src/app/features/analysis/analysis.service.ts:44-47 | the span runs from the first `{` to the last `}` |
| AnalysisService.ExtractFromTrimmed | src/app/features/analysis/analysis.service.ts:44-47 | the first-`{`-to-last-`}` span, or `{}` without a brace pair; it always starts `{` and ends `}` |
| AnalysisService.ExtractJsonFromText | src/app/features/analysis/analysis.service.ts:42-48 | the same on the trimmed reply |
| AnalysisService.ExtractKeepsBareObject | src/app/features/analysis/analysis.service.ts:42-48 | a reply that is already a bare object is passed on unchanged |
| AnalysisService.CoerceField | src/app/features/analysis/analysis.service.ts:110-111 | a present non-null value is rendered with `String`, and a missing or null one becomes `""` |
| AnalysisService.CoercedFields | src/app/features/analysis/analysis.service.ts:108-112 | the dictionary has exactly the seven required keys |
| AnalysisService.BuildStructuredResult | src/app/features/analysis/analysis.service.ts:108-112 | the loop fills every required key with its coerced value and adds no other key |
| AnalysisService.StructuredFrom | src/app/features/analysis/analysis.service.ts:98-117 | field i is the coerced value of required key i |
| AnalysisService.StringFieldsPassThrough | src/app/features/analysis/analysis.service.ts:110-117 | non-empty string values are stored unchanged and pass validation |
| AnalysisService.MissingFieldFailsValidation | src/app/features/analysis/analysis.service.ts:110-117 | a missing or null key leaves an empty field, which the schema rejects |
| AnalysisService.RepoStats | src/app/features/analysis/analysis.service.ts:63-64 | is `Languages: `, the language names in order joined by `, `, then `Total files in tree: ` and the decimal tree size; so it names every language and ends with the count |
| AnalysisService.BuildPrompt | src/app/features/analysis/analysis.service.ts:62-81 | the prompt carries the full name, the branch, the tree summary, the statistics over the whole tree, and the manifest or "Not found or not applicable" |
| AnalysisService.Analyze | src/app/features/analysis/analysis.service.ts:56-117 | a fetch or model failure is passed on; a reply that does not parse is "AI returned invalid JSON"; otherwise the coercion of the parsed reply, when it passes the `required` checks, else "Analysis validation failed" |
| AnalysisService.ReplyFieldsAreTheResult | src/app/features/analysis/analysis.service.ts:88-117 | a reply whose object holds the seven keys as non-empty strings is the result, field for field |
| AnalysisService.ReplyWithoutObjectFails | src/app/features/analysis/analysis.service.ts:88-117 | a reply without a brace pair is read as `{}` and ends in "Analysis validation failed" |
| AnalysisService.MarkAnalyzedKeepsValid | src/app/features/analysis/analysis.service.ts:119-122 | stamping `analyzedAt` keeps the repository collection valid |
| AnalysisService.MarkAnalyzedEffect | src/app/features/analysis/analysis.service.ts:119-122 | only the repository with that id gets `analyzedAt`; every other record is unchanged |
| AnalysisService.MarkAnalyzed | src/app/features/analysis/analysis.service.ts:119-122 | the collection keeps its size, and each record is unchanged or is the one with that id, stamped |
| AnalysisService.AnalyzeRepository | src/app/features/analysis/analysis.service.ts:56-117 | the imperative steps, field loop included, compute `Analyze` |
| AnalysisService.StoreAnalysis | src/app/features/analysis/analysis.service.ts:114-122 | the record is appended and its repository stamped; the store stays valid |
| AnalysisService.RunOutcome | src/app/features/analysis/analysis.service.ts:51-54 | a repository the caller does not own gives "Repository not found"; otherwise the analysis of its URL |
| AnalysisService.AnalyzeOwned | src/app/features/analysis/analysis.service.ts:51-117 | the ownership check followed by the analysis computes `RunOutcome` |
| AnalysisService.RunAnalysis | src/app/features/analysis/analysis.service.ts:50-125 | every failure leaves the store unchanged; a success appends one analysis with no token and `isPublic` false, and stamps only that repository |
| AnalysisService.AnalysesOf | src/app/features/analysis/analysis.service.ts:150-152 | exactly the repository's analyses, each as often as stored, newest first |
| AnalysisService.ListAnalysesByRepositoryId | src/app/features/analysis/analysis.service.ts:144-155 | "Repository not found" exactly when the caller owns no such repository; otherwise all its analyses newest first, possibly none |
| AnalysisService.NewestFirstHead | src/app/features/analysis/analysis.service.ts:133-135 | the head of a newest-first list is at least as new as every member |
| AnalysisService.GetAnalysisByRepositoryId | src/app/features/analysis/analysis.service.ts:127-142 | the ownership check comes first; "Analysis not found" exactly when the repository has none; otherwise one with the greatest `createdAt` |
| AnalysisService.Authorize | src/app/features/analysis/analysis.service.ts:158-166 | "Analysis not found" exactly when the id is absent, "Unauthorized" otherwise on failure; success implies the caller owns the parent repository |
| AnalysisService.AuthorizeExact | src/app/features/analysis/analysis.service.ts:158-166 | with unique ids, the check passes exactly when the analysis exists and its repository belongs to the caller |
| AnalysisService.RemoveAnalysisEffect | src/app/features/analysis/analysis.service.ts:168 | deleting removes exactly the analysis with that id and keeps every other one and their counts |
| AnalysisService.RemoveAnalysis | src/app/features/analysis/analysis.service.ts:168 | with no such id nothing changes; otherwise one record fewer, all of them from the collection |
| AnalysisService.WithoutKeepsValid | src/app/features/analysis/analysis.service.ts:168 | dropping a record keeps the collection valid |
| AnalysisService.ShareAnalysisEffect | src/app/features/analysis/analysis.service.ts:185-188 | sharing with a free token sets token and visibility on that analysis only, and keeps tokens unique |
| AnalysisService.ShareAnalysis | src/app/features/analysis/analysis.service.ts:185-188 | the collection keeps its size, and each record is unchanged or is the one with that id, with the token and visibility set |
| AnalysisService.UnshareAnalysisEffect | src/app/features/analysis/analysis.service.ts:212-215 | revoking unsets both fields on that analysis only |
| AnalysisService.UnshareAnalysis | src/app/features/analysis/analysis.service.ts:212-215 | the collection keeps its size, and each record is unchanged or is the one with that id, with both fields unset |
| AnalysisService.GetAnalysisByShareToken | src/app/features/analysis/analysis.service.ts:193-199 | succeeds exactly for a token held by a public analysis; an unknown token and a private one give the same error |
| AnalysisService.ShareThenLookup | src/app/features/analysis/analysis.service.ts:182-198 | after sharing, the token finds the analysis when public and nothing when private |
| AnalysisService.RevokeThenLookup | src/app/features/analysis/analysis.service.ts:193-216 | after revoking, the old token finds nothing |
| AnalysisService.DeleteAnalysis | src/app/features/analysis/analysis.service.ts:157-169 | a failed check changes nothing; otherwise that analysis is removed |
| AnalysisService.GenerateShareToken | src/app/features/analysis/analysis.service.ts:171-191 | a failed check or a token already held changes nothing; otherwise the token and visibility are stored and the token is returned |
| AnalysisService.RevokeShareToken | src/app/features/analysis/analysis.service.ts:201-216 | a failed check changes nothing; otherwise the token and visibility are unset |
| AuthService.RegisterUser | src/app/features/auth/auth.service.ts:11-22 | a taken email throws and stores nothing; otherwise one user with the password's hash is stored, and only id and email are returned |
| AuthService.IssueSession | src/app/features/auth/auth.service.ts:33-47 | an access token (access secret, "1h") and a refresh token (refresh secret, "7d"), both with the user's id as subject |
| AuthService.LoginUser | src/app/features/auth/auth.service.ts:24-48 | an unknown email and a wrong password both give "Invalid credentials"; success exactly when the password checks against the first user with that email |
| AuthService.RegisterThenLogin | src/app/features/auth/auth.service.ts:16-29 | a user who registered logs in with the same password |
| AuthService.RefreshTokens | src/app/features/auth/auth.service.ts:50-71 | a token that does not verify is refused; "User not found" exactly when the subject names no user; otherwise a new pair and the id and email of the user the subject names |
| AnalysisController.RunStatus | src/app/features/analysis/analysis.controller.ts:18 | 404 exactly when the message contains "not found", else 500 |
| AnalysisController.OwnerActionStatus | src/app/features/analysis/analysis.controller.ts:67 | 404 exactly when the message contains "not found" or "Unauthorized", else 500 |
| AnalysisController.RunAnalysis | src/app/features/analysis/analysis.controller.ts:6-21 | 401 without a user id; 201 with the analysis; otherwise the message, or "Analysis failed", with its status |
| AnalysisController.GetAnalysis | src/app/features/analysis/analysis.controller.ts:23-37 | 401 without a user id; every failure is 404 |
| AnalysisController.ListAnalyses | src/app/features/analysis/analysis.controller.ts:39-53 | 401 without a user id; every failure is 500 |
| AnalysisController.DeleteAnalysis | src/app/features/analysis/analysis.controller.ts:55-70 | 401 without a user id; success answers "Analysis deleted"; failures use the owner-action rule |
| AnalysisController.CreateShareLink | src/app/features/analysis/analysis.controller.ts:72-88 | a body without `isPublic` shares publicly, and the link is `/share/` followed by the token |
| AnalysisController.RevokeShareLink | src/app/features/analysis/analysis.controller.ts:90-105 | 401 without a user id; success answers "Share link revoked"; failures use the owner-action rule |
| AnalysisController.GetSharedAnalysis | src/app/features/analysis/analysis.controller.ts:107-116 | no user id needed; every failure is 404 |
| AnalysisController.RunStatusOfServiceMessages | src/app/features/analysis/analysis.controller.ts:17-19 | a missing repository is 404; invalid JSON and a failed validation are 500 |
| AnalysisController.OwnerActionStatusOfRefusals | src/app/features/analysis/analysis.controller.ts:66-67 | "Analysis not found" and "Unauthorized" are both 404 |
| AnalysisController.OwnerActionStatusOfTokenClash | src/app/features/analysis/analysis.controller.ts:84-85 | a duplicate share token is 500 |
| AnalysisController.SignedOutIgnoresService | src/app/features/analysis/analysis.controller.ts:7-11 | a signed-out request gets 401 whatever the service would do |
| RepositoryController.CreateStatus | src/app/features/repository/repository.controller.ts:17 | 400 exactly when the message contains "Invalid" or "not found", else 500 |
| RepositoryController.CreateRepository | src/app/features/repository/repository.controller.ts:6-20 | 401 without a user id; 201 with the registration; otherwise the message, or "Failed to add repository", with its status |
| RepositoryController.GetRepository | src/app/features/repository/repository.controller.ts:22-36 | 401 without a user id; every failure is 404 |
| RepositoryController.ListRepositories | src/app/features/repository/repository.controller.ts:38-51 | 401 without a user id; every failure is 500 |
| RepositoryController.CreateStatusOfInvalidUrl | src/app/features/repository/repository.controller.ts:16-17 | an unparsable URL is 400 |
| RepositoryController.CreateStatusOfServerErrors | src/app/features/repository/repository.controller.ts:16-17 | a failed validation and GitHub's "Not Found" are both 500, because the test is case-sensitive |
| AuthController.RegisterStatus | src/app/features/auth/auth.controller.ts:12 | 400 exactly for "Email already registered", else 500 |
| AuthController.Register | src/app/features/auth/auth.controller.ts:6-14 | 201 with id and email; otherwise the message, or "Registration failed", with its status |
| AuthController.Login | src/app/features/auth/auth.controller.ts:16-24 | every failure is 401, with the message passed through unchanged |
| AuthController.Refresh | src/app/features/auth/auth.controller.ts:26-35 | every failure is 401 |
| AuthController.RegisterTakenEmailIsBadRequest | src/app/features/auth/auth.controller.ts:11-12 | a taken email answers 400 |
| AuthController.LoginFailureIsUniform | src/app/features/auth/auth.controller.ts:21-22 | every failed login gets the same 401 "Invalid credentials" answer |
| AuthController.RefreshUnknownUser | src/app/features/auth/auth.controller.ts:31-33 | a refresh token naming no user answers 401 "User not found" |
| AnalysisValidators.IdErrors | src/app/features/analysis/analysis.validators.ts:4 | no error exactly for 24 lower-case hex digits; otherwise one error under the field |
| AnalysisValidators.RunAnalysisParamsErrors | src/app/features/analysis/analysis.validators.ts:3-5 | a bad id is reported as "repositoryId: Invalid repository ID" |
| AnalysisValidators.AnalysisIdParamsErrors | src/app/features/analysis/analysis.validators.ts:13-15 | a bad id is reported as "id: Invalid analysis ID" |
| AnalysisValidators.AcceptsLanguage | src/app/features/analysis/analysis.validators.ts:7-11 | `language` is absent or one of the nine codes |
| AnalysisValidators.AcceptsShareToken | src/app/features/analysis/analysis.validators.ts:17-19 | a share token is accepted exactly when it is non-empty |
| AnalysisValidators.ParseIsPublic | src/app/features/analysis/analysis.validators.ts:21-23 | `isPublic` is accepted exactly when absent or a boolean, and the parsed value says which |
| AnalysisValidators.QuestionErrors | src/app/features/analysis/analysis.validators.ts:25-27 | accepted exactly when the length is 1 to 2000; otherwise "Question is required" or "Question too long" |
| AnalysisValidators.QuestionBoundary | src/app/features/analysis/analysis.validators.ts:26 | 2000 characters are accepted and 2001 are refused |
| ValidateMiddleware.TargetOf | src/app/common/middlewares/validate.middleware.ts:8 | the target defaults to the body |
| ValidateMiddleware.FieldLine | src/app/common/middlewares/validate.middleware.ts:19 | a field's part is the key, `: `, and its rendered errors |
| ValidateMiddleware.FieldLines | src/app/common/middlewares/validate.middleware.ts:18-19 | one part per field, in order |
| ValidateMiddleware.FormatFieldErrors | src/app/common/middlewares/validate.middleware.ts:18-20 | no fields give an empty message; one field gives exactly its part; otherwise it starts with the first field's part |
| ValidateMiddleware.FormatFieldErrorsAppend | src/app/common/middlewares/validate.middleware.ts:18-20 | two lists of field errors give their two messages separated by one `; `, so the message is every field's part in order |
| ValidateMiddleware.FormatFieldErrorsCons | src/app/common/middlewares/validate.middleware.ts:18-20 | the first field's part, then `; `, then the message of the remaining fields |
| ValidateMiddleware.FormatMentionsEveryField | src/app/common/middlewares/validate.middleware.ts:18-20 | the message contains every field's part |
| ValidateMiddleware.SingleFieldMessage | src/app/common/middlewares/validate.middleware.ts:18-20 | one field gives `k: e1, e2` with no separator |
| ValidateMiddleware.Validate | src/app/common/middlewares/validate.middleware.ts:9-23 | on success, only the target is replaced and `next` is called once, and a validated headers target replaces the `Authorization` header with the parsed one; on failure, the request is unchanged, the answer is 400 with the formatted errors, and `next` is not called |
| Express.AuthorizationOf | src/app/common/middlewares/auth.middleware.ts:8 | the header text exactly when the headers object holds a string under `authorization` |
| Express.Request.Set | src/app/common/middlewares/validate.middleware.ts:14 | assigning one target leaves the others and the rest of the request unchanged; assigning the headers sets the `Authorization` header to the new headers' one |
| Express.Request.Next | src/app/common/middlewares/validate.middleware.ts:15 | `next` is counted once and changes nothing else |
| Express.Request.SendError | src/app/common/middlewares/validate.middleware.ts:21 | the error response is recorded and nothing else changes |
| AuthMiddleware.HeaderToken | src/app/common/middlewares/auth.middleware.ts:9 | a token exactly when the header starts with `Bearer ` (case-sensitive), and the header is that prefix plus the token |
| AuthMiddleware.HeaderTokenOfBearer | src/app/common/middlewares/auth.middleware.ts:9 | prefixing `Bearer ` to a token gives the token back |
| AuthMiddleware.Decide | src/app/common/middlewares/auth.middleware.ts:8-23 | "Unauthorized" exactly when no non-empty bearer token is present; admitted exactly when one verifies; otherwise "Invalid or expired token" |
| AuthMiddleware.Authenticate | src/app/common/middlewares/auth.middleware.ts:7-24 | a refusal answers 401 without `next`; an admission sets the user id and payload and calls `next` once |
| AuthMiddleware.SubjectlessTokenIsNotSignedIn | src/app/common/middlewares/auth.middleware.ts:17-18 | a verified token without a subject passes the middleware but fails every handler's guard |
| ErrorMiddleware.HandleError | src/app/common/middlewares/error.middleware.ts:6-14 | always 500; in production "Internal server error", otherwise the error's message |
| ErrorMiddleware.ProductionRevealsNothing | src/app/common/middlewares/error.middleware.ts:12 | in production the answer does not depend on the error |

## Left out

- **Network clients.** The GitHub client, the language model, MongoDB and their asynchronous interleavings are not modelled. Their results are parameters, and each operation is atomic.
- **Concurrency.** The read-check-write race between two share-token requests is not modelled.
- **`getPackageJsonContent`.** Its base64 and UTF-8 decoding are not modelled. The API parameter returns an optional string and never throws, as the source's `try`/`catch` does.
- **Metadata URLs.** `languagesUrl` and `contentsUrl` are computed but never read, so they are not modelled.
- **The prompt prose.** The fixed text of the prompt and its quoted output schema are not modelled. The prompt is a record of the facts it carries.
- **Rate limiting, routing and response writing.** The rate limiter, the route tables and the response helpers are not modelled. A response is a status with data or an error message.
- **The status codes file.** It is not part of this model; the conventional codes are used.
- **Casting and timestamps.**
  - A malformed id passed to `findById` raises a cast error, which is not modelled. The id validators stop such ids on the routes that have them. `refreshTokens` has no such check: `User.findById(payload.sub)` (src/app/features/auth/auth.service.ts:52) throws a cast error for a verified token whose subject is not a database id, and the model answers "User not found" there. A token without a subject gives `findById(undefined)`, which finds nothing, as the model says.
  - `updatedAt` and the exact `Date` values are not modelled. Time is a natural-number clock that only moves forward.
- **Exact error texts.**
  - Mongoose's validation and duplicate-key messages are modelled by their leading words ("Analysis validation failed", "E11000 duplicate key error"). That is what the controllers' substring tests see.
  - zod's own messages for the share-token, `isPublic` and `language` checks are not modelled; those checks are predicates.
- **Randomness and hashing.** bcrypt's salt, hashing and comparison are an oracle, and so is the random source of share tokens (a 64-digit lower-case hex parameter).
- **The user schema.** It is not part of this model. A user is an id, an email and a password hash, and emails are kept unique the way registration checks them.
- **The Q&A route.** The route that uses the question and language schemas is not part of this model; only the schemas are.
- **String length.** JavaScript measures strings in UTF-16 code units, while `|s|` counts characters. The question bounds agree with the source only on text within the Basic Multilingual Plane.
- RepositoryService.CreateRepository: on first registration the source returns only the new record's id, owner, URL, name and `analyzedAt`; the model returns the whole record, `createdAt` included.
- RepositoryService.ProjectTree: its contract states the filter and the projection; order preservation is stated separately by `RepositoryService.ProjectTreeAppend` and `RepositoryService.ProjectTreeSingle`.
- Collections.UpdateOne: its own contract states only the size; what changes is stated by `Collections.UpdateOneEffect`.
