/** The repository service: reading `owner/repo` out of a URL, the metadata,
    tree and language fetches (the GitHub API is an oracle), registration of a
    repository for a user, and the owner-scoped lookups. */
module RepositoryService {
  import opened Wrappers
  import opened Strings
  import opened Collections
  import opened RepositorySchema
  import opened Database
  import RepositoryValidators

  datatype RepoRef = RepoRef(owner: string, repo: string)

  /** `url.replace(/\.git$/, "")` */
  function StripGitSuffix(s: string): (r: string)
    ensures !EndsWith(s, ".git") ==> r == s
    ensures EndsWith(s, ".git") ==> r + ".git" == s
    ensures AllNameChars(s) ==> AllNameChars(r)
  {
    if EndsWith(s, ".git") then s[..|s| - 4] else s
  }

  /** What `(?:\/|\.git)?$` accepts: nothing, a `/` or a `.git`, and then
      the end of the text. */
  predicate GroupEnd(e: string) {
    e == "" || e == "/" || e == ".git"
  }

  /** The second capture group `([\w.-]+?)(?:\/|\.git)?$` on the text after
      `owner/`: the shortest non-empty run of name characters after which at
      most a `/` or a `.git` remains. When no such run exists, the pattern
      does not match. */
  function LazyRepoGroup(tail: string): (r: Option<string>)
    ensures r.Some? ==> r.value != "" && AllNameChars(r.value) && r.value <= tail
    ensures r.Some? ==> GroupEnd(tail[|r.value|..])
    ensures r.Some? ==> forall m | 0 < m < |r.value| :: !GroupEnd(tail[m..])
    ensures r.None? ==> forall m | 0 < m <= |tail| && AllNameChars(tail[..m]) :: !GroupEnd(tail[m..])
  {
    if |tail| >= 2 && tail[|tail| - 1] == '/' && AllNameChars(tail[..|tail| - 1]) then Some(tail[..|tail| - 1])
    else if |tail| >= 1 && AllNameChars(tail) then
      if |tail| > 4 && EndsWith(tail, ".git") then Some(tail[..|tail| - 4]) else Some(tail)
    else None
  }

  /** The pattern `github\.com\/([\w.-]+)\/([\w.-]+?)(?:\/|\.git)?$` tried at
      position `i` of `url`, with `.git` then stripped from the repository
      name. The owner group is greedy and cannot contain `/`, so it is the
      whole run of name characters. A match covers the rest of the text:
      the host, the owner, one `/`, the repository group and at most a `/`
      or a `.git` (`ParseAtSound`), so a further path segment means no match
      here. */
  function ParseAt(url: string, i: nat): (r: Option<RepoRef>)
    requires i <= |url|
    ensures r.Some? ==> r.value.owner != "" && AllNameChars(r.value.owner) && AllNameChars(r.value.repo)
  {
    if !StartsWith(url[i..], "github.com/") then None
    else
      var rest := url[i + 11..];
      var n := NameRun(rest);
      if n == 0 || n == |rest| || rest[n] != '/' then None
      else
        var group := LazyRepoGroup(rest[n + 1..]);
        if group.None? then None
        else Some(RepoRef(rest[..n], StripGitSuffix(group.value)))
  }

  /** A match at `i` accounts for all of the text from `i` on:
      `github.com/`, the owner, `/`, a repository group `g` whose `.git` is
      then stripped, and an ending the pattern allows. */
  lemma ParseAtSound(url: string, i: nat)
    requires i <= |url| && ParseAt(url, i).Some?
    ensures var r := ParseAt(url, i).value;
      exists g, e | g != "" && AllNameChars(g) && GroupEnd(e) ::
        r.repo == StripGitSuffix(g) && url[i..] == "github.com/" + r.owner + "/" + g + e
  {
    var rest := url[i + 11..];
    var n := NameRun(rest);
    var g := LazyRepoGroup(rest[n + 1..]).value;
    HostPathShape(url[i..], n, g);
  }

  /** `github.com/` + a run of `n` characters + `/` + a prefix `g` of what
      follows, and then the remainder. */
  lemma HostPathShape(s: string, n: nat, g: string)
    requires StartsWith(s, "github.com/") && 11 + n < |s| && s[11 + n] == '/'
    requires g <= s[12 + n..]
    ensures s == "github.com/" + s[11..][..n] + "/" + g + s[12 + n..][|g|..]
  {
    var owner := s[11..][..n];
    assert s == s[..11] + owner + [s[11 + n]] + s[12 + n..];
    assert s[12 + n..] == g + s[12 + n..][|g|..];
  }

  /** The leftmost position from `i` on where the pattern matches. */
  function ParseFrom(url: string, i: nat): (r: Option<RepoRef>)
    requires i <= |url|
    ensures r.None? <==> forall j | i <= j <= |url| :: ParseAt(url, j).None?
    ensures r.Some? ==> exists j | i <= j <= |url| :: ParseAt(url, j) == r
    decreases |url| - i
  {
    if ParseAt(url, i).Some? then ParseAt(url, i)
    else if i == |url| then None
    else ParseFrom(url, i + 1)
  }

  /** `parseRepoFromUrl`: the pattern is not anchored at the start, so the
      first position where it matches decides. The owner is a non-empty run
      of `[\w.-]`; the repository name is made of the same characters. */
  function ParseRepoFromUrl(url: string): (r: Option<RepoRef>)
    ensures r.None? <==> forall j | 0 <= j <= |url| :: ParseAt(url, j).None?
    ensures r.Some? ==> exists j | 0 <= j <= |url| :: ParseAt(url, j) == r
    ensures r.Some? ==> r.value.owner != "" && AllNameChars(r.value.owner) && AllNameChars(r.value.repo)
  {
    ParseFrom(url, 0)
  }

  /** The first `/` of `a/b` is the one after `a`. */
  lemma SlashAfterFirstPiece(a: string, b: string)
    requires '/' !in a
    ensures IndexOf(a + "/" + b, '/') == |a|
  {
    var s := a + "/" + b;
    assert s[|a|] == '/';
    forall j | 0 <= j < |a| ensures s[j] != '/' {
      assert s[j] == a[j] && a[j] in a;
    }
  }

  /** Two texts split at their first `/` agree on both sides of it. */
  lemma FirstSlash(a: string, b: string, c: string, d: string)
    requires '/' !in a && '/' !in c
    requires a + "/" + b == c + "/" + d
    ensures a == c && b == d
  {
    var s := a + "/" + b;
    SlashAfterFirstPiece(a, b);
    SlashAfterFirstPiece(c, d);
    assert a == s[..|a|] && b == s[|a| + 1..];
    assert c == s[..|c|] && d == s[|c| + 1..];
  }

  /** A repository group followed by its ending has no `/` except perhaps
      the last character. */
  lemma GroupEndSlash(g: string, e: string)
    requires '/' !in g && GroupEnd(e)
    ensures var i := IndexOf(g + e, '/'); i == -1 || i == |g + e| - 1
  {
    var s := g + e;
    forall j | 0 <= j < |s| - 1 ensures s[j] != '/' {
      if j < |g| {
        assert s[j] == g[j] && g[j] in g;
      } else {
        assert s[j] == e[j - |g|];
      }
    }
  }

  /** A repository group and its ending cannot be a segment, a `/` and more. */
  lemma GroupIsLastSegment(g: string, e: string, p: string, x: string)
    requires '/' !in g && '/' !in p && GroupEnd(e) && x != ""
    ensures g + e != p + "/" + x
  {
    GroupEndSlash(g, e);
    SlashAfterFirstPiece(p, x);
  }

  /** Equal texts with the same prefix agree after it. */
  lemma DropPrefix(h: string, a: string, b: string)
    requires h + a == h + b
    ensures a == b
  {
    assert a == (h + a)[|h|..];
    assert b == (h + b)[|h|..];
  }

  /** `host + a` regrouped around the pieces of `a`. */
  lemma Regroup(host: string, a: string, b: string, c: string, d: string)
    ensures host + a + b + c + d == host + (a + b + (c + d))
  {
  }

  /** `github.com/o/p/x` with a non-empty `x` does not match: an extra path
      segment after the repository is not ignored. */
  lemma ExtraSegmentDoesNotParse(url: string, i: nat, o: string, p: string, x: string)
    requires i <= |url| && '/' !in o && '/' !in p && x != ""
    requires url[i..] == "github.com/" + o + "/" + p + "/" + x
    ensures ParseAt(url, i).None?
  {
    var host, t := "github.com/", url[i..];
    Regroup(host, o, "/", p, "/" + x);
    assert p + ("/" + x) == p + "/" + x;
    assert t == host + (o + "/" + (p + "/" + x));
    if ParseAt(url, i).Some? {
      ParseAtSound(url, i);
      var owner := ParseAt(url, i).value.owner;
      var g, e :| g != "" && AllNameChars(g) && GroupEnd(e) &&
        t == host + owner + "/" + g + e;
      Regroup(host, owner, "/", g, e);
      DropPrefix(host, owner + "/" + (g + e), o + "/" + (p + "/" + x));
      assert '/' !in owner && '/' !in g by {
        assert !IsNameChar('/');
      }
      FirstSlash(owner, g + e, o, p + "/" + x);
      GroupIsLastSegment(g, e, p, x);
    }
  }

  /** Conversely, wherever the text from `i` on is `github.com/`, an owner
      of name characters, `/`, a repository group and its ending, the
      pattern matches there and reads that owner. */
  lemma ParseAtComplete(url: string, i: nat, o: string, g: string, e: string)
    requires i <= |url| && o != "" && AllNameChars(o) && g != "" && AllNameChars(g) && GroupEnd(e)
    requires url[i..] == "github.com/" + o + "/" + g + e
    ensures ParseAt(url, i).Some? && ParseAt(url, i).value.owner == o
  {
    var host, tail := "github.com/", g + e;
    Regroup(host, o, "/", g, e);
    var path := RepositoryValidators.PathText(o, tail, false);
    assert path == o + "/" + tail;
    assert url[i + 11..] == path by {
      assert url[i + 11..] == url[i..][|host|..];
    }
    RepositoryValidators.NameRunOfPath(o, tail, false);
    assert tail[..|g|] == g && tail[|g|..] == e;
  }

  /** Where `github.com/` occurs only at the host, a URL with a path segment
      after the repository is rejected. */
  lemma ExtraSegmentUrlDoesNotParse(url: string, k: nat, o: string, p: string, x: string)
    requires k <= |url| && '/' !in o && '/' !in p && x != ""
    requires url[k..] == "github.com/" + o + "/" + p + "/" + x
    requires forall j | 0 <= j <= |url| && j != k :: !StartsWith(url[j..], "github.com/")
    ensures ParseRepoFromUrl(url).None?
  {
    ExtraSegmentDoesNotParse(url, k, o, p, x);
  }

  lemma {:induction false} ParseFromSkips(url: string, i: nat, k: nat)
    requires i <= k <= |url|
    requires forall j | i <= j < k :: ParseAt(url, j).None?
    ensures ParseFrom(url, i) == ParseFrom(url, k)
    decreases k - i
  {
    if i < k {
      ParseFromSkips(url, i + 1, k);
    }
  }

  /** The repository name the parser reports for the second path segment
      `seg` of a URL the validator accepted. */
  function ParsedName(seg: string, trailingSlash: bool): string {
    if !trailingSlash && |seg| > 4 && EndsWith(seg, ".git") then StripGitSuffix(seg[..|seg| - 4])
    else StripGitSuffix(seg)
  }

  /** The lazy group on `repo[/]`, for a non-empty name `repo`. */
  lemma LazyGroupOfSegment(repo: string, slash: bool)
    requires repo != "" && AllNameChars(repo)
    ensures LazyRepoGroup(repo + (if slash then "/" else "")) ==
      Some(if !slash && |repo| > 4 && EndsWith(repo, ".git") then repo[..|repo| - 4] else repo)
  {
    var tail := repo + (if slash then "/" else "");
    if slash {
      assert tail[..|tail| - 1] == repo;
    } else {
      assert tail == repo;
      assert tail[|tail| - 1] != '/' by {
        assert IsNameChar(repo[|repo| - 1]);
      }
    }
  }

  /** At a position where `github.com/owner/repo[/]` runs to the end, the
      pattern matches with the owner and the repository name `ParsedName`
      gives. */
  lemma ParseAtHost(url: string, k: nat, owner: string, repo: string, slash: bool)
    requires k <= |url| && owner != "" && AllNameChars(owner) && repo != "" && AllNameChars(repo)
    requires url[k..] == "github.com/" + RepositoryValidators.PathText(owner, repo, slash)
    ensures ParseAt(url, k) == Some(RepoRef(owner, ParsedName(repo, slash)))
  {
    var path := RepositoryValidators.PathText(owner, repo, slash);
    assert url[k + 11..] == path by {
      assert url[k + 11..] == url[k..][11..];
    }
    RepositoryValidators.NameRunOfPath(owner, repo, slash);
    LazyGroupOfSegment(repo, slash);
  }

  /** The pattern cannot match where the text does not start with `g`. */
  lemma NoParseBefore(url: string, k: nat)
    requires k <= |url|
    requires forall j | 0 <= j < k :: url[j] != 'g'
    ensures forall j | 0 <= j < k :: ParseAt(url, j).None?
  {
    forall j | 0 <= j < k ensures ParseAt(url, j).None? {
      assert url[j..][0] == url[j];
    }
  }

  /** A URL built from valid pieces parses at its host: the owner is the
      first path segment and the name is the second one with `.git` removed
      as `ParsedName` says. */
  lemma ComposedUrlParses(p: RepositoryValidators.RepoUrlParts)
    requires RepositoryValidators.ValidParts(p)
    ensures ParseRepoFromUrl(RepositoryValidators.ComposeRepoUrl(p)) == Some(RepoRef(p.owner, ParsedName(p.repo, p.trailingSlash)))
  {
    var s := RepositoryValidators.ComposeRepoUrl(p);
    var prefix := RepositoryValidators.SchemeText(p.https) + (if p.www then "www." else "");
    var rest := "github.com/" + RepositoryValidators.PathText(p.owner, p.repo, p.trailingSlash);
    assert s == prefix + rest;
    var k := |prefix|;
    assert s[k..] == rest;
    assert forall j | 0 <= j < k :: s[j] != 'g' by {
      forall j | 0 <= j < k ensures s[j] != 'g' {
        assert s[j] == prefix[j];
      }
    }
    NoParseBefore(s, k);
    ParseFromSkips(s, 0, k);
    ParseAtHost(s, k, p.owner, p.repo, p.trailingSlash);
  }

  /** Every URL the request validator accepts is read by the parser as the
      pieces the validator matched. */
  lemma ValidatedUrlParses(s: string)
    requires RepositoryValidators.MatchRepoUrl(s).Some?
    ensures var p := RepositoryValidators.MatchRepoUrl(s).value;
      ParseRepoFromUrl(s) == Some(RepoRef(p.owner, ParsedName(p.repo, p.trailingSlash)))
  {
    RepositoryValidators.MatchRepoUrlSound(s);
    ComposedUrlParses(RepositoryValidators.MatchRepoUrl(s).value);
  }

  /** When the second segment does not end in `.git.git`, or the URL ends in
      `/`, the parsed name is the segment with one trailing `.git` removed. */
  lemma ParsedNameStripsOneSuffix(seg: string, trailingSlash: bool)
    requires trailingSlash || !EndsWith(seg, ".git.git")
    ensures ParsedName(seg, trailingSlash) == StripGitSuffix(seg)
  {
    if !trailingSlash && |seg| > 4 && EndsWith(seg, ".git") {
      var inner := seg[..|seg| - 4];
      assert !EndsWith(inner, ".git") by {
        if |inner| >= 4 {
          assert seg[|seg| - 8..] == inner[|inner| - 4..] + ".git";
        }
      }
    }
  }

  /** The lazy group can strip two suffixes: without a trailing `/`,
      `r.git.git` is read as the repository `r`. */
  lemma DoubleSuffixExample()
    ensures ParsedName("r.git.git", false) == "r"
  {
    assert EndsWith("r.git.git", ".git");
    assert "r.git.git"[..5] == "r.git";
    assert EndsWith("r.git", ".git");
  }

  const InvalidRepoUrl: string := "Invalid GitHub repository URL"
  const RepositoryNotFound: string := "Repository not found"

  /** The fields of the repository API response that are read. */
  datatype RepoData = RepoData(fullName: Option<string>, defaultBranch: Option<string>)

  /** A node of the recursive tree as the API returns it. */
  datatype RawTreeNode = RawTreeNode(path: Option<string>, nodeType: Option<string>)

  /** A tree entry as the service passes it on. */
  datatype TreeEntry = TreeEntry(path: string, nodeType: Option<string>)

  /** The GitHub API client. `getTree` stands for the branch lookup followed
      by the recursive tree fetch at its commit; `packageJson` for the file
      lookup with its base64 decoding, which never throws. An undefined
      repository name (a full name without `/`) is passed on as None. */
  datatype GitHubApi = GitHubApi(
    getRepo: RepoRef -> Result<RepoData>,
    getTree: (string, Option<string>, string) -> Result<seq<RawTreeNode>>,
    listLanguages: (string, Option<string>) -> Result<seq<(string, nat)>>,
    packageJson: (string, Option<string>, string) -> Option<string>)

  datatype Metadata = Metadata(fullName: string, defaultBranch: string)

  /** `fetchRepoMetadata`: an unparsable URL throws before any request; the
      API's full name and default branch are used when present, else
      `owner/repo` and `main`. */
  function FetchRepoMetadata(api: GitHubApi, repoUrl: string): (r: Result<Metadata>)
    ensures ParseRepoFromUrl(repoUrl).None? ==> r == Throw(InvalidRepoUrl)
    ensures ParseRepoFromUrl(repoUrl).Some? ==>
      var ref := ParseRepoFromUrl(repoUrl).value;
      match api.getRepo(ref)
      case Err(e) => r == Err(e)
      case Ok(data) =>
        && r.Ok?
        && (data.fullName.Some? ==> r.value.fullName == data.fullName.value)
        && (data.fullName.None? ==> r.value.fullName == ref.owner + "/" + ref.repo)
        && (data.defaultBranch.Some? ==> r.value.defaultBranch == data.defaultBranch.value)
        && (data.defaultBranch.None? ==> r.value.defaultBranch == "main")
  {
    var parsed := ParseRepoFromUrl(repoUrl);
    if parsed.None? then Throw(InvalidRepoUrl)
    else
      match api.getRepo(parsed.value)
      case Err(e) => Err(e)
      case Ok(data) =>
        Ok(Metadata(data.fullName.GetOr(parsed.value.owner + "/" + parsed.value.repo), data.defaultBranch.GetOr("main")))
  }

  /** The tree filter keeps a node only when it has a non-empty path. */
  predicate KeepNode(n: RawTreeNode) {
    n.path.Some? && n.path.value != ""
  }

  /** The entry a kept node becomes. */
  function EntryOf(n: RawTreeNode): TreeEntry
    requires KeepNode(n)
  {
    TreeEntry(n.path.value, n.nodeType)
  }

  /** `e` is the entry of some kept node of `nodes`. */
  predicate FromKeptNode(nodes: seq<RawTreeNode>, e: TreeEntry) {
    exists j | 0 <= j < |nodes| && KeepNode(nodes[j]) :: e == EntryOf(nodes[j])
  }

  /** `fetchRepoTree`'s filter and projection onto `{ path, type }`: every
      kept node gives an entry, and every entry comes from a kept node. */
  function ProjectTree(nodes: seq<RawTreeNode>): (r: seq<TreeEntry>)
    ensures |r| <= |nodes|
    ensures forall k | 0 <= k < |r| :: r[k].path != ""
    ensures forall k | 0 <= k < |nodes| && KeepNode(nodes[k]) :: EntryOf(nodes[k]) in r
    ensures forall k | 0 <= k < |r| :: FromKeptNode(nodes, r[k])
  {
    if |nodes| == 0 then []
    else
      var rest := ProjectTree(nodes[1..]);
      assert forall k | 1 <= k < |nodes| :: nodes[k] == nodes[1..][k - 1];
      assert forall k | 0 <= k < |rest| :: FromKeptNode(nodes, rest[k]) by {
        forall k | 0 <= k < |rest| ensures FromKeptNode(nodes, rest[k]) {
          var j :| 0 <= j < |nodes[1..]| && KeepNode(nodes[1..][j]) && rest[k] == EntryOf(nodes[1..][j]);
          assert nodes[j + 1] == nodes[1..][j];
        }
      }
      var r := if KeepNode(nodes[0]) then [EntryOf(nodes[0])] + rest else rest;
      assert forall k | 0 <= k < |r| :: FromKeptNode(nodes, r[k]) by {
        forall k | 0 <= k < |r| ensures FromKeptNode(nodes, r[k]) {
          if KeepNode(nodes[0]) && k == 0 {
            assert r[0] == EntryOf(nodes[0]);
          } else {
            assert r[k] == rest[if KeepNode(nodes[0]) then k - 1 else k];
          }
        }
      }
      r
  }

  /** One node gives its entry when kept and nothing otherwise; with
      `ProjectTreeAppend` this fixes the projection of every tree. */
  lemma ProjectTreeSingle(n: RawTreeNode)
    ensures ProjectTree([n]) == if KeepNode(n) then [EntryOf(n)] else []
  {
    assert [n][1..] == [];
  }

  /** The projection keeps the tree's order: it works piecewise. */
  lemma {:induction false} ProjectTreeAppend(a: seq<RawTreeNode>, b: seq<RawTreeNode>)
    ensures ProjectTree(a + b) == ProjectTree(a) + ProjectTree(b)
  {
    if |a| > 0 {
      assert (a + b)[1..] == a[1..] + b;
      ProjectTreeAppend(a[1..], b);
    } else {
      assert a + b == b;
    }
  }

  /** `fetchRepoTree`: a failed request is passed on; otherwise the nodes
      are filtered and projected. */
  function FetchRepoTree(api: GitHubApi, owner: string, repo: Option<string>, branch: string): (r: Result<seq<TreeEntry>>)
    ensures api.getTree(owner, repo, branch).Err? ==> r == Err(api.getTree(owner, repo, branch).thrown)
    ensures api.getTree(owner, repo, branch).Ok? ==> r == Ok(ProjectTree(api.getTree(owner, repo, branch).value))
  {
    match api.getTree(owner, repo, branch)
    case Err(e) => Err(e)
    case Ok(nodes) => Ok(ProjectTree(nodes))
  }

  /** `fullName.split("/")`, first two pieces: the text before the first
      `/`, and the text between it and the next `/` or the end (undefined
      when there is no `/`). */
  function SplitFullName(fullName: string): (r: (string, Option<string>))
    ensures '/' !in r.0 && StartsWith(fullName, r.0)
    ensures r.1.Some? <==> '/' in fullName
    ensures r.1.Some? ==>
      (|r.0| < |fullName| && fullName[|r.0|] == '/' && '/' !in r.1.value && StartsWith(fullName[|r.0| + 1..], r.1.value))
    ensures '/' !in fullName ==> r.0 == fullName
    ensures r.1.Some? ==>
      var e := |r.0| + 1 + |r.1.value|;
      e == |fullName| || fullName[e] == '/'
  {
    var i := IndexOf(fullName, '/');
    if i < 0 then (fullName, None)
    else
      var rest := fullName[i + 1..];
      var j := IndexOf(rest, '/');
      (fullName[..i], Some(if j < 0 then rest else rest[..j]))
  }

  /** The two pieces are those `split` gives. */
  lemma SplitFullNameIsSplit(fullName: string)
    ensures SplitFullName(fullName) == (Split(fullName, '/')[0], SplitPart(fullName, '/', 1))
  {
    var parts := Split(fullName, '/');
    var i := IndexOf(fullName, '/');
    if i < 0 {
      assert parts == [fullName];
      assert SplitPart(fullName, '/', 1) == None;
    } else {
      var rest := fullName[i + 1..];
      var tail := Split(rest, '/');
      assert parts == [fullName[..i]] + tail;
      assert SplitPart(fullName, '/', 1) == Some(tail[0]);
      var j := IndexOf(rest, '/');
      if j < 0 {
        assert tail == [rest];
      } else {
        assert tail == [rest[..j]] + Split(rest[j + 1..], '/');
      }
    }
  }

  /** The fallback full name `owner/repo` splits back into its two names. */
  lemma SplitFullNameOfPair(owner: string, repo: string)
    requires '/' !in owner && '/' !in repo
    ensures SplitFullName(owner + "/" + repo) == (owner, Some(repo))
  {
    var s := owner + "/" + repo;
    assert s[|owner|] == '/';
    assert s[..|owner|] == owner;
    assert s[|owner| + 1..] == repo;
  }

  /** What both registration and analysis gather before anything else:
      metadata, then the tree, then the language histogram, each request
      made only when the previous one succeeded. */
  datatype Signals = Signals(
    metadata: Metadata, owner: string, repoName: Option<string>,
    tree: seq<TreeEntry>, languages: seq<(string, nat)>)

  function FetchSignals(api: GitHubApi, repoUrl: string): (r: Result<Signals>)
    ensures FetchRepoMetadata(api, repoUrl).Err? ==> r == Err(FetchRepoMetadata(api, repoUrl).thrown)
    ensures FetchRepoMetadata(api, repoUrl).Ok? ==>
      var metadata := FetchRepoMetadata(api, repoUrl).value;
      var names := SplitFullName(metadata.fullName);
      var tree := FetchRepoTree(api, names.0, names.1, metadata.defaultBranch);
      var languages := api.listLanguages(names.0, names.1);
      && (tree.Err? ==> r == Err(tree.thrown))
      && (tree.Ok? && languages.Err? ==> r == Err(languages.thrown))
      && (tree.Ok? && languages.Ok? ==> r == Ok(Signals(metadata, names.0, names.1, tree.value, languages.value)))
  {
    match FetchRepoMetadata(api, repoUrl)
    case Err(e) => Err(e)
    case Ok(metadata) =>
      var (owner, repoName) := SplitFullName(metadata.fullName);
      match FetchRepoTree(api, owner, repoName, metadata.defaultBranch)
      case Err(e) => Err(e)
      case Ok(tree) =>
        match api.listLanguages(owner, repoName)
        case Err(e) => Err(e)
        case Ok(languages) => Ok(Signals(metadata, owner, repoName, tree, languages))
  }

  /** `Object.keys(languages)`, in insertion order. */
  function LanguageNames(languages: seq<(string, nat)>): (r: seq<string>)
    ensures |r| == |languages| && forall k | 0 <= k < |r| :: r[k] == languages[k].0
  {
    seq(|languages|, k requires 0 <= k < |languages| => languages[k].0)
  }

  /** The metadata registration returns beside the record. */
  datatype RepoSummary = RepoSummary(fileTree: seq<TreeEntry>, languages: seq<string>, defaultBranch: string)

  const FileTreeLimit: nat := 200

  function Summarize(signals: Signals): (r: RepoSummary)
    ensures |r.fileTree| == if |signals.tree| < FileTreeLimit then |signals.tree| else FileTreeLimit
    ensures r.fileTree <= signals.tree
    ensures r.languages == LanguageNames(signals.languages)
    ensures r.defaultBranch == signals.metadata.defaultBranch
  {
    var n := if |signals.tree| < FileTreeLimit then |signals.tree| else FileTreeLimit;
    RepoSummary(signals.tree[..n], LanguageNames(signals.languages), signals.metadata.defaultBranch)
  }

  datatype Registration = Registration(repository: Repository, metadata: RepoSummary)

  /** `findOne({ userId, repoUrl })` */
  function RegisteredAs(userId: string, repoUrl: string): Repository -> bool {
    (r: Repository) => r.userId == userId && r.repoUrl == repoUrl
  }

  /** `findOne({ _id, userId })` */
  function OwnedRepository(id: string, userId: string): Repository -> bool {
    (r: Repository) => r.id == id && r.userId == userId
  }

  function OfUser(userId: string): Repository -> bool {
    (r: Repository) => r.userId == userId
  }

  /** The record registration inserts: named by the full name, not yet
      analysed, stamped now. */
  function NewRecord(signals: Signals, id: string, userId: string, repoUrl: string, now: nat): (r: Repository)
    ensures r.id == id && r.userId == userId && r.repoUrl == repoUrl && r.createdAt == now
    ensures r.repoName == signals.metadata.fullName && r.analyzedAt.None?
  {
    Repository(id, userId, repoUrl, signals.metadata.fullName, None, now)
  }

  /** The part of `createRepository` after the fetch: a registered (user,
      URL) pair returns its record and inserts nothing; otherwise one record
      is inserted, named by the full name, not yet analysed, stamped `now`. */
  method RegisterSignals(db: Db, signals: Signals, userId: string, repoUrl: string, newId: string, now: nat)
    returns (r: Result<Registration>)
    requires db.Valid() && db.clock <= now
    requires forall k | 0 <= k < |db.repositories| :: db.repositories[k].id != newId
    modifies db
    ensures db.Valid()
    ensures db.users == old(db.users) && db.analyses == old(db.analyses)
    ensures FindOne(old(db.repositories), RegisteredAs(userId, repoUrl)).Some? ==>
      && r == Ok(Registration(FindOne(old(db.repositories), RegisteredAs(userId, repoUrl)).value, Summarize(signals)))
      && db.repositories == old(db.repositories) && db.clock == old(db.clock)
    ensures var record := NewRecord(signals, newId, userId, repoUrl, now);
      FindOne(old(db.repositories), RegisteredAs(userId, repoUrl)).None? ==>
      if !SatisfiesRequired(record) then
        r == Throw(ValidationFailed) && db.repositories == old(db.repositories) && db.clock == old(db.clock)
      else
        && r == Ok(Registration(record, Summarize(signals)))
        && db.repositories == old(db.repositories) + [record] && db.clock == now
  {
    var existing := FindOne(db.repositories, RegisteredAs(userId, repoUrl));
    if existing.Some? {
      return Ok(Registration(existing.value, Summarize(signals)));
    }
    var record := NewRecord(signals, newId, userId, repoUrl, now);
    if !SatisfiesRequired(record) {
      return Throw(ValidationFailed);
    }
    assert forall k | 0 <= k < |db.repositories| :: !RegisteredAs(userId, repoUrl)(db.repositories[k]);
    AppendKeepsValid(db.repositories, record);
    db.repositories := db.repositories + [record];
    db.clock := now;
    r := Ok(Registration(record, Summarize(signals)));
  }

  /** `createRepository`. The signals are fetched first, so a bad URL or a
      failed request throws even when the repository is already registered.
      A registered (user, URL) pair returns its record and inserts nothing;
      otherwise one record is inserted, named by the full name, not yet
      analysed. */
  method CreateRepository(db: Db, api: GitHubApi, userId: string, repoUrl: string, newId: string, elapsed: nat)
    returns (r: Result<Registration>)
    requires db.Valid()
    requires forall k | 0 <= k < |db.repositories| :: db.repositories[k].id != newId
    modifies db
    ensures db.Valid()
    ensures db.users == old(db.users) && db.analyses == old(db.analyses)
    ensures FetchSignals(api, repoUrl).Err? ==>
      r == Err(FetchSignals(api, repoUrl).thrown) && db.repositories == old(db.repositories) && db.clock == old(db.clock)
    ensures FetchSignals(api, repoUrl).Ok? && FindOne(old(db.repositories), RegisteredAs(userId, repoUrl)).Some? ==>
      && r == Ok(Registration(FindOne(old(db.repositories), RegisteredAs(userId, repoUrl)).value, Summarize(FetchSignals(api, repoUrl).value)))
      && db.repositories == old(db.repositories) && db.clock == old(db.clock)
    ensures FetchSignals(api, repoUrl).Ok? && FindOne(old(db.repositories), RegisteredAs(userId, repoUrl)).None? ==>
      var record := NewRecord(FetchSignals(api, repoUrl).value, newId, userId, repoUrl, old(db.clock) + elapsed);
      if !SatisfiesRequired(record) then
        r == Throw(ValidationFailed) && db.repositories == old(db.repositories) && db.clock == old(db.clock)
      else
        && r == Ok(Registration(record, Summarize(FetchSignals(api, repoUrl).value)))
        && db.repositories == old(db.repositories) + [record] && db.clock == old(db.clock) + elapsed
  {
    var signals := FetchSignals(api, repoUrl);
    if signals.Err? {
      return Err(signals.thrown);
    }
    r := RegisterSignals(db, signals.value, userId, repoUrl, newId, db.clock + elapsed);
  }

  /** After a registration inserted `record`, the same (user, URL) pair finds
      it: a second registration returns the same record. */
  lemma RegisteredIsFound(t: seq<Repository>, record: Repository)
    requires FindOne(t, RegisteredAs(record.userId, record.repoUrl)).None?
    ensures FindOne(t + [record], RegisteredAs(record.userId, record.repoUrl)) == Some(record)
  {
    var p := RegisteredAs(record.userId, record.repoUrl);
    var t' := t + [record];
    assert forall j | 0 <= j < |t| :: t'[j] == t[j];
    assert p(t'[|t|]);
  }

  /** `getRepositoryById`: only a record with both that id and that owner. */
  function GetRepositoryById(repositories: seq<Repository>, id: string, userId: string): (r: Result<Repository>)
    ensures r.Ok? <==> exists k | 0 <= k < |repositories| :: repositories[k].id == id && repositories[k].userId == userId
    ensures r.Ok? ==> r.value in repositories && r.value.id == id && r.value.userId == userId
    ensures r.Err? ==> r == Throw(RepositoryNotFound)
  {
    var found := FindOne(repositories, OwnedRepository(id, userId));
    if found.None? then Throw(RepositoryNotFound) else Ok(found.value)
  }

  /** `listUserRepositories`: exactly the user's records, each as often as
      stored, newest first. */
  function ListUserRepositories(repositories: seq<Repository>, userId: string): (r: seq<Repository>)
    ensures NewestFirst(r, CreatedAt)
    ensures forall x :: multiset(r)[x] == if x.userId == userId then multiset(repositories)[x] else 0
  {
    var mine := Find(repositories, OfUser(userId));
    assert forall x :: multiset(mine)[x] == if x.userId == userId then multiset(repositories)[x] else 0 by {
      forall x ensures multiset(mine)[x] == if x.userId == userId then multiset(repositories)[x] else 0 {
        FindCounts(repositories, OfUser(userId), x);
      }
    }
    SortNewestFirst(mine, CreatedAt)
  }
}
