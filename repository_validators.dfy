/** Request validation for the repository routes: the GitHub repository URL
    pattern `^https?://(www\.)?github\.com/[\w.-]+/[\w.-]+/?$` and the
    24-character lower-case hexadecimal repository id. */
module RepositoryValidators {
  import opened Wrappers
  import opened Strings

  /** The pieces of a URL the pattern accepts. */
  datatype RepoUrlParts = RepoUrlParts(https: bool, www: bool, owner: string, repo: string, trailingSlash: bool)

  /** The two path segments are non-empty runs of `[\w.-]`. */
  predicate ValidParts(p: RepoUrlParts) {
    p.owner != "" && AllNameChars(p.owner) && p.repo != "" && AllNameChars(p.repo)
  }

  function SchemeText(https: bool): string {
    if https then "https://" else "http://"
  }

  function HostText(www: bool): string {
    (if www then "www." else "") + "github.com/"
  }

  function PathText(owner: string, repo: string, trailingSlash: bool): string {
    owner + "/" + repo + (if trailingSlash then "/" else "")
  }

  /** The URL made of the given pieces. */
  function ComposeRepoUrl(p: RepoUrlParts): string {
    SchemeText(p.https) + HostText(p.www) + PathText(p.owner, p.repo, p.trailingSlash)
  }

  /** The path `owner/repo[/]` after the host, split into its pieces. */
  function MatchRepoPath(path: string): Option<RepoUrlParts> {
    var n := NameRun(path);
    if n == 0 || n == |path| || path[n] != '/' then None
    else
      var tail := path[n + 1..];
      var slash := |tail| > 0 && tail[|tail| - 1] == '/';
      var repo := if slash then tail[..|tail| - 1] else tail;
      if repo != "" && AllNameChars(repo) then Some(RepoUrlParts(false, false, path[..n], repo, slash)) else None
  }

  lemma MatchRepoPathSound(path: string)
    requires MatchRepoPath(path).Some?
    ensures var p := MatchRepoPath(path).value;
      ValidParts(p) && path == PathText(p.owner, p.repo, p.trailingSlash)
  {
    var n := NameRun(path);
    var tail := path[n + 1..];
    var p := MatchRepoPath(path).value;
    assert p.owner == path[..n];
    assert p.trailingSlash ==> tail == p.repo + "/";
    assert !p.trailingSlash ==> tail == p.repo;
    assert path == path[..n] + "/" + tail;
  }

  lemma MatchRepoPathComplete(owner: string, repo: string, slash: bool)
    requires owner != "" && AllNameChars(owner) && repo != "" && AllNameChars(repo)
    ensures MatchRepoPath(PathText(owner, repo, slash)) == Some(RepoUrlParts(false, false, owner, repo, slash))
  {
    var path := PathText(owner, repo, slash);
    assert path[..|owner|] == owner;
    NameRunOfPath(owner, repo, slash);
    var n := NameRun(path);
    var tail := path[n + 1..];
    assert tail == repo + (if slash then "/" else "");
    var slash' := |tail| > 0 && tail[|tail| - 1] == '/';
    assert slash' == slash by {
      if !slash { assert tail[|tail| - 1] == repo[|repo| - 1]; assert IsNameChar(repo[|repo| - 1]); }
    }
    var repo' := if slash' then tail[..|tail| - 1] else tail;
    assert repo' == repo;
  }

  /** `https?://`: which scheme `s` starts with, if either. */
  function MatchScheme(s: string): (r: Option<bool>)
    ensures r.Some? ==> SchemeText(r.value) <= s
  {
    if StartsWith(s, "https://") then Some(true)
    else if StartsWith(s, "http://") then Some(false)
    else None
  }

  lemma MatchSchemeComplete(https: bool, rest: string)
    ensures MatchScheme(SchemeText(https) + rest) == Some(https)
  {
    var s := SchemeText(https) + rest;
    assert SchemeText(https) <= s;
    if !https {
      assert s[4] == ':';
    }
  }

  /** `(www\.)?github\.com/`: whether `s` starts with the host with or
      without `www.`, if either. */
  function MatchHost(s: string): (r: Option<bool>)
    ensures r.Some? ==> HostText(r.value) <= s
  {
    if StartsWith(s, "www.github.com/") then Some(true)
    else if StartsWith(s, "github.com/") then Some(false)
    else None
  }

  lemma MatchHostComplete(www: bool, rest: string)
    ensures MatchHost(HostText(www) + rest) == Some(www)
  {
    var s := HostText(www) + rest;
    assert HostText(www) <= s;
    if !www {
      assert s[0] == 'g';
    }
  }

  /** The run of name characters at the start of `owner/repo[/]` is the
      owner. */
  lemma NameRunOfPath(owner: string, repo: string, slash: bool)
    requires owner != "" && AllNameChars(owner)
    ensures var path := PathText(owner, repo, slash);
      NameRun(path) == |owner| && path[|owner|] == '/' && path[..|owner|] == owner
      && path[|owner| + 1..] == repo + (if slash then "/" else "")
  {
    var path := PathText(owner, repo, slash);
    assert path[|owner|] == '/';
    var n := NameRun(path);
    assert forall k | 0 <= k < |owner| :: IsNameChar(path[k]);
    assert n <= |owner| by {
      assert !IsNameChar(path[|owner|]);
      assert forall k | 0 <= k < n :: IsNameChar(path[..n][k]);
    }
    assert path[..|owner|] == owner;
    assert path[|owner| + 1..] == repo + (if slash then "/" else "");
  }

  /** Matching against the anchored pattern: the scheme, the optional `www.`,
      the host, then the path. */
  function MatchRepoUrl(s: string): (r: Option<RepoUrlParts>)
  {
    var scheme := MatchScheme(s);
    if scheme.None? then None
    else
      var afterScheme := s[|SchemeText(scheme.value)|..];
      var host := MatchHost(afterScheme);
      if host.None? then None
      else
        var m := MatchRepoPath(afterScheme[|HostText(host.value)|..]);
        if m.None? then None else Some(m.value.(https := scheme.value, www := host.value))
  }

  lemma PrefixSplit(s: string, p: string)
    requires p <= s
    ensures s == p + s[|p|..]
  {
  }

  /** Whatever the matcher accepts is exactly the URL composed of the pieces
      it reports, and those pieces are well formed. */
  lemma MatchRepoUrlSound(s: string)
    requires MatchRepoUrl(s).Some?
    ensures ValidParts(MatchRepoUrl(s).value)
    ensures ComposeRepoUrl(MatchRepoUrl(s).value) == s
  {
    var https := MatchScheme(s).value;
    var afterScheme := s[|SchemeText(https)|..];
    PrefixSplit(s, SchemeText(https));
    var www := MatchHost(afterScheme).value;
    var path := afterScheme[|HostText(www)|..];
    PrefixSplit(afterScheme, HostText(www));
    MatchRepoPathSound(path);
    var p := MatchRepoUrl(s).value;
    assert p.https == https && p.www == www;
    assert path == PathText(p.owner, p.repo, p.trailingSlash);
    AppendAssoc(SchemeText(https), HostText(www), path);
  }

  lemma AppendAssoc(a: string, b: string, c: string)
    ensures a + b + c == a + (b + c)
  {
  }

  /** Every URL composed of well-formed pieces is accepted, with those
      pieces. */
  lemma MatchRepoUrlComplete(p: RepoUrlParts)
    requires ValidParts(p)
    ensures MatchRepoUrl(ComposeRepoUrl(p)) == Some(p)
  {
    var path := PathText(p.owner, p.repo, p.trailingSlash);
    var afterScheme := HostText(p.www) + path;
    var s := ComposeRepoUrl(p);
    AppendAssoc(SchemeText(p.https), HostText(p.www), path);
    MatchSchemeComplete(p.https, afterScheme);
    assert s[|SchemeText(p.https)|..] == afterScheme;
    MatchHostComplete(p.www, path);
    assert afterScheme[|HostText(p.www)|..] == path;
    MatchRepoPathComplete(p.owner, p.repo, p.trailingSlash);
  }

  /** zod's `.url()` check is foreign code; the model takes it as given. */
  type UrlCheck = string -> bool

  /** The message the pattern refinement reports. */
  const InvalidRepoUrlMessage: string := "Must be a valid GitHub repository URL"

  /** `createRepositorySchema`: the URL passes the generic URL check and the
      GitHub repository pattern. */
  function AcceptsRepoUrl(repoUrl: string, isUrl: UrlCheck): (b: bool)
    ensures b <==> isUrl(repoUrl) && exists p :: ValidParts(p) && ComposeRepoUrl(p) == repoUrl
  {
    var m := MatchRepoUrl(repoUrl);
    if m.Some? then
      MatchRepoUrlSound(repoUrl);
      isUrl(repoUrl)
    else
      assert forall p | ValidParts(p) :: ComposeRepoUrl(p) != repoUrl by {
        forall p | ValidParts(p) ensures ComposeRepoUrl(p) != repoUrl {
          MatchRepoUrlComplete(p);
        }
      }
      false
  }

  /** `getRepositoryParamsSchema`: a repository id is exactly 24 lower-case
      hexadecimal characters. */
  function AcceptsRepositoryId(id: string): (b: bool)
    ensures b <==> |id| == 24 && forall i | 0 <= i < |id| :: IsLowerHex(id[i])
  {
    |id| == 24 && AllLowerHex(id)
  }
}
