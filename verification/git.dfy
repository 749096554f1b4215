/**
 * The git helpers of the runtime (`GitHelper`, `GitRepositoryInfo`): the
 * GitHub clone URLs of a repository, the repository name of a project, and
 * the project text of a parsed repository.
 */
module Git {
  import opened Lang
  import opened Strings

  /** The three clone URL forms of `host/org/repo`, in the order they are listed. */
  function BaseUrls(host: string, org: string, repo: string): seq<string> {
    ["https://" + host + "/" + org + "/" + repo,
     "git@" + host + ":" + org + "/" + repo,
     "git://" + host + "/" + org + "/" + repo]
  }

  /** A URL that ends in "/" followed by the repository ends in ".git" exactly when the repository does. */
  lemma EndsLikeRepository(prefix: string, repo: string)
    ensures EndsWith(prefix + "/" + repo, ".git") <==> EndsWith(repo, ".git")
  {
    var u := prefix + "/" + repo;
    if |repo| >= 4 {
      assert u[|u| - 4..] == repo[|repo| - 4..];
    } else if |u| >= 4 {
      assert u[|prefix|] == '/';
      assert u[|u| - 4..][|prefix| - (|u| - 4)] == '/';
      assert '/' !in ".git";
    }
  }

  /**
   * `getGitHubCloneUrls`: the https, ssh and git URLs, then each of them
   * with ".git" appended unless it already ends in ".git".
   */
  method CloneUrls(host: string, org: string, repo: string) returns (answer: seq<string>)
    ensures |answer| >= 3 && answer[..3] == BaseUrls(host, org, repo)
    ensures EndsWith(repo, ".git") ==> |answer| == 3
    ensures !EndsWith(repo, ".git") ==> |answer| == 6
    ensures forall i :: 3 <= i < |answer| ==> answer[i] == answer[i - 3] + ".git"
  {
    answer := BaseUrls(host, org, repo);
    EndsLikeRepository("https://" + host + "/" + org, repo);
    EndsLikeRepository("git@" + host + ":" + org, repo);
    EndsLikeRepository("git://" + host + "/" + org, repo);
    var copy := answer;
    var i := 0;
    while i < |copy|
      invariant 0 <= i <= |copy|
      invariant |copy| == 3 && |answer| >= 3 && answer[..3] == copy
      invariant |answer| == 3 + (if EndsWith(repo, ".git") then 0 else i)
      invariant forall j :: 3 <= j < |answer| ==> answer[j] == answer[j - 3] + ".git"
    {
      if !EndsWith(copy[i], ".git") {
        answer := answer + [copy[i] + ".git"];
      }
      i := i + 1;
    }
  }

  /**
   * `getRepoName`: for a project that is not empty, the text after its last
   * "/" (the whole project when there is none); anything else unchanged.
   */
  function GetRepoName(project: Option<string>): (r: Option<string>)
    ensures IsNullOrEmpty(project) ==> r == project
    ensures NotEmpty(project) ==>
      var p := project.value;
      && r.Some?
      && '/' !in r.value
      && |r.value| <= |p|
      && p[|p| - |r.value|..] == r.value
      && (|r.value| == |p| || p[|p| - |r.value| - 1] == '/')
  {
    if NotEmpty(project) then
      var idx := LastIndexOf(project.value, '/');
      if idx >= 0 then Some(project.value[idx + 1..]) else project
    else project
  }

  /** A parsed repository; each part may be null. */
  datatype GitRepositoryInfo = GitRepositoryInfo(host: Option<string>, organisation: Option<string>, name: Option<string>)

  /**
   * `getProject`: "organisation/name" when both are set, the organisation
   * alone when only it is, and otherwise the name as it is, possibly null.
   */
  function GetProject(info: GitRepositoryInfo): (r: Option<string>)
    ensures NotEmpty(info.organisation) && NotEmpty(info.name) ==>
      r == Some(info.organisation.value + "/" + info.name.value)
    ensures NotEmpty(info.organisation) && IsNullOrEmpty(info.name) ==> r == info.organisation
    ensures IsNullOrEmpty(info.organisation) ==> r == info.name
  {
    if NotEmpty(info.organisation) then
      if NotEmpty(info.name) then Some(info.organisation.value + "/" + info.name.value) else info.organisation
    else info.name
  }

  /** The repository name is recovered from the project text of a repository whose name has no "/". */
  lemma RepoNameOfProject(info: GitRepositoryInfo)
    requires NotEmpty(info.organisation) && NotEmpty(info.name) && '/' !in info.name.value
    ensures GetRepoName(GetProject(info)) == info.name
  {
    var p := info.organisation.value + "/" + info.name.value;
    var n := info.name.value;
    assert p[|info.organisation.value|] == '/';
    assert p[|info.organisation.value| + 1..] == n;
    LastIndexOfAt(p, '/', |info.organisation.value|);
  }

  /**
   * `parseGitRepositoryInfo`: null for a URL that is null, "" or "null";
   * any other URL goes to `parse`, which stands for the URI and `git@`
   * parsing that is not part of this model.
   */
  function ParseGitRepositoryInfo(gitUrl: Option<string>, parse: string -> Option<GitRepositoryInfo>)
    : (r: Option<GitRepositoryInfo>)
    ensures IsNullOrEmpty(gitUrl) ==> r.None?
    ensures NotEmpty(gitUrl) ==> r == parse(gitUrl.value)
  {
    if IsNullOrEmpty(gitUrl) then None else parse(gitUrl.value)
  }

  /**
   * Only the URL itself reaches the parser: two parsers that agree on it give
   * the same result, and with a parser that accepts every URL the result is
   * null exactly for null, "" and "null".
   */
  lemma ParseSeesOnlyTheUrl(gitUrl: Option<string>, parse: string -> Option<GitRepositoryInfo>,
                            other: string -> Option<GitRepositoryInfo>)
    requires gitUrl.Some? ==> parse(gitUrl.value) == other(gitUrl.value)
    ensures ParseGitRepositoryInfo(gitUrl, parse) == ParseGitRepositoryInfo(gitUrl, other)
    ensures parse(if gitUrl.Some? then gitUrl.value else "").Some? ==>
      (ParseGitRepositoryInfo(gitUrl, parse).None? <==> gitUrl in {None, Some(""), Some("null")})
  {
  }
}
