/**
 * `ParseRepoUrl` of PRReviewFunction.cs: a best-effort, never-failing
 * extraction of the Azure DevOps organization and project from a remote
 * repository URL. `Uri.UnescapeDataString` is the parameter `unescape`.
 */
module RepoUrl {
  import opened Text

  datatype RepoLocation = RepoLocation(org: string, project: string)

  /** What parsing gives up to: both parts unknown. */
  const Unknown := RepoLocation("", "")

  /** The marker of an Azure DevOps Services URL. */
  const HostedMarker := "dev.azure.com"

  /**
   * Best-effort extraction of (organization, project) from a remote URL;
   * every index failure of the source is caught there and yields `Unknown`.
   * A URL with the hosted marker but fewer than six segments yields
   * `Unknown` too: the host-name branch is not tried for it.
   */
  function ParseRepoUrl(url: string, unescape: string -> string): (loc: RepoLocation)
    ensures url == "" ==> loc == Unknown
    ensures Contains(url, HostedMarker) ==>
      var parts := Split(url, '/');
      loc == if |parts| >= 6 then RepoLocation(unescape(parts[3]), unescape(parts[4])) else Unknown
  {
    if url == [] then Unknown
    else if Contains(url, HostedMarker) then
      var parts := Split(url, '/');
      if |parts| >= 6 then RepoLocation(unescape(parts[3]), unescape(parts[4]))
      else Unknown
    else
      var parts := Split(url, '/');
      if |parts| < 3 then Unknown  // parts[2] is out of range
      else
        var org := Split(parts[2], '.')[0];
        var pathParts := parts[3..];
        if |pathParts| > 0 then RepoLocation(org, pathParts[0]) else Unknown
  }

  /**
   * Any other URL yields nothing unless it has a path segment; then the
   * organization is the host name up to its first '.', and the project is
   * the first path segment, not unescaped.
   */
  lemma HostBasedShape(url: string, unescape: string -> string)
    requires url != "" && !Contains(url, HostedMarker)
    ensures var parts := Split(url, '/');
      var loc := ParseRepoUrl(url, unescape);
      (|parts| <= 3 ==> loc == Unknown) &&
      (|parts| >= 4 ==>
        StartsWith(parts[2], loc.org) && '.' !in loc.org &&
        (|loc.org| == |parts[2]| || parts[2][|loc.org|] == '.') &&
        loc.project == parts[3] && '/' !in loc.project)
  {
    var parts := Split(url, '/');
    SplitSegments(url, '/');
    if |parts| >= 4 {
      SplitSegments(parts[2], '.');
    }
  }

  /** A URL without any '/' is not understood: parsing gives `Unknown`. */
  lemma NoSlashIsUnknown(url: string, unescape: string -> string)
    requires '/' !in url
    ensures ParseRepoUrl(url, unescape) == Unknown
  {
    SplitNone(url, '/');
  }

  // ---------------------------------------------------------------------
  // The two URL shapes the parser is written for
  // ---------------------------------------------------------------------

  /** `<first>/<project>/_git/<repo>`, the part of a clone URL after its authority. */
  function GitPath(first: string, project: string, repo: string): string {
    first + ['/'] + (project + ['/'] + ("_git" + ['/'] + repo))
  }

  lemma SplitGitPath(first: string, project: string, repo: string)
    requires '/' !in first && '/' !in project && '/' !in repo
    ensures var parts := Split(GitPath(first, project, repo), '/');
      |parts| >= 3 && parts[0] == first && parts[1] == project
  {
    var tail := "_git" + ['/'] + repo;
    SplitAfter(first, '/', project + ['/'] + tail);
    SplitAfter(project, '/', tail);
    SplitAfter("_git", '/', repo);
  }

  /** "https://" contributes two segments, the scheme and an empty one. */
  lemma SplitScheme(rest: string)
    ensures Split("https://" + rest, '/') == ["https:", ""] + Split(rest, '/')
  {
    var fromEmpty := "" + ['/'] + rest;
    assert "https://" + rest == "https:" + ['/'] + fromEmpty;
    SplitAfter("https:", '/', fromEmpty);
    SplitAfter("", '/', rest);
  }

  lemma HostedUrlForm(org: string, project: string, repo: string)
    ensures "https://dev.azure.com/" + org + "/" + project + "/_git/" + repo
         == "https://" + ("dev.azure.com" + ['/'] + GitPath(org, project, repo))
  {
  }

  lemma HostedUrlMarked(org: string, project: string, repo: string)
    ensures Contains("https://dev.azure.com/" + org + "/" + project + "/_git/" + repo, HostedMarker)
  {
    var url := "https://dev.azure.com/" + org + "/" + project + "/_git/" + repo;
    assert url[8..8 + |HostedMarker|] == HostedMarker;
    assert OccursAt(url, HostedMarker, 8);
    ContainsIffOccurs(url, HostedMarker);
  }

  /**
   * An Azure DevOps Services clone URL, `https://dev.azure.com/<org>/<project>/_git/<repo>`,
   * gives its unescaped organization and project segments.
   */
  lemma HostedUrl(org: string, project: string, repo: string, unescape: string -> string)
    requires '/' !in org && '/' !in project && '/' !in repo
    ensures ParseRepoUrl("https://dev.azure.com/" + org + "/" + project + "/_git/" + repo, unescape)
         == RepoLocation(unescape(org), unescape(project))
  {
    var path := GitPath(org, project, repo);
    HostedUrlForm(org, project, repo);
    SplitScheme("dev.azure.com" + ['/'] + path);
    SplitAfter("dev.azure.com", '/', path);
    SplitGitPath(org, project, repo);
    HostedUrlMarked(org, project, repo);
  }

  /** `Uri.UnescapeDataString` leaves a string without '%' unchanged. */
  ghost predicate KeepsPlainText(unescape: string -> string) {
    forall s :: '%' !in s ==> unescape(s) == s
  }

  /** The worked example of an Azure DevOps Services URL. */
  lemma HostedExample(url: string, unescape: string -> string)
    requires url == "https://dev.azure.com/myorg/myproject/_git/myrepo"
    requires KeepsPlainText(unescape)
    ensures ParseRepoUrl(url, unescape) == RepoLocation("myorg", "myproject")
  {
    HostedExamplePieces();
    HostedUrl("myorg", "myproject", "myrepo", unescape);
    assert '%' !in "myorg" && '%' !in "myproject";
  }

  lemma HostedExamplePieces()
    ensures "https://dev.azure.com/" + "myorg" + "/" + "myproject" + "/_git/" + "myrepo"
         == "https://dev.azure.com/myorg/myproject/_git/myrepo"
  {
    assert "https://dev.azure.com/" + "myorg" == "https://dev.azure.com/myorg";
    assert "https://dev.azure.com/myorg" + "/" == "https://dev.azure.com/myorg/";
    assert "https://dev.azure.com/myorg/" + "myproject" == "https://dev.azure.com/myorg/myproject";
    assert "https://dev.azure.com/myorg/myproject" + "/_git/" == "https://dev.azure.com/myorg/myproject/_git/";
  }

  lemma HostBasedUrlForm(org: string, domain: string, project: string, repo: string)
    ensures "https://" + org + "." + domain + "/" + project + "/_git/" + repo
         == "https://" + GitPath(org + "." + domain, project, repo)
  {
  }

  /**
   * A clone URL on a per-organization host, `https://<org>.<domain>/<project>/_git/<repo>`,
   * gives the host's first label and the first path segment, when it does
   * not mention the hosted marker.
   */
  lemma HostBasedUrl(org: string, domain: string, project: string, repo: string, unescape: string -> string)
    requires '/' !in org && '.' !in org && '/' !in domain && '/' !in project && '/' !in repo
    requires !Contains("https://" + org + "." + domain + "/" + project + "/_git/" + repo, HostedMarker)
    ensures ParseRepoUrl("https://" + org + "." + domain + "/" + project + "/_git/" + repo, unescape)
         == RepoLocation(org, project)
  {
    var host := org + "." + domain;
    HostBasedUrlForm(org, domain, project, repo);
    SplitScheme(GitPath(host, project, repo));
    SplitGitPath(host, project, repo);
    assert host == org + ['.'] + domain;
    SplitAfter(org, '.', domain);
  }

  lemma HostBasedExamplePieces()
    ensures "https://" + "myorg" + "." + "visualstudio.com" + "/" + "myproject" + "/_git/" + "myrepo"
         == "https://myorg.visualstudio.com/myproject/_git/myrepo"
  {
    assert "https://" + "myorg" == "https://myorg";
    assert "https://myorg" + "." == "https://myorg.";
    assert "https://myorg." + "visualstudio.com" == "https://myorg.visualstudio.com";
    assert "https://myorg.visualstudio.com" + "/" == "https://myorg.visualstudio.com/";
    assert "https://myorg.visualstudio.com/" + "myproject" == "https://myorg.visualstudio.com/myproject";
    assert "https://myorg.visualstudio.com/myproject" + "/_git/" == "https://myorg.visualstudio.com/myproject/_git/";
  }

  /** The worked example of a per-organization host URL. */
  lemma HostBasedExample(url: string, unescape: string -> string)
    requires url == "https://myorg.visualstudio.com/myproject/_git/myrepo"
    ensures ParseRepoUrl(url, unescape) == RepoLocation("myorg", "myproject")
  {
    var pieces := "https://" + "myorg" + "." + "visualstudio.com" + "/" + "myproject" + "/_git/" + "myrepo";
    assert HostedMarker[5] == 'z';
    MissingCharNotContained(pieces, HostedMarker, 'z');
    HostBasedExamplePieces();
    HostBasedUrl("myorg", "visualstudio.com", "myproject", "myrepo", unescape);
  }
}
