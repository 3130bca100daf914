/** The `/api/commits` handler (api/commits.ts): one page of a branch's commits from
    GitHub, with merges hidden unless asked for, each turned into an entry. */
module CommitsApi {
  import opened Text
  import opened CommitFormat

  const ConfigError := "Missing or invalid GITHUB_TOKEN / GITHUB_REPO (expected owner/repo)"
  const UpstreamError := "GitHub API error"
  const CacheControl := "s-maxage=600, stale-while-revalidate=86400"

  /** GitHub's answer: its status, its text, and the commits its JSON lists when it is OK. */
  datatype GitHubAnswer = GitHubAnswer(status: int, text: string, commits: seq<GitHubCommit>)

  /** `Response.ok`: a status from 200 to 299. */
  predicate IsOk(status: int) {
    200 <= status <= 299
  }

  datatype Payload = Failure(error: string, details: Option<string>) | Listing(entries: seq<Entry>)

  /** The status, the `Cache-Control` header when one is set, and the JSON body. */
  datatype Response = Response(status: int, cacheControl: Option<string>, body: Payload)

  /** A query value, or the destructuring default when the key is absent; a value
      given as "" is kept, since the default only replaces `undefined`. */
  function Param(query: map<string, string>, key: string, default: string): string {
    if key in query then query[key] else default
  }

  /** The search parameters sent to GitHub, in the order they are set. */
  function Params(query: map<string, string>): seq<(string, string)> {
    [("sha", Param(query, "sha", "labs")), ("per_page", Param(query, "per_page", "50")),
     ("page", Param(query, "page", "1"))]
    + (if "since" in query && query["since"] != [] then [("since", query["since"])] else [])
  }

  /** With no query at all, the defaults; an explicit empty `sha` is sent as it is. */
  lemma ParamsExamples()
    ensures Params(map[]) == [("sha", "labs"), ("per_page", "50"), ("page", "1")]
    ensures Params(map["sha" := ""])[0] == ("sha", "")
    ensures |Params(map["since" := ""])| == 3
  {
  }

  /** Merges are shown only for `include_merges=true`. */
  predicate IncludeMerges(query: map<string, string>) {
    Param(query, "include_merges", "false") == "true"
  }

  /** The request for `GITHUB_REPO` and the query. */
  function RequestFor(repoFull: string, query: map<string, string>): Request
    requires '/' in repoFull
  {
    var (owner, repo) := OwnerRepo(repoFull);
    Request(owner, repo, Params(query))
  }

  /** The handler, given GitHub's answer to each request it could send. */
  function Handle(token: string, repoFull: string, query: map<string, string>,
                  github: Request -> GitHubAnswer): Response
  {
    if !ValidConfig(token, repoFull) then Response(500, None, Failure(ConfigError, None))
    else
      var answer := github(RequestFor(repoFull, query));
      if !IsOk(answer.status) then Response(answer.status, None, Failure(UpstreamError, Some(answer.text)))
      else Response(200, Some(CacheControl), Listing(Entries(Kept(answer.commits, IncludeMerges(query)), ApiDate)))
  }

  /** A list is sent exactly when the configuration is valid and GitHub answered OK,
      and then with status 200 and the edge-cache header; every error goes out with a
      status that is not OK: 500 for the configuration, GitHub's own otherwise. */
  lemma HandleStatus(token: string, repoFull: string, query: map<string, string>, github: Request -> GitHubAnswer)
    ensures var r := Handle(token, repoFull, query, github);
      && (r.body.Listing? <==> ValidConfig(token, repoFull) && IsOk(github(RequestFor(repoFull, query)).status))
      && (r.body.Listing? ==> r.status == 200 && r.cacheControl == Some(CacheControl))
      && (r.body.Failure? ==> !IsOk(r.status) && r.cacheControl.None?)
      && (!ValidConfig(token, repoFull) ==> r.status == 500 && r.body == Failure(ConfigError, None))
      && (ValidConfig(token, repoFull) && !IsOk(r.status) ==>
            (var a := github(RequestFor(repoFull, query));
             r.status == a.status && r.body == Failure(UpstreamError, Some(a.text))))
  {
  }

  /** The entries listed: one per commit GitHub sent, in GitHub's order, with merges
      left out unless asked for, each with its title, body, author and date. */
  lemma HandleEntries(token: string, repoFull: string, query: map<string, string>, github: Request -> GitHubAnswer)
    requires Handle(token, repoFull, query, github).body.Listing?
    ensures var es := Handle(token, repoFull, query, github).body.entries;
      var sent := github(RequestFor(repoFull, query)).commits;
      var kept := Kept(sent, IncludeMerges(query));
      && |es| == |kept| <= |sent|
      && (forall i :: 0 <= i < |es| ==>
            && kept[i] in sent
            && (IncludeMerges(query) || !IsMerge(kept[i].message))
            && es[i] == Entry(kept[i].sha, Title(kept[i].message), Body(kept[i].message),
                              kept[i].htmlUrl, AuthorOf(kept[i]), ApiDate(kept[i])))
      && (forall c :: c in sent && !IsMerge(c.message) ==> c in kept)
      && (IncludeMerges(query) ==> kept == sent)
  {
    var sent := github(RequestFor(repoFull, query)).commits;
    var kept := Kept(sent, IncludeMerges(query));
    KeptFacts(sent, [], IncludeMerges(query));
    EntriesInOrder(kept, [], ApiDate);
    assert forall i :: 0 <= i < |kept| ==> kept[i] in kept;
  }
}
