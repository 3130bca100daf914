/** The `/api/stats` handler (api/stats.ts): a one-minute cache in front of a summary
    of today's Vercel deployments and of the latest commit on the GitHub branch.
    Timestamps are whole milliseconds; the ISO strings the handler writes and the
    dates GitHub sends stand for those numbers. */
module StatsApi {
  import opened Text
  import opened Seqs

  /** `CACHE_MS` */
  const CacheMs: int := 60000

  /** The environment, read once when the module loads; "" stands for an unset variable. */
  datatype Env = Env(vercelToken: string, vercelProject: string, githubRepo: string, githubToken: string, githubBranch: string)

  /** `GITHUB_BRANCH`, "labs" when unset. */
  function BranchOf(env: Env): string {
    if env.githubBranch != [] then env.githubBranch else "labs"
  }

  /** One deployment as the handler maps it out of Vercel's answer. */
  datatype Deployment = Deployment(id: string, createdAt: int, url: string, state: string, target: Option<string>)

  /** The `deployments` field of Vercel's answer: a list, or anything else. */
  datatype DeploymentsPayload = DeploymentList(items: seq<Deployment>) | NotAList

  /** A request made through `fetchJson`: the parsed body, or the message of the error
      it threw (a non-OK status, a network failure or a body that is not JSON). */
  datatype Fetched<T> = Parsed(body: T) | Threw(message: string)

  /** The `commit` object of a GitHub commit; each field may be absent. */
  datatype CommitInfo = CommitInfo(message: Option<string>, committerDate: Option<int>, authorDate: Option<int>)

  /** The commits endpoint's answer: an array whose entries may lack `commit`, or anything else. */
  datatype CommitsPayload = CommitArray(entries: seq<Option<CommitInfo>>) | NotAnArray

  datatype Source = Branches | Commits

  datatype GithubInfo = GithubInfo(repo: string, branch: string, lastCommitMessage: Option<string>,
                                   lastCommitAt: Option<int>, source: Option<Source>)

  datatype VercelSummary = VercelSummary(deploymentsToday: nat, lastDeploymentAt: Option<int>,
                                         lastDeploymentUrl: Option<string>, lastDeploymentTarget: Option<string>)

  /** The JSON body: an error with the time, or the full report. */
  datatype StatsOut =
    | ErrorOut(error: string, now: int)
    | Report(now: int, vercel: VercelSummary, github: Option<GithubInfo>, githubError: Option<string>)

  datatype CacheEntry = CacheEntry(json: StatsOut, at: int)

  /** The warm-cache test: an entry younger than `CACHE_MS`. */
  predicate Fresh(cache: Option<CacheEntry>, now: int) {
    cache.Some? && now - cache.value.at < CacheMs
  }

  /** The Vercel variables that are missing, in the order the handler checks them. */
  function Missing(env: Env): seq<string> {
    (if env.vercelToken == [] then ["VERCEL_TOKEN"] else [])
    + (if env.vercelProject == [] then ["VERCEL_PROJECT"] else [])
  }

  /** A variable is listed exactly when unset; the token comes first. */
  lemma MissingFacts(env: Env)
    ensures "VERCEL_TOKEN" in Missing(env) <==> env.vercelToken == []
    ensures "VERCEL_PROJECT" in Missing(env) <==> env.vercelProject == []
    ensures Missing(env) == [] <==> env.vercelToken != [] && env.vercelProject != []
    ensures env.vercelToken == [] && env.vercelProject == [] ==>
      Join(Missing(env), ", ") == "VERCEL_TOKEN" + ", " + "VERCEL_PROJECT"
  {
    assert "VERCEL_TOKEN" != "VERCEL_PROJECT" by {
      assert "VERCEL_TOKEN"[7] != "VERCEL_PROJECT"[7];
    }
    if env.vercelToken == [] && env.vercelProject == [] {
      assert Missing(env) == ["VERCEL_TOKEN", "VERCEL_PROJECT"];
      JoinTwo("VERCEL_TOKEN", "VERCEL_PROJECT", ", ");
    } else if env.vercelToken == [] {
      assert Missing(env) == ["VERCEL_TOKEN"];
    } else if env.vercelProject == [] {
      assert Missing(env) == ["VERCEL_PROJECT"];
    } else {
      assert Missing(env) == [];
    }
  }

  function MissingMessage(env: Env): string {
    "Missing env vars: " + Join(Missing(env), ", ")
  }

  /** The deployment list, empty when the payload is not a list. */
  function DeploymentsOf(p: DeploymentsPayload): seq<Deployment> {
    if p.DeploymentList? then p.items else []
  }

  /** Newest first: `createdAt` never increases along the list. */
  predicate NewestFirst(s: seq<Deployment>) {
    forall x, y :: 0 <= x < y < |s| ==> s[x].createdAt >= s[y].createdAt
  }

  /** `deployments.sort((a, b) => b.createdAt - a.createdAt)`, done in place. */
  method SortNewestFirst(a: array<Deployment>)
    modifies a
    ensures NewestFirst(a[..])
    ensures multiset(a[..]) == multiset(old(a[..]))
  {
    var i := 0;
    while i < a.Length
      invariant 0 <= i <= a.Length
      invariant forall x, y :: 0 <= x < y < i ==> a[x].createdAt >= a[y].createdAt
      invariant multiset(a[..]) == multiset(old(a[..]))
    {
      InsertNewest(a, i);
      i := i + 1;
    }
  }

  /** Moves `a[i]` down into the newest-first prefix `a[..i]`. */
  method InsertNewest(a: array<Deployment>, i: nat)
    requires i < a.Length
    requires forall x, y :: 0 <= x < y < i ==> a[x].createdAt >= a[y].createdAt
    modifies a
    ensures forall x, y :: 0 <= x < y <= i ==> a[x].createdAt >= a[y].createdAt
    ensures multiset(a[..]) == multiset(old(a[..]))
  {
    var j := i;
    while j > 0 && a[j - 1].createdAt < a[j].createdAt
      invariant 0 <= j <= i
      invariant forall x, y :: 0 <= x < y <= i && x != j && y != j ==> a[x].createdAt >= a[y].createdAt
      invariant forall y :: j < y <= i ==> a[j].createdAt > a[y].createdAt
      invariant multiset(a[..]) == multiset(old(a[..]))
    {
      SwapDown(a, j);
      j := j - 1;
    }
  }

  /** Exchanges `a[j - 1]` and `a[j]`. */
  method SwapDown(a: array<Deployment>, j: nat)
    requires 0 < j < a.Length
    modifies a
    ensures a[..] == old(a[..])[j - 1 := old(a[j])][j := old(a[j - 1])]
    ensures multiset(a[..]) == multiset(old(a[..]))
  {
    ghost var s := a[..];
    a[j - 1], a[j] := a[j], a[j - 1];
    assert a[..] == s[j - 1 := s[j]][j := s[j - 1]];
  }

  predicate IsReady(d: Deployment) {
    d.state == "READY"
  }

  /** How many READY deployments were created at or after `start`. */
  function ReadySince(ds: seq<Deployment>, start: int): (n: nat)
    ensures n <= |ds|
  {
    if ds == [] then 0
    else (if IsReady(ds[0]) && ds[0].createdAt >= start then 1 else 0) + ReadySince(ds[1..], start)
  }

  lemma {:induction false} ReadySinceAppend(a: seq<Deployment>, b: seq<Deployment>, start: int)
    ensures ReadySince(a + b, start) == ReadySince(a, start) + ReadySince(b, start)
  {
    if a == [] {
      assert a + b == b;
    } else {
      assert (a + b)[0] == a[0];
      assert (a + b)[1..] == a[1..] + b;
      ReadySinceAppend(a[1..], b, start);
    }
  }

  /** The count is zero exactly when no deployment is both READY and from today. */
  lemma {:induction false} ReadySinceZero(ds: seq<Deployment>, start: int)
    ensures ReadySince(ds, start) == 0 <==> forall i :: 0 <= i < |ds| ==> !(IsReady(ds[i]) && ds[i].createdAt >= start)
  {
    if ds != [] {
      ReadySinceZero(ds[1..], start);
      assert forall i :: 1 <= i < |ds| ==> ds[i] == ds[1..][i - 1];
    }
  }

  /** The count does not depend on the order, so sorting first does not change it. */
  lemma {:induction false} ReadySincePermutation(a: seq<Deployment>, b: seq<Deployment>, start: int)
    requires multiset(a) == multiset(b)
    ensures ReadySince(a, start) == ReadySince(b, start)
    decreases |a|
  {
    if a == [] {
      assert |b| == |multiset(b)| == 0;
    } else {
      var x := a[0];
      assert x in multiset(b);
      var k :| 0 <= k < |b| && b[k] == x;
      assert b == b[..k] + [x] + b[k + 1..];
      ReadySinceAppend(b[..k] + [x], b[k + 1..], start);
      ReadySinceAppend(b[..k], [x], start);
      ReadySinceAppend(b[..k], b[k + 1..], start);
      assert a == [x] + a[1..];
      assert multiset(a) == multiset([x]) + multiset(a[1..]);
      assert multiset(b) == multiset(b[..k]) + multiset([x]) + multiset(b[k + 1..]);
      assert multiset(b[..k] + b[k + 1..]) == multiset(b[..k]) + multiset(b[k + 1..]);
      assert multiset(a[1..]) == multiset(a) - multiset{x};
      assert multiset(b[..k] + b[k + 1..]) == multiset(b) - multiset{x};
      ReadySincePermutation(a[1..], b[..k] + b[k + 1..], start);
    }
  }

  /** The Vercel part of the report, from the sorted list: today's READY count, and the
      time, URL and target of the first READY deployment (all null when there is none). */
  function Summarize(sorted: seq<Deployment>, start: int): VercelSummary {
    var last := Find(IsReady, sorted);
    VercelSummary(ReadySince(sorted, start),
                  if last.Some? then Some(last.value.createdAt) else None,
                  if last.Some? then Some(last.value.url) else None,
                  if last.Some? then last.value.target else None)
  }

  /** What the Vercel part means for a list of deployments in any order: the count of
      READY deployments since `start`, and the newest READY deployment, if any. */
  predicate DescribesDeployments(v: VercelSummary, ds: seq<Deployment>, start: int) {
    && v.deploymentsToday == ReadySince(ds, start)
    && (v.lastDeploymentAt.None? <==> forall i :: 0 <= i < |ds| ==> !IsReady(ds[i]))
    && (v.lastDeploymentAt.None? ==> v.lastDeploymentUrl.None? && v.lastDeploymentTarget.None?)
    && (v.lastDeploymentAt.Some? ==>
          && (exists i :: 0 <= i < |ds| && IsReady(ds[i]) && ds[i].createdAt == v.lastDeploymentAt.value
                && v.lastDeploymentUrl == Some(ds[i].url) && v.lastDeploymentTarget == ds[i].target)
          && forall i :: 0 <= i < |ds| && IsReady(ds[i]) ==> ds[i].createdAt <= v.lastDeploymentAt.value)
  }

  /** Summarizing a newest-first arrangement of a list describes that list. */
  lemma SummarizeDescribes(sorted: seq<Deployment>, ds: seq<Deployment>, start: int)
    requires NewestFirst(sorted) && multiset(sorted) == multiset(ds)
    ensures DescribesDeployments(Summarize(sorted, start), ds, start)
  {
    ReadySincePermutation(sorted, ds, start);
    var last := Find(IsReady, sorted);
    if last.Some? {
      FirstReadyIsNewest(sorted, ds);
    } else {
      forall i | 0 <= i < |ds|
        ensures !IsReady(ds[i])
      {
        assert ds[i] in multiset(ds);
        var m :| 0 <= m < |sorted| && sorted[m] == ds[i];
      }
    }
  }

  /** In a newest-first arrangement of a list, the first READY deployment is in the list
      and no READY deployment of the list is newer. */
  lemma FirstReadyIsNewest(sorted: seq<Deployment>, ds: seq<Deployment>)
    requires NewestFirst(sorted) && multiset(sorted) == multiset(ds)
    requires Find(IsReady, sorted).Some?
    ensures var d := Find(IsReady, sorted).value;
      && (exists i :: 0 <= i < |ds| && ds[i] == d)
      && forall i :: 0 <= i < |ds| && IsReady(ds[i]) ==> ds[i].createdAt <= d.createdAt
  {
    var k := FindFirst(IsReady, sorted);
    assert sorted[k] in multiset(sorted);
    var j :| 0 <= j < |ds| && ds[j] == sorted[k];
    forall i | 0 <= i < |ds| && IsReady(ds[i])
      ensures ds[i].createdAt <= sorted[k].createdAt
    {
      assert ds[i] in multiset(ds);
      var m :| 0 <= m < |sorted| && sorted[m] == ds[i];
      assert k <= m;
    }
  }

  /** The hint left when a repository is configured without a token. */
  const TokenHint := "GITHUB_TOKEN missing; supply a PAT with Contents:read (or classic PAT with repo scope)."

  /** The commit date: the committer's, else the author's. */
  function CommitDate(c: Option<CommitInfo>): Option<int> {
    if c.None? then None
    else if c.value.committerDate.Some? then c.value.committerDate
    else c.value.authorDate
  }

  function CommitMessage(c: Option<CommitInfo>): Option<string> {
    if c.None? then None else c.value.message
  }

  /** The first entry of the commits answer, when it is a non-empty array. */
  function TopCommit(p: CommitsPayload): Option<CommitInfo> {
    if p.CommitArray? && p.entries != [] then p.entries[0] else None
  }

  /** The GitHub part of the report and its error text: with a repository and a token,
      what the branches answer says, else what the commits answer says; a repository
      without a token leaves only a hint. */
  function GithubOutcome(env: Env, branchAnswer: Fetched<Option<CommitInfo>>, commitsAnswer: Fetched<CommitsPayload>)
    : (Option<GithubInfo>, Option<string>)
  {
    if env.githubRepo != [] && env.githubToken != [] then
      var info := GithubInfo(env.githubRepo, BranchOf(env), None, None, None);
      match branchAnswer
      case Parsed(b) =>
        (Some(info.(lastCommitMessage := CommitMessage(b), lastCommitAt := CommitDate(b), source := Some(Branches))), None)
      case Threw(m1) =>
        match commitsAnswer
        case Parsed(c) =>
          var top := TopCommit(c);
          (Some(info.(lastCommitMessage := CommitMessage(top), lastCommitAt := CommitDate(top), source := Some(Commits))),
           Some(m1))
        case Threw(m2) => (Some(info), Some(m1 + " | " + m2))
    else if env.githubRepo != [] then (None, Some(TokenHint))
    else (None, None)
  }

  /** The branches endpoint is asked first and the commits endpoint only when it fails;
      `source` names the call that answered and the errors of the failed calls are joined
      with " | ". Without a repository there is nothing, and without a token only the hint. */
  lemma GithubOutcomeFacts(env: Env, branchAnswer: Fetched<Option<CommitInfo>>, commitsAnswer: Fetched<CommitsPayload>)
    ensures var (github, githubError) := GithubOutcome(env, branchAnswer, commitsAnswer);
      && (env.githubRepo == [] ==> github == None && githubError == None)
      && (env.githubRepo != [] && env.githubToken == [] ==> github == None && githubError == Some(TokenHint))
      && (env.githubRepo != [] && env.githubToken != [] ==>
          (&& github.Some? && github.value.repo == env.githubRepo && github.value.branch == BranchOf(env)
           && (branchAnswer.Parsed? ==>
                 && github.value.source == Some(Branches) && githubError == None
                 && github.value.lastCommitMessage == CommitMessage(branchAnswer.body)
                 && github.value.lastCommitAt == CommitDate(branchAnswer.body))
           && (branchAnswer.Threw? && commitsAnswer.Parsed? ==>
                 && github.value.source == Some(Commits) && githubError == Some(branchAnswer.message)
                 && github.value.lastCommitMessage == CommitMessage(TopCommit(commitsAnswer.body))
                 && github.value.lastCommitAt == CommitDate(TopCommit(commitsAnswer.body)))
           && (branchAnswer.Threw? && commitsAnswer.Threw? ==>
                 && github.value.source == None && github.value.lastCommitMessage == None && github.value.lastCommitAt == None
                 && githubError == Some(branchAnswer.message + " | " + commitsAnswer.message))))
      && (github.Some? <==> env.githubRepo != [] && env.githubToken != [])
      && (githubError.None? <==> env.githubRepo == [] || (env.githubToken != [] && branchAnswer.Parsed?))
  {
  }

  /** The GitHub section as the handler fills it in: the object is created with null
      fields, then each answer sets them one by one. */
  method GithubSection(env: Env, branchAnswer: Fetched<Option<CommitInfo>>, commitsAnswer: Fetched<CommitsPayload>)
    returns (github: Option<GithubInfo>, githubError: Option<string>)
    ensures (github, githubError) == GithubOutcome(env, branchAnswer, commitsAnswer)
  {
    githubError := None;
    github := None;
    if env.githubRepo != [] && env.githubToken != [] {
      var info := GithubInfo(env.githubRepo, BranchOf(env), None, None, None);
      match branchAnswer {
        case Parsed(b) =>
          info := info.(lastCommitMessage := CommitMessage(b));
          info := info.(lastCommitAt := CommitDate(b));
          info := info.(source := Some(Branches));
        case Threw(m1) =>
          githubError := Some(m1);
          match commitsAnswer {
            case Parsed(c) =>
              var top := TopCommit(c);
              info := info.(lastCommitMessage := CommitMessage(top));
              info := info.(lastCommitAt := CommitDate(top));
              info := info.(source := Some(Commits));
            case Threw(m2) =>
              githubError := Some(m1 + " | " + m2);
          }
      }
      github := Some(info);
    } else if env.githubRepo != [] && env.githubToken == [] {
      githubError := Some(TokenHint);
    }
  }

  /** The handler with its module-level cache. */
  class StatsHandler {
    const env: Env
    var cache: Option<CacheEntry>

    constructor (env: Env)
      ensures this.env == env && cache == None
    {
      this.env := env;
      cache := None;
    }

    /** One request at time `now` (`startOfToday` is local midnight), given how each
        outgoing request ends. The status is always 200; a fresh cache entry is served
        as is, and every other path stores its body in the cache. */
    method Handle(now: int, startOfToday: int, deploymentsAnswer: Fetched<DeploymentsPayload>,
                  branchAnswer: Fetched<Option<CommitInfo>>, commitsAnswer: Fetched<CommitsPayload>)
      returns (status: int, body: StatsOut)
      modifies this`cache
      ensures status == 200
      ensures Fresh(old(cache), now) ==> body == old(cache).value.json && cache == old(cache)
      ensures !Fresh(old(cache), now) ==> cache == Some(CacheEntry(body, now))
      ensures !Fresh(old(cache), now) && Missing(env) != [] ==> body == ErrorOut(MissingMessage(env), now)
      ensures !Fresh(old(cache), now) && Missing(env) == [] && deploymentsAnswer.Threw? ==>
        body == ErrorOut(deploymentsAnswer.message, now)
      ensures !Fresh(old(cache), now) && Missing(env) == [] && deploymentsAnswer.Parsed? ==>
        (&& body.Report? && body.now == now
         && DescribesDeployments(body.vercel, DeploymentsOf(deploymentsAnswer.body), startOfToday)
         && (body.github, body.githubError) == GithubOutcome(env, branchAnswer, commitsAnswer))
    {
      if Fresh(cache, now) {
        return 200, cache.value.json;
      }
      if Missing(env) != [] {
        body := ErrorOut(MissingMessage(env), now);
        cache := Some(CacheEntry(body, now));
        return 200, body;
      }
      match deploymentsAnswer {
        case Threw(message) =>
          body := ErrorOut(message, now);
        case Parsed(payload) =>
          var list := DeploymentsOf(payload);
          var a := new Deployment[|list|](k requires 0 <= k < |list| => list[k]);
          assert a[..] == list;
          SortNewestFirst(a);
          var sorted := a[..];
          SummarizeDescribes(sorted, list, startOfToday);
          var vercel := Summarize(sorted, startOfToday);
          var github, githubError := GithubSection(env, branchAnswer, commitsAnswer);
          body := Report(now, vercel, github, githubError);
      }
      cache := Some(CacheEntry(body, now));
      status := 200;
    }
  }
}
