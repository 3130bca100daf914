/** The changelog handler (src/pages/ChangelogCommits.tsx): every commit of a branch,
    gathered page by page from GitHub until an empty page, with merges hidden
    unless asked for, each turned into an entry. */
module Changelog {
  import opened Text
  import opened CommitFormat
  import CommitsApi

  const ConfigError := "Missing GITHUB_TOKEN or GITHUB_REPO"
  const UpstreamError := "GitHub API error"
  const CacheControl := "s-maxage=600, stale-while-revalidate=86400"
  const PerPage: nat := 100

  /** GitHub's answer to one page request (its status, text and listed commits), or
      the error thrown while fetching or reading it, with its message when it has one. */
  datatype PageAnswer = PageAnswer(status: int, text: string, commits: seq<GitHubCommit>)
                      | Threw(message: Option<string>)

  predicate IsOk(a: PageAnswer) {
    a.PageAnswer? && 200 <= a.status <= 299
  }

  /** The loop ends at this answer: an error, or an OK page listing nothing. */
  predicate Stops(a: PageAnswer) {
    !IsOk(a) || a.commits == []
  }

  datatype Payload = Failure(error: string, details: Option<string>)
                   | Unhandled(message: Option<string>)
                   | Listing(entries: seq<Entry>)

  /** The status, the `Cache-Control` header when one is set, and the JSON body. */
  datatype Response = Response(status: int, cacheControl: Option<string>, body: Payload)

  /** `sha` when given and not empty, else "labs". */
  function BranchOf(query: map<string, string>): string {
    if "sha" in query && query["sha"] != [] then query["sha"] else "labs"
  }

  predicate IncludeMerges(query: map<string, string>) {
    "include_merges" in query && query["include_merges"] == "true"
  }

  /** The two commit handlers ask for the same branch and agree on `include_merges`,
      except for an explicit empty `sha`: the changelog falls back to "labs" (`||`),
      while the API sends "" (a destructuring default replaces only an absent key). */
  lemma BranchAgreesWithApi(query: map<string, string>)
    ensures CommitsApi.Params(query)[0] == ("sha", BranchOf(query)) <==> !("sha" in query && query["sha"] == [])
    ensures CommitsApi.IncludeMerges(query) <==> IncludeMerges(query)
  {
  }

  /** The repository and branch listed. */
  datatype Listed = Listed(owner: string, repo: string, branch: string)

  function ListedOf(repoFull: string, query: map<string, string>): Listed
    requires '/' in repoFull
  {
    var (owner, repo) := OwnerRepo(repoFull);
    Listed(owner, repo, BranchOf(query))
  }

  /** The request for one page: the branch, 100 commits a page, and the page number. */
  function PageRequest(l: Listed, page: nat): Request {
    Request(l.owner, l.repo, [("sha", l.branch), ("per_page", Decimal(PerPage)), ("page", Decimal(page))])
  }

  /** The commits an answer lists; none for an error thrown. */
  function CommitsOf(a: PageAnswer): seq<GitHubCommit> {
    if a.PageAnswer? then a.commits else []
  }

  function Answer(fetch: Request -> PageAnswer, l: Listed, page: nat): PageAnswer {
    fetch(PageRequest(l, page))
  }

  /** The commits of pages 1 to n - 1, in page order. */
  function Gathered(fetch: Request -> PageAnswer, l: Listed, n: nat): seq<GitHubCommit> {
    if n <= 1 then []
    else
      Gathered(fetch, l, n - 1) + CommitsOf(Answer(fetch, l, n - 1))
  }

  /** `n` is the first page at which the loop stops. */
  predicate FirstStop(fetch: Request -> PageAnswer, l: Listed, n: nat) {
    && n >= 1
    && Stops(Answer(fetch, l, n))
    && forall p :: 1 <= p < n ==> !Stops(Answer(fetch, l, p))
  }

  /** There is at most one first stopping page, so the loop's result is determined. */
  lemma FirstStopUnique(fetch: Request -> PageAnswer, l: Listed, n: nat, m: nat)
    requires FirstStop(fetch, l, n) && FirstStop(fetch, l, m)
    ensures n == m
  {
  }

  /** Before the first stop every page lists something, so at least one commit a page
      is gathered, and every gathered commit was listed on one of those pages. */
  lemma {:induction false} GatheredFacts(fetch: Request -> PageAnswer, l: Listed, n: nat)
    requires n >= 1
    requires forall p :: 1 <= p < n ==> !Stops(Answer(fetch, l, p))
    ensures |Gathered(fetch, l, n)| >= n - 1
    ensures forall c :: c in Gathered(fetch, l, n) ==>
      exists p :: 1 <= p < n && c in CommitsOf(Answer(fetch, l, p))
  {
    if n > 1 {
      GatheredFacts(fetch, l, n - 1);
      var a := Answer(fetch, l, n - 1);
      assert !Stops(a);
      forall c | c in Gathered(fetch, l, n)
        ensures exists p :: 1 <= p < n && c in CommitsOf(Answer(fetch, l, p))
      {
        if c in Gathered(fetch, l, n - 1) {
          var p :| 1 <= p < n - 1 && c in CommitsOf(Answer(fetch, l, p));
          assert 1 <= p < n;
        } else {
          assert c in CommitsOf(a);
        }
      }
    }
  }

  /** Two full pages and then an empty one: both pages, in order. */
  lemma GatheredExample(fetch: Request -> PageAnswer, l: Listed, first: seq<GitHubCommit>, second: seq<GitHubCommit>)
    requires Answer(fetch, l, 1) == PageAnswer(200, "", first) && first != []
    requires Answer(fetch, l, 2) == PageAnswer(200, "", second) && second != []
    requires Answer(fetch, l, 3) == PageAnswer(200, "", [])
    ensures FirstStop(fetch, l, 3)
    ensures Gathered(fetch, l, 3) == first + second
  {
    assert Gathered(fetch, l, 2) == Gathered(fetch, l, 1) + first;
  }

  /** The handler, given the answer `fetch` gives to each page request. GitHub must stop
      listing at some page when the configuration is valid; the source loops forever
      otherwise. */
  method Handle(token: string, repoFull: string, query: map<string, string>, fetch: Request -> PageAnswer)
    returns (r: Response, ghost pagesAsked: nat)
    requires ValidConfig(token, repoFull) ==>
      exists n: nat :: n >= 1 && Stops(Answer(fetch, ListedOf(repoFull, query), n))
    ensures !ValidConfig(token, repoFull) ==> r == Response(500, None, Failure(ConfigError, None))
    ensures ValidConfig(token, repoFull) ==>
      var l := ListedOf(repoFull, query);
      var a := Answer(fetch, l, pagesAsked);
      && FirstStop(fetch, l, pagesAsked)
      && (a.Threw? ==> r == Response(500, None, Unhandled(a.message)))
      && (a.PageAnswer? && !IsOk(a) ==> r == Response(a.status, None, Failure(UpstreamError, Some(a.text))))
      && (IsOk(a) ==>
            r == Response(200, Some(CacheControl),
                          Listing(Entries(Kept(Gathered(fetch, l, pagesAsked), IncludeMerges(query)), ChangelogDate))))
  {
    if !ValidConfig(token, repoFull) {
      return Response(500, None, Failure(ConfigError, None)), 0;
    }
    var l := ListedOf(repoFull, query);
    ghost var bound: nat :| bound >= 1 && Stops(Answer(fetch, l, bound));
    var all: seq<GitHubCommit> := [];
    var page: nat := 1;
    while true
      invariant 1 <= page <= bound
      invariant forall p :: 1 <= p < page ==> !Stops(Answer(fetch, l, p))
      invariant all == Gathered(fetch, l, page)
      decreases bound - page
    {
      var answer := fetch(PageRequest(l, page));
      if answer.Threw? {
        return Response(500, None, Unhandled(answer.message)), page;
      }
      if !IsOk(answer) {
        return Response(answer.status, None, Failure(UpstreamError, Some(answer.text))), page;
      }
      if answer.commits == [] {
        break;
      }
      all := all + answer.commits;
      page := page + 1;
    }
    var mapped := Entries(Kept(all, IncludeMerges(query)), ChangelogDate);
    r := Response(200, Some(CacheControl), Listing(mapped));
    pagesAsked := page;
  }

  /** The list sent: the commits of every page before the first empty one, in page order,
      with merges left out unless asked for, each dated by its author date only. */
  lemma ListingFacts(fetch: Request -> PageAnswer, l: Listed, n: nat, includeMerges: bool)
    requires FirstStop(fetch, l, n) && IsOk(Answer(fetch, l, n))
    ensures var kept := Kept(Gathered(fetch, l, n), includeMerges);
      var es := Entries(kept, ChangelogDate);
      && |es| == |kept|
      && (forall i :: 0 <= i < |es| ==>
            && (exists p :: 1 <= p < n && kept[i] in CommitsOf(Answer(fetch, l, p)))
            && (includeMerges || !IsMerge(kept[i].message))
            && es[i].date == kept[i].authorDate.GetOr([]))
      && (forall p, c :: 1 <= p < n && c in CommitsOf(Answer(fetch, l, p)) && !IsMerge(c.message) ==> c in kept)
  {
    var all := Gathered(fetch, l, n);
    var kept := Kept(all, includeMerges);
    GatheredFacts(fetch, l, n);
    KeptFacts(all, [], includeMerges);
    EntriesInOrder(kept, [], ChangelogDate);
    assert forall i :: 0 <= i < |kept| ==> kept[i] in kept;
    forall p, c | 1 <= p < n && c in CommitsOf(Answer(fetch, l, p)) && !IsMerge(c.message)
      ensures c in kept
    {
      GatheredHolds(fetch, l, p, n);
    }
  }

  /** Gathering up to a later page keeps the commits of every earlier page. */
  lemma {:induction false} GatheredHolds(fetch: Request -> PageAnswer, l: Listed, p: nat, n: nat)
    requires 1 <= p < n
    ensures forall c :: c in CommitsOf(Answer(fetch, l, p)) ==> c in Gathered(fetch, l, n)
  {
    if p < n - 1 {
      GatheredHolds(fetch, l, p, n - 1);
    }
  }
}
