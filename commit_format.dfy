/** What the two commit-listing handlers (api/commits.ts and src/pages/ChangelogCommits.tsx)
    share: the configuration check, the owner/repository split, the merge filter and
    the turning of a GitHub commit into a changelog entry. */
module CommitFormat {
  import opened Text
  import opened Seqs

  /** A commit as GitHub lists it; dates are kept as the strings GitHub sends. */
  datatype GitHubCommit = GitHubCommit(sha: string, message: string, authorName: Option<string>,
                                       authorDate: Option<string>, committerDate: Option<string>,
                                       htmlUrl: string, login: Option<string>)

  /** One entry of the JSON list both handlers answer with. */
  datatype Entry = Entry(sha: string, title: string, body: string, url: string, author: string, date: string)

  /** The request sent to GitHub's commits endpoint: the repository and the query parameters in order. */
  datatype Request = Request(owner: string, repo: string, params: seq<(string, string)>)

  /** Both handlers need a token and a repository of the form "owner/repo" ("" is unset). */
  predicate ValidConfig(token: string, repoFull: string) {
    token != [] && repoFull != [] && '/' in repoFull
  }

  /** `const [owner, repo] = repoFull.split("/")`: the first two pieces. */
  function OwnerRepo(repoFull: string): (string, string)
    requires '/' in repoFull
  {
    SplitMany(repoFull, '/');
    var parts := Split(repoFull, '/');
    (parts[0], parts[1])
  }

  /** "owner/repo" splits back into its two parts, and anything after a second "/" is ignored. */
  lemma OwnerRepoSplit(owner: string, repo: string, rest: string)
    requires '/' !in owner && '/' !in repo
    ensures OwnerRepo(owner + "/" + repo) == (owner, repo)
    ensures OwnerRepo(owner + "/" + repo + "/" + rest) == (owner, repo)
  {
    SplitAfterPiece(owner, repo, '/');
    SplitNoSeparator(repo, '/');
    assert owner + "/" + repo + "/" + rest == owner + ['/'] + (repo + ['/'] + rest);
    SplitAfterPiece(owner, repo + ['/'] + rest, '/');
    SplitAfterPiece(repo, rest, '/');
  }

  /** `/^merge/i`: the message starts with "merge" in any case. */
  predicate IsMerge(message: string) {
    |message| >= 5 && Lower(message[..5]) == "merge"
  }

  predicate NotMerge(c: GitHubCommit) {
    !IsMerge(c.message)
  }

  lemma MergeExamples()
    ensures IsMerge("Merge pull request #7 from labs")
    ensures IsMerge("MERGE")
    ensures !IsMerge("Emerge from the fog")
    ensures !IsMerge("merg")
  {
    assert "Merge pull request #7 from labs"[..5] == "Merge";
    assert "Emerge from the fog"[..5] == "Emerg";
    assert Lower("Emerg")[0] == 'e';
  }

  /** The commits listed: every one when merges are wanted, else those that are not merges. */
  function Kept(cs: seq<GitHubCommit>, includeMerges: bool): seq<GitHubCommit> {
    if includeMerges then cs else Filter(NotMerge, cs)
  }

  /** Merges are dropped and nothing else is; the order is kept. */
  lemma KeptFacts(cs: seq<GitHubCommit>, more: seq<GitHubCommit>, includeMerges: bool)
    ensures includeMerges ==> Kept(cs, includeMerges) == cs
    ensures !includeMerges ==> forall c :: c in Kept(cs, includeMerges) ==> c in cs && !IsMerge(c.message)
    ensures forall c :: c in cs && !IsMerge(c.message) ==> c in Kept(cs, includeMerges)
    ensures Kept(cs + more, includeMerges) == Kept(cs, includeMerges) + Kept(more, includeMerges)
  {
    FilterAppend(NotMerge, cs, more);
  }

  /** The title: the first line, trimmed. */
  function Title(message: string): string {
    Trim(Split(message, '\n')[0])
  }

  /** The body: the remaining lines joined by newlines, trimmed. */
  function Body(message: string): string {
    Trim(Join(Split(message, '\n')[1..], "\n"))
  }

  /** The title is one line; neither part starts or ends with white space. */
  lemma TitleBodyShape(message: string)
    ensures '\n' !in Title(message)
    ensures NoOuterSpace(Title(message)) && NoOuterSpace(Body(message))
  {
    var first := Split(message, '\n')[0];
    var k := TrimSlice(first);
    assert forall i :: 0 <= i < |Title(message)| ==> Title(message)[i] == first[k + i];
    var _ := TrimSlice(Join(Split(message, '\n')[1..], "\n"));
  }

  /** A clean one-line title, a newline and a clean body split back into the two. */
  lemma TitleBodyRoundTrip(title: string, body: string)
    requires '\n' !in title && NoOuterSpace(title) && NoOuterSpace(body)
    ensures Title(title + "\n" + body) == title
    ensures Body(title + "\n" + body) == body
  {
    SplitAfterPiece(title, body, '\n');
    JoinSplit(body, '\n');
    TrimNoOuterSpace(title);
    TrimNoOuterSpace(body);
  }

  /** A message of one line is all title. */
  lemma SingleLineMessage(message: string)
    requires '\n' !in message
    ensures Title(message) == Trim(message) && Body(message) == []
  {
    SplitNoSeparator(message, '\n');
    assert Split(message, '\n')[1..] == [];
    TrimNoOuterSpace([]);
  }

  /** The author: the commit author's name, else the account login, else "unknown". */
  function AuthorOf(c: GitHubCommit): string {
    if c.authorName.Some? then c.authorName.value
    else if c.login.Some? then c.login.value
    else "unknown"
  }

  /** The date in api/commits.ts: the author date, else the committer date, else "". */
  function ApiDate(c: GitHubCommit): string {
    if c.authorDate.Some? then c.authorDate.value else c.committerDate.GetOr("")
  }

  /** The date in the changelog handler: the author date, else "" (no committer fallback). */
  function ChangelogDate(c: GitHubCommit): string {
    c.authorDate.GetOr("")
  }

  /** The two handlers agree whenever the author date is there, and only the API
      falls back to the committer date when it is not. */
  lemma DateFallbacks(c: GitHubCommit)
    ensures c.authorDate.Some? ==> ApiDate(c) == ChangelogDate(c) == c.authorDate.value
    ensures c.authorDate.None? ==> ChangelogDate(c) == [] && ApiDate(c) == c.committerDate.GetOr([])
    ensures ApiDate(c) != ChangelogDate(c) ==> c.authorDate.None? && c.committerDate.Some? && c.committerDate.value != []
  {
  }

  /** The author falls back from the name to the login to "unknown", and is "unknown"
      only when neither is there or one of them is literally "unknown". */
  lemma AuthorFallbacks(c: GitHubCommit)
    ensures c.authorName.Some? ==> AuthorOf(c) == c.authorName.value
    ensures c.authorName.None? && c.login.Some? ==> AuthorOf(c) == c.login.value
    ensures AuthorOf(c) == "unknown" <==>
      || (c.authorName.None? && c.login.None?)
      || c.authorName == Some("unknown")
      || (c.authorName.None? && c.login == Some("unknown"))
  {
  }

  function ToEntry(c: GitHubCommit, date: string): Entry {
    Entry(c.sha, Title(c.message), Body(c.message), c.htmlUrl, AuthorOf(c), date)
  }

  /** One entry per commit, in order, each dated by `date`. */
  function Entries(cs: seq<GitHubCommit>, date: GitHubCommit -> string): (r: seq<Entry>)
    ensures |r| == |cs|
  {
    if cs == [] then [] else [ToEntry(cs[0], date(cs[0]))] + Entries(cs[1..], date)
  }

  /** Entry i comes from commit i, so the order of the commits is kept. */
  lemma {:induction false} EntriesInOrder(cs: seq<GitHubCommit>, more: seq<GitHubCommit>, date: GitHubCommit -> string)
    ensures forall i :: 0 <= i < |cs| ==> Entries(cs, date)[i] == ToEntry(cs[i], date(cs[i]))
    ensures Entries(cs + more, date) == Entries(cs, date) + Entries(more, date)
  {
    if cs != [] {
      EntriesInOrder(cs[1..], more, date);
      assert (cs + more)[1..] == cs[1..] + more;
      assert forall i :: 1 <= i < |cs| ==> cs[1..][i - 1] == cs[i];
    } else {
      assert cs + more == more;
    }
  }
}
