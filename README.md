# phi-website: a Dafny model of the quiz engine and the site's small rules

This project models the logic of a personal website written in TypeScript and React.

The main part is the flash-card quiz page (`src/pages/revise.tsx`). Its pieces are:
- the text normaliser;
- the rolling-row Levenshtein distance and the similarity ratio;
- keyword extraction and the fuzzy keyword matcher;
- grading of multiple-choice, true/false, multi-select and short answers;
- the session state: subjects, selection, deck, shuffle, navigation and the feedback map.

It also models smaller rules from other parts of the site:
- the Archive.org music search page: the query URL, pagination and metadata prefetching;
- the album page: audio-file classification, track names and the track list;
- the music-section router: overlay detection and layout choice;
- the news ticker: the scrolled text and the pause flag;
- the `/api/stats` handler: the one-minute cache, the missing-variable check, the deployment summary and the GitHub section;
- the stats page: relative times and the "working" verdict;
- the two commit-listing handlers: configuration check, query defaults, merge filter, title/body split, fallbacks, and the changelog's page-gathering loop.

## How the model is arranged

There is one module per source file, plus shared helpers:
- `Text` holds JavaScript's white space, `trim`, ASCII lower-casing, `split`/`join`, `filter(Boolean)` and decimal rendering.
- `Seqs` holds `Array.prototype.filter`, `find` and `every`.

Each core file takes its own form in the model:
- Pure code becomes functions with lemmas.
- State that the source changes in place becomes a class whose methods have `modifies` clauses:
  - the quiz session: `Session.QuizSession`;
  - the search panel: `MusicSearch.SearchPanel`;
  - the ticker track: `Ticker.Track`;
  - the stats handler's module-level cache: `StatsApi.StatsHandler`.
- Loops in the source become methods with loops:
  - the Levenshtein row update;
  - the Fisher–Yates shuffle;
  - the keyword window scan;
  - the in-place deployment sort;
  - the prefetch;
  - the changelog's page loop.

Network answers are parameters of the model:
- a value for one request;
- a function from request to answer where several requests are made.

Clocks are integer-millisecond parameters.

## Model

| member | source | states |
|---|---|---|
| Normalize.NormalizeIsNormal | src/pages/revise.tsx:12-20 | normalizeText's output holds only a-z, 0-9 and single inner spaces, with no space at either end |
| Normalize.NormalizeIdempotent | src/pages/revise.tsx:12-20 | normalizing twice equals normalizing once |
| Normalize.NormalIsFixed | src/pages/revise.tsx:12-20 | an already normal text is left unchanged |
| Normalize.StripMarksKeeps | src/pages/revise.tsx:16 | a character survives iff it occurs in the text and is not a combining mark U+0300..U+036F |
| Normalize.StripMarksAppend | src/pages/revise.tsx:16 | marks are removed where they stand: stripping distributes over concatenation, so the rest keeps its order |
| Normalize.ScrubShape | src/pages/revise.tsx:17 | the output holds only a-z, 0-9 and white space |
| Normalize.ScrubNormal | src/pages/revise.tsx:17 | a text of a-z, 0-9 and spaces is left unchanged |
| Normalize.ScrubAppend | src/pages/revise.tsx:17 | the replacement works character by character: it distributes over concatenation |
| Normalize.ScrubIdempotent | src/pages/revise.tsx:17 | scrubbing twice is scrubbing once |
| Normalize.CollapseShape | src/pages/revise.tsx:18 | white-space runs become one space: no two adjacent spaces, and emptiness and the first character's kind are kept |
| Normalize.TrimCollapsed | src/pages/revise.tsx:18-19 | trimming a collapsed, scrubbed text yields a normal text |
| Normalize.WordsJoin | src/pages/revise.tsx:67-68 | the words of a normalized text, joined by single spaces, give the text back |
| Normalize.JoinWords | src/pages/revise.tsx:67-68 | non-empty, space-free words joined by single spaces split back into the same words |
| Distance.Levenshtein | src/pages/revise.tsx:22-42 | the rolling one-row array loop returns the textbook insert/delete/substitute edit distance |
| Distance.NextRow | src/pages/revise.tsx:29-39 | one inner-loop pass turns row i-1 of the table into row i, in place |
| Distance.CellIsDist | src/pages/revise.tsx:33-36 | the equal-character shortcut of the recurrence loses nothing: the table is the edit distance |
| Distance.EditDistanceFacts | src/pages/revise.tsx:23-25 | the distance is 0 iff the texts are equal, the other length when one is empty, at most the longer length, and symmetric |
| Distance.Similarity | src/pages/revise.tsx:44-48 | the similarity lies in [0, 1] |
| Distance.SimilarityFacts | src/pages/revise.tsx:44-48 | the similarity is 1 exactly for equal texts, and the order of its arguments does not matter |
| Distance.SimilarIff | src/pages/revise.tsx:44-48 | similarity >= 0.8 iff five times the distance is at most the longer length |
| Distance.ComputeSimilarity | src/pages/revise.tsx:44-48 | the computed similarity, through the loop, equals the specified ratio |
| Keywords.PiecesSepFree | src/pages/revise.tsx:55 | no piece of the split contains a separator (`,` `;` `/` `&` ` and ` ` or `, in any case) |
| Keywords.PiecesJoin | src/pages/revise.tsx:55 | splitting separator-free pieces joined with commas gives the pieces back |
| Keywords.KeywordPartsClean | src/pages/revise.tsx:54-57 | every keyword cut from a text answer is non-empty, trimmed and separator-free |
| Keywords.KeywordPartsJoin | src/pages/revise.tsx:54-57 | clean keywords written as one comma-separated text are extracted back unchanged |
| Keywords.ExtractKeywordsShape | src/pages/revise.tsx:50-58 | an array answer maps element by element, keeping length and order; any other answer gives clean keywords |
| Keywords.KeywordMatches | src/pages/revise.tsx:60-80 | the two scanning loops return exactly the matching rule: a blank keyword matches, a blank input does not, a substring matches, else a similar window (multi-word keywords) or a similar word |
| Keywords.ScanWindows | src/pages/revise.tsx:70-77 | the window loop finds a similar window of keyword-length iff one exists |
| Keywords.ScanWords | src/pages/revise.tsx:79 | the per-word scan finds a similar word iff one exists |
| Keywords.KeywordMatchSelf | src/pages/revise.tsx:60-65 | every text matches itself as a keyword |
| Keywords.KeywordMatchNormalized | src/pages/revise.tsx:61-62 | matching depends only on the normalized input and the normalized keyword |
| Keywords.KeywordMatchOneTypo | src/pages/revise.tsx:79 | a word one edit away from a keyword of five or more characters matches |
| Grading.AllMatchIff | src/pages/revise.tsx:236 | `every` holds iff each keyword matches |
| Grading.AllKeywordsMatch | src/pages/revise.tsx:236 | the `every` loop returns whether all keywords match |
| Grading.Evaluate | src/pages/revise.tsx:193-240 | the grading steps of checkAnswer return the specified outcome for each question type |
| Grading.EvaluateShort | src/pages/revise.tsx:227-239 | the short-answer branch returns the specified outcome |
| Grading.McqIgnoresCaseAndSpace | src/pages/revise.tsx:196 | outer white space and capitals in the choice do not change the mark |
| Grading.TfIff | src/pages/revise.tsx:201-204 | tf is correct iff `value === answer`, else wrong |
| Grading.ShortNeverWrong | src/pages/revise.tsx:227-239 | a short answer is either correct or cleared, never wrong |
| Grading.ShortKeywordsIff | src/pages/revise.tsx:230-238 | with keywords, a short answer is correct iff its input is not blank and every keyword matches |
| Grading.ShortExactAnswer | src/pages/revise.tsx:227-239 | typing a clean one-keyword answer itself is correct |
| Grading.MultiCorrectIff | src/pages/revise.tsx:206-225 | without repeated selections, multi is correct iff the selections are exactly the answer set |
| Grading.MultiWrongIff | src/pages/revise.tsx:214-217 | without repeated selections, multi is wrong iff some selection is outside the answer set |
| Grading.MultiPartialClears | src/pages/revise.tsx:219-223 | a proper subset of the answers clears the mark |
| Grading.MultiEmptyClears | src/pages/revise.tsx:207-210 | an empty selection clears the mark |
| Grading.MultiDuplicateCaveat | src/pages/revise.tsx:215-220 | a repeated selection `[A, A]` against `{A, B}` is marked correct |
| Grading.ToggleChoice | src/pages/revise.tsx:308-310 | the checkbox handler flips one option's membership and keeps the others |
| Grading.ToggleChoiceDistinct | src/pages/revise.tsx:308-310 | the checkbox handler never creates a repeated selection (when the box shows the state) |
| Deck.NormalizeSubjectMeta | src/pages/revise.tsx:82-95 | an object's missing id is its label and its missing label its id, "general"/"General" when both are missing; a given icon is kept, else the book emoji; a bare name is id and label; nothing gives the general subject |
| Deck.NormalizeSubjectMetaFixed | src/pages/revise.tsx:82-95 | normalizing the result again changes nothing (except the empty name) |
| Deck.PutIds | src/pages/revise.tsx:111-112 | `map.set` keeps a known id in its place and appends a new one at the end |
| Deck.PutValues | src/pages/revise.tsx:111-112 | `map.set` stores the new value and adds nothing else |
| Deck.SubjectIdsFirstSeen | src/pages/revise.tsx:108-115 | the subject ids are the questions' ids without repeats, in first-seen order |
| Deck.SubjectIdsDistinct | src/pages/revise.tsx:108-115 | every subject id is distinct, and exactly the ids used by questions occur |
| Deck.SubjectsLastWins | src/pages/revise.tsx:111-112 | a later question with a known id replaces that subject's metadata |
| Deck.CollectSubjects | src/pages/revise.tsx:109-114 | the forEach loop builds the subject list |
| Deck.ReselectFacts | src/pages/revise.tsx:125-129 | the new selection is non-empty while there are subjects, distinct, only subject ids, and keeps surviving choices |
| Deck.ToggleIdFacts | src/pages/revise.tsx:158-165 | toggleSubject flips exactly one id and keeps the selection free of repeats |
| Deck.Filtered | src/pages/revise.tsx:138-142 | every copy of each question of a selected subject is kept, and nothing else |
| Deck.DeckPoolFacts | src/pages/revise.tsx:137-143 | the pool is the whole bank when nothing is selected or nothing matches, and otherwise every copy of each question of a selected subject and nothing else |
| Deck.Shuffle | src/pages/revise.tsx:97-104 | the swap loop returns a permutation of its input, which is left unchanged |
| Session.AppliedOnlyThatKey | src/pages/revise.tsx:181-191 | a grading sets or deletes only the graded question's feedback entry |
| Session.QuizSession.constructor | src/pages/revise.tsx:107-121 | the bank is the given questions or the default bank; nothing selected, first card, no answers |
| Session.QuizSession.SyncSelection | src/pages/revise.tsx:123-130 | the selection effect reselects whenever there are subjects |
| Session.QuizSession.RebuildDeck | src/pages/revise.tsx:132-149 | the deck becomes a shuffle of the pool, and the index, answers, feedback and reveal reset; an empty bank only empties the deck |
| Session.QuizSession.Mount | src/pages/revise.tsx:123-149 | the first mount runs both effects in order |
| Session.QuizSession.ToggleSubject | src/pages/revise.tsx:158-165 | one subject is flipped and the deck is rebuilt from the new selection |
| Session.QuizSession.Next | src/pages/revise.tsx:167-172 | the index moves on only while `index < total - 1`, keeping it in range |
| Session.QuizSession.Prev | src/pages/revise.tsx:174-179 | the index moves back only while `index > 0` |
| Session.QuizSession.ToggleReveal | src/pages/revise.tsx:356 | the Reveal button flips `revealed` |
| Session.QuizSession.UpdateFeedback | src/pages/revise.tsx:181-191 | no status deletes that question's key; a status sets only that key |
| Session.QuizSession.CheckAnswer | src/pages/revise.tsx:193-240 | the grading outcome is recorded for the graded question only |
| Session.QuizSession.ChooseOption | src/pages/revise.tsx:287-290 | picking an option stores it and grades it |
| Session.QuizSession.TickChoice | src/pages/revise.tsx:307-313 | ticking a box stores the new selection and grades it |
| Session.QuizSession.TypeAnswer | src/pages/revise.tsx:328-331 | typing stores the text and grades it |
| Session.QuizSession.ChooseTruth | src/pages/revise.tsx:343-346 | picking True or False stores it and grades it |
| Audio.AudioIgnoresCase | src/pages/MusicPlayer.tsx:52-59 | isAudioFile ignores case in the name and the format |
| Audio.AudioExamples | src/pages/AlbumDetail.tsx:12-17 | a known extension decides in either case; a format mentioning audio decides; other names are not audio |
| Audio.StripExtensionShape | src/pages/AlbumDetail.tsx:21 | exactly one trailing ".ext" (non-empty, no "." or "/") is removed, or the name has none and is kept |
| Audio.StripExtensionAppend | src/pages/AlbumDetail.tsx:21 | `base.ext` loses exactly `.ext` |
| Audio.DashesToSpaces | src/pages/AlbumDetail.tsx:21 | no "_" or "-" is left |
| Audio.DashRunBecomesSpace | src/pages/AlbumDetail.tsx:21 | a run of "_" and "-" becomes exactly one space |
| Audio.TrackNameShape | src/pages/AlbumDetail.tsx:19-22 | a non-empty title is returned as it is; otherwise the name has no dash and no outer white space |
| Audio.TrackNameOfCleanFile | src/pages/AlbumDetail.tsx:19-22 | an untitled clean `base.ext` shows as `base` |
| Audio.AudioTracksFacts | src/pages/AlbumDetail.tsx:92 | the track list is exactly the audio files, in order; missing files give none |
| MusicSearch.BuildQueryTrimmed | src/pages/MusicPlayer.tsx:23-27 | surrounding white space in the query makes no difference |
| MusicSearch.BuildQueryShape | src/pages/MusicPlayer.tsx:21-27 | the URL starts with the search endpoint, holds the encoded terms and ends by asking for 20 rows |
| MusicSearch.TotalPages | src/pages/MusicPlayer.tsx:171 | at least 1 page, 1 for no results, and just enough 20-result pages for all results |
| MusicSearch.CanNextIff | src/pages/MusicPlayer.tsx:96-97 | from page 1 on, Next is enabled iff the page is before the last |
| MusicSearch.PendingIdsIff | src/pages/MusicPlayer.tsx:158 | an id is requested iff some result has it and the file map does not |
| MusicSearch.SearchPanel.constructor | src/pages/MusicPlayer.tsx:83-92 | empty query, page 1, no results, empty file map |
| MusicSearch.SearchPanel.SetQuery | src/pages/MusicPlayer.tsx:184 | typing changes only the query; no search runs, since the page effect depends on `page` alone |
| MusicSearch.SearchPanel.PrevPage | src/pages/MusicPlayer.tsx:208-213 | Prev goes one page back, never below page 1; when the page changes the page effect runs (cleared results for a blank query, else a search of the new page), and on page 1 nothing changes |
| MusicSearch.SearchPanel.NextPage | src/pages/MusicPlayer.tsx:216-221 | Next goes one page on, within the total when enabled, and the page effect runs for the new page |
| MusicSearch.SearchPanel.Search | src/pages/MusicPlayer.tsx:99-123 | a reset queries page 1, otherwise the current page; results, count and error follow the answer |
| MusicSearch.SearchPanel.PageChanged | src/pages/MusicPlayer.tsx:125-133 | a blank query clears the results; otherwise the current page is searched and a fetched answer replaces the results |
| MusicSearch.SearchPanel.Submit | src/pages/MusicPlayer.tsx:135-138 | a blank query does nothing; otherwise a search from page 1 |
| MusicSearch.SearchPanel.Prefetch | src/pages/MusicPlayer.tsx:157-169 | only pending ids gain entries: each gets its audio files or "error", and other entries are kept |
| MusicRouter.AlbumPathIff | src/pages/MusicPLRouter.tsx:24 | the pattern matches exactly "/musicpl/" plus a non-empty id without "/" |
| MusicRouter.OverlayIsMusicPair | src/pages/MusicPLRouter.tsx:23-27 | an overlay location is always a music-pair location |
| MusicRouter.RouterExamples | src/pages/MusicPLRouter.tsx:23-27 | "/musicpl/" and "/musicpl/a/b" are neither; "/musicpl" is a pair but not an overlay |
| MusicRouter.ChooseLayoutIff | src/pages/MusicPLRouter.tsx:40-47 | plain routes iff not a music pair; overlay iff an overlay; the list otherwise |
| Ticker.DisplayTwoCopies | src/components/Ticker.tsx:25-29 | the text holds the joined items twice around " sep " and ends with the separator |
| Ticker.DisplayIgnoresEmptyItems | src/components/Ticker.tsx:26 | empty items are dropped before joining |
| Ticker.DisplayExample | src/components/Ticker.tsx:26-28 | items are joined with two spaces, the separator and two spaces |
| Ticker.Track.constructor | src/components/Ticker.tsx:21-22 | the track starts unpaused, with no duration, and so is marked paused |
| Ticker.Track.SetDuration | src/components/Ticker.tsx:80 | with a duration, the mark follows `paused` alone |
| Ticker.Track.MouseEnter | src/components/Ticker.tsx:57 | mouseenter pauses |
| Ticker.Track.Focus | src/components/Ticker.tsx:59 | focus pauses |
| Ticker.Track.MouseLeave | src/components/Ticker.tsx:58 | mouseleave unpauses; the mark stays while there is no duration |
| Ticker.Track.Blur | src/components/Ticker.tsx:60 | blur unpauses; the mark stays while there is no duration |
| StatsApi.MissingFacts | api/stats.ts:55-61 | a variable is listed iff unset, VERCEL_TOKEN first |
| StatsApi.SortNewestFirst | api/stats.ts:84 | the in-place sort leaves a newest-first permutation |
| StatsApi.ReadySince | api/stats.ts:89-91 | the count never exceeds the number of deployments |
| StatsApi.ReadySinceZero | api/stats.ts:89-91 | the count is 0 iff no deployment is both READY and from today |
| StatsApi.ReadySincePermutation | api/stats.ts:84-91 | the count does not depend on the order, so sorting first does not change it |
| StatsApi.SummarizeDescribes | api/stats.ts:86-99 | the summary counts today's READY deployments; the last deployment is the newest READY one, or null when there is none |
| StatsApi.GithubOutcomeFacts | api/stats.ts:103-154 | branches first, commits on failure; `source` names the call that worked; both errors are joined with " \| "; a token-less repo gives only the hint; a section exists iff repo and token are set |
| StatsApi.GithubSection | api/stats.ts:103-154 | filling the section field by field gives exactly GithubOutcome |
| StatsApi.StatsHandler.constructor | api/stats.ts:41 | the cache starts empty |
| StatsApi.StatsHandler.Handle | api/stats.ts:47-173 | status 200 on every path; a fresh cache is served as is; otherwise the body is cached with the time: the missing-variable error, the deployments error, or a report whose `vercel` describes the deployments and whose `github` and `githubError` are GithubOutcome of the answers |
| StatsPage.TimeAgoBuckets | src/pages/stats.tsx:14-24 | under a minute (also the future) is "just now"; otherwise whole minutes, hours or days, rounded down |
| StatsPage.VerdictMonotone | src/pages/stats.tsx:41-46 | more deployments, a later commit or an earlier look never turn busy into idle; work mode always gives busy |
| StatsPage.TopLevelVerdictIgnoresActivity | src/pages/stats.tsx:41-46 | as written, the verdict depends on work mode only and the last deploy shows "—" |
| StatsPage.ReportVerdictIff | src/pages/stats.tsx:41-46 | read from where the handler puts them, deployments or a recent commit make the verdict busy |
| StatsPage.BusyDayExample | src/pages/stats.tsx:43-45 | a day with three deployments: idle as written, busy when the fields are read correctly |
| CommitFormat.OwnerRepoSplit | api/commits.ts:23 | owner and repo are the first two "/"-separated pieces; a third is ignored |
| CommitFormat.MergeExamples | api/commits.ts:58 | `/^merge/i` matches "Merge…" and "MERGE", but not "Emerge…" or "merg" |
| CommitFormat.KeptFacts | api/commits.ts:55-58 | without include_merges, exactly the merges are dropped, in order; with it, all commits are kept |
| CommitFormat.TitleBodyShape | api/commits.ts:61-62 | the title is one line; title and body have no outer white space |
| CommitFormat.TitleBodyRoundTrip | api/commits.ts:61-62 | a clean title, a newline and a clean body split back into the two |
| CommitFormat.SingleLineMessage | api/commits.ts:61-62 | a one-line message is all title, with an empty body |
| CommitFormat.AuthorFallbacks | api/commits.ts:68 | the author is the name, else the login, else "unknown" |
| CommitFormat.DateFallbacks | api/commits.ts:69 | the API date falls back to the committer date; the changelog date does not |
| CommitFormat.EntriesInOrder | api/commits.ts:57-71 | one entry per commit, in input order |
| CommitsApi.ParamsExamples | api/commits.ts:25-37 | an empty query gives the defaults; an explicit empty sha is sent as it is |
| CommitsApi.HandleStatus | api/commits.ts:19-51 | a list is sent iff the configuration is valid and GitHub answered OK; then with 200; otherwise 500 for configuration, or GitHub's status and text forwarded |
| CommitsApi.HandleEntries | api/commits.ts:55-71 | the listed entries are the kept commits in order, each with its title, body, author and date |
| Changelog.FirstStopUnique | src/pages/ChangelogCommits.tsx:29-53 | the first page at which the loop stops is unique |
| Changelog.GatheredFacts | src/pages/ChangelogCommits.tsx:49-52 | before the first stop, each page adds commits, and every gathered commit came from one of those pages |
| Changelog.GatheredExample | src/pages/ChangelogCommits.tsx:29-53 | two full pages and then an empty one gather both pages, in order |
| Changelog.GatheredHolds | src/pages/ChangelogCommits.tsx:51 | later pages keep the commits of earlier ones |
| Changelog.BranchAgreesWithApi | src/pages/ChangelogCommits.tsx:21-22 | both handlers ask for the same branch except for an explicit empty `sha`, which only the changelog turns into "labs"; they agree on `include_merges` |
| Changelog.Handle | src/pages/ChangelogCommits.tsx:13-74 | 500 for a bad configuration; otherwise pages 1, 2, … are requested with 100 per page up to the first stop; a non-OK page forwards its status, a throw gives 500, and an empty page ends with 200 and the entries of all earlier pages |
| Changelog.ListingFacts | src/pages/ChangelogCommits.tsx:55-67 | the entries come from earlier pages, omit merges unless asked for, include every non-merge, and are dated by the author date only |

## Left out

- Unicode: `toLowerCase` is modelled on ASCII letters only. `normalize("NFD")` is not modelled; only the combining-mark removal after it is. Characters whose decomposition differs are outside the model.
- `Math.random` in the shuffle: any index in [0, i] may be chosen. Only the permutation is proved, not the distribution.
- React mechanics: rendering, hooks and effect scheduling. Each effect is a method that the state-changing methods call themselves.
- The page effect runs a second search when a reset search changes the page. `MusicSearch.SearchPanel.Submit` models the reset search alone.
- The `pMap` concurrency limiter and the order in which prefetches finish. `MusicSearch.SearchPanel.Prefetch` stores the entries one id at a time.
- AbortController handling beyond the "AbortError" name check.
- The "loading" file-map entries, set only by a commented-out helper (`fetchFiles`).
- All network I/O: Archive.org, Vercel, GitHub and `/api/stats`. Answers are parameters of the model.
- JSON that does not have the expected shape, beyond the cases modelled (a non-list deployments field, a non-array commits answer, missing fields).
- `req.query` values given as arrays.
- Clocks and dates: `Date.now()`, ISO parsing and formatting, and local midnight. They are integer milliseconds passed in, and `Date.now()` is read once per request.
- Invalid dates (NaN) on the stats page.
- `encodeURIComponent` and the `URL` builder: query encoding is a parameter.
- The order among deployments with equal `createdAt`. `StatsApi.SortNewestFirst` proves sortedness and permutation, but not the stability of `Array.prototype.sort`.
- The ticker's duration measured from the DOM. `Ticker.Track.SetDuration` takes the result as given.
- Reduced-motion handling and the CSS animation.
- The saved scroll position and document height the router reads from the location state for the overlay; they only restore the page's scroll.
- The ticker's `speed` prop (default 80): it only enters the duration, the measured width divided by `max(10, speed)`, which the model takes as given.
- The body-class toggling in the router, the `document.title` effect and the progress bar.
- Response headers other than `Cache-Control` on the commit handlers.
- api/commits.ts has no `try`/`catch`, so a failing fetch there is left to the platform. The model covers only completed answers.
- Changelog.Handle: requires that GitHub eventually answer with an error or an empty page. The source loops forever otherwise.
- Grading.MultiCorrectIff: stated for selections without repeats, which the checkbox handler guarantees (`Grading.ToggleChoiceDistinct`). `Grading.MultiDuplicateCaveat` shows what repeats do.

## Findings

| source | as written | input that shows it | evidently intended | confidence | as-written member | corrected member |
|---|---|---|---|---|---|---|
| src/pages/stats.tsx:41-46 | the page reads `deploymentsToday`, `lastDeploymentAt` and `lastCommitAt` from the top level of the `/api/stats` body; api/stats.ts:158-163 nests them under `vercel` and `github` | a report with `vercel.deploymentsToday = 3` and work mode off: the verdict says "HARDLY WORKIN'?" and "Last deploy" shows "—" | read the fields from `vercel` and `github`, so that deployments or a recent commit make the verdict "WORKIN' HARD" | high on reading the two files; not executed | StatsPage.TopLevelVerdictIgnoresActivity | StatsPage.ReportVerdictIff |
