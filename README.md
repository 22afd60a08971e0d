# priolab votes, reactions and issue data — a Dafny model

This project models the logic core of priolab, a web application in which
signed-in users watch GitHub repositories, browse their issues and
discussions, and vote and react on issues and on comments. The model covers:

- **Toggles.** Casting the vote or reaction a user already holds removes it; casting another one replaces it.
  - Issue votes (`useVoteMutation`), comment votes (`useCommentVoteMutation`) and comment reactions (`useCommentReactionMutation`) toggle on the server.
  - The comment reaction buttons and the issue reaction buttons toggle locally.
  - The GitHub comments panel writes to the reaction and vote tables and reloads its records from them. No rendered element calls its two click handlers.
- **Tables.** The hosted tables that hold one row per (target, user) are sequences of rows. The unique constraint is the invariant `Tables.UniqueKeys`, and every write is proved to keep it.
- **Tallies.** Vote and reaction rows fold into per-target count records, and issue scores are up minus down.
- **Optimistic cache updates.** The cached one-level comment tree is edited before a mutation runs and rolled back when it fails. The retry predicate and the retry delay of the mutations are part of this.
- **In-flight guards and lists.** This covers the comment actions, the watch list, the trending repositories, the dashboard statistics, the user's repositories and the discussions list.
- **Lookups.** The issue is found by UUID or by number. The issue list is filtered, scored and sorted.
- **Syncing.** GitHub repositories and issues are copied into the database.
- **Pure helpers.** The help-page search, the SEO URL rules and the GitHub query strings.

Each source file of the core has its own module; a few shared modules hold
the common vocabulary.

- **Shared modules.**
  - `Base`: options, results, database errors and vote kinds.
  - `Strings`: ASCII case folding, `includes`, `trim`, decimal rendering and `parseInt` (decimal, or hexadecimal after "0x").
  - `Lists`: `filter`, `slice` and `flatMap`.
  - `Tables`: the (target, user) tables.
  - `Counts`: count records, local toggles and tallies.
  - `CommentTree`: the cached comment tree.
  - `RetryPolicy`, `Sorting` and `ServerToggle`: the server-side toggle step the three mutations share.
- **Database and network.** Every database or network call is a parameter saying whether the call fails and with what error. The tables the calls read are values or `Table` objects.
- **Component state.** A component's or hook's React state is a class whose fields its methods update.

## Model

| member | source | states |
|---|---|---|
| Help.Narrowed | src/pages/Help.tsx:114-120 | a category keeps its name, icon and colour; a question stays exactly when its question or answer contains the search term ignoring case, in the original order |
| Help.NarrowAll | src/pages/Help.tsx:114-120 | every category is narrowed, position by position |
| Help.FilteredFaqs | src/pages/Help.tsx:114-121 | exactly the narrowed categories that still have a question, in order |
| Help.CategoryShownIff | src/pages/Help.tsx:114-121 | a category is listed if and only if one of its questions matches the term |
| Help.EverythingMatchesEmpty | src/pages/Help.tsx:116-119 | the empty term matches every question |
| Help.EmptyTermKeepsQuestions | src/pages/Help.tsx:114-121 | with the empty term no question is dropped and only categories without questions are hidden |
| Help.ClearedSearchShowsAll | src/pages/Help.tsx:6 | initially, and after "Clear search" sets the term to "", every category is shown whole |
| Seo.Absolute | src/components/SEO.tsx:25-27 | a value starting with "http" is kept, anything else is put under the base URL |
| Seo.AbsoluteStartsWithHttp | src/components/SEO.tsx:25-27 | the normalised link always starts with "http" |
| Seo.AbsoluteIdempotent | src/components/SEO.tsx:25-27 | normalising twice is normalising once |
| Seo.SeoLinks | src/components/SEO.tsx:19-27 | both links start with "http"; an omitted image or URL is replaced by its default before normalising |
| Seo.DefaultLinks | src/components/SEO.tsx:20-27 | the defaults give the base URL plus "/og-image.png" and the site URL unchanged |
| RetryPolicy.RetryDelay | src/hooks/mutations/useVoteMutation.ts:74 | the wait is one second times a power of two, capped at 30 seconds, and never under one second |
| RetryPolicy.RetryDelayMonotone | src/hooks/mutations/useCommentVoteMutation.ts:142 | later retries never wait less than earlier ones |
| RetryPolicy.RetryDelayValues | src/hooks/mutations/useCommentReactionMutation.ts:162 | the wait doubles from one second for the first five attempts and is 30 seconds from the sixth on |
| RetryPolicy.RetryScheduleFromStart | src/hooks/mutations/useVoteMutation.ts:68-74 | a conflict (409) or not-exactly-one (PGRST116) failure is retried twice, after one and two seconds; any other failure is not retried |
| Sorting.InsertDesc | src/hooks/queries/useIssuesQuery.ts:66-71 | inserting adds exactly one element and keeps a descending list descending |
| Sorting.SortDesc | src/hooks/queries/useIssuesQuery.ts:66-71 | the result is a permutation of the input, ordered by descending key |
| Sorting.SortDescMembership | src/components/DiscussionsList.tsx:120 | sorting keeps exactly the elements it was given |
| Sorting.SortDescSorted | src/hooks/queries/useIssuesQuery.ts:28 | a list already in descending order is left as it is |
| Sorting.SortAsc | src/components/issue-detail/hooks/usePlatformComments.ts:82 | the result is a permutation of the input, ordered by ascending key |
| Sorting.SortAscMembership | src/components/issue-detail/hooks/usePlatformComments.ts:82 | ascending sorting keeps exactly the elements it was given |
| Counts.ToggleVote | src/hooks/mutations/useCommentVoteMutation.ts:77-106 | clicking the held vote withdraws it, any other vote is cast and replaces the held one; each count changes by one and never drops below 0 |
| Counts.ToggleVoteTwice | src/hooks/mutations/useCommentVoteMutation.ts:79-106 | clicking the same vote twice gives the record back, from no vote or from that vote held with a positive count |
| Counts.ToggleVoteScore | src/hooks/mutations/useCommentVoteMutation.ts:79-106 | the score moves one step back on a withdrawal, one step forward on a first vote and two steps on a switch |
| Counts.ToggleReaction | src/hooks/mutations/useCommentReactionMutation.ts:97-125 | clicking the held reaction withdraws it, any other is added and replaces the held one; a missing kind reads as 0, counts never drop below 0, no other kind changes and keys are only added |
| Counts.ToggleReactionTwice | src/hooks/mutations/useCommentReactionMutation.ts:99-125 | clicking the same reaction twice gives the record back |
| Counts.ToggleReactionTotal | src/hooks/mutations/useCommentReactionMutation.ts:111-120 | the total grows by one from no reaction and is unchanged when switching between offered kinds |
| Counts.VoteTally | src/components/issue-detail/hooks/usePlatformComments.ts:54-63 | up plus down is the number of the comment's rows, and neither is negative |
| Counts.ReactionTally | src/components/issue-detail/hooks/usePlatformComments.ts:34-52 | each offered kind counts the comment's rows of that kind, and the record has exactly the four offered keys |
| Counts.TallyWithoutRows | src/components/issue-detail/hooks/usePlatformComments.ts:36-41 | a comment without rows tallies to the zero records |
| Counts.ReactionTallyAppend | src/components/issue-detail/hooks/usePlatformComments.ts:35-52 | the row-by-row fold equals the tally: a row steps its own comment's record and leaves every other comment's alone |
| Counts.VoteTallyAppend | src/components/issue-detail/hooks/usePlatformComments.ts:55-62 | the same for votes: "up" rows count up, every other kind down, and the user's row sets the user's vote |
| Tables.MaybeSingle | src/hooks/mutations/useCommentVoteMutation.ts:17-26 | the lookup fails exactly when more than one row has the key; otherwise it gives the one row's kind or nothing |
| Tables.MaybeSingleOnUnique | src/hooks/mutations/useCommentVoteMutation.ts:17-28 | on a table that keeps its unique constraint the lookup never fails and gives the stored kind |
| Tables.MatchesAfterDelete | src/hooks/mutations/useCommentVoteMutation.ts:32-36 | after a delete the key has no row and every other key keeps its rows |
| Tables.MatchesAfterUpsert | src/hooks/mutations/useCommentVoteMutation.ts:42-54 | after an upsert the key holds exactly one row with the new kind and every other key keeps its rows |
| Tables.MatchesAfterInsert | src/hooks/mutations/useCommentReactionMutation.ts:69-75 | after an accepted insert the key holds the one new row and every other key keeps its rows |
| Tables.DeleteKeepsUnique | src/hooks/mutations/useCommentVoteMutation.ts:32-36 | deleting keeps at most one row per key and leaves none for the deleted key |
| Tables.UpsertKeepsUnique | src/hooks/mutations/useCommentVoteMutation.ts:42-54 | upserting keeps at most one row per key and stores the new kind |
| Tables.InsertKeepsUnique | src/hooks/mutations/useCommentReactionMutation.ts:69-77 | an accepted insert keeps at most one row per key and stores the kind |
| Tables.CountAfterDelete | src/hooks/mutations/useCommentVoteMutation.ts:32-36 | a delete lowers the count of the deleted row's kind on its target by one and changes no other count |
| Tables.CountAfterUpsert | src/hooks/mutations/useCommentVoteMutation.ts:42-54 | an upsert moves one row of the target from its stored kind (if any) to the new kind |
| Tables.CountAfterInsert | src/hooks/mutations/useCommentReactionMutation.ts:69-75 | an accepted insert raises the count of the new kind on its target by one |
| Tables.CountOnAfterDelete | src/hooks/mutations/useCommentVoteMutation.ts:32-36 | a delete removes one row from the target exactly when the key had one |
| Tables.CountOnAfterUpsert | src/hooks/mutations/useCommentVoteMutation.ts:42-54 | an upsert adds one row to the target exactly when the key had none |
| Tables.LastKindIsStored | src/components/issue-detail/hooks/usePlatformComments.ts:49-51 | with unique keys, the last row a fold sees for a user is that user's only row |
| Tables.Table.SelectOne | src/hooks/mutations/useCommentVoteMutation.ts:17-26 | the read gives the injected error or the `maybeSingle` result |
| Tables.Table.Delete | src/hooks/mutations/useCommentVoteMutation.ts:32-38 | on success the key's rows are gone, on error nothing changes; the unique constraint holds |
| Tables.Table.Upsert | src/hooks/mutations/useCommentVoteMutation.ts:42-56 | on success the key holds the new kind, on error nothing changes; the unique constraint holds |
| Tables.Table.Insert | src/hooks/mutations/useCommentReactionMutation.ts:69-77 | on success the row is added, a duplicate key is refused with a conflict, on error nothing changes; the unique constraint holds |
| GitHubApi.LabelNames | src/hooks/useGitHubIssue.ts:64 | the names of the labels, one per label, in order |
| GitHubApi.ApiErrorMessageReadsBack | src/hooks/useGitHubAPI.tsx:57-59 | the error message starts with "GitHub API error: " and the status can be read back from it |
| GitHubApi.MakeRequest | src/hooks/useGitHubAPI.tsx:49-62 | the body is returned exactly when the response is ok; a response that is not ok fails with the status message, and a thrown request fails with its own message |
| GitHubApi.LanguageClause | src/hooks/useGitHubAPI.tsx:77-79 | the language clause is empty exactly when the language is missing, empty or "all" |
| GitHubApi.WindowDays | src/hooks/useGitHubAPI.tsx:84 | the window is 1 day for "daily", 7 for "weekly" and 30 otherwise |
| GitHubApi.TrendingQuery | src/hooks/useGitHubAPI.tsx:75-88 | the query starts with "stars:>1000", names the language when one is chosen, and ends with the pushed-since date unless the filter is "all" |
| GitHubApi.NoLanguageIsNoFilter | src/hooks/useGitHubAPI.tsx:77-79 | a missing, empty or "all" language gives the same queries as no language |
| GitHubApi.SearchQuery | src/hooks/useGitHubAPI.tsx:113-116 | the search query starts with the user's text and ends with the language clause when a language is chosen |
| GitHubApi.Settle | src/hooks/useGitHubAPI.tsx:91-97 | no error is left exactly when the request succeeded; the value is then the body, otherwise the fallback |
| GitHubApi.FailureGivesFallback | src/hooks/useGitHubAPI.tsx:94-97 | a response that is not ok gives the fallback and the status message |
| GitHubApi.GitHubApiState.constructor | src/hooks/useGitHubAPI.tsx:46-47 | not loading and no error at first |
| GitHubApi.GitHubApiState.FetchTrendingRepositories | src/hooks/useGitHubAPI.tsx:64-101 | requests the trending query's search URL; returns the body or an empty search with the error; loading ends false |
| GitHubApi.GitHubApiState.SearchRepositories | src/hooks/useGitHubAPI.tsx:103-129 | requests the search query's URL; returns the body or an empty search with the error; loading ends false |
| GitHubApi.GitHubApiState.FetchRepoIssues | src/hooks/useGitHubAPI.tsx:131-151 | requests the open issues of the page; returns them or an empty list with the error; loading ends false |
| GitHubApi.GitHubApiState.FetchIssueById | src/hooks/useGitHubAPI.tsx:153-168 | requests the issue; returns it exactly when the request succeeded, otherwise nothing and the error; loading ends false |
| GitHubIssueHook.Transform | src/hooks/useGitHubIssue.ts:58-73 | the id is printed so that it reads back as the same number, labels keep only their names, the comment count and the other fields are copied, and the repository is "owner/repo" |
| GitHubIssueHook.StatusErrorKinds | src/hooks/useGitHubIssue.ts:43-50 | the three messages can be told apart: only the generic one starts with "GitHub API error: " and carries the status, and the not-found one names the issue and the repository |
| GitHubIssueHook.GitHubIssueState.constructor | src/hooks/useGitHubIssue.ts:22-24 | no issue, loading, no error at first |
| GitHubIssueHook.GitHubIssueState.LoadIssue | src/hooks/useGitHubIssue.ts:27-83 | without owner, repository or number only loading ends; otherwise an ok response is transformed and shown, a refused one shows its status message and no issue, a thrown one its message and no issue; loading ends false |
| IssueSyncHook.OrEmpty | src/hooks/useIssueSync.ts:47 | a present non-empty value is kept, a missing or empty one becomes "" |
| IssueSyncHook.Uncoloured | src/hooks/useIssueSync.ts:49 | each name becomes a label with that name and an empty colour |
| IssueSyncHook.ToFullIssue | src/hooks/useIssueSync.ts:43-59 | the rebuilt issue has the given id and the record's label names, always a body, avatar and comment count, the creation time as update time, and a closing time exactly when the state is "closed" |
| IssueSyncHook.FullIssue | src/hooks/useIssueSync.ts:44 | when the record's id parses, the rebuilt issue carries that number |
| IssueSyncHook.LookupFaults | src/hooks/useIssueSync.ts:44 | an id that does not parse makes the lookup by GitHub id fail; a parsed one changes nothing |
| IssueSyncHook.RecordOfRebuiltIssue | src/hooks/useIssueSync.ts:43-59 | the row stored for an issue rebuilt from its transformed record equals the row of the original issue, except body, avatar, update and closing times |
| IssueSyncHook.RebuildStable | src/hooks/useIssueSync.ts:43-59 | transforming the rebuilt issue and rebuilding it again changes nothing |
| IssueSyncHook.UnparsedIdStoresNothing | src/hooks/useIssueSync.ts:44-66 | a record whose id is not a number is never stored: the sync fails and the issues table is unchanged |
| IssueSyncHook.IssueSyncState.constructor | src/hooks/useIssueSync.ts:28-30 | no row id, not loading, no error at first |
| IssueSyncHook.IssueSyncState.SyncIssue | src/hooks/useIssueSync.ts:33-74 | without issue, owner, repository or user nothing changes; otherwise the rebuilt issue is synced, the row id is kept on success, the error message shown on failure, and loading ends false |
| Watches.WatchesOf | src/components/WatchList.tsx:62-65 | exactly the watches of the user |
| Watches.Unwatched | src/components/WatchList.tsx:110-113 | exactly the watches other than the user's watch of that repository |
| Watches.WatchTable.Insert | src/components/TrendingRepos.tsx:131-136 | on success the watch is appended, on error nothing changes; the error is returned |
| Watches.WatchTable.Delete | src/components/TrendingRepos.tsx:165-169 | on success the user's watches of the repository are removed, on error nothing changes |
| Watches.CeilDiv | src/components/WatchList.tsx:58 | the page count is the least number of ten-row pages that hold all rows |
| Watches.CeilDivUnique | src/components/WatchList.tsx:58 | no other integer has that property |
| Watches.PagesAdjoin | src/components/WatchList.tsx:84 | each page range has ten slots and the next page starts right after it |
| Watches.PageOfIndex | src/components/WatchList.tsx:84 | each row index lies on exactly one page |
| Watches.RangeSlice | src/components/WatchList.tsx:84 | `range(from, to)` gives at most to - from + 1 rows, each the row at its index |
| Watches.PagesUpToPrefix | src/components/WatchList.tsx:84 | reading pages 1 to n in order gives the first 10·n rows |
| Watches.AllPagesCoverList | src/components/WatchList.tsx:58-84 | reading every page up to the page count gives back the whole list |
| Watches.ButtonsStayInRange | src/components/WatchList.tsx:318-337 | while the page is within range, an enabled Previous or Next button keeps it in range |
| TrendingRepos.TotalPages | src/components/TrendingRepos.tsx:76 | the page count is the rounded-up number of ten-result pages, capped at 100 |
| TrendingRepos.NoResultsNoPages | src/components/TrendingRepos.tsx:76 | an empty result has no pages |
| TrendingRepos.LanguageParam | src/components/TrendingRepos.tsx:71 | the language filter "all" is sent as no language, any other value as itself |
| TrendingRepos.UsesSearchIffNotBlank | src/components/TrendingRepos.tsx:67 | the search path is taken exactly when the query has a non-space character |
| TrendingRepos.LoadUrl | src/components/TrendingRepos.tsx:67-87 | a non-blank query requests its search URL, otherwise the trending URL for the time filter |
| TrendingRepos.RequestPage | src/components/TrendingRepos.tsx:67-87 | the request goes to the URL above, and a failed request gives an empty result |
| TrendingRepos.AllLanguagesSameUrl | src/components/TrendingRepos.tsx:71-81 | the filter "all" requests the same URL as no language |
| TrendingRepos.WatchedGithubIds | src/components/TrendingRepos.tsx:98-114 | the GitHub id of every repository the user watches is in the set |
| TrendingRepos.WatchedIdsComeFromWatches | src/components/TrendingRepos.tsx:107-112 | every id in the set comes from one of the user's watches |
| TrendingRepos.FoundRow | src/components/TrendingRepos.tsx:157-164 | a row id is found exactly when there is a user and exactly one copy of the repository for them |
| TrendingRepos.WatchThenUnwatch | src/components/TrendingRepos.tsx:120-186 | after a watch the synced row is the one an unwatch finds, and the unwatch delete removes the inserted watch and keeps every other watch |
| TrendingRepos.TrendingState.constructor | src/components/TrendingRepos.tsx:42-47 | no repositories, loading, nothing watched or in progress, page 1 of 1 |
| TrendingRepos.TrendingState.LoadRepos | src/components/TrendingRepos.tsx:62-96 | shows the page's repositories and the capped page count, or none and no pages on failure; loading ends false and nothing else changes |
| TrendingRepos.TrendingState.LoadWatchedRepos | src/components/TrendingRepos.tsx:98-118 | with a user and a working query the watched ids become the set above, otherwise they stay |
| TrendingRepos.TrendingState.HandleWatch | src/components/TrendingRepos.tsx:120-149 | ignored without a user or while in progress; otherwise syncs the repository, inserts the watch and marks it watched when the sync gave a row |
| TrendingRepos.TrendingState.HandleUnwatch | src/components/TrendingRepos.tsx:151-186 | ignored without a user or while in progress; otherwise deletes the watch of the row found and unmarks it |
| TrendingRepos.TrendingState.HandleSearch | src/components/TrendingRepos.tsx:192-199 | back to page 1; a non-blank input becomes the "#search=" hash; the list, the page count, loading and the watch marks are unchanged |
| TrendingRepos.TrendingState.ChangePage | src/components/TrendingRepos.tsx:350-372 | Previous and Next move one page only when the bar is shown (more than one page) and the button is enabled; a page at most the last stays at most the last; nothing else changes (list, page count, loading, watch marks) |
| RepositorySync.OrMain | src/services/repositorySync.ts:53 | the default branch is never empty: a present non-empty name is kept, otherwise "main" |
| RepositorySync.WatchersOrStars | src/services/repositorySync.ts:47 | a missing or zero watcher count falls back to the star count |
| RepositorySync.SshUrlReadsBack | src/services/repositorySync.ts:44 | the ssh URL is "git@github.com:" + full name + ".git", and the full name can be read back from it |
| RepositorySync.RepoDataOf | src/services/repositorySync.ts:36-59 | the record is keyed by GitHub id and user, derives the clone and ssh URLs, falls back for watchers, and always has flags, a non-empty branch and topics |
| RepositorySync.DirectRepoData | src/services/repositorySync.ts:137-160 | the bulk record copies every column as listed |
| RepositorySync.MappingsAgreeOnComplete | src/services/repositorySync.ts:36-59 | the two mappings write the same row if and only if the listing is complete and follows GitHub's URL scheme |
| RepositorySync.KeyMatches | src/services/repositorySync.ts:62-67 | the selected rows all carry the key, in table order |
| RepositorySync.UpdateId | src/services/repositorySync.ts:76-79 | the row with the id takes the new data and every other row is unchanged |
| RepositorySync.MaybeSingleRow | src/services/repositorySync.ts:62-67 | the lookup fails with PGRST116 exactly when several rows have the key, and otherwise gives the key's only row or none |
| RepositorySync.SingleRow | src/services/repositorySync.ts:163-168 | the lookup fails with PGRST116 unless exactly one row has the key, and then gives it |
| RepositorySync.KeyMatchesAfterUpdate | src/services/repositorySync.ts:76-79 | updating a key's row leaves every other key's rows as they were |
| RepositorySync.Looked | src/services/repositorySync.ts:69-72 | a PGRST116 failure is always the query's own answer, which the sync treats as no row |
| RepositorySync.WriteKeepsValid | src/services/repositorySync.ts:74-103 | updating the found row or inserting a fresh one keeps one row per key and fresh ids, and the key then holds the data |
| RepositorySync.UpdateKeepsValid | src/services/repositorySync.ts:74-88 | updating the key's only row keeps the store valid and leaves other keys alone |
| RepositorySync.AppendKeepsValid | src/services/repositorySync.ts:89-103 | inserting for a key without a row keeps the store valid and leaves other keys alone |
| RepositorySync.SyncRepositoryUpdatesOrInserts | src/services/repositorySync.ts:34-108 | from a store with one row per key, the sync keeps one row per key; on success the key's only row has the returned id and holds the data, other keys are untouched; on error nothing changed |
| RepositorySync.SyncRepositoryIdempotent | src/services/repositorySync.ts:34-108 | from a store with one row per key, syncing the same repository twice returns the same id and leaves the store as the first sync left it |
| RepositorySync.ResyncChangesNothing | src/services/repositorySync.ts:74-88 | syncing data the key's only row already holds returns that row's id and changes nothing |
| RepositorySync.SyncRepositoryDuplicateAppends | src/services/repositorySync.ts:61-103 | from a store with several rows for the key, the lookup's PGRST116 reads as no row: the sync returns a fresh id, appends one row holding the data, leaves every existing row and every other key as it was, and the key gains a row |
| RepositorySync.DuplicateKeyResyncAppendsAgain | src/services/repositorySync.ts:34-108 | from a store with several rows for the key, two fault-free syncs return two different fresh ids and append two rows, so the sync is not idempotent there |
| RepositorySync.AllRepoData | src/services/repositorySync.ts:133-160 | the public then the private listing, each mapped to its record |
| RepositorySync.SyncStepKeepsValid | src/services/repositorySync.ts:162-212 | one pass keeps the store valid, keeps every row, stores the data without faults, links only a row it inserted, and leaves other keys alone |
| RepositorySync.SyncAllKeepsValid | src/services/repositorySync.ts:136-213 | the bulk sync keeps the store valid and only links repositories it inserted, as followed by the user |
| RepositorySync.SyncStepStores | src/services/repositorySync.ts:162-212 | a pass without faults leaves exactly one row for its key and for every key that had one |
| RepositorySync.SyncAllStoresEvery | src/services/repositorySync.ts:136-213 | from a store with one row per key and without faults, every listed repository ends up with exactly one row |
| RepositorySync.SyncStepDuplicateInserts | src/services/repositorySync.ts:163-212 | from a store with several rows for the key, `.single()`'s PGRST116 reads as not found: a pass without faults inserts yet another row for the key and links it as followed |
| RepositorySync.ListingError | src/services/repositorySync.ts:127-129 | an error is thrown exactly when a listing failed or was not ok; it carries the public status text, or the private one when that is empty |
| RepositorySync.Database.constructor | src/services/repositorySync.ts:62-67 | both tables empty |
| RepositorySync.Database.SyncRepository | src/services/repositorySync.ts:34-108 | the returned id and the new tables are those of the sync's effect on the old tables |
| RepositorySync.Database.SyncOne | src/services/repositorySync.ts:162-212 | one pass of the loop changes the tables as the step function says |
| RepositorySync.Database.SyncUserRepositories | src/services/repositorySync.ts:110-221 | a failed listing throws before anything is written; otherwise it returns the number listed and the tables are those after every pass in order |
| IssueSync.OrZero | src/services/issueSync.ts:128 | a present count is kept, a missing one becomes 0 |
| IssueSync.RepoRecordOf | src/services/issueSync.ts:56-79 | the inserted repository row is keyed by GitHub id and user, keeps GitHub's full name, has a non-empty default branch, and stores missing counts as 0 and missing topics as none |
| IssueSync.IssueRecordOf | src/services/issueSync.ts:116-133 | the issue row is keyed by GitHub id and user, belongs to the synced repository, keeps only label names, has no assignees and stores a missing comment count as 0 |
| IssueSync.RepoNamed | src/services/issueSync.ts:27-32 | the selected repositories all have the full name and the user |
| IssueSync.IssueMatches | src/services/issueSync.ts:104-109 | the selected issues all carry the key |
| IssueSync.UpdateIssueId | src/services/issueSync.ts:138-143 | the row with the id takes the new record and every other row is unchanged |
| Base.MaybeOne | src/services/issueSync.ts:104-109 | `.maybeSingle()` fails with PGRST116 exactly when several rows match; no row gives none and exactly one row gives that row |
| IssueSync.Checked | src/services/issueSync.ts:111-114 | a failed request gives its error, otherwise the lookup's answer |
| IssueSync.DbMessage | src/services/issueSync.ts:113 | the message is "Database error: " followed by the database's own message |
| IssueSync.RepoSource | src/services/issueSync.ts:44-51 | the data passed in is used; otherwise an ok response's body, a refused one's status text after "Failed to fetch repository data: ", or the thrown message |
| IssueSync.SyncRepositoryFindsExisting | src/services/issueSync.ts:39-42 | an existing row is returned as it is, whatever the data and the request |
| IssueSync.GivenDataNeedsNoRequest | src/services/issueSync.ts:45-51 | with repository data passed in, the outcome does not depend on the response |
| IssueSync.SyncRepositoryTwice | src/services/issueSync.ts:22-94 | the sync keeps the store valid, and a second sync under GitHub's own name finds the inserted row and changes nothing |
| IssueSync.SyncRepositoryRenamedInsertsAgain | src/services/issueSync.ts:27-32 | looked up under another name than the one GitHub returns, the row is never found and each sync inserts another one |
| IssueSync.SyncRepositoryKeepsValid | src/services/issueSync.ts:22-94 | the repository sync keeps the store valid and never touches the issues |
| IssueSync.IssueWriteKeepsValid | src/services/issueSync.ts:135-151 | updating the found issue row or inserting one keeps one row per key with fresh distinct ids |
| IssueSync.IssueUpdateKeepsValid | src/services/issueSync.ts:136-143 | updating the key's only row keeps the store valid and leaves other keys alone |
| IssueSync.IssueAppendKeepsValid | src/services/issueSync.ts:144-151 | inserting for a key without a row keeps the store valid and leaves other keys alone |
| IssueSync.SyncIssueUpdatesOrInserts | src/services/issueSync.ts:96-164 | the sync keeps one issue row per key; on success the key's only row has the returned id and the record of the issue; on error the issues are unchanged; other keys are untouched |
| IssueSync.IssueStepUpdatesOrInserts | src/services/issueSync.ts:103-159 | the same promises for the issue half, once the repository row is known |
| IssueSync.IssueError | src/services/issueSync.ts:193 | each failure message starts with "Issue #" |
| IssueSync.Tally | src/services/issueSync.ts:182-202 | every issue is counted once, as a success or as a failure with exactly one "Issue #" message |
| IssueSync.SyncMultipleEffect | src/services/issueSync.ts:166-212 | a failed repository sync is thrown; otherwise success plus failed is the number of issues and there is one message per failure |
| IssueSync.TallyKeepsValid | src/services/issueSync.ts:182-202 | the bulk sync keeps one issue row per key |
| IssueSync.BatchesCover | src/services/issueSync.ts:181-183 | the batches put back together are the list, and each holds one to five issues |
| IssueSync.BatchAt | src/services/issueSync.ts:182-183 | batch b is the slice from 5·b to 5·b + 5, or to the end |
| IssueSync.BatchIsSlice | src/services/issueSync.ts:182-183 | the slice the loop takes is the next batch |
| IssueSync.IssueDatabase.constructor | src/services/issueSync.ts:22-32 | both tables empty |
| IssueSync.IssueDatabase.SyncRepositoryToDatabase | src/services/issueSync.ts:22-94 | the returned id or message and the new tables are those of the repository sync's effect |
| IssueSync.IssueDatabase.SyncIssueToDatabase | src/services/issueSync.ts:96-164 | the returned id or message and the new tables are those of the issue sync's effect |
| IssueSync.IssueDatabase.SyncMultipleIssues | src/services/issueSync.ts:166-212 | the results and the new tables are those of the bulk sync's effect |
| IssueSync.IssueDatabase.SyncInBatches | src/services/issueSync.ts:180-202 | after the batch loop the results and tables are those of syncing every issue in order |
| IssueSync.IssueDatabase.SyncBatch | src/services/issueSync.ts:183-196 | one batch advances the results and tables from the issues before it to the issues up to its end |
| IssueSync.IssueDatabase.SyncAndCount | src/services/issueSync.ts:186-195 | one issue is synced and counted as a success or a failure with its message |
| WatchList.TotalPages | src/components/WatchList.tsx:58 | a missing count gives 0 pages; otherwise the page count is the least n with count <= 10·n |
| WatchList.PresentRepos | src/components/WatchList.tsx:90-92 | the repositories found for the watches, never more than the watches, each one a known repository |
| WatchList.PresentReposKeepsFound | src/components/WatchList.tsx:90-92 | exactly the watches whose repository exists are shown, and each such repository appears |
| WatchList.PageOfWatches | src/components/WatchList.tsx:61-92 | a page never holds more than 10 repositories |
| WatchList.PageShowsOwnWatches | src/components/WatchList.tsx:61-92 | every repository on a page comes from a watch of the signed-in user |
| WatchList.PresentOrigin | src/components/WatchList.tsx:90-92 | each listed repository is the repository of one of the page's watches |
| WatchList.Without | src/components/WatchList.tsx:120 | the list without the removed repository: exactly the other entries, in their order |
| WatchList.WithoutAbsent | src/components/WatchList.tsx:120 | removing a repository that is not listed leaves the list unchanged |
| WatchList.WatchListState.constructor | src/components/WatchList.tsx:30-35 | empty list, loading, no error, nothing being removed, page 1 of 1 |
| WatchList.WatchListState.LoadWatchedRepositories | src/components/WatchList.tsx:45-101 | no user: nothing changes; otherwise the page count follows the count, the list becomes the current page or stays with the load error, and loading ends |
| WatchList.WatchListState.HandleRemoveFromWatchlist | src/components/WatchList.tsx:103-131 | no user or a removal already under way: nothing changes; otherwise the watch is deleted and the repository leaves the list, or the remove error is set and nothing changes |
| WatchList.WatchListState.PreviousPage | src/components/WatchList.tsx:318-326 | the page goes back one only when the bar is shown (more than one page) and the Previous button is enabled; a page at most the last stays at most the last; the list, the page count, loading, the error and the removals in flight are unchanged |
| WatchList.WatchListState.NextPage | src/components/WatchList.tsx:318-337 | the page goes forward one only when the bar is shown (more than one page) and the Next button is enabled; a page at most the last stays at most the last; the list, the page count, loading, the error and the removals in flight are unchanged |
| UserRepos.PartitionOfRepos | src/components/UserRepos.tsx:69-70 | the personal and organization lists split the fetched repositories: disjoint, covering, in order, personal ones owned by the user |
| UserRepos.NoUserNameAllOrganizations | src/components/UserRepos.tsx:69-70 | without a user name every repository is an organization repository |
| UserRepos.FilterRepos | src/components/UserRepos.tsx:85-91 | an empty query keeps all; otherwise exactly the repositories whose name or description contains the query, ignoring case, in order |
| UserRepos.EmptyQueryMatchesAll | src/components/UserRepos.tsx:85-91 | the empty query short-cut agrees with filtering by the match test |
| UserRepos.FilterTwiceIsFilter | src/components/UserRepos.tsx:85-91 | filtering is idempotent |
| UserRepos.LoadUserRepos | src/components/UserRepos.tsx:47-79 | without token, user or a good response the lists stay; otherwise they become the personal and organization split; loading ends false |
| UserRepos.LoadedTabsCoverFetch | src/components/UserRepos.tsx:66-73 | after a load the two tabs together hold as many repositories as were fetched |
| Dashboard.CountType | src/components/DashboardHome.tsx:73-74 | the count of votes of one type is at most the number of votes |
| Dashboard.LengthOr0 | src/components/DashboardHome.tsx:77-84 | a missing result counts 0, a present one its length |
| Dashboard.StatsOf | src/components/DashboardHome.tsx:73-85 | each statistic is the length of its query's rows (0 when missing) and up and down are the counts of those vote types |
| Dashboard.UpDownWithinTotal | src/components/DashboardHome.tsx:73-74 | up plus down votes are at most all votes, and equal when every vote is up or down |
| Dashboard.StatsShape | src/components/DashboardHome.tsx:73-85 | up plus down within the total, engagement is votes plus comments plus reactions, all-missing rows give zero stats |
| Dashboard.DashboardState.constructor | src/components/DashboardHome.tsx:32-42 | zero stats and loading |
| Dashboard.DashboardState.LoadUserStats | src/components/DashboardHome.tsx:44-96 | without a user nothing changes; otherwise the stats are those of the rows read and loading ends |
| Discussions.FirstSlash | src/components/DiscussionsList.tsx:89 | the position of the first '/' of a name, or none exactly when the name has no '/' |
| Discussions.FirstPart | src/components/DiscussionsList.tsx:89 | a piece cut at the first '/' holds no '/' |
| Discussions.SplitOwnerRepo | src/components/DiscussionsList.tsx:89 | `split('/')` destructured: the owner and the repository hold no '/', and the repository is missing exactly when the name has no '/' |
| Discussions.SplitRoundTrip | src/components/DiscussionsList.tsx:89 | splitting "owner/repo" gives back owner and repo |
| Discussions.FirstSlashAfter | src/components/DiscussionsList.tsx:89 | in a + b, with no '/' in a and b starting with '/', the first '/' is at the end of a |
| Discussions.TagOf | src/components/DiscussionsList.tsx:106-110 | the repository tag keeps the full name and carries the owner and name split from it |
| Discussions.Tagged | src/components/DiscussionsList.tsx:104-111 | each discussion is kept with only its repository replaced by the tag |
| Discussions.GatheredMembership | src/components/DiscussionsList.tsx:88-117 | a discussion is gathered exactly when some queried repository answered with it, tagged with that repository |
| Discussions.TagsFromQueried | src/components/DiscussionsList.tsx:88-117 | every gathered discussion carries the tag of a queried repository |
| Discussions.Shown | src/components/DiscussionsList.tsx:119-122 | at most twenty, newest first, taken from the gathered ones without repeats (a sub-multiset); all of them when there are at most twenty, exactly twenty otherwise |
| Discussions.ShownAreNewest | src/components/DiscussionsList.tsx:119-122 | a discussion left out is no newer than any shown one |
| Discussions.WatchedNames | src/components/DiscussionsList.tsx:67-71 | no rows give no names; otherwise exactly the non-empty full names of the rows |
| Discussions.Values | src/components/DiscussionsList.tsx:67-69 | the names of rows that all carry one, in order |
| Discussions.ValuesMembership | src/components/DiscussionsList.tsx:67-69 | a name is listed exactly when some row carries it |
| Discussions.DiscussionsState.constructor | src/components/DiscussionsList.tsx:38-40 | no discussions, loading, no watched names |
| Discussions.DiscussionsState.LoadWatchedRepositories | src/components/DiscussionsList.tsx:54-75 | without a user nothing changes; otherwise the watched names are those of the rows |
| Discussions.DiscussionsState.LoadDiscussions | src/components/DiscussionsList.tsx:77-128 | without token or watches the list stays; otherwise it is the newest twenty gathered from the first five watched repositories; loading ends false |
| Discussions.DiscussionsState.WatchedReposChangedAsWritten | src/components/DiscussionsList.tsx:48-52 | the effect loads only with a token and watches, and otherwise changes nothing, loading included |
| Discussions.DiscussionsState.WatchedReposChanged | src/components/DiscussionsList.tsx:48-52 | the corrected effect always ends loading and loads when there is something to load |
| Discussions.NoWatchesKeepsLoadingAsWritten | src/components/DiscussionsList.tsx:42-52 | a user with no watches keeps the loading placeholder as written, and does not with the corrected effect |
| GitHubComments.FormatAll | src/components/issue-detail/GitHubComments.tsx:63-72 | one formatted comment per API comment |
| GitHubComments.CommentKeyRoundTrip | src/components/issue-detail/GitHubComments.tsx:64 | the key `github-<id>` starts with "github-" and the id parses back from the rest |
| GitHubComments.FormatKeys | src/components/issue-detail/GitHubComments.tsx:63-72 | two formatted comments share a key exactly when they share a GitHub id, and each keeps its id, body, author and date |
| GitHubComments.StoredRows | src/components/issue-detail/GitHubComments.tsx:84-88 | the fallback read returns exactly the stored rows of the issue, a permutation of them ordered by ascending `github_created_at` |
| GitHubComments.StoredFor | src/components/issue-detail/GitHubComments.tsx:84-91 | the fallback lists one comment per stored row of the issue, comment i being that of row i of the ordered read |
| GitHubComments.UnknownKindsNone | src/components/issue-detail/GitHubComments.tsx:120-131 | a comment with no reaction rows has no unknown kinds |
| GitHubComments.NanKindsNext | src/components/issue-detail/GitHubComments.tsx:120-131 | one more reaction row adds its kind to its comment's unknown kinds exactly when the kind is not one of the four offered |
| GitHubComments.AddNan | src/components/issue-detail/GitHubComments.tsx:121-127 | one loop step: the row's comment gets an entry, with the row's kind added when it is not offered |
| GitHubComments.AggregateReactions | src/components/issue-detail/GitHubComments.tsx:119-131 | the loop builds the same per-comment records as the platform reaction fold, plus the kinds that turn `NaN` |
| GitHubComments.SelectedNanKinds | src/components/issue-detail/GitHubComments.tsx:107-131 | selecting the rows of the listed comments keeps exactly their unknown kinds |
| GitHubComments.OfferedKindsLeaveNoNan | src/components/issue-detail/GitHubComments.tsx:119-131 | when every row holds an offered kind no comment has an unknown kind |
| GitHubComments.SwitchIsLostAsWritten | src/components/issue-detail/GitHubComments.tsx:153-203 | as written, switching from a held kind to another leaves the table unchanged and the new kind unstored |
| GitHubComments.ClickWriteToggles | src/components/issue-detail/GitHubComments.tsx:153-203 | the intended write keeps keys unique, removes the held kind or stores the clicked one, and leaves every other key's rows |
| GitHubComments.GitHubCommentsState.constructor | src/components/issue-detail/GitHubComments.tsx:46-49 | no comments, loading, no records |
| GitHubComments.GitHubCommentsState.LoadReactionsAndVotes | src/components/issue-detail/GitHubComments.tsx:101-147 | without a user nothing changes; otherwise the records are the reaction and vote tallies of the listed comments, empty when a read fails |
| GitHubComments.GitHubCommentsState.LoadComments | src/components/issue-detail/GitHubComments.tsx:51-99 | a fetched API list is shown formatted; otherwise the stored comments of the issue are shown with their records and their `NaN` kinds recomputed, or nothing changes when the read fails; loading ends false |
| GitHubComments.GitHubCommentsState.HandleReaction | src/components/issue-detail/GitHubComments.tsx:153-177 | without a user nothing changes; otherwise the table gets the write as written (delete of the held kind, otherwise an insert the unique constraint may reject, its error ignored) and the records, with their `NaN` kinds, are reloaded from it |
| GitHubComments.GitHubCommentsState.HandleVote | src/components/issue-detail/GitHubComments.tsx:179-203 | the same for votes, the held vote compared by name; the records and `NaN` kinds are reloaded |
| GitHubComments.ClickThenReloadAsWritten | src/components/issue-detail/GitHubComments.tsx:153-177 | after a click as written the reloaded record holds none when the held reaction was clicked, the clicked one when none was held, and still the held one when another was clicked |
| GitHubComments.ClickThenReload | src/components/issue-detail/GitHubComments.tsx:153-177 | with the corrected write, the reloaded record holds the clicked reaction, or none when the held one was clicked |
| GitHubComments.StoredCounted | src/components/issue-detail/GitHubComments.tsx:119-131 | a comment with a stored row of the user is among the counted ones |
| CommentActions.CommentRows.constructor | src/hooks/mutations/useCommentActionsMutations.ts:22-28 | the comments table starts empty |
| CommentActions.CommentRows.Insert | src/hooks/mutations/useCommentActionsMutations.ts:22-28 | the insert appends the row and reports no error, or reports the fault and changes nothing |
| CommentActions.CommentActionsState.constructor | src/hooks/mutations/useCommentActionsMutations.ts:10-12 | not submitting, no reply target, no action in flight |
| CommentActions.CommentActionsState.HandleSubmit | src/hooks/mutations/useCommentActionsMutations.ts:17-40 | turned away without a user, with blank text or while submitting; otherwise the trimmed text is inserted as a top-level comment, the result is true exactly when the insert succeeded (which refreshes the list), and submitting ends false |
| CommentActions.CommentActionsState.HandleSubmitReply | src/hooks/mutations/useCommentActionsMutations.ts:42-67 | as HandleSubmit with the parent id stored; a stored reply also closes the reply form |
| CommentActions.CommentActionsState.HandleVote | src/hooks/mutations/useCommentActionsMutations.ts:69-84 | without a user or with a vote on the comment in flight nothing changes; otherwise the vote mutation runs and its key is cleared afterwards |
| CommentActions.CommentActionsState.HandleReaction | src/hooks/mutations/useCommentActionsMutations.ts:86-101 | the same under the key of the comment and reaction kind, around the reaction mutation |
| CommentActions.StoredContentIsTrimmed | src/hooks/mutations/useCommentActionsMutations.ts:27 | stored text has no white space at either end and trimming it again changes nothing |
| CommentActions.BlankContentRejected | src/hooks/mutations/useCommentActionsMutations.ts:18 | the guard turns away exactly the blank texts |
| CommentActions.VoteAndReactionKeysDiffer | src/hooks/mutations/useCommentActionsMutations.ts:72-89 | a vote in flight never blocks a reaction, nor the other way round |
| CommentActions.ReactionKeysPerKind | src/hooks/mutations/useCommentActionsMutations.ts:89-90 | a reaction in flight blocks only the same kind on the same comment |
| CommentActions.VoteKeysPerComment | src/hooks/mutations/useCommentActionsMutations.ts:72-73 | a vote in flight blocks votes on that comment only |
| CommentActions.KeyLayout | src/hooks/mutations/useCommentActionsMutations.ts:89 | the reaction key is "reaction-", the comment id, '-' and the kind |
| CommentActions.ReactionKeyInjective | src/hooks/mutations/useCommentActionsMutations.ts:89 | for kinds without '-', a reaction key names one comment and kind |
| CommentReactionMutation.MutationFn | src/hooks/mutations/useCommentReactionMutation.ts:14-84 | the table becomes the delete-then-insert toggle of the user's reaction and the result reports it: removed, or added with the kind it replaced |
| CommentReactionMutation.RejectionsTouchNothing | src/hooks/mutations/useCommentReactionMutation.ts:15-29 | a missing user or an unknown kind fails with its own error before any table access |
| CommentReactionMutation.Optimistic | src/hooks/mutations/useCommentReactionMutation.ts:91-142 | an empty cache stays empty; a cached list keeps its length |
| CommentReactionMutation.RollbackRestores | src/hooks/mutations/useCommentReactionMutation.ts:85-151 | rolling back the optimistic edit restores the cache it started from |
| CommentReactionMutation.OnMutate | src/hooks/mutations/useCommentReactionMutation.ts:85-145 | the snapshot is the old cache and the cache becomes the optimistic edit |
| CommentReactionMutation.OnError | src/hooks/mutations/useCommentReactionMutation.ts:146-151 | the cache is rolled back to the snapshot |
| CommentReactionMutation.Mutate | src/hooks/mutations/useCommentReactionMutation.ts:13-155 | one attempt: the table is toggled; on failure the cache is as before, on success it holds the optimistic edit and is marked stale |
| CommentReactionMutation.AgreeOnRemoval | src/hooks/mutations/useCommentReactionMutation.ts:46-55 | withdrawing the held reaction: the edited count is the count of the table without the user's row |
| CommentReactionMutation.AgreeOnSwitch | src/hooks/mutations/useCommentReactionMutation.ts:56-78 | switching kinds: the edited count is the count after the delete and insert |
| CommentReactionMutation.AgreeOnAdd | src/hooks/mutations/useCommentReactionMutation.ts:68-78 | a first reaction: the edited count is the count with the new row |
| CommentReactionMutation.AgreeOnCount | src/hooks/mutations/useCommentReactionMutation.ts:95-126 | for each offered kind the optimistic count equals the server's count after the toggle |
| CommentReactionMutation.OptimisticAgreesWithServer | src/hooks/mutations/useCommentReactionMutation.ts:95-126 | the optimistic record is exactly the tally of the table after a fault-free toggle |
| CommentReactionMutation.AgreeOnUserReaction | src/hooks/mutations/useCommentReactionMutation.ts:99-120 | the optimistic user reaction is the one the table stores after the toggle |
| CommentReactionMutation.AgreeOnCounts | src/hooks/mutations/useCommentReactionMutation.ts:95-126 | the optimistic counts equal the tallied counts after the toggle |
| CommentReactionMutation.SameOfferedCounts | src/hooks/mutations/useCommentReactionMutation.ts:97 | two records over the four offered kinds that agree on each kind are equal |
| CommentReactionMutation.AgreeOnKinds | src/hooks/mutations/useCommentReactionMutation.ts:111-120 | the edited record keeps exactly the four offered kinds |
| CommentReactionMutation.ToggleKeepsOfferedKinds | src/hooks/mutations/useCommentReactionMutation.ts:111-120 | toggling an offered kind adds no key to a record over the offered kinds |
| CommentReactionsWidget.ExternalCounts | src/components/issue-detail/components/CommentReactions.tsx:69-74 | the four offered kinds, each shown with the parent's count or 0 |
| CommentReactionsWidget.ExternalUserReaction | src/components/issue-detail/components/CommentReactions.tsx:77 | the parent's reaction when it is a non-empty kind, otherwise none |
| CommentReactionsWidget.ExternalViewIdempotent | src/components/issue-detail/components/CommentReactions.tsx:66-81 | taking the shown record as the parent's record again changes nothing |
| CommentReactionsWidget.CountOffered | src/components/issue-detail/components/CommentReactions.tsx:40-57 | the loop counts each offered kind among the comment's rows and picks the user's last row |
| CommentReactionsWidget.SelectedCounts | src/components/issue-detail/components/CommentReactions.tsx:34-37 | the rows read for the comment count and end as that comment's rows in the whole table do |
| CommentReactionsWidget.CommentReactionsState.constructor | src/components/issue-detail/components/CommentReactions.tsx:16-23 | zero counts, no reaction, not loading |
| CommentReactionsWidget.CommentReactionsState.UseExternal | src/components/issue-detail/components/CommentReactions.tsx:66-77 | the shown record becomes the parent's, as ExternalCounts and ExternalUserReaction give it |
| CommentReactionsWidget.CommentReactionsState.LoadReactions | src/components/issue-detail/components/CommentReactions.tsx:31-64 | a failed read changes nothing; otherwise the counts are the table's counts of the offered kinds and the user's reaction is their last row, or stays when they have none |
| CommentReactionsWidget.CommentReactionsState.HandleReaction | src/components/issue-detail/components/CommentReactions.tsx:83-140 | a parent handler takes the click; without a user or with a click in flight nothing changes; otherwise the table is written and the shown record toggles as the optimistic edit does |
| CommentReactionsWidget.LoadedThenClicked | src/components/issue-detail/components/CommentReactions.tsx:31-140 | a load shows the table and a fault-free click keeps the shown record and the table in step |
| CommentTree.MapById | src/hooks/mutations/useCommentVoteMutation.ts:74-119 | the walk keeps the length of the list |
| CommentTree.MapByIdAt | src/hooks/mutations/useCommentVoteMutation.ts:74-119 | the comment with the id becomes its edit; every other comment keeps its own fields and place and only its replies are walked |
| CommentTree.MapByIdKeepsIds | src/hooks/mutations/useCommentVoteMutation.ts:74-119 | an edit that keeps ids keeps every id in its place |
| CommentTree.MapByIdAbsent | src/hooks/mutations/useCommentVoteMutation.ts:74-119 | when no comment or reply has the id, the list is unchanged |
| CommentTree.MapByIdTwice | src/hooks/mutations/useCommentVoteMutation.ts:74-119 | walking twice with an edit that undoes itself on the edited comments gives back the list |
| CommentTree.UpdateCommentVotesAt | src/hooks/mutations/useCommentVoteMutation.ts:74-119 | only the votes of the comment with the id change, to the toggled record (zero votes when absent) |
| CommentTree.UpdateCommentReactionsAt | src/hooks/mutations/useCommentReactionMutation.ts:95-139 | only the reactions of the comment with the id change, to the toggled record (zero reactions when absent) |
| CommentTree.UpdateCommentVotesTwice | src/hooks/mutations/useCommentVoteMutation.ts:74-119 | the same vote clicked twice gives back the list when the edited comment's record is consistent |
| CommentTree.UpdateCommentReactionsTwice | src/hooks/mutations/useCommentReactionMutation.ts:95-139 | the same reaction clicked twice gives back the list when the edited comment's record is consistent |
| CommentTree.CommentsCache.constructor | src/hooks/mutations/useCommentVoteMutation.ts:69 | the cache holds the initial list and is not stale |
| CommentTree.CommentsCache.Set | src/hooks/mutations/useCommentVoteMutation.ts:70 | `setQueryData` replaces the value and keeps the staleness |
| CommentTree.CommentsCache.Invalidate | src/hooks/mutations/useCommentVoteMutation.ts:134 | `invalidateQueries` marks the value stale and keeps it |
| CommentTree.Rollback | src/hooks/mutations/useCommentVoteMutation.ts:126-131 | a snapshot is put back; without one the cache is left (the reaction mutation's `onError` is the same) |
| CommentVoteMutation.MutationFn | src/hooks/mutations/useCommentVoteMutation.ts:12-63 | the table becomes the delete-or-upsert toggle of the user's vote and the result reports whether the vote was removed |
| CommentVoteMutation.Optimistic | src/hooks/mutations/useCommentVoteMutation.ts:70-122 | an empty cache stays empty; a cached list keeps its length |
| CommentVoteMutation.RollbackRestores | src/hooks/mutations/useCommentVoteMutation.ts:64-131 | rolling back the optimistic edit restores the cache it started from |
| CommentVoteMutation.OnMutate | src/hooks/mutations/useCommentVoteMutation.ts:64-125 | the snapshot is the old cache and the cache becomes the optimistic edit |
| CommentVoteMutation.OnError | src/hooks/mutations/useCommentVoteMutation.ts:126-131 | the cache is rolled back to the snapshot |
| CommentVoteMutation.Mutate | src/hooks/mutations/useCommentVoteMutation.ts:11-135 | one attempt: on failure the cache and the table are as before; on success the table is toggled and the cache holds the optimistic edit, marked stale |
| CommentVoteMutation.OptimisticAgreesWithServer | src/hooks/mutations/useCommentVoteMutation.ts:74-119 | the optimistic votes record is exactly the tally of the table after a fault-free toggle |
| CommentVoteMutation.AgreesAfterDelete | src/hooks/mutations/useCommentVoteMutation.ts:30-39 | withdrawing the held vote: the edited record is the tally after the delete |
| CommentVoteMutation.AgreesAfterUpsert | src/hooks/mutations/useCommentVoteMutation.ts:40-57 | a new or changed vote: the edited record is the tally after the upsert |
| CommentVoteMutation.UpsertedUserVote | src/hooks/mutations/useCommentVoteMutation.ts:89-100 | after the upsert the user's vote is the clicked kind, as the edit says |
| CommentVoteMutation.UpsertedCounts | src/hooks/mutations/useCommentVoteMutation.ts:89-100 | after the upsert the clicked kind counts one more and a vote held before one less, as the edit says |
| CommentVoting.ScoreLabel | src/components/issue-detail/components/CommentVoting.tsx:12-30 | the label is never empty, starts with '+' exactly for a positive score and with '-' exactly for a negative one |
| CommentVoting.ScoreLabelReadsBack | src/components/issue-detail/components/CommentVoting.tsx:12-30 | the label parses back to up minus down |
| CommentVoting.ClickMovesHighlight | src/components/issue-detail/components/CommentVoting.tsx:17-33 | after a click the clicked button is highlighted exactly when it was not, and the other one never is |
| IssueQuery.UuidIgnoresCase | src/hooks/queries/useIssueQuery.ts:27 | the UUID test gives the same answer for a text and its lower-case form |
| IssueQuery.UuidGroups | src/hooks/queries/useIssueQuery.ts:27 | a UUID is five hex groups of 8, 4, 4, 4 and 12 digits joined by dashes |
| IssueQuery.NumberIsNotUuid | src/hooks/queries/useIssueQuery.ts:27 | a decimal issue number is never taken for a UUID |
| IssueQuery.RepoIdOf | src/hooks/queries/useIssueQuery.ts:40-46 | a resolved repository id belongs to a repository with the full name |
| IssueQuery.Route | src/hooks/queries/useIssueQuery.ts:27-55 | a UUID is looked up by id; with owner and repository the number is looked up inside the resolved repository, or the query fails with "Repository not found"; otherwise by number alone |
| IssueQuery.Select | src/hooks/queries/useIssueQuery.ts:57-60 | a found issue is in the table and matches the lookup |
| IssueQuery.FindsByUuid | src/hooks/queries/useIssueQuery.ts:26-60 | an issue that is there is found by its UUID whatever the owner and repository |
| IssueQuery.FilterTwoDistinct | src/hooks/queries/useIssueQuery.ts:37-57 | with unique ids an id lookup matches at most one issue |
| IssueQuery.MissingRepositoryThrows | src/hooks/queries/useIssueQuery.ts:38-52 | with owner and repository, an unknown repository makes the query throw an error naming it |
| IssueQuery.SharedRepositoryNameThrows | src/hooks/queries/useIssueQuery.ts:40-52 | for any owner and repository, a full name held by two repository rows is reported as not found, whatever the issue number and the issue read |
| Lists.FilterKeepsTwo | src/hooks/queries/useIssueQuery.ts:40-44 | two elements that pass a filter leave at least two after it |
| IssueData.Located | src/components/issue-detail/hooks/useIssueDataWithRepo.tsx:31-78 | the issue the hook ends with is one of the table's, and none where the query would fail |
| IssueData.LocatedByIdOrNumber | src/components/issue-detail/hooks/useIssueData.tsx:31-61 | a found issue has the UUID or the number asked for, and the lookup is the query's without owner and repository |
| IssueData.IssueDataState.constructor | src/components/issue-detail/hooks/useIssueData.tsx:26-29 | no issue, loading, score 0, no vote |
| IssueData.IssueDataState.LoadIssue | src/components/issue-detail/hooks/useIssueData.tsx:31-88 | the issue is the one found by UUID or number; for a signed-in user and a found issue the votes are the issue vote query's; otherwise the votes stay; loading ends false |
| IssueData.IssueDataState.UpdateVote | src/components/issue-detail/hooks/useIssueData.tsx:94-97 | the shown score and vote become the reported ones, nothing else changes |
| IssueData.IssueDataWithRepoState.constructor | src/components/issue-detail/hooks/useIssueDataWithRepo.tsx:26-29 | no issue, loading, score 0, no vote |
| IssueData.IssueDataWithRepoState.LoadIssue | src/components/issue-detail/hooks/useIssueDataWithRepo.tsx:31-105 | the issue is the one the routed query finds, none when the repository cannot be resolved or the read fails; votes as in useIssueData; loading ends false |
| IssueData.IssueDataWithRepoState.ShowVotes | src/components/issue-detail/hooks/useIssueDataWithRepo.tsx:80-98 | for a signed-in user and an issue with an id the votes shown are those the vote query computes; otherwise they stay |
| IssueData.IssueDataWithRepoState.UpdateVote | src/components/issue-detail/hooks/useIssueDataWithRepo.tsx:111-114 | the shown score and vote become the reported ones, nothing else changes |
| IssueVotesQuery.VotesOfIssue | src/hooks/queries/useIssueVotesQuery.ts:11-31 | no issue id or no data gives score 0 and no vote; a reported vote is the kind of the user's row; a user row of kind up or down is always reported |
| IssueVotesQuery.VotesOfIssueIsTally | src/hooks/queries/useIssueVotesQuery.ts:16-30 | on a table with one row per user and only up and down votes, the result is the score and user vote of the tally |
| IssueReactions.CountAll | src/components/issue-detail/IssueReactions.tsx:35-49 | the loop counts each offered kind among the issue's rows, records every other kind as turned `NaN`, and picks the user's last row |
| IssueReactions.CountStep | src/components/issue-detail/IssueReactions.tsx:42-47 | one more row advances the counts, the unknown kinds and the user's reaction as the loop body does |
| IssueReactions.SelectedUnknownKinds | src/components/issue-detail/IssueReactions.tsx:30-33 | the rows read for the issue have the issue's unknown kinds |
| IssueReactions.SelectionCounted | src/components/issue-detail/IssueReactions.tsx:30-49 | counting the issue's rows counts as the whole table does for the issue |
| IssueReactions.IssueReactionsState.constructor | src/components/issue-detail/IssueReactions.tsx:13-20 | zero counts, no unknown kinds, no reaction, not loading |
| IssueReactions.IssueReactionsState.LoadReactions | src/components/issue-detail/IssueReactions.tsx:25-54 | without an issue id or on a failed read nothing changes; otherwise the counts are the issue's, unknown kinds turn `NaN`, and the user's last row sets their reaction or it stays |
| IssueReactions.IssueReactionsState.HandleReaction | src/components/issue-detail/IssueReactions.tsx:55-108 | without a user or an issue id, or with a click in flight, nothing changes; otherwise the table is written and the shown record toggles; loading ends false |
| IssueReactions.IssueReactionsState.ToggleShown | src/components/issue-detail/IssueReactions.tsx:68-101 | the shown record becomes the toggle of the clicked kind |
| IssueReactions.OfferedRowsShowNoNan | src/components/issue-detail/IssueReactions.tsx:42-47 | when the issue's rows hold offered kinds only, no entry turns `NaN` |
| IssueVoting.NewVoteStateIsToggle | src/components/issue-detail/IssueVoting.tsx:30-41 | the reported score and vote are those of the local toggle of the record passed in, when the mutation removed exactly the held vote |
| IssueVoting.ReportedUpdateIsRefetch | src/components/issue-detail/IssueVoting.tsx:23-45 | when the parent passed the votes the vote query reads, a fault-free click reports exactly what the query reads from the table afterwards |
| IssueVoting.RefetchAfterDelete | src/components/issue-detail/IssueVoting.tsx:32-34 | clicking the held vote: the report equals the re-read after the delete |
| IssueVoting.RefetchAfterUpsert | src/components/issue-detail/IssueVoting.tsx:35-41 | any other click: the report equals the re-read after the upsert |
| IssueVoting.UpsertRefetchCount | src/components/issue-detail/IssueVoting.tsx:36-40 | after the upsert the reported score equals the re-read score |
| IssueVoting.HandleVote | src/components/issue-detail/IssueVoting.tsx:23-45 | without a user or while pending nothing is written or reported; otherwise the table is toggled and, on success only, the new score and vote are reported |
| IssueVoting.VoteButton | src/components/issue-detail/IssueVoting.tsx:51-81 | a button is highlighted for the held vote, disabled while pending, and spins only when both |
| IssueVoting.ButtonsAgree | src/components/issue-detail/IssueVoting.tsx:51-81 | at most one button is highlighted and both are disabled together |
| IssuesQuery.Selected | src/hooks/queries/useIssuesQuery.ts:21-40 | at most 50 issues, each one of the user's that passes the state and search filters, newest first, without repeats (a sub-multiset of the wanted issues); all of them when there are at most 50, exactly 50 otherwise |
| IssuesQuery.SelectedAreNewest | src/hooks/queries/useIssuesQuery.ts:28-29 | a wanted issue left out is no newer than any issue kept |
| IssuesQuery.WithVotes | src/hooks/queries/useIssuesQuery.ts:44-61 | the issue is kept; without vote data the score is 0 and there is no vote; a listed vote is the kind of the user's row and never empty |
| IssuesQuery.AllWithVotes | src/hooks/queries/useIssuesQuery.ts:44-63 | one listed entry per issue, in order, each with its own votes |
| IssuesQuery.SortListed | src/hooks/queries/useIssuesQuery.ts:65-72 | a permutation of the list, sorted by score, date or comment count as named, and unchanged for any other value |
| IssuesQuery.IssuesOfShape | src/hooks/queries/useIssuesQuery.ts:18-75 | the result has at most 50 entries, each the user's own and passing the filters, holds every selected issue, and is sorted descending by the chosen key (votes, recency or comments) |
| IssuesQuery.ListedVotesAgree | src/hooks/queries/useIssuesQuery.ts:46-55 | on a table of up and down votes the listed score and vote are those of the single-issue vote query |
| LocalReactions.WriteClick | src/components/issue-detail/IssueReactions.tsx:60-95 | the delete and insert of a click leave the table as ClickRows describes and keep one row per user |
| LocalReactions.StoredIsCounted | src/components/issue-detail/IssueReactions.tsx:42-47 | the kind the user holds is counted at least once |
| LocalReactions.KindsOnAfterDelete | src/components/issue-detail/IssueReactions.tsx:62-66 | deleting the user's row keeps the target's rows within the offered kinds |
| LocalReactions.KindsOnAfterAppend | src/components/issue-detail/IssueReactions.tsx:89-95 | inserting an offered kind keeps the target's rows within the offered kinds |
| LocalReactions.RemovalKeepsInStep | src/components/issue-detail/IssueReactions.tsx:60-72 | withdrawing the held reaction keeps the shown record in step with the table |
| LocalReactions.SwitchKeepsInStep | src/components/issue-detail/IssueReactions.tsx:73-101 | clicking another kind keeps the shown record in step with the table |
| LocalReactions.InsertClicked | src/components/issue-detail/IssueReactions.tsx:89-101 | inserting the clicked kind for a user without a row stores it and counts it once more |
| LocalReactions.ClearHeld | src/components/issue-detail/IssueReactions.tsx:75-86 | deleting the held row leaves the user without a row and the held kind one row fewer |
| LocalReactions.ClickKeepsInStep | src/components/issue-detail/components/CommentReactions.tsx:83-140 | a fault-free click keeps a shown record that agrees with the table in agreement with it |
| LocalReactions.FailedInsertShowsUnstored | src/components/issue-detail/IssueReactions.tsx:89-101 | when the insert fails the component still shows the clicked reaction while the table holds no row for the user |
| PlatformComments.TopLevel | src/components/issue-detail/hooks/usePlatformComments.ts:77-82 | the top-level read returns exactly the issue's rows without a parent, a permutation of them ordered by ascending `created_at` |
| PlatformComments.RepliesTo | src/components/issue-detail/hooks/usePlatformComments.ts:101-105 | a reply read returns exactly the rows whose parent is the comment, ordered by ascending `created_at` |
| PlatformComments.FetchReplies | src/components/issue-detail/hooks/usePlatformComments.ts:95-112 | one reply list per top-level comment, in order: the comment's replies oldest first, or none when its read failed |
| PlatformComments.BuildProfileMap | src/components/issue-detail/hooks/usePlatformComments.ts:121-124 | the map gives every user the last profile row read for them, and nothing to a user without one |
| PlatformComments.ReplyComments | src/components/issue-detail/hooks/usePlatformComments.ts:128-131 | every reply keeps its row and carries its author's profile from the map |
| PlatformComments.AssembleList | src/components/issue-detail/hooks/usePlatformComments.ts:127-138 | each top-level comment carries its profile and its replies with theirs, index by index |
| PlatformComments.AggregateReactions | src/components/issue-detail/hooks/usePlatformComments.ts:34-52 | the loop builds, for every comment with a reaction row, its tally per offered kind and the user's last reaction |
| PlatformComments.AggregateVotes | src/components/issue-detail/hooks/usePlatformComments.ts:54-63 | the loop builds, for every comment with a vote row, the up count, every other row as down, and the user's vote |
| PlatformComments.TargetsCount | src/components/issue-detail/hooks/usePlatformComments.ts:36-41 | a comment gets a record exactly when it has at least one row |
| PlatformComments.SelectedRows | src/components/issue-detail/hooks/usePlatformComments.ts:22-31 | restricting the rows to the listed ids keeps every count and the user's rows of a listed comment and drops every other comment |
| PlatformComments.SelectedTallies | src/components/issue-detail/hooks/usePlatformComments.ts:22-52 | aggregating the restricted reaction rows gives a record for exactly the listed comments with rows, each its full tally |
| PlatformComments.SelectedVoteTallies | src/components/issue-detail/hooks/usePlatformComments.ts:28-63 | aggregating the restricted vote rows gives a record for exactly the listed comments with rows, each its full tally |
| PlatformComments.PlatformCommentsState.constructor | src/components/issue-detail/hooks/usePlatformComments.ts:10-13 | no comments, loading, and no records |
| PlatformComments.PlatformCommentsState.LoadReactionsAndVotes | src/components/issue-detail/hooks/usePlatformComments.ts:16-66 | nothing changes without a user; otherwise both records are replaced by the tallies of the given comments, empty when their read failed |
| PlatformComments.PlatformCommentsState.LoadComments | src/components/issue-detail/hooks/usePlatformComments.ts:69-149 | a missing or empty id empties the list and keeps loading; a failed read empties it; otherwise the assembled list is shown and the records of all comments and replies loaded; loading ends false after the id check |
| PlatformComments.CommentListShape | src/components/issue-detail/hooks/usePlatformComments.ts:77-138 | the list is the issue's top-level comments oldest first, each with exactly its replies oldest first (none after a failed reply read), replies having none of their own |
| PlatformComments.AssembleKeepsOrder | src/components/issue-detail/hooks/usePlatformComments.ts:120-131 | assembling the comments and replies keeps the order of the rows they come from |
| PlatformComments.CommentListInOrder | src/components/issue-detail/hooks/usePlatformComments.ts:77-138 | the shown list and every reply list are in ascending `created_at` order |
| PlatformComments.ListedIffTopLevel | src/components/issue-detail/hooks/usePlatformComments.ts:77-82 | a row is listed, at the position the read gives it, exactly when it belongs to the issue and has no parent |
| PlatformComments.AuthorsKeepProfiles | src/components/issue-detail/hooks/usePlatformComments.ts:91-124 | restricting the profile read to the authors loses no author's profile |
| PlatformComments.ListedCommentsTallied | src/components/issue-detail/hooks/usePlatformComments.ts:34-63 | a listed comment has a record exactly when it has rows; its reaction record is the tally with the user's stored reaction, its up and down add up to its vote rows |
| PlatformComments.RepliesAggregated | src/components/issue-detail/hooks/usePlatformComments.ts:141 | every listed comment and every reply of one is among the comments whose records are loaded |
| ServerToggle.Current | src/hooks/mutations/useVoteMutation.ts:17-28 | a lookup error is passed on only when it is not PGRST116, and an empty kind reads as none |
| ServerToggle.ToggleByUpsert | src/hooks/mutations/useVoteMutation.ts:13-58 | the vote toggle leaves the outcome and table UpsertToggle gives and keeps one row per user and target |
| ServerToggle.ToggleByReplace | src/hooks/mutations/useCommentReactionMutation.ts:15-78 | the reaction toggle leaves the outcome and table ReplaceToggle gives and keeps one row per user and target |
| ServerToggle.RetryBounded | src/hooks/mutations/useVoteMutation.ts:68-73 | a failure is retried exactly when it is a 409 or PGRST116 database error and fewer than two failures came before |
| ServerToggle.CurrentIsStored | src/hooks/mutations/useVoteMutation.ts:17-28 | on a table with one row per key and no fault the lookup reads the stored kind |
| ServerToggle.TogglesKeepUnique | src/hooks/mutations/useCommentReactionMutation.ts:46-77 | both toggles keep at most one row per target and user, whatever the faults |
| ServerToggle.UpsertToggleFailureUnchanged | src/hooks/mutations/useVoteMutation.ts:24-56 | a failed vote toggle leaves the table as it was |
| ServerToggle.UpsertToggleEffect | src/hooks/mutations/useVoteMutation.ts:30-57 | without faults the row is removed exactly when it held the kind, the kind is stored otherwise, and no other key changes |
| ServerToggle.UpsertToggleTwice | src/hooks/mutations/useVoteMutation.ts:30-57 | from no row, toggling the same kind twice gives the table back |
| ServerToggle.ReplaceToggleFailure | src/hooks/mutations/useCommentReactionMutation.ts:56-77 | a failed reaction toggle leaves the table as it was, or, when the insert after the delete fails, with the user's reaction gone |
| ServerToggle.ReplaceToggleEffect | src/hooks/mutations/useCommentReactionMutation.ts:44-78 | without faults the row is removed exactly when it held the kind, the kind is stored otherwise, the previous kind is reported, and no other key changes |
| ServerToggle.ReplaceToggleRows | src/hooks/mutations/useCommentReactionMutation.ts:46-77 | without faults the held row is deleted and, unless it held the kind, one row of the kind appended |
| VoteMutation.MutationFn | src/hooks/mutations/useVoteMutation.ts:12-63 | the votes table and the result are those of the vote toggle, reported with the requested type |
| VoteMutation.EarlyFailures | src/hooks/mutations/useVoteMutation.ts:13-26 | no user fails with the table untouched; a lookup error other than PGRST116 is rethrown unchanged |
| VoteMutation.VoteEffect | src/hooks/mutations/useVoteMutation.ts:30-57 | removed exactly when the stored vote is the requested one; the requested vote is stored otherwise; at most one vote row per user remains |
| VoteMutation.VoteTwiceLeavesNoRow | src/hooks/mutations/useVoteMutation.ts:30-57 | from no vote, voting the same way twice leaves the table as before with no vote |
| VoteMutation.Invalidated | src/hooks/mutations/useVoteMutation.ts:65 | exactly the cached keys that start with the prefix are invalidated |
| VoteMutation.OnSuccessInvalidatesThisIssue | src/hooks/mutations/useVoteMutation.ts:64-66 | the issue's vote query is invalidated and another issue's is not |
| Strings.Lower | src/components/UserRepos.tsx:88-89 | lower-casing keeps the length and folds each character on its own |
| Strings.LowerIdempotent | src/pages/Help.tsx:118-119 | lower-casing an already lower-cased text changes nothing |
| Strings.ContainsIffOccurs | src/pages/Help.tsx:118-119 | `includes` holds exactly when the needle occurs at some position |
| Strings.ContainsEmpty | src/pages/Help.tsx:118-119 | the empty search text is found in every text |
| Strings.TrimStart | src/hooks/mutations/useCommentActionsMutations.ts:27 | the result is a suffix of the text that does not start with white space (ECMAScript WhiteSpace and LineTerminator, the Zs separators included) |
| Strings.TrimEnd | src/hooks/mutations/useCommentActionsMutations.ts:27 | the result is a prefix of the text that does not end with white space (the same set) |
| Strings.TrimOfIdeographicSpace | src/hooks/mutations/useCommentActionsMutations.ts:27 | a text of one ideographic space trims to nothing, so it is blank |
| Strings.TrimOfSpaceSeparators | src/hooks/mutations/useCommentActionsMutations.ts:27 | Zs separators at both ends are trimmed |
| Strings.TrimEmptyIff | src/hooks/mutations/useCommentActionsMutations.ts:18 | trimming leaves nothing exactly when the text is all white space |
| Strings.TrimmedEdges | src/hooks/mutations/useCommentActionsMutations.ts:27 | a trimmed text is empty or starts and ends with a non-space |
| Strings.TrimIdempotent | src/hooks/mutations/useCommentActionsMutations.ts:27 | trimming twice is trimming once |
| Strings.DigitPrefix | src/hooks/queries/useIssueQuery.ts:48 | parseInt reads the longest prefix of digits, which stops at the first non-digit |
| Strings.HexPrefix | src/hooks/queries/useIssueQuery.ts:48 | after "0x" parseInt reads the longest prefix of hexadecimal digits, which stops at the first non-hexadecimal digit |
| Strings.ParseIntOfHex | src/hooks/queries/useIssueQuery.ts:48 | "0x" or "0X" followed by hexadecimal digits, bare or negated, parses to their base-16 value |
| Strings.ParseIntHexExample | src/hooks/queries/useIssueQuery.ts:48 | "0x1f" parses to 31, and "0x" alone is NaN |
| Strings.ParseIntOfDigits | src/hooks/queries/useIssueQuery.ts:48 | a digit string, bare or signed, parses to its value |
| Strings.ParseIntOfIntToString | src/hooks/useIssueSync.ts:44 | parseInt reads back every integer's decimal rendering |
| Base.ParseVoteType | src/components/issue-detail/hooks/usePlatformComments.ts:61 | only "up" and "down" are votes, each read back as the vote of that name |
| Base.VoteNameRoundTrip | src/components/issue-detail/hooks/usePlatformComments.ts:61 | reading a vote's name gives the vote back |

## Left out

- The network and the hosted database are not modelled as services. Each call is a fault parameter (`Option<DbError>`, a `Fetched` response or a set of failing ids), and the tables are the rows they hold.
- Concurrency and timing are not modelled.
  - `Promise.all` over the reply reads and over an issue batch runs sequentially.
  - The 100 ms pause between issue batches is dropped.
  - Overlapping requests and React's asynchronous state updates are not modelled.
- The retry scheduling of the query library is left out. Only the retry predicate and the delay formula (`RetryPolicy`) are modelled.
- `CommentVoteMutation.Mutate`, `CommentReactionMutation.Mutate`, `IssueVoting.HandleVote`: one attempt of the mutation. `HandleVote` calls the vote mutation, which `useVoteMutation` retries (src/hooks/mutations/useVoteMutation.ts:68-73). The retries `RetryPolicy` allows would repeat the same step.
- React Query's cache is one value per key. `cancelQueries` is not modelled, and `invalidateQueries` is modelled as the set of keys it marks (`VoteMutation.Invalidated`).
- Dates are not modelled as dates.
  - Timestamps are integers.
  - The ISO date in the trending query is the parameter `isoDaysAgo`.
  - Locale formatting is not modelled.
- `encodeURIComponent` is the opaque parameter `encode`.
- `Strings.Lower`: `toLowerCase` is modelled over ASCII letters only. Unicode case folding is not modelled.
- The dashboard's positive-vote percentage (`toFixed`) is floating point and not modelled.
- Toast notifications, console logging, navigation and rendering are not modelled.
- `Sorting.SortDesc`: `Array.prototype.sort` is modelled on values rather than in place on the array. The order among equal keys is not stated; the contract states order and permutation only.
- `Sorting.SortAsc`: the database's `.order(column, { ascending: true })` leaves the order of rows with equal times unspecified; the model keeps them in table order.
- `Counts.ReactionStep`: a reaction kind outside the four offered ones is ignored here. `usePlatformComments` tests `frontendType in record`, which also holds for the record's own `userReaction` key and for names the object inherits (`toString`, `constructor`); the increments those kinds would make on such keys are not modelled. The loops that write `counts[kind]` for any kind (`GitHubComments`, `IssueReactions`) keep such kinds as a set of kinds whose entry would be `NaN`, not as extra record keys. `IssueReactions` renders a button for every entry of the record (src/components/issue-detail/IssueReactions.tsx:135), so such a kind gets a clickable button showing `NaN`; a click there toggles `NaN`, where `ToggleShown` stores 1 or 0.
- `Base.ParseVoteType`: the user's vote is read as "up", "down" or none. The source casts any other stored text through as a vote; the table only ever holds the two kinds.
- `IssueSyncHook.LookupFaults`: an issue id with no digits makes `parseInt` return `NaN`. The lookup by `github_id` then fails with PostgreSQL's error 22P02, and the message is modelled as that error's text. The error is not observed from the database.
- `IssueQuery`: a `NaN` issue number is modelled as the 22P02 error for type integer. Its exact message text is not modelled.
- `useIssueSync` sets the fallback message 'Failed to sync issue' only for a thrown value that is not an `Error`. Every failure the model produces is an `Error`, so that branch is not modelled.
- `GitHubComments.GitHubCommentsState.HandleReaction`: no rendered element of `GitHubComments` calls `handleReaction`; the method models the handler as written. The foreign key from `comment_reactions.comment_id` to `platform_comments.id` is not modelled: its rejection of a GitHub comment id is one value of `fault`.
- `GitHubComments.ClickThenReload`: states the reload after the corrected write of the Findings table. The reload after the write as written is `GitHubComments.ClickThenReloadAsWritten`.
- `GitHubComments.GitHubCommentsState.HandleVote`: likewise, nothing calls `handleVote`, and the foreign key from `comment_votes.comment_id` to `platform_comments.id` is one value of `fault`.
- `PlatformComments.LastProfile`: two profile rows for one user are resolved by the last one read, as `Map.set` does. The table holds one row per user.
- `IssuesQuery.SearchMatches`: the `ilike` pattern is matched as a case-insensitive substring, with `%` and `_` in the search text taken literally. A search text holding a comma or a parenthesis, which would change the filter PostgREST parses, is not modelled.
- `RepositorySync.Valid`: one row per (github_id, user_id) is not a constraint of the `repositories` table. `issueSync` can break it (`IssueSync.SyncRepositoryRenamedInsertsAgain`), and the lookups then answer PGRST116. What a sync does from such a store is stated by `RepositorySync.SyncRepositoryDuplicateAppends`, `RepositorySync.DuplicateKeyResyncAppendsAgain` and `RepositorySync.SyncStepDuplicateInserts`.
- `RepositorySync.SyncRepositoryUpdatesOrInserts`: stated from a store with one row per key only. From a store with several rows for the key, the sync appends another row (`RepositorySync.SyncRepositoryDuplicateAppends`).
- `RepositorySync.SyncRepositoryIdempotent`: holds from a store with one row per key only. From a store with several rows for the key, each sync appends a row and returns a new id (`RepositorySync.DuplicateKeyResyncAppendsAgain`).
- `RepositorySync.SyncAllStoresEvery`: stated from a store with one row per key only. A key with several rows gets yet another row on each pass (`RepositorySync.SyncStepDuplicateInserts`).
- `IssueSync`: batches of five run one after another; within a batch the issues are synced in order.
- Authentication is a parameter (the signed-in user's id or none). Session and OAuth handling (`useAuth`) is not part of this model.

## Findings

| source | as written | input that shows it | evidently intended | confidence | as-written member | corrected member |
|---|---|---|---|---|---|---|
| src/components/issue-detail/GitHubComments.tsx:165-199 | switching to another reaction or vote calls `.upsert()` without `onConflict`. The upsert resolves on the primary key the payload lacks, so it acts as an insert, and the unique (comment, user) constraint rejects it; the error is not looked at | a user holding "like" on a comment clicks "heart": the row stays "like" and the reload shows "like" again. The handlers are not wired to any rendered element, so the defect is latent | the switch replaces the held row, an upsert on (comment_id, user_id) as the issue vote mutation does | not executed | GitHubComments.SwitchIsLostAsWritten | GitHubComments.ClickWriteToggles |
| src/components/DiscussionsList.tsx:48-80 | the effect calls `loadDiscussions` only when there are watched repositories and a token, so `loadDiscussions`' own guard that ends loading never runs | a signed-in user who watches no repository: `loading` stays true and the placeholder never goes away | `loadDiscussions` runs on every change of the watched list or token, and its guard ends loading when there is nothing to load | not executed | Discussions.NoWatchesKeepsLoadingAsWritten | Discussions.DiscussionsState.WatchedReposChanged |
