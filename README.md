# git-technetium aggregation engine, modelled in Dafny

git-technetium reports per-contributor activity for a GitHub repository:
issues opened, assigned and closed, commit comments, issue comments,
pull-request comments, closed pull requests, and lines of code.

The paginated tally routes (`/issues_opened`, `/issues_assigned`,
`/commitComments`, `/issuesComments`, `/pullRequestComments`) repeat the same
small algorithm. Each fetches the contributor logins and builds a tally table
with one zeroed record per login. It walks the paginated resource page by
page, keeping the items its filter accepts, and stops at the first page with
fewer than 30 items. It then counts the kept items by exact login match.
`/pulls` builds the same table but counts a single page. `/issues` returns the
titles of a single page. `/loc` fetches no contributor list and no pages: it
keeps running sums over the per-author weekly statistics.

`/issues_closed` adds a fan-out stage. It harvests the numbers of the closed
issues that are not pull requests, sends one events sub-request per number,
and counts each `closed` event by its actor. The tally is sent by the handler
whose number `indexOf` places at the last index of the harvested list.

The model replaces the remote API with plain input:

- The contributors answer is an `Option<seq<string>>` of logins. `None` is a
  failed request.
- A paginated resource is a `seq<PageResult>`. A page is `Fetched(items)` or
  `Failed`, and every page past the end is empty.
- An events sub-request answer is an `Option<seq<Event>>`.
- The concurrent sub-requests complete in an explicit order. That order is a
  sequence of positions in the harvested list holding each position once
  (`IsCompletionOrder`), and the handlers are folded along it.

Each route is a method with local state only, as in the handler closures. It
returns what the route would `res.send`, or `None` when it sends nothing.

Modules, one per component:

- `Wrappers` holds `Option`.
- `Items` holds items, events, the filters and the key functions.
- `Tally` holds the tally table, its initialisation and its counting block.
- `Paginator` holds the `getData` page walk.
- `IssuesClosed` models the handler in `routes/issues_closed.js`: harvest,
  fan-out and completion check.
- `Routes` models the routes of `routes.js`.

The model follows the code, including three behaviours a reader might not expect:

- The tally is sent before every sub-request has completed whenever the last
  position is not the last to complete.
- Nothing is sent when the harvested list is empty, or when its last number
  also appears earlier.
- A failed contributors request or page request sends nothing. `/pulls`
  sends the zeroed tally when its pull-request request fails. A failed events
  sub-request of `/issues_closed` counts as zero events and still reaches the
  completion check, so the tally can still be sent.

## Model

| member | source | states |
|---|---|---|
| `Items.ContainsIffOccurs` | git-technetium/routes.js:481-483 | the `/pull` match succeeds exactly when `/pull` occurs at some index of `html_url` |
| `Items.FilterMembers` | git-technetium/routes.js:78-82 | an item is kept exactly when it is in the page and the predicate accepts it |
| `Items.FilterAppend` | git-technetium/routes.js:145-149 | filtering page by page and appending equals filtering the appended pages |
| `Items.ComplementaryFiltersPartition` | git-technetium/routes.js:546-551 | two complementary filters split any sequence, counting every item exactly once |
| `Items.CommentFiltersPartition` | git-technetium/routes.js:481-486 | `/issuesComments` keeps a comment exactly when `/pullRequestComments` drops it, so the two kept lists together hold every comment once |
| `Tally.InitTally` | git-technetium/routes.js:54-65 | one record per login, in login order, every counter 0 |
| `Tally.CountInto` | git-technetium/routes.js:84-91 | same names and order; no counter ever decreases; each counter grows by the number of items credited to exactly its name |
| `Tally.Credit` | git-technetium/routes.js:85-89 | one item adds one to every record whose name matches its key and changes no other record |
| `Tally.OccurrencesAppend` | git-technetium/routes.js:374-380 | the matches in two concatenated item lists add up |
| `Tally.TalliedAppend` | git-technetium/routes.js:151-157 | counting two batches one after the other equals counting their concatenation |
| `Tally.CountedOncePerMatch` | git-technetium/routes.js:374-381 | an item anywhere in the input raises exactly the records it names, by one each; names never change |
| `Tally.UnknownLoginIgnored` | git-technetium/routes.js:488-496 | an item credited to no login of the table, or to no one, leaves the sent tally unchanged |
| `Tally.TalliedNothing` | git-technetium/routes/issues_closed.js:70-80 | counting no items leaves the table as it is |
| `Paginator.RequestCount` | git-technetium/routes.js:83-94 | at most one request past the last page; every earlier requested page held 30 or more items; the last one held fewer or failed |
| `Paginator.FetchAll` | git-technetium/routes.js:68-99 | the page walk terminates, makes exactly `RequestCount` requests and accumulates `Harvest` |
| `Paginator.AppendKept` | git-technetium/routes.js:78-82 | one page's loop appends exactly the page's kept items, in order |
| `Paginator.HarvestStep` | git-technetium/routes.js:76-94 | what requesting page k adds in each case: a failed page, a short page, a full page |
| `Paginator.HarvestIsKeptItemsOfRequestedPages` | git-technetium/routes.js:71-99 | the walk fails exactly when its last requested page failed; otherwise it holds the kept items of pages 1..n, in page order |
| `Paginator.HarvestFilters` | git-technetium/routes.js:78-82 | a filtered walk fails exactly when the unfiltered walk fails; otherwise it yields the filter of the unfiltered result |
| `Paginator.ChunkedRequests` | git-technetium/routes.js:83-94 | with full pages, T items cost T/30 + 1 requests, so a multiple of 30 costs one empty extra page; all T items are returned |
| `IssuesClosed.AppendIssueNumbers` | git-technetium/routes/issues_closed.js:52-57 | one page's loop appends the numbers of its non-pull-request issues, in order |
| `IssuesClosed.HarvestIssueNumbers` | git-technetium/routes/issues_closed.js:44-105 | exactly `RequestCount` page requests; the numbers of the non-pull-request closed issues of all requested pages, in page order; nothing if a page failed |
| `IssuesClosed.IndexOf` | git-technetium/routes/issues_closed.js:87 | `indexOf` gives the first index holding the key, or -1 exactly when the key is absent |
| `IssuesClosed.CompletionOrderFacts` | git-technetium/routes/issues_closed.js:64 | a completion order runs each handler exactly once; the last position completes at exactly one step |
| `IssuesClosed.HandleCompletion` | git-technetium/routes/issues_closed.js:69-90 | a success counts the answer's `closed` events by actor; a failure counts nothing; both reach the check, which passes only at the last position when its number is not repeated earlier |
| `IssuesClosed.AfterOneMore` | git-technetium/routes/issues_closed.js:70-80 | one more completion folds that sub-request's events into the tally |
| `IssuesClosed.FanOut` | git-technetium/routes/issues_closed.js:64-98 | the final tally is the fold over all completions; a tally is sent exactly when the last number is not repeated earlier (never when the list is empty); it is the fold up to the last position's completion |
| `IssuesClosed.Run` | git-technetium/routes/issues_closed.js:11-109 | nothing is sent if the contributors or a page request fails; otherwise one record per login, counting that login's `closed` events among completions up to the last position's |
| `IssuesClosed.ClosesAppend` | git-technetium/routes/issues_closed.js:71-79 | closes credited by two concatenated completion sequences add up |
| `IssuesClosed.ClosesPermutation` | git-technetium/routes/issues_closed.js:64-80 | completions made in any rearranged order credit the same number of closes |
| `IssuesClosed.FinalTallyIndependentOfOrder` | git-technetium/routes/issues_closed.js:64-80 | once every sub-request has completed, all completion orders give the same tally |
| `IssuesClosed.SplitCompletions` | git-technetium/routes/issues_closed.js:70-89 | the tally after a prefix of completions falls short of the tally after all of them by exactly what the rest deliver |
| `IssuesClosed.EmissionMissesLaterCompletions` | git-technetium/routes/issues_closed.js:87-89 | the sent tally misses exactly the closes of the sub-requests still outstanding; it equals the final tally exactly when those credit no one, in particular when the last position completes last |
| `IssuesClosed.OnlyClosedEventsCount` | git-technetium/routes/issues_closed.js:71-79 | an event raises a record by one when it is `closed` and its actor is that record's name, and otherwise changes nothing |
| `IssuesClosed.SentBeforeLastCompletion` | git-technetium/routes/issues_closed.js:87-89 | issues 1, 2, 3 completing in the order 1, 3, 2: the tally goes out at the second completion, while issue 2 is still outstanding |
| `IssuesClosed.SentTallyMissesOutstandingClose` | git-technetium/routes/issues_closed.js:87-89 | the same run with a close on issue 2: the sent tally credits bob with 1 close, the final tally with 2 |
| `Routes.Issues` | git-technetium/routes.js:20-36 | one request; the titles of its non-pull-request issues, in order; nothing if it fails |
| `Routes.PaginatedTally` | git-technetium/routes.js:53-99 | nothing if the contributors or a page request fails; otherwise one record per login, in login order, counting the accumulated items credited to that login |
| `Routes.IssuesOpened` | git-technetium/routes.js:47-104 | each counter is the number of harvested non-pull-request issues whose author is that login |
| `Routes.IssuesAssigned` | git-technetium/routes.js:115-168 | each counter is the number of harvested non-pull-request issues whose assignee is that login |
| `Routes.UnassignedNeverCounted` | git-technetium/routes.js:151-157 | an issue without an assignee never counts towards `/issues_assigned` |
| `Routes.IssuesOpenedScenario` | git-technetium/routes.js:78-91 | pages of 30 and 5 issues: two requests, alice 23, bob 10, carol's issues dropped |
| `Routes.AsyncEach` | git-technetium/routes.js:232-269 | the error value reaching async's final callback is the tally at the last position's completion, and there is one exactly when the last number is not repeated earlier |
| `Routes.IssuesClosed` | git-technetium/routes.js:179-281 | same outcome as the handler of routes/issues_closed.js, reached through async's error callback |
| `Routes.CommitComments` | git-technetium/routes.js:338-392 | every comment, unfiltered, counts towards its author |
| `Routes.Pulls` | git-technetium/routes.js:398-443 | one unpaginated request credited by author; the tally is sent even when that request fails, with every counter 0 |
| `Routes.IssuesComments` | git-technetium/routes.js:449-507 | each counter is the number of harvested comments without `/pull` in their URL written by that login |
| `Routes.PullRequestComments` | git-technetium/routes.js:513-572 | each counter is the number of harvested comments with `/pull` in their URL written by that login |
| `Routes.CommentOccurrencesSplit` | git-technetium/routes.js:488-495 | a login's issue comments plus its pull-request comments are all its comments |
| `Routes.CommentCountsSplit` | git-technetium/routes.js:552-557 | over the same pages, the two comment routes fail together, and their counts for a login add up to all its comments |
| `Routes.Loc` | git-technetium/routes.js:310-331 | line k reports the lines added and deleted by authors 0..k together, because the sums are never reset |
| `Routes.AddWeeks` | git-technetium/routes.js:321-324 | one author's loop adds every week's additions and deletions to the running sums |
| `Routes.LocSumsNondecreasing` | git-technetium/routes.js:317-326 | with no negative week, the reported sums never decrease from one line to the next |

## Left out

- `/helloworld` is a proxy to an unrelated URL. `/commits` only formats strings from the statistics answer. Neither does any aggregation.
- HTTP transport is left out: URLs, query strings, credentials and status codes. A page or sub-request is either answered or failed.
- JSON parsing is left out. Items and events carry only the fields the routes read.
- The contributors loop that copies `body[i].login` into a list is not modelled: the registry answer is given directly as that list of logins.
- Express routing and `res.send` are left out. A route returns the value it would send. An unanswered client, whether from a failure or a missing emission, is `None`.
- `console.log` diagnostics are left out, including the `"Done"` logged for an empty issue list.
- The browser-side `public/scripts/app.js` is Angular routing only.
- The real concurrency of `async.each` is not modelled. Completion is a chosen order of the positions, folded one handler at a time, which is how the single-threaded event loop runs them.
- Aliasing is not modelled. The code sends the live tally array, and a value sent is the table as it stands at that moment.
- Numbers are unbounded integers. JavaScript doubles are exact for these counts.
- `/issues` and `/pulls` request only the first page. They are modelled as the single request they make.
- Routes.CommentCountsSplit: the two comment routes request slightly different URLs: `/pullRequestComments` adds `state=closed`. The lemma speaks of one page source for both, so it assumes the remote API serves both URLs the same pages.
