# delete-github-branches, modelled in Dafny

delete-github-branches lists every branch of a GitHub repository, keeps the branches
that have associated pull requests or that the include/exclude name patterns reject,
and deletes the rest (or, in dry-run mode, only reports them as deleted). A companion
command checks single branch names against the same patterns and exits with status 1
when one of them would be deleted. A formatter renders the results as a Markdown report.

This project models that core and proves what it promises:

- `strings.dfy` (module `Strings`): the JavaScript string built-ins the core uses, namely
  `split` on one character, `join`, `trim` (with ECMAScript's whitespace set) and the
  decimal rendering of a count, with their round trips.
- `seqs.dfy` (module `Seqs`): `filter`, with membership, concatenation and partition facts.
- `wrappers.dfy` (module `Wrappers`): `Option`, `Result` and `Outcome`.
- `engine.dfy` (module `GitHubBranches`): the selection rule `shouldDelete`, the paging
  clause, the shaping of each GraphQL edge, one page fetch, the paginated listing
  `getAllBranches` (an imperative loop over a cursor), the ref of a branch, and the cleanup
  run `deleteGitHubBranches` (an imperative loop that appends one record per branch).
- `check_branch.dfy` (module `CheckBranch`): `splitByComma`, the three-tier pattern
  resolution, and `run` of the single-name check.
- `markdown.dfy` (module `Markdown`): `formatMarkdown`.
- `scenario.dfy` (module `DryRunScenario`): the dry-run case of the repository's test.

The network is reduced to three parameters:

- The pattern library is a `Matcher` function. It says whether a name matches one pattern.
- The GraphQL transport is a `Query` function. It takes the paging clause spliced into the
  query and either rejects, resolves with a falsy reply, or resolves with the reply.
- Octokit's `git.deleteRef` is a `DeleteRef` function. It takes the ref and passes or fails.

The run's owner, repository, base URL and token are fixed inside those two transports.
The `Options` datatype keeps the source's `owner`, `repo` and `baseUrl` fields only to
mirror its options type. No member reads them. Its `token` field is the source's
`GITHUB_TOKEN`.
The listing and the cleanup run return ghost logs: the cursors passed to the transport,
the pages received, and the branch names handed to the deleter. Those logs are how
"the first query has no cursor", "no delete call in a dry run" and "no other branch is
touched" are stated.

Facts about the code that the model follows:

- Open pull requests are checked before the pattern rule. A branch that has pull
  requests and is also rejected by the patterns therefore gets the pull-request reason.
- There is no staleness (`stalledDays`) rule. The repository's test passes that option,
  but nothing reads it.
- The deleted ref is `refs/heads/<name>`.
- With no branch names given, the check command prints a notice and calls meow's
  `showHelp`, which ends the process with exit code 2 (its default) before any pattern
  is resolved (src/cli-check-branch.ts:54-57). `Run` models this as the `HelpExit`
  outcome.
- The default excludes are `master`, `develop` and `dev`, as in
  `src/delete-github-branches.ts:167`. The check command's help text also lists `gh-pages`
  (`src/cli-check-branch.ts:18`). The model does not settle that discrepancy and uses the
  engine's list.
- src/cli-check-branch.ts:2-7 imports `shouldDelete`, `DEFAULT_INCLUDES_BRANCH_PATTERNS`
  and `DEFAULT_EXCLUDES_BRANCH_PATTERNS` from src/delete-github-branches.ts. That file
  does not export `shouldDelete` (line 144 declares it as a local `const`) and defines no
  such constants: its defaults are the literals at lines 166-167. The model defines the
  rule and the two default lists once, in `GitHubBranches`, and the check command uses
  those definitions.

Two behaviours of the Markdown formatter are modelled exactly as written:

- The first reason line gets two quote markers (`> > `). The template writes `> ` before
  the block, and every line of the block starts with its own `> `.
- An absent reason renders as `> No reason`.

## Model

| member | source | states |
|---|---|---|
| `GitHubBranches.MatchesAny` | src/delete-github-branches.ts:154 | the `matchPatterns(...).length > 0` test holds exactly when some listed pattern matches the name |
| `GitHubBranches.ShouldDelete` | src/delete-github-branches.ts:144-160 | a name is selected exactly when no exclude pattern matches it and some include pattern does |
| `GitHubBranches.ExcludeWins` | src/delete-github-branches.ts:154-157 | a matching exclude pattern makes the rule false whatever the include list is |
| `GitHubBranches.EmptyIncludesSelectNothing` | src/delete-github-branches.ts:158-159 | with an empty include list no name is selected |
| `GitHubBranches.PatternOrderIrrelevant` | src/delete-github-branches.ts:154-159 | the selection depends only on which patterns are listed, not their order or repetition |
| `GitHubBranches.SameMembersSameMatch` | src/delete-github-branches.ts:154 | two pattern lists with the same members match the same names |
| `GitHubBranches.PagingClause` | src/delete-github-branches.ts:54-59 | the paging clause is empty exactly when there is no cursor |
| `GitHubBranches.CursorOfPagingClause` | src/delete-github-branches.ts:58 | with a cursor, the clause is ` after: "`, then the cursor, then a closing quote |
| `GitHubBranches.PagingClauseInjective` | src/delete-github-branches.ts:54-59 | distinct cursors give distinct paging clauses |
| `GitHubBranches.ToItem` | src/delete-github-branches.ts:92-97 | an edge keeps its name; a missing pull-request total becomes 0 through `?? 0`; the item has pull requests exactly when the reply reports a positive total |
| `GitHubBranches.GetBranches` | src/delete-github-branches.ts:49-102 | a transport rejection propagates; a falsy reply rejects with "Can not fetch"; otherwise the page carries the reply's page info and exactly one shaped item per edge, in order |
| `GitHubBranches.Listing` | src/delete-github-branches.ts:103-121 | the listing as a function of the transport: a failed first query fails it with that error; a first page with no next page is the whole listing; otherwise a successful listing begins with the first page's items |
| `GitHubBranches.ListingStep` | src/delete-github-branches.ts:106-118 | one query of the loop either ends the whole listing (its failure, or every item seen so far plus the last page's) or leaves the rest of the listing to the page's end cursor |
| `GitHubBranches.ListingBoundIrrelevant` | src/delete-github-branches.ts:103-121 | the listing does not depend on the termination bound: any two bounds within which the transport ends give the same listing |
| `GitHubBranches.GetAllBranches` | src/delete-github-branches.ts:103-121 | the result is the listing the transport determines, page after page from no cursor to the first page with no next page; the first query has no cursor and each later one passes the previous page's end cursor; it stops at the first page with no next page and returns all items concatenated in order; a failed page fails the whole listing with that page's error and no items |
| `GitHubBranches.CursorChainsAgree` | src/delete-github-branches.ts:105-118 | two cursor chains over one transport pass the same cursor at every step both reach |
| `GitHubBranches.PagedListingUnique` | src/delete-github-branches.ts:103-121 | the listing is determined by the transport: same queries, same pages, same result |
| `GitHubBranches.RefName` | src/delete-github-branches.ts:140 | the deleted ref is `refs/heads/` followed by the branch name |
| `GitHubBranches.RefNameInjective` | src/delete-github-branches.ts:140 | distinct branches are deleted through distinct refs |
| `GitHubBranches.DeleteBranch` | src/delete-github-branches.ts:132-142 | the deleter is asked for exactly the ref `refs/heads/` followed by the branch name, and its outcome is returned unchanged |
| `GitHubBranches.Classify` | src/delete-github-branches.ts:170-188 | a branch with open pull requests is kept, with its count, whatever the patterns say; otherwise it is deleted exactly when the selection rule holds |
| `GitHubBranches.ResultFor` | src/delete-github-branches.ts:170-212 | a record carries the branch name; it says deleted exactly when the branch is selected and it is a dry run or the delete passed; it carries an error exactly when a real delete failed; a deleted record has no reason and a kept one always has one |
| `GitHubBranches.OpenPullRequestsKept` | src/delete-github-branches.ts:172-179 | a branch with pull requests is recorded as not deleted, with the reason "It has associated PullRequests: " followed by the count |
| `GitHubBranches.PatternRejectedKept` | src/delete-github-branches.ts:181-188 | a branch without pull requests that the patterns reject is recorded as not deleted, with "It is ignored by includes/excludes patterns" |
| `GitHubBranches.DryRunReportsDeleted` | src/delete-github-branches.ts:191-204 | in a dry run a selected branch is recorded as deleted, with no reason and no error |
| `GitHubBranches.DeleteFailureContained` | src/delete-github-branches.ts:205-212 | a failed delete gives a not-deleted record with reason "Error" and the error attached |
| `GitHubBranches.DeletionTargetsExactly` | src/delete-github-branches.ts:191-200 | a delete call is made for a name exactly when a listed branch of that name is selected for deletion |
| `GitHubBranches.ProcessBranch` | src/delete-github-branches.ts:171-212 | one pass of the loop gives exactly the per-branch decision's record, and calls the deleter once, with that branch, exactly when it is selected and the run is not a dry run |
| `GitHubBranches.ProcessBranches` | src/delete-github-branches.ts:170-213 | the loop appends exactly one record per branch, in listing order, each as the per-branch decision gives it; later branches are processed after a failed delete; the deleter is called for exactly the selected branches, in order, and never in a dry run |
| `GitHubBranches.DeleteGitHubBranches` | src/delete-github-branches.ts:162-215 | a missing or empty token rejects before any query or delete; absent pattern lists take the defaults `["/^.*$/"]` and `["master","develop","dev"]`; a failed listing fails the run with that listing error, no records and no delete calls; otherwise one record per branch of the listing, in order, each the per-branch decision, and the deleter is called for exactly the selected branches, never in a dry run |
| `Strings.Split` | src/cli-check-branch.ts:47 | `split` on one character gives one more piece than there are separators, and no piece contains the separator |
| `Strings.JoinSplit` | src/cli-check-branch.ts:47 | joining the pieces of a split with the separator restores the string |
| `Strings.SplitJoin` | src/formatters/markdown.ts:23-25 | splitting a join of separator-free pieces gives the pieces back |
| `Strings.SplitNoSeparator` | src/cli-check-branch.ts:47 | a string without the separator splits into itself alone |
| `Strings.SplitAppendSeparator` | src/cli-check-branch.ts:47 | a separator-free head followed by the separator is the first piece of the split |
| `Strings.SkipLeading` | src/cli-check-branch.ts:47 | the scan stops at the first character that is not whitespace, having passed only whitespace |
| `Strings.SkipTrailing` | src/cli-check-branch.ts:47 | the backward scan stops after the last character that is not whitespace, having passed only whitespace |
| `Strings.Trim` | src/cli-check-branch.ts:47 | `trim` returns a slice of its input with only whitespace cut away, and the slice neither starts nor ends with whitespace |
| `Strings.TrimOfPadded` | src/cli-check-branch.ts:47 | whitespace, then a core that neither starts nor ends with whitespace, then whitespace: `trim` gives exactly the core |
| `Strings.TrimTrimmed` | src/cli-check-branch.ts:47 | `trim` leaves a string without surrounding whitespace unchanged |
| `Strings.TrimIdempotent` | src/cli-check-branch.ts:47 | trimming twice trims no further |
| `Strings.NatToString` | src/delete-github-branches.ts:177 | the rendered count is a non-empty string of digits without a leading zero |
| `Strings.ParseNatToString` | src/delete-github-branches.ts:177 | the rendered count reads back as the count |
| `Strings.NatToStringInjective` | src/delete-github-branches.ts:177 | distinct counts render differently |
| `Strings.Join` | src/formatters/markdown.ts:32 | `join` of no parts is empty, of one part is that part, and of two or more starts with the first part and the separator; with JoinSplit and SplitJoin it is the inverse of `split` |
| `Strings.JoinTwo` | src/cli-check-branch.ts:71 | two parts join to the first, the separator and the second |
| `Seqs.Filter` | src/cli-check-branch.ts:64-66 | `filter` keeps exactly the elements that satisfy the test, and its result is never longer than its input |
| `Seqs.FilterAppend` | src/formatters/markdown.ts:12-17 | filtering a concatenation filters each part in order, which is how `filter` keeps the original order |
| `Seqs.FilterPartition` | src/formatters/markdown.ts:12-17 | filtering with a test and with its negation splits the input with nothing lost or duplicated |
| `Seqs.FilterEmpty` | src/cli-check-branch.ts:64-67 | the filter is empty exactly when no element satisfies the test |
| `Seqs.FilterAll` | src/formatters/markdown.ts:12-17 | filtering keeps the whole sequence when every element passes |
| `CheckBranch.SplitByComma` | src/cli-check-branch.ts:46-48 | element i is the trim of the i-th comma-separated piece of the flag, and there is one element per piece, one more than there are commas; each element is free of commas and trimmed |
| `CheckBranch.SplitByCommaOfPieces` | src/cli-check-branch.ts:46-48 | a flag written as comma-free pieces joined by commas reads back as those pieces, each trimmed |
| `CheckBranch.SplitByCommaOfTwo` | src/cli-check-branch.ts:46-48 | a flag of two comma-free pieces reads back as those two pieces, each trimmed |
| `CheckBranch.SplitByCommaDropsSpaces` | src/cli-check-branch.ts:46-48 | two trimmed patterns written with whitespace after the comma, as in `master, develop`, read back as exactly those two patterns |
| `CheckBranch.SplitByCommaOfJoin` | src/cli-check-branch.ts:46-48 | a non-empty list of trimmed, comma-free patterns written as one comma-separated flag reads back as the same list |
| `CheckBranch.ResolvePatterns` | src/cli-check-branch.ts:58-63 | a non-empty flag, split by comma, wins over the config value, which wins over the default |
| `CheckBranch.MatchedNames` | src/cli-check-branch.ts:64-66 | every reported name is a given name the selection rule would delete, and every such given name is reported |
| `CheckBranch.MatchedNamesExactly` | src/cli-check-branch.ts:64-66 | the matched names are exactly the input names the rule selects, in input order |
| `CheckBranch.Run` | src/cli-check-branch.ts:50-95 | with no input names the process ends through `showHelp` with exit code 2 before any pattern is resolved; otherwise the exit status is 1 exactly when some input name is selected, and 0 otherwise; stderr is null; on status 1 the output is the matched names joined by "," followed by the matched message and the patterns' JSON; on status 0 it is all input names joined by "," followed by the not-matched message and the JSON |
| `Markdown.ReportPartition` | src/formatters/markdown.ts:12-17 | every result is in exactly one section: "Deleted Branches" holds exactly the deleted results and "Active Branches" the others; together they are the results, each section in the original order |
| `Markdown.ReasonText` | src/formatters/markdown.ts:20-27 | an absent or empty reason renders as "No reason"; otherwise the block has as many lines as the reason, each the reason's line after "> " |
| `Markdown.FormatResult` | src/formatters/markdown.ts:18-28 | an entry starts with `- [name](https://github.com/owner/repo/tree/name)`, then a newline, `> ` and the reason block |
| `Markdown.Section` | src/formatters/markdown.ts:32-36 | a section of no results is empty, of one result is its entry, and of more starts with the first entry and a newline |
| `Markdown.FormatMarkdown` | src/formatters/markdown.ts:3-39 | the report is the "Deleted Branches" heading, then the section of the deleted results, then the "Active Branches" heading, then the section of the others, then the closing lines |
| `Markdown.SectionShape` | src/formatters/markdown.ts:32 | entries are joined by newlines: an empty section has no entry text, and a section of one result is that result's entry |
| `Markdown.ReportOfNoResults` | src/formatters/markdown.ts:29-38 | a report of no results is just the two headings with their blank lines |
| `Markdown.OneSidedSections` | src/formatters/markdown.ts:12-17 | when every result was deleted the deleted section lists all of them and the active section is empty, and the other way round when none was deleted |
| `DryRunScenario.IgnoredInCase` | test/delete-github-branches.test.ts:9-18 | in the test's configuration, a branch without pull requests that an exclude pattern matches is recorded as ignored |
| `DryRunScenario.DryRunCase` | test/delete-github-branches.test.ts:5-21 | in the test's dry run, develop, feature/a, feature/b and master are ignored by the patterns and will-be-deleted is reported deleted with no reason |

## Left out

- The GraphQL transport and Octokit's `deleteRef` call (src/delete-github-branches.ts:61-88,
  133-141). These are network I/O and are the `Query` and `DeleteRef` parameters. The text
  of the query, the page size of 100, the authorization header and the `baseUrl` default
  are not modelled.
- The regular-expression semantics of `@textlint/regexp-string-matcher`. It is a foreign
  library and becomes the `Matcher` parameter.
- The `Matcher` parameter is total, so a pattern library that throws is not modelled. In
  the source, a pattern whose regular expression cannot be built (for example `"/[/"`)
  makes `matchPatterns` throw. One place that throw surfaces is inside `shouldDelete`,
  which is called at src/delete-github-branches.ts:181, outside the `try` of lines
  191-212; there it rejects the whole `deleteGitHubBranches` run after the listing, with
  no records, and is not contained the way a failed delete is. The other is the filter
  at src/cli-check-branch.ts:64-66, where the same throw rejects `run`.
- Promises and `await`. Execution is modelled as a sequence of calls. A rejected promise
  becomes a `Failure`.
- GetAllBranches: requires a ghost bound within which the transport reports a last page
  or fails. The source loop keeps querying for as long as the transport reports a next
  page, so a transport that does that forever is not covered.
- DeleteGitHubBranches: requires the same bound whenever the token is present, for the
  same reason.
- `edge.node` is assumed present. A missing node (a missing branch name) is not modelled.
  A pull-request count is a non-negative integer.
- The JSON dump of the resolved patterns in the check command's output
  (src/cli-check-branch.ts:72-79, 86-93) and `src/formatters/json.ts`. Both rely on
  foreign serialisation. The dump is the `PatternsJson` parameter.
- Loading the config file (`src/config-parse.ts`, src/cli-check-branch.ts:51-53). This is
  file I/O. The parsed file is the `Config` parameter, and an empty `Config` stands for
  running without `--config`.
- The notice and the help text printed for empty input (src/cli-check-branch.ts:54-57).
  They are console output. The process exit that follows is modelled as `HelpExit`.
  Its code, 2, is meow's default and is taken from that library's behaviour, not from
  this repository.
- `src/cli.ts` (flag declarations and the mapping of flags to options; its own
  `splitByComma` is the same as the one modelled) and `bin/cmd.js` (process exit and
  console glue).
- Unicode beyond the characters `trim` removes: strings are sequences of code points,
  and there is no normalisation.
