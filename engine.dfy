/** The branch-cleanup engine of delete-github-branches: the include/exclude
    selection rule, the paginated branch listing, the shaping of each listed
    branch, and the per-branch loop that keeps or deletes branches.

    The network is cut out at three narrow interfaces, each a parameter:
    the regular-expression-like pattern matcher, the GraphQL query transport
    (given the paging clause of the query) and the ref-deletion call (given the
    fully qualified ref). */
module GitHubBranches {
  import opened Wrappers
  import opened Strings

  /** An error value, identified by its message. */
  datatype Error = Error(message: string)

  /** Options of one cleanup run, mirroring the source's options type. Absent pattern
      lists fall back to the defaults. `token` is the source's `GITHUB_TOKEN`, which is
      JavaScript-falsy when absent or empty. `owner`, `repo` and `baseUrl` are read only
      by the two transports, which are parameters here. */
  datatype Options = Options(
    owner: string,
    repo: string,
    includesBranchPatterns: Option<seq<string>>,
    excludesBranchPatterns: Option<seq<string>>,
    baseUrl: Option<string>,
    token: Option<string>,
    dryRun: bool)

  /** One listed branch: its name and the number of its associated pull requests. */
  datatype BranchItem = BranchItem(branchName: string, associatedPullRequests: nat)

  /** The connection cursor of one page of the listing. */
  datatype PageInfo = PageInfo(hasNextPage: bool, endCursor: string)

  /** One page of the listing, after shaping. */
  datatype BranchResponse = BranchResponse(pageInfo: PageInfo, items: seq<BranchItem>)

  /** One edge of the GraphQL reply: the branch name and, when the reply carries
      it, the total count of associated pull requests. */
  datatype RawEdge = RawEdge(branchName: string, totalCount: Option<nat>)

  /** The `repository.refs` part of one GraphQL reply. */
  datatype RawResponse = RawResponse(edges: seq<RawEdge>, pageInfo: PageInfo)

  /** The GraphQL transport for this run's owner, repo, base URL and token, given the
      paging clause spliced into the query: it rejects (`Failure`), resolves with a
      falsy reply (`Success(None)`) or resolves with the reply. */
  type Query = string -> Result<Option<RawResponse>, Error>

  /** The `git.deleteRef` call for this run's owner, repo, base URL and token, given the ref. */
  type DeleteRef = string -> Outcome<Error>

  /** The pattern library: does the branch name (first) match the pattern (second)? */
  type Matcher = (string, string) -> bool

  /** The record appended for one branch. */
  datatype DeleteBranchResult = DeleteBranchResult(
    branchName: string,
    deleted: bool,
    reason: Option<string>,
    error: Option<Error>)

  /** Match every branch name. */
  const DefaultIncludesBranchPatterns: seq<string> := ["/^.*$/"]
  /** Protected branch names. */
  const DefaultExcludesBranchPatterns: seq<string> := ["master", "develop", "dev"]

  const IgnoredReason: string := "It is ignored by includes/excludes patterns"
  const OpenPullRequestsReason: string := "It has associated PullRequests: "
  const DeleteErrorReason: string := "Error"
  const CanNotFetch: Error := Error("Can not fetch")
  const TokenMissingError: Error := Error("GITHUB_TOKEN is missing")
  const RefPrefix: string := "refs/heads/"
  const AfterPrefix: string := " after: \""

  // ---------------------------------------------------------------------------
  // Branch selection rule

  /** `matchPatterns(name, patterns).length > 0`. */
  function MatchesAny(m: Matcher, name: string, patterns: seq<string>): (r: bool)
    ensures r <==> exists i :: 0 <= i < |patterns| && m(name, patterns[i])
  {
    if patterns == [] then false
    else m(name, patterns[0]) || MatchesAny(m, name, patterns[1..])
  }

  /** A branch is selected for deletion when no exclude pattern matches it and some
      include pattern does. */
  function ShouldDelete(m: Matcher, name: string, includes: seq<string>, excludes: seq<string>): (r: bool)
    ensures r <==> (forall i :: 0 <= i < |excludes| ==> !m(name, excludes[i]))
                   && (exists j :: 0 <= j < |includes| && m(name, includes[j]))
  {
    var shouldNotDelete := MatchesAny(m, name, excludes);
    if shouldNotDelete then false else MatchesAny(m, name, includes)
  }

  /** An exclude match protects a branch whatever the include list says. */
  lemma ExcludeWins(m: Matcher, name: string, includes: seq<string>, excludes: seq<string>, i: nat)
    requires i < |excludes| && m(name, excludes[i])
    ensures !ShouldDelete(m, name, includes, excludes)
  {
  }

  /** With no include pattern nothing is selected. */
  lemma EmptyIncludesSelectNothing(m: Matcher, name: string, excludes: seq<string>)
    ensures !ShouldDelete(m, name, [], excludes)
  {
  }

  /** Only which patterns are listed matters, not their order or repetition. */
  lemma {:induction false} PatternOrderIrrelevant(m: Matcher, name: string,
                                                  includes: seq<string>, excludes: seq<string>,
                                                  includes': seq<string>, excludes': seq<string>)
    requires forall p :: p in includes <==> p in includes'
    requires forall p :: p in excludes <==> p in excludes'
    ensures ShouldDelete(m, name, includes, excludes) == ShouldDelete(m, name, includes', excludes')
  {
    SameMembersSameMatch(m, name, includes, includes');
    SameMembersSameMatch(m, name, excludes, excludes');
  }

  lemma {:induction false} SameMembersSameMatch(m: Matcher, name: string, ps: seq<string>, qs: seq<string>)
    requires forall p :: p in ps <==> p in qs
    ensures MatchesAny(m, name, ps) == MatchesAny(m, name, qs)
  {
    if MatchesAny(m, name, ps) {
      var i :| 0 <= i < |ps| && m(name, ps[i]);
      assert ps[i] in qs;
      var j :| 0 <= j < |qs| && qs[j] == ps[i];
    }
    if MatchesAny(m, name, qs) {
      var j :| 0 <= j < |qs| && m(name, qs[j]);
      assert qs[j] in ps;
      var i :| 0 <= i < |ps| && ps[i] == qs[j];
    }
  }

  // ---------------------------------------------------------------------------
  // One page of the listing

  /** The paging clause spliced into the `refs(...)` arguments of the query. */
  function PagingClause(cursor: Option<string>): (clause: string)
    ensures cursor.None? <==> clause == ""
  {
    match cursor
    case None => ""
    case Some(c) => AfterPrefix + c + "\""
  }

  /** The cursor can be read back from the paging clause, so distinct cursors ask for
      distinct pages. */
  lemma CursorOfPagingClause(c: string)
    ensures |PagingClause(Some(c))| == |AfterPrefix| + |c| + 1
    ensures PagingClause(Some(c))[..|AfterPrefix|] == AfterPrefix
    ensures PagingClause(Some(c))[|AfterPrefix|..|AfterPrefix| + |c|] == c
    ensures PagingClause(Some(c))[|AfterPrefix| + |c|] == '"'
  {
  }

  lemma PagingClauseInjective(a: Option<string>, b: Option<string>)
    ensures PagingClause(a) == PagingClause(b) ==> a == b
  {
    if a.Some? && b.Some? && PagingClause(a) == PagingClause(b) {
      CursorOfPagingClause(a.value);
      CursorOfPagingClause(b.value);
    }
  }

  /** One edge shaped into a branch item: the name is kept and a missing pull-request
      count becomes 0, so a branch counts as having pull requests exactly when the
      reply reports a positive count. */
  function ToItem(edge: RawEdge): (item: BranchItem)
    ensures item.branchName == edge.branchName
    ensures edge.totalCount == None ==> item.associatedPullRequests == 0
    ensures edge.totalCount.Some? ==> item.associatedPullRequests == edge.totalCount.value
    ensures item.associatedPullRequests > 0 <==> edge.totalCount.Some? && edge.totalCount.value > 0
  {
    BranchItem(edge.branchName, edge.totalCount.GetOr(0))
  }

  /** `getBranches`: one query for the page after `cursor`. A rejection of the transport
      propagates and a falsy reply rejects with "Can not fetch"; otherwise the page
      carries the reply's page info and one shaped item per edge, in order. */
  function GetBranches(query: Query, cursor: Option<string>): (r: Result<BranchResponse, Error>)
    ensures query(PagingClause(cursor)).Failure? ==> r == Failure(query(PagingClause(cursor)).error)
    ensures query(PagingClause(cursor)) == Success(None) ==> r == Failure(CanNotFetch)
    ensures r.Success? <==> query(PagingClause(cursor)).Success? && query(PagingClause(cursor)).value.Some?
    ensures r.Success? ==>
              var raw := query(PagingClause(cursor)).value.value;
              && r.value.pageInfo == raw.pageInfo
              && |r.value.items| == |raw.edges|
              && forall i :: 0 <= i < |raw.edges| ==> r.value.items[i] == ToItem(raw.edges[i])
  {
    match query(PagingClause(cursor))
    case Failure(e) => Failure(e)
    case Success(None) => Failure(CanNotFetch)
    case Success(Some(raw)) =>
      Success(BranchResponse(raw.pageInfo, seq(|raw.edges|, i requires 0 <= i < |raw.edges| => ToItem(raw.edges[i]))))
  }

  // ---------------------------------------------------------------------------
  // The whole listing

  /** Following end cursors from `cursor`, the transport fails or reports a last page
      within `n` queries. The source loops for as long as the transport reports
      another page; this bound is what makes the model's loop terminate. */
  ghost predicate EndsWithin(query: Query, cursor: Option<string>, n: nat)
    decreases n
  {
    n > 0 &&
    match GetBranches(query, cursor)
    case Failure(_) => true
    case Success(page) =>
      !page.pageInfo.hasNextPage || EndsWithin(query, Some(page.pageInfo.endCursor), n - 1)
  }

  /** The items of the pages, page after page. */
  function Flatten(pages: seq<BranchResponse>): seq<BranchItem> {
    if pages == [] then [] else Flatten(pages[..|pages| - 1]) + pages[|pages| - 1].items
  }

  /** `cursors` are the cursors passed to the queries in call order and `pages` the
      pages that came back: the first query has no cursor, each later one passes the
      previous page's end cursor, and every page before the last query reported a
      next page. */
  ghost predicate CursorChain(query: Query, cursors: seq<Option<string>>, pages: seq<BranchResponse>)
  {
    && |cursors| >= 1
    && |pages| <= |cursors| <= |pages| + 1
    && cursors[0] == None
    && (forall k :: 0 <= k < |pages| ==> Fetched(query, cursors, pages, k))
    && (forall k :: 0 <= k < |cursors| - 1 ==> Linked(cursors, pages, k))
  }

  /** The `k`-th query, with the `k`-th cursor, returned the `k`-th page. */
  ghost predicate Fetched(query: Query, cursors: seq<Option<string>>, pages: seq<BranchResponse>, k: nat) {
    k < |cursors| && k < |pages| && GetBranches(query, cursors[k]) == Success(pages[k])
  }

  /** The `k`-th page reported a next page, and the next query passed its end cursor. */
  ghost predicate Linked(cursors: seq<Option<string>>, pages: seq<BranchResponse>, k: nat) {
    k + 1 < |cursors| && k < |pages|
    && pages[k].pageInfo.hasNextPage && cursors[k + 1] == Some(pages[k].pageInfo.endCursor)
  }

  /** The listing of a chain: on success every query returned a page, the last page
      reported no next page and the listing is the concatenation of all items; on
      failure the last query failed and no items are returned. */
  ghost predicate PagedListing(query: Query, cursors: seq<Option<string>>, pages: seq<BranchResponse>,
                               r: Result<seq<BranchItem>, Error>)
  {
    && CursorChain(query, cursors, pages)
    && match r
       case Success(items) =>
         |cursors| == |pages| && !pages[|pages| - 1].pageInfo.hasNextPage && items == Flatten(pages)
       case Failure(e) =>
         |cursors| == |pages| + 1 && GetBranches(query, cursors[|cursors| - 1]) == Failure(e)
  }

  /** `items` followed by a listing's items; a failed listing stays failed. */
  function Prepend(items: seq<BranchItem>, rest: Result<seq<BranchItem>, Error>): (r: Result<seq<BranchItem>, Error>)
    ensures r.Success? <==> rest.Success?
    ensures rest.Failure? ==> r.error == rest.error
    ensures rest.Success? ==> |r.value| == |items| + |rest.value| && r.value[..|items|] == items
                              && r.value[|items|..] == rest.value
  {
    match rest
    case Success(later) => Success(items + later)
    case Failure(e) => Failure(e)
  }

  lemma PrependAppend(a: seq<BranchItem>, b: seq<BranchItem>, rest: Result<seq<BranchItem>, Error>)
    ensures Prepend(a, Prepend(b, rest)) == Prepend(a + b, rest)
  {
    if rest.Success? {
      assert a + (b + rest.value) == (a + b) + rest.value;
    }
  }

  /** The listing from `cursor` as a function of the transport: the first failed query
      fails the listing, and otherwise the items of every page up to the first page
      that reports no next page, in order. */
  function Listing(query: Query, cursor: Option<string>, n: nat): (r: Result<seq<BranchItem>, Error>)
    requires EndsWithin(query, cursor, n)
    ensures GetBranches(query, cursor).Failure? ==> r == Failure(GetBranches(query, cursor).error)
    ensures GetBranches(query, cursor).Success? && !GetBranches(query, cursor).value.pageInfo.hasNextPage ==>
              r == Success(GetBranches(query, cursor).value.items)
    ensures GetBranches(query, cursor).Success? && r.Success? ==>
              var first := GetBranches(query, cursor).value.items;
              |first| <= |r.value| && r.value[..|first|] == first
    decreases n
  {
    match GetBranches(query, cursor)
    case Failure(e) => Failure(e)
    case Success(page) =>
      if !page.pageInfo.hasNextPage then Success(page.items)
      else Prepend(page.items, Listing(query, Some(page.pageInfo.endCursor), n - 1))
  }

  /** The bound only makes the listing terminate: every bound within which the
      transport ends gives the same listing. */
  lemma {:induction false} ListingBoundIrrelevant(query: Query, cursor: Option<string>, n1: nat, n2: nat)
    requires EndsWithin(query, cursor, n1) && EndsWithin(query, cursor, n2)
    ensures Listing(query, cursor, n1) == Listing(query, cursor, n2)
    decreases n1
  {
    match GetBranches(query, cursor)
    case Failure(_) =>
    case Success(page) =>
      if page.pageInfo.hasNextPage {
        ListingBoundIrrelevant(query, Some(page.pageInfo.endCursor), n1 - 1, n2 - 1);
      }
  }

  /** One query of the listing loop: with `done` collected so far, the query at `cursor`
      either ends the whole listing or leaves the rest to the next cursor. */
  lemma ListingStep(query: Query, bound: nat, done: seq<BranchItem>, cursor: Option<string>, fuel: nat)
    requires EndsWithin(query, cursor, fuel) && EndsWithin(query, None, bound)
    requires Listing(query, None, bound) == Prepend(done, Listing(query, cursor, fuel))
    ensures GetBranches(query, cursor).Failure? ==>
              Listing(query, None, bound) == Failure(GetBranches(query, cursor).error)
    ensures GetBranches(query, cursor).Success? && !GetBranches(query, cursor).value.pageInfo.hasNextPage ==>
              Listing(query, None, bound) == Success(done + GetBranches(query, cursor).value.items)
    ensures GetBranches(query, cursor).Success? && GetBranches(query, cursor).value.pageInfo.hasNextPage ==>
              var page := GetBranches(query, cursor).value;
              && fuel > 0
              && EndsWithin(query, Some(page.pageInfo.endCursor), fuel - 1)
              && Listing(query, None, bound) ==
                 Prepend(done + page.items, Listing(query, Some(page.pageInfo.endCursor), fuel - 1))
  {
    if GetBranches(query, cursor).Success? && GetBranches(query, cursor).value.pageInfo.hasNextPage {
      var page := GetBranches(query, cursor).value;
      PrependAppend(done, page.items, Listing(query, Some(page.pageInfo.endCursor), fuel - 1));
    }
  }

  /** The loop state of `getAllBranches` before its next query: every query so far
      returned a page with a next page, each later query passed the previous page's
      end cursor, `lastCursor` is the cursor the next query will pass and `allResults`
      holds the items seen so far. */
  ghost predicate ChainSoFar(query: Query, cursors: seq<Option<string>>, pages: seq<BranchResponse>,
                             lastCursor: Option<string>, allResults: seq<BranchItem>)
  {
    && |cursors| == |pages|
    && (forall k :: 0 <= k < |pages| ==>
          GetBranches(query, cursors[k]) == Success(pages[k]) && pages[k].pageInfo.hasNextPage)
    && (forall k :: 0 <= k < |pages| - 1 ==> cursors[k + 1] == Some(pages[k].pageInfo.endCursor))
    && (|pages| == 0 ==> lastCursor == None)
    && (|pages| > 0 ==> cursors[0] == None && lastCursor == Some(pages[|pages| - 1].pageInfo.endCursor))
    && allResults == Flatten(pages)
  }

  /** A failed query at `lastCursor` ends the chain with that failure. */
  lemma ChainFails(query: Query, cursors: seq<Option<string>>, pages: seq<BranchResponse>,
                   lastCursor: Option<string>, allResults: seq<BranchItem>)
    requires ChainSoFar(query, cursors, pages, lastCursor, allResults)
    requires GetBranches(query, lastCursor).Failure?
    ensures PagedListing(query, cursors + [lastCursor], pages, Failure(GetBranches(query, lastCursor).error))
  {
    var c := cursors + [lastCursor];
    forall k | 0 <= k < |pages| ensures Fetched(query, c, pages, k) {
      assert c[k] == cursors[k];
    }
    forall k | 0 <= k < |c| - 1 ensures Linked(c, pages, k) {
    }
  }

  /** A page fetched at `lastCursor` either ends the chain with every item seen, or
      extends it to that page's end cursor. */
  lemma ChainExtends(query: Query, cursors: seq<Option<string>>, pages: seq<BranchResponse>,
                     lastCursor: Option<string>, allResults: seq<BranchItem>, page: BranchResponse)
    requires ChainSoFar(query, cursors, pages, lastCursor, allResults)
    requires GetBranches(query, lastCursor) == Success(page)
    ensures !page.pageInfo.hasNextPage ==>
              PagedListing(query, cursors + [lastCursor], pages + [page], Success(allResults + page.items))
    ensures page.pageInfo.hasNextPage ==>
              ChainSoFar(query, cursors + [lastCursor], pages + [page], Some(page.pageInfo.endCursor),
                         allResults + page.items)
  {
    var c, p := cursors + [lastCursor], pages + [page];
    assert p[..|pages|] == pages;
    forall k | 0 <= k < |p| ensures Fetched(query, c, p, k) {
    }
    forall k | 0 <= k < |c| - 1 ensures Linked(c, p, k) {
    }
  }

  /** `getAllBranches`: query page after page until a page reports no next page. */
  method GetAllBranches(query: Query, ghost bound: nat)
    returns (r: Result<seq<BranchItem>, Error>, ghost cursors: seq<Option<string>>, ghost pages: seq<BranchResponse>)
    requires EndsWithin(query, None, bound)
    ensures r == Listing(query, None, bound)
    ensures PagedListing(query, cursors, pages, r)
  {
    r := Success([]);
    var allResults: seq<BranchItem> := [];
    var lastCursor: Option<string> := None;
    cursors, pages := [], [];
    ghost var fuel := bound;
    while true
      invariant EndsWithin(query, lastCursor, fuel)
      invariant ChainSoFar(query, cursors, pages, lastCursor, allResults)
      invariant Listing(query, None, bound) == Prepend(allResults, Listing(query, lastCursor, fuel))
      decreases fuel
    {
      ListingStep(query, bound, allResults, lastCursor, fuel);
      var result := GetBranches(query, lastCursor);
      if result.Failure? {
        ChainFails(query, cursors, pages, lastCursor, allResults);
        cursors := cursors + [lastCursor];
        r := Failure(result.error);
        return;
      }
      var page := result.value;
      ChainExtends(query, cursors, pages, lastCursor, allResults, page);
      cursors, pages := cursors + [lastCursor], pages + [page];
      allResults := allResults + page.items;
      if !page.pageInfo.hasNextPage {
        r := Success(allResults);
        return;
      }
      lastCursor := Some(page.pageInfo.endCursor);
      fuel := fuel - 1;
    }
  }

  /** Two chains over one transport pass the same cursor at every step both reach. */
  lemma {:induction false} CursorChainsAgree(query: Query,
                                             c1: seq<Option<string>>, p1: seq<BranchResponse>,
                                             c2: seq<Option<string>>, p2: seq<BranchResponse>, k: nat)
    requires CursorChain(query, c1, p1) && CursorChain(query, c2, p2)
    requires k < |c1| && k < |c2|
    ensures c1[k] == c2[k]
  {
    if k > 0 {
      CursorChainsAgree(query, c1, p1, c2, p2, k - 1);
      assert Fetched(query, c1, p1, k - 1) && Fetched(query, c2, p2, k - 1);
      assert Linked(c1, p1, k - 1) && Linked(c2, p2, k - 1);
    }
  }

  /** The listing is determined by the transport: any two runs issue the same queries,
      see the same pages and return the same result. */
  lemma PagedListingUnique(query: Query,
                           c1: seq<Option<string>>, p1: seq<BranchResponse>, r1: Result<seq<BranchItem>, Error>,
                           c2: seq<Option<string>>, p2: seq<BranchResponse>, r2: Result<seq<BranchItem>, Error>)
    requires PagedListing(query, c1, p1, r1) && PagedListing(query, c2, p2, r2)
    ensures c1 == c2 && p1 == p2 && r1 == r2
  {
    var n := if |c1| < |c2| then |c1| else |c2|;
    forall k | 0 <= k < n ensures c1[k] == c2[k] {
      CursorChainsAgree(query, c1, p1, c2, p2, k);
    }
    forall k | 0 <= k < |p1| && k < |p2| ensures p1[k] == p2[k] {
      assert Fetched(query, c1, p1, k) && Fetched(query, c2, p2, k);
    }
    if |c1| < |c2| {
      var k: nat := |c1| - 1;
      ghost var link, page1, page2 := Linked(c2, p2, k), Fetched(query, c1, p1, k), Fetched(query, c2, p2, k);
      assert false;
    } else if |c2| < |c1| {
      var k: nat := |c2| - 1;
      ghost var link, page1, page2 := Linked(c1, p1, k), Fetched(query, c1, p1, k), Fetched(query, c2, p2, k);
      assert false;
    } else if r1.Success? != r2.Success? {
      var k: nat := |c1| - 1;
      ghost var page1, page2 := Fetched(query, c1, p1, k), Fetched(query, c2, p2, k);
      assert false;
    }
  }

  // ---------------------------------------------------------------------------
  // Deleting one branch

  /** The fully qualified ref of a branch. */
  function RefName(branchName: string): (ref: string)
    ensures |ref| == |RefPrefix| + |branchName|
    ensures ref[..|RefPrefix|] == RefPrefix && ref[|RefPrefix|..] == branchName
  {
    RefPrefix + branchName
  }

  /** Distinct branches are deleted through distinct refs. */
  lemma RefNameInjective(a: string, b: string)
    ensures RefName(a) == RefName(b) ==> a == b
  {
  }

  /** `deleteBranch`: delete the ref of the branch. */
  function DeleteBranch(deleteRef: DeleteRef, branchName: string): (outcome: Outcome<Error>)
    ensures outcome == deleteRef(RefPrefix + branchName)
  {
    deleteRef(RefName(branchName))
  }

  // ---------------------------------------------------------------------------
  // The per-branch decision

  /** How the loop disposes of a branch, in the order the code checks: open pull
      requests first, then the pattern rule. */
  datatype Verdict = KeepOpenPullRequests(count: nat) | KeepByPatterns | Delete

  function Classify(m: Matcher, includes: seq<string>, excludes: seq<string>, branch: BranchItem): (v: Verdict)
    ensures v.KeepOpenPullRequests? <==> branch.associatedPullRequests > 0
    ensures v.KeepOpenPullRequests? ==> v.count == branch.associatedPullRequests
    ensures v == Delete <==>
              branch.associatedPullRequests == 0 && ShouldDelete(m, branch.branchName, includes, excludes)
  {
    if branch.associatedPullRequests > 0 then KeepOpenPullRequests(branch.associatedPullRequests)
    else if !ShouldDelete(m, branch.branchName, includes, excludes) then KeepByPatterns
    else Delete
  }

  /** The record the loop appends for one branch. */
  function ResultFor(m: Matcher, includes: seq<string>, excludes: seq<string>, dryRun: bool,
                     deleteRef: DeleteRef, branch: BranchItem): (res: DeleteBranchResult)
    ensures res.branchName == branch.branchName
    ensures res.deleted <==>
              Classify(m, includes, excludes, branch) == Delete
              && (dryRun || DeleteBranch(deleteRef, branch.branchName) == Pass)
    ensures res.error.Some? <==>
              Classify(m, includes, excludes, branch) == Delete
              && !dryRun && DeleteBranch(deleteRef, branch.branchName).Fail?
    ensures res.deleted ==> res.reason == None && res.error == None
    ensures !res.deleted ==> res.reason.Some?
  {
    match Classify(m, includes, excludes, branch)
    case KeepOpenPullRequests(n) =>
      DeleteBranchResult(branch.branchName, false, Some(OpenPullRequestsReason + NatToString(n)), None)
    case KeepByPatterns =>
      DeleteBranchResult(branch.branchName, false, Some(IgnoredReason), None)
    case Delete =>
      var outcome := if dryRun then Pass else DeleteBranch(deleteRef, branch.branchName);
      match outcome
      case Pass => DeleteBranchResult(branch.branchName, true, None, None)
      case Fail(e) => DeleteBranchResult(branch.branchName, false, Some(DeleteErrorReason), Some(e))
  }

  /** A branch with open pull requests is kept, with the count in the reason. */
  lemma OpenPullRequestsKept(m: Matcher, includes: seq<string>, excludes: seq<string>, dryRun: bool,
                             deleteRef: DeleteRef, branch: BranchItem)
    requires branch.associatedPullRequests > 0
    ensures ResultFor(m, includes, excludes, dryRun, deleteRef, branch)
            == DeleteBranchResult(branch.branchName, false,
                                  Some(OpenPullRequestsReason + NatToString(branch.associatedPullRequests)), None)
  {
  }

  /** A branch without pull requests that the patterns reject is kept as ignored. */
  lemma PatternRejectedKept(m: Matcher, includes: seq<string>, excludes: seq<string>, dryRun: bool,
                            deleteRef: DeleteRef, branch: BranchItem)
    requires branch.associatedPullRequests == 0
    requires !ShouldDelete(m, branch.branchName, includes, excludes)
    ensures ResultFor(m, includes, excludes, dryRun, deleteRef, branch)
            == DeleteBranchResult(branch.branchName, false, Some(IgnoredReason), None)
  {
  }

  /** In dry-run mode a selected branch is reported deleted, with no reason. */
  lemma DryRunReportsDeleted(m: Matcher, includes: seq<string>, excludes: seq<string>,
                             deleteRef: DeleteRef, branch: BranchItem)
    requires Classify(m, includes, excludes, branch) == Delete
    ensures ResultFor(m, includes, excludes, true, deleteRef, branch)
            == DeleteBranchResult(branch.branchName, true, None, None)
  {
  }

  /** A failed delete becomes data: not deleted, reason "Error", the error attached. */
  lemma DeleteFailureContained(m: Matcher, includes: seq<string>, excludes: seq<string>,
                               deleteRef: DeleteRef, branch: BranchItem, e: Error)
    requires Classify(m, includes, excludes, branch) == Delete
    requires deleteRef(RefName(branch.branchName)) == Fail(e)
    ensures ResultFor(m, includes, excludes, false, deleteRef, branch)
            == DeleteBranchResult(branch.branchName, false, Some(DeleteErrorReason), Some(e))
  {
  }

  /** The names of the branches selected for deletion, in listing order: the delete
      calls of a run that is not a dry run. */
  function DeletionTargets(m: Matcher, includes: seq<string>, excludes: seq<string>, branches: seq<BranchItem>): seq<string> {
    if branches == [] then []
    else
      var last := branches[|branches| - 1];
      DeletionTargets(m, includes, excludes, branches[..|branches| - 1])
      + (if Classify(m, includes, excludes, last) == Delete then [last.branchName] else [])
  }

  /** Taking one more branch of the listing adds its name exactly when it is selected. */
  lemma DeletionTargetsStep(m: Matcher, includes: seq<string>, excludes: seq<string>,
                            branches: seq<BranchItem>, i: nat)
    requires i < |branches|
    ensures DeletionTargets(m, includes, excludes, branches[..i + 1])
            == DeletionTargets(m, includes, excludes, branches[..i])
               + (if Classify(m, includes, excludes, branches[i]) == Delete then [branches[i].branchName] else [])
  {
    assert branches[..i + 1][..i] == branches[..i];
  }

  /** A delete call is made for a name exactly when some listed branch of that name was
      selected for deletion. */
  lemma {:induction false} DeletionTargetsExactly(m: Matcher, includes: seq<string>, excludes: seq<string>,
                                                  branches: seq<BranchItem>, name: string)
    ensures name in DeletionTargets(m, includes, excludes, branches) <==>
              exists i :: 0 <= i < |branches| && branches[i].branchName == name
                          && Classify(m, includes, excludes, branches[i]) == Delete
  {
    if branches != [] {
      var init := branches[..|branches| - 1];
      DeletionTargetsExactly(m, includes, excludes, init, name);
      if exists i :: 0 <= i < |branches| && branches[i].branchName == name
                     && Classify(m, includes, excludes, branches[i]) == Delete {
        var i :| 0 <= i < |branches| && branches[i].branchName == name
                 && Classify(m, includes, excludes, branches[i]) == Delete;
        if i < |init| {
          assert init[i] == branches[i];
        }
      }
    }
  }

  // ---------------------------------------------------------------------------
  // The cleanup run

  predicate TokenMissing(token: Option<string>) {
    token.None? || token.value == ""
  }

  function Includes(options: Options): seq<string> {
    options.includesBranchPatterns.GetOr(DefaultIncludesBranchPatterns)
  }

  function Excludes(options: Options): seq<string> {
    options.excludesBranchPatterns.GetOr(DefaultExcludesBranchPatterns)
  }

  /** One pass of the `for (const branch of branches)` loop of `deleteGitHubBranches`:
      the record for `branch`, and `deleteCalls` logs the name passed to the deleter,
      if any. */
  method ProcessBranch(branch: BranchItem, m: Matcher, includesBranchPatterns: seq<string>,
                       excludesBranchPatterns: seq<string>, dryRun: bool, deleteRef: DeleteRef)
    returns (record: DeleteBranchResult, ghost deleteCalls: seq<string>)
    ensures record == ResultFor(m, includesBranchPatterns, excludesBranchPatterns, dryRun, deleteRef, branch)
    ensures deleteCalls == if !dryRun && Classify(m, includesBranchPatterns, excludesBranchPatterns, branch) == Delete
                           then [branch.branchName] else []
  {
    deleteCalls := [];
    if branch.associatedPullRequests > 0 {
      record := DeleteBranchResult(branch.branchName, false,
                                   Some(OpenPullRequestsReason + NatToString(branch.associatedPullRequests)), None);
      return;
    }
    if !ShouldDelete(m, branch.branchName, includesBranchPatterns, excludesBranchPatterns) {
      record := DeleteBranchResult(branch.branchName, false, Some(IgnoredReason), None);
      return;
    }
    var outcome: Outcome<Error> := Pass;
    if !dryRun {
      outcome := DeleteBranch(deleteRef, branch.branchName);
      deleteCalls := [branch.branchName];
    }
    match outcome
    case Pass =>
      record := DeleteBranchResult(branch.branchName, true, None, None);
    case Fail(e) =>
      record := DeleteBranchResult(branch.branchName, false, Some(DeleteErrorReason), Some(e));
  }

  /** The `for (const branch of branches)` loop of `deleteGitHubBranches`: one record per
      branch, in order; the deleter is called only for selected branches and never in a
      dry run, and a failed delete is recorded and the loop goes on. */
  method ProcessBranches(branches: seq<BranchItem>, m: Matcher, includesBranchPatterns: seq<string>,
                         excludesBranchPatterns: seq<string>, dryRun: bool, deleteRef: DeleteRef)
    returns (results: seq<DeleteBranchResult>, ghost deleteCalls: seq<string>)
    ensures |results| == |branches|
    ensures forall i :: 0 <= i < |branches| ==>
              results[i] == ResultFor(m, includesBranchPatterns, excludesBranchPatterns, dryRun, deleteRef, branches[i])
    ensures deleteCalls == if dryRun then [] else DeletionTargets(m, includesBranchPatterns, excludesBranchPatterns, branches)
  {
    results, deleteCalls := [], [];
    for i := 0 to |branches|
      invariant |results| == i
      invariant forall k :: 0 <= k < i ==>
                  results[k] == ResultFor(m, includesBranchPatterns, excludesBranchPatterns, dryRun,
                                          deleteRef, branches[k])
      invariant deleteCalls == (if dryRun then []
                                else DeletionTargets(m, includesBranchPatterns, excludesBranchPatterns, branches[..i]))
    {
      DeletionTargetsStep(m, includesBranchPatterns, excludesBranchPatterns, branches, i);
      var record;
      ghost var calls;
      record, calls := ProcessBranch(branches[i], m, includesBranchPatterns, excludesBranchPatterns, dryRun, deleteRef);
      results := results + [record];
      deleteCalls := deleteCalls + calls;
    }
    assert branches[..|branches|] == branches;
  }

  /** `deleteGitHubBranches`: reject a missing token before any query, list every
      branch, then append one record per branch in listing order, calling the deleter
      only for selected branches and never in a dry run. `deleteCalls` logs the branch
      names passed to the deleter, in call order. */
  method DeleteGitHubBranches(options: Options, m: Matcher, query: Query, deleteRef: DeleteRef, ghost bound: nat)
    returns (r: Result<seq<DeleteBranchResult>, Error>,
             ghost cursors: seq<Option<string>>, ghost pages: seq<BranchResponse>, ghost deleteCalls: seq<string>)
    requires TokenMissing(options.token) || EndsWithin(query, None, bound)
    ensures TokenMissing(options.token) ==> r == Failure(TokenMissingError)
    ensures TokenMissing(options.token) ==> cursors == [] && deleteCalls == []
    ensures !TokenMissing(options.token) ==> PagedListing(query, cursors, pages, Listing(query, None, bound))
    ensures !TokenMissing(options.token) && Listing(query, None, bound).Failure? ==>
              r == Failure(Listing(query, None, bound).error)
    ensures !TokenMissing(options.token) && Listing(query, None, bound).Failure? ==> deleteCalls == []
    ensures !TokenMissing(options.token) && Listing(query, None, bound).Success? ==>
              var listed := Listing(query, None, bound).value;
              && r.Success?
              && |r.value| == |listed|
              && (forall i :: 0 <= i < |r.value| ==>
                    r.value[i] == ResultFor(m, Includes(options), Excludes(options), options.dryRun,
                                            deleteRef, listed[i]))
    ensures !TokenMissing(options.token) && Listing(query, None, bound).Success? ==>
              deleteCalls == (if options.dryRun then []
                              else DeletionTargets(m, Includes(options), Excludes(options),
                                                   Listing(query, None, bound).value))
  {
    cursors, pages, deleteCalls := [], [], [];
    if TokenMissing(options.token) {
      r := Failure(TokenMissingError);
      return;
    }
    var includesBranchPatterns := options.includesBranchPatterns.GetOr(DefaultIncludesBranchPatterns);
    var excludesBranchPatterns := options.excludesBranchPatterns.GetOr(DefaultExcludesBranchPatterns);
    var listed;
    listed, cursors, pages := GetAllBranches(query, bound);
    if listed.Failure? {
      r := Failure(listed.error);
      return;
    }
    var results;
    results, deleteCalls := ProcessBranches(listed.value, m, includesBranchPatterns, excludesBranchPatterns,
                                            options.dryRun, deleteRef);
    r := Success(results);
  }
}
