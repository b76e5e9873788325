/** The Markdown report: a "Deleted Branches" section and an "Active Branches"
    section, one entry per result, each entry a link to the branch followed by its
    reason quoted line by line. */
module Markdown {
  import opened Wrappers
  import opened Strings
  import opened Seqs
  import opened GitHubBranches

  const DeletedHeading: string := "\n# Deleted Branches\n    \n"
  const ActiveHeading: string := "    \n\n# Active Branches\n    \n"
  const Footer: string := "    \n\n"
  const NoReason: string := "No reason"

  predicate IsDeleted(result: DeleteBranchResult) { result.deleted }
  predicate IsActive(result: DeleteBranchResult) { !result.deleted }

  function DeletedResults(results: seq<DeleteBranchResult>): seq<DeleteBranchResult> {
    Filter(IsDeleted, results)
  }

  function ActiveResults(results: seq<DeleteBranchResult>): seq<DeleteBranchResult> {
    Filter(IsActive, results)
  }

  /** Every result lands in exactly one section, deleted ones under "Deleted Branches"
      and the others under "Active Branches", each section in the original order. */
  lemma ReportPartition(results: seq<DeleteBranchResult>, more: seq<DeleteBranchResult>)
    ensures |DeletedResults(results)| + |ActiveResults(results)| == |results|
    ensures multiset(DeletedResults(results)) + multiset(ActiveResults(results)) == multiset(results)
    ensures forall i :: 0 <= i < |results| ==>
              (results[i] in DeletedResults(results) <==> results[i].deleted)
              && (results[i] in ActiveResults(results) <==> !results[i].deleted)
    ensures DeletedResults(results + more) == DeletedResults(results) + DeletedResults(more)
    ensures ActiveResults(results + more) == ActiveResults(results) + ActiveResults(more)
  {
    FilterPartition(IsDeleted, IsActive, results);
    FilterAppend(IsDeleted, results, more);
    FilterAppend(IsActive, results, more);
  }

  /** One reason line, quoted. */
  function QuoteLine(line: string): string {
    "> " + line
  }

  /** The reason block of an entry: "No reason" when the reason is absent or empty, else
      the reason's lines, each quoted, joined by newlines. */
  function ReasonText(reason: Option<string>): (text: string)
    ensures reason.None? || reason.value == "" ==> text == NoReason
    ensures reason.Some? && reason.value != "" ==>
              var lines := Split(reason.value, '\n');
              && |Split(text, '\n')| == |lines|
              && forall i :: 0 <= i < |lines| ==> Split(text, '\n')[i] == QuoteLine(lines[i])
  {
    if reason.Some? && reason.value != "" then
      var lines := Split(reason.value, '\n');
      var quoted := seq(|lines|, i requires 0 <= i < |lines| => QuoteLine(lines[i]));
      assert forall i :: 0 <= i < |quoted| ==> '\n' !in quoted[i] by {
        forall i | 0 <= i < |quoted| ensures '\n' !in quoted[i] {
          assert quoted[i] == "> " + lines[i];
        }
      }
      SplitJoin(quoted, '\n');
      Join(quoted, "\n")
    else
      NoReason
  }

  /** The link line that opens an entry. */
  function EntryLink(owner: string, repo: string, branchName: string): string {
    "- [" + branchName + "](https://github.com/" + owner + "/" + repo + "/tree/" + branchName + ")"
  }

  /** `formatResult`: the link line, then a quoted reason block. */
  function FormatResult(owner: string, repo: string, result: DeleteBranchResult): (entry: string)
    ensures |EntryLink(owner, repo, result.branchName)| <= |entry|
    ensures entry[..|EntryLink(owner, repo, result.branchName)|] == EntryLink(owner, repo, result.branchName)
    ensures entry[|EntryLink(owner, repo, result.branchName)|..] == "\n> " + ReasonText(result.reason)
  {
    EntryLink(owner, repo, result.branchName) + "\n> " + ReasonText(result.reason)
  }

  /** The entries of one section, joined by newlines. */
  function Section(owner: string, repo: string, results: seq<DeleteBranchResult>): (section: string)
    ensures results == [] ==> section == ""
    ensures |results| == 1 ==> section == FormatResult(owner, repo, results[0])
    ensures |results| >= 2 ==>
              |FormatResult(owner, repo, results[0])| + 1 <= |section|
              && section[..|FormatResult(owner, repo, results[0])| + 1] == FormatResult(owner, repo, results[0]) + "\n"
  {
    Join(seq(|results|, i requires 0 <= i < |results| => FormatResult(owner, repo, results[i])), "\n")
  }

  /** An empty section has no entry text, and a section of one result is its entry. */
  lemma SectionShape(owner: string, repo: string, result: DeleteBranchResult)
    ensures Section(owner, repo, []) == ""
    ensures Section(owner, repo, [result]) == FormatResult(owner, repo, result)
  {
  }

  /** `formatMarkdown`: the "Deleted Branches" heading and the section of the deleted
      results, the "Active Branches" heading and the section of the others, then the
      closing lines. */
  function FormatMarkdown(owner: string, repo: string, results: seq<DeleteBranchResult>): (report: string)
    ensures report == DeletedHeading + Section(owner, repo, DeletedResults(results))
                      + ActiveHeading + Section(owner, repo, ActiveResults(results)) + Footer
  {
    DeletedHeading + Section(owner, repo, DeletedResults(results))
    + ActiveHeading + Section(owner, repo, ActiveResults(results))
    + Footer
  }

  /** A report of no results is just the two headings and the footer. */
  lemma ReportOfNoResults(owner: string, repo: string)
    ensures FormatMarkdown(owner, repo, []) == DeletedHeading + ActiveHeading + Footer
  {
  }

  /** When every result was deleted the "Active Branches" section is empty and the
      "Deleted Branches" section lists every result, and the other way round when none
      was deleted. */
  lemma OneSidedSections(results: seq<DeleteBranchResult>)
    ensures (forall i :: 0 <= i < |results| ==> results[i].deleted) ==>
              DeletedResults(results) == results && ActiveResults(results) == []
    ensures (forall i :: 0 <= i < |results| ==> !results[i].deleted) ==>
              DeletedResults(results) == [] && ActiveResults(results) == results
  {
    FilterEmpty(IsActive, results);
    FilterEmpty(IsDeleted, results);
    if forall i :: 0 <= i < |results| ==> results[i].deleted {
      FilterAll(IsDeleted, results);
    }
    if forall i :: 0 <= i < |results| ==> !results[i].deleted {
      FilterAll(IsActive, results);
    }
  }
}
