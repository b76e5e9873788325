/** The dry-run case of the repository's test, replayed on the model with a matcher
    that knows just the three pattern forms the case uses. */
module DryRunScenario {
  import opened Wrappers
  import opened GitHubBranches

  // A stand-in for the pattern library that agrees with it on this case's five
  // branch names only: the match-all regular expression matches everything, the
  // feature regular expression is read as "starts with feature/" (the library finds
  // it anywhere in the name), and any other pattern is read as "equals the name"
  // (the library finds a literal pattern anywhere in the name, so "dev" would also
  // match "develop").
  function CaseMatcher(name: string, pattern: string): bool {
    if pattern == "/^.*$/" then true
    else if pattern == "/feature/.*/" then |name| >= 8 && name[..8] == "feature/"
    else name == pattern
  }

  const CaseExcludes: seq<string> := ["master", "develop", "/feature/.*/"]

  function Record(m: Matcher, deleteRef: DeleteRef, name: string): DeleteBranchResult {
    ResultFor(m, DefaultIncludesBranchPatterns, CaseExcludes, true, deleteRef, BranchItem(name, 0))
  }

  /** A branch without pull requests that one of the case's excludes matches is ignored. */
  lemma IgnoredInCase(deleteRef: DeleteRef, name: string, i: nat)
    requires i < |CaseExcludes| && CaseMatcher(name, CaseExcludes[i])
    ensures Record(CaseMatcher, deleteRef, name) == DeleteBranchResult(name, false, Some(IgnoredReason), None)
  {
  }

  /** Protected and feature branches are ignored by the patterns; the remaining branch
      is reported deleted, whatever the deleter would have done. */
  lemma DryRunCase(deleteRef: DeleteRef)
    ensures Record(CaseMatcher, deleteRef, "develop") == DeleteBranchResult("develop", false, Some(IgnoredReason), None)
    ensures Record(CaseMatcher, deleteRef, "feature/a") == DeleteBranchResult("feature/a", false, Some(IgnoredReason), None)
    ensures Record(CaseMatcher, deleteRef, "feature/b") == DeleteBranchResult("feature/b", false, Some(IgnoredReason), None)
    ensures Record(CaseMatcher, deleteRef, "master") == DeleteBranchResult("master", false, Some(IgnoredReason), None)
    ensures Record(CaseMatcher, deleteRef, "will-be-deleted") == DeleteBranchResult("will-be-deleted", true, None, None)
  {
    IgnoredInCase(deleteRef, "develop", 1);
    assert "feature/a"[..8] == "feature/";
    IgnoredInCase(deleteRef, "feature/a", 2);
    assert "feature/b"[..8] == "feature/";
    IgnoredInCase(deleteRef, "feature/b", 2);
    IgnoredInCase(deleteRef, "master", 0);
    assert !CaseMatcher("will-be-deleted", CaseExcludes[2]) by { assert "will-be-deleted"[..8][0] == 'w'; }
    assert CaseMatcher("will-be-deleted", DefaultIncludesBranchPatterns[0]);
  }
}
