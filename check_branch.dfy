/** The single-name check of `delete-github-branches-check-branch-name`: resolve the
    pattern lists (flag, then config file, then default), filter the given names by the
    selection rule and report exit status 1 when any of them would be deleted. */
module CheckBranch {
  import opened Wrappers
  import opened Strings
  import opened Seqs
  import opened GitHubBranches

  /** The pattern flags as given on the command line, comma separated. */
  datatype Flags = Flags(includesBranchPatterns: Option<string>, excludesBranchPatterns: Option<string>)

  /** The pattern lists of the loaded config file (an empty record without `--config`). */
  datatype Config = Config(includesBranchPatterns: Option<seq<string>>, excludesBranchPatterns: Option<seq<string>>)

  /** What `run` resolves to; `stderr` is `null` in both outcomes. */
  datatype RunResult = RunResult(exitStatus: int, stderr: Option<string>, stdout: string)

  /** How `run` ends: it resolves to a result, or, with no names given, meow's
      `showHelp` ends the process with an exit code before any pattern is resolved. */
  datatype RunOutcome = Resolved(result: RunResult) | HelpExit(exitCode: int)

  /** The exit code `showHelp` uses when it is called without one. */
  const HelpExitCode: int := 2

  /** The 4-space-indented JSON dump of the resolved include and exclude lists. */
  type PatternsJson = (seq<string>, seq<string>) -> string

  const MatchedMessage: string := " is matched by delete-github-branches's patterns:\n"
  const NotMatchedMessage: string := " is not matched by delete-github-branches's patterns: \n"

  /** `splitByComma`: split on every comma and trim each piece. */
  function SplitByComma(s: string): (r: seq<string>)
    ensures |r| == |Split(s, ',')| == Count(s, ',') + 1
    ensures forall i :: 0 <= i < |r| ==> r[i] == Trim(Split(s, ',')[i])
    ensures forall i :: 0 <= i < |r| ==> r[i] == [] || (!IsWhitespace(r[i][0]) && !IsWhitespace(r[i][|r[i]| - 1]))
    ensures forall i :: 0 <= i < |r| ==> ',' !in r[i]
  {
    var pieces := Split(s, ',');
    seq(|pieces|, i requires 0 <= i < |pieces| => Trim(pieces[i]))
  }

  /** A flag written as comma-free pieces reads back as those pieces, each trimmed. */
  lemma SplitByCommaOfPieces(pieces: seq<string>)
    requires |pieces| >= 1
    requires forall i :: 0 <= i < |pieces| ==> ',' !in pieces[i]
    ensures SplitByComma(Join(pieces, ",")) == seq(|pieces|, i requires 0 <= i < |pieces| => Trim(pieces[i]))
  {
    SplitJoin(pieces, ',');
  }

  /** A flag of two comma-free pieces reads back as the two pieces, trimmed. */
  lemma SplitByCommaOfTwo(first: string, second: string)
    requires ',' !in first && ',' !in second
    ensures SplitByComma(first + "," + second) == [Trim(first), Trim(second)]
  {
    JoinTwo(first, second, ",");
    SplitByCommaOfPieces([first, second]);
  }

  /** The usual way of writing two patterns on the command line, `master, develop`:
      whitespace after the comma is dropped. */
  lemma SplitByCommaDropsSpaces(first: string, gap: string, second: string)
    requires ',' !in first && ',' !in second
    requires forall k :: 0 <= k < |gap| ==> IsWhitespace(gap[k])
    requires first == [] || (!IsWhitespace(first[0]) && !IsWhitespace(first[|first| - 1]))
    requires second == [] || (!IsWhitespace(second[0]) && !IsWhitespace(second[|second| - 1]))
    ensures SplitByComma(first + "," + gap + second) == [first, second]
  {
    assert ',' !in gap + second by {
      forall k | 0 <= k < |gap| ensures gap[k] != ',' {
        assert IsWhitespace(gap[k]);
      }
    }
    SplitByCommaOfTwo(first, gap + second);
    assert first + "," + (gap + second) == first + "," + gap + second;
    TrimOfPadded("", first, "");
    assert "" + first + "" == first;
    TrimOfPadded(gap, second, "");
    assert gap + second + "" == gap + second;
  }

  /** A non-empty list of trimmed, comma-free patterns survives being written as one
      comma-separated flag and read back. */
  lemma SplitByCommaOfJoin(patterns: seq<string>)
    requires |patterns| >= 1
    requires forall i :: 0 <= i < |patterns| ==> ',' !in patterns[i]
    requires forall i :: 0 <= i < |patterns| ==>
               patterns[i] == [] || (!IsWhitespace(patterns[i][0]) && !IsWhitespace(patterns[i][|patterns[i]| - 1]))
    ensures SplitByComma(Join(patterns, ",")) == patterns
  {
    SplitJoin(patterns, ',');
    forall i | 0 <= i < |patterns| ensures Trim(patterns[i]) == patterns[i] {
      TrimTrimmed(patterns[i]);
    }
  }

  /** Three-tier resolution of one pattern list: a non-empty flag wins, then the config
      value, then the default. */
  function ResolvePatterns(flag: Option<string>, config: Option<seq<string>>, default: seq<string>): (patterns: seq<string>)
    ensures flag.Some? && flag.value != "" ==> patterns == SplitByComma(flag.value)
    ensures (flag.None? || flag.value == "") && config.Some? ==> patterns == config.value
    ensures (flag.None? || flag.value == "") && config.None? ==> patterns == default
  {
    if flag.Some? && flag.value != "" then SplitByComma(flag.value) else config.GetOr(default)
  }

  function ResolvedIncludes(flags: Flags, config: Config): seq<string> {
    ResolvePatterns(flags.includesBranchPatterns, config.includesBranchPatterns, DefaultIncludesBranchPatterns)
  }

  function ResolvedExcludes(flags: Flags, config: Config): seq<string> {
    ResolvePatterns(flags.excludesBranchPatterns, config.excludesBranchPatterns, DefaultExcludesBranchPatterns)
  }

  /** The given names the selection rule would delete, in input order. */
  function MatchedNames(m: Matcher, includes: seq<string>, excludes: seq<string>, input: seq<string>): (names: seq<string>)
    ensures |names| <= |input|
    ensures forall i :: 0 <= i < |names| ==> names[i] in input && ShouldDelete(m, names[i], includes, excludes)
    ensures forall i :: 0 <= i < |input| && ShouldDelete(m, input[i], includes, excludes) ==> input[i] in names
  {
    Filter((name: string) => ShouldDelete(m, name, includes, excludes), input)
  }

  /** Exactly the selected names are reported, and the report keeps the input order. */
  lemma MatchedNamesExactly(m: Matcher, includes: seq<string>, excludes: seq<string>,
                            input: seq<string>, input': seq<string>)
    ensures forall name :: name in MatchedNames(m, includes, excludes, input) <==>
              name in input && ShouldDelete(m, name, includes, excludes)
    ensures MatchedNames(m, includes, excludes, input + input')
            == MatchedNames(m, includes, excludes, input) + MatchedNames(m, includes, excludes, input')
  {
    var p := (name: string) => ShouldDelete(m, name, includes, excludes);
    forall name | name in input && p(name) ensures name in MatchedNames(m, includes, excludes, input) {
      var i :| 0 <= i < |input| && input[i] == name;
    }
    FilterAppend(p, input, input');
  }

  /** `run`: with no names given the process ends through `showHelp`; otherwise the exit
      status is 1 exactly when some given name would be deleted, and the output then
      begins with those names joined by commas; otherwise the status is 0 and the output
      begins with all the given names. */
  function Run(input: seq<string>, flags: Flags, config: Config, m: Matcher, json: PatternsJson): (res: RunOutcome)
    ensures res.HelpExit? <==> |input| == 0
    ensures res.HelpExit? ==> res.exitCode == HelpExitCode
    ensures res.Resolved? ==> res.result.stderr == None
    ensures res.Resolved? ==> res.result.exitStatus == 1 || res.result.exitStatus == 0
    ensures res.Resolved? ==>
              (res.result.exitStatus == 1 <==>
               exists i :: 0 <= i < |input|
                           && ShouldDelete(m, input[i], ResolvedIncludes(flags, config), ResolvedExcludes(flags, config)))
    ensures res.Resolved? && res.result.exitStatus == 1 ==>
              res.result.stdout
              == Join(MatchedNames(m, ResolvedIncludes(flags, config), ResolvedExcludes(flags, config), input), ",")
                 + MatchedMessage + json(ResolvedIncludes(flags, config), ResolvedExcludes(flags, config))
    ensures res.Resolved? && res.result.exitStatus == 0 ==>
              res.result.stdout == Join(input, ",") + NotMatchedMessage
                                   + json(ResolvedIncludes(flags, config), ResolvedExcludes(flags, config))
  {
    if |input| == 0 then HelpExit(HelpExitCode)
    else
      var includesBranchPatterns := ResolvedIncludes(flags, config);
      var excludesBranchPatterns := ResolvedExcludes(flags, config);
      var deletedBranchNames := MatchedNames(m, includesBranchPatterns, excludesBranchPatterns, input);
      FilterEmpty((name: string) => ShouldDelete(m, name, includesBranchPatterns, excludesBranchPatterns), input);
      var patterns := json(includesBranchPatterns, excludesBranchPatterns);
      if |deletedBranchNames| > 0 then
        Resolved(RunResult(1, None, Join(deletedBranchNames, ",") + MatchedMessage + patterns))
      else
        Resolved(RunResult(0, None, Join(input, ",") + NotMatchedMessage + patterns))
  }
}
