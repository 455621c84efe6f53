/** `runDoctor` of main.go: print a header, run the Go check, run the
    Node.js check, and print whether both passed. It is modelled over either
    revision of the two checks. Both checks always run; the only way the Node
    check is skipped is a panic in the Go check, which ends the process. */
module Doctor {
  import opened Wrappers
  import opened Text
  import opened Semver
  import opened Report
  import MainRevision
  import ValidationsRevision

  /** Which revision of `runGoCheck` and `runNodeCheck` is linked in. */
  datatype Revision = MainGo | ValidationsGo

  /** A run either reaches its summary line or dies in a panic. */
  datatype Outcome = Completed(allPassed: bool, log: seq<Line>) | Panicked(log: seq<Line>, panic: string)

  const CheckingDependencies := "Checking project dependencies"
  const NotAllPassed := "Not all checks passed. Please fix the above issues and try again."
  const AllPassed := "All checks passed."

  function GoCheck(rev: Revision, env: Environment): Verdict
  {
    match rev
    case MainGo => MainRevision.GoCheck(env)
    case ValidationsGo => ValidationsRevision.GoCheck(env)
  }

  function NodeCheck(rev: Revision, env: Environment): (r: Verdict)
    ensures !r.Crash? && |r.log| > 0
  {
    match rev
    case MainGo => MainRevision.NodeCheck(env)
    case ValidationsGo => ValidationsRevision.NodeCheck(env)
  }

  /** `runDoctor`: the overall result is the conjunction of the two checks,
      and both checks' output is printed, with no short-circuit after a
      failing Go check. */
  function RunDoctor(rev: Revision, env: Environment): (r: Outcome)
    ensures r.Panicked? <==> GoCheck(rev, env).Crash?
    ensures r.Completed? ==> (r.allPassed <==> GoCheck(rev, env).Pass? && NodeCheck(rev, env).Pass?)
  {
    Summarise(GoCheck(rev, env), NodeCheck(rev, env))
  }

  /** The printing and aggregation of `runDoctor`, given the two verdicts:
      a header, the Go check's lines, the Node.js check's lines and a summary
      line, separated by blank lines; or, after a Go panic, only what was
      printed before it. */
  function Summarise(go: Verdict, node: Verdict): (r: Outcome)
    requires !node.Crash?
    ensures |r.log| >= 2 && r.log[..2] == [PlainLine(CheckingDependencies), BlankLine]
    ensures r.Panicked? <==> go.Crash?
    ensures r.Panicked? ==> r.log == [PlainLine(CheckingDependencies), BlankLine] + go.log && r.panic == go.panic
    ensures r.Completed? ==> (r.allPassed <==> go.Pass? && node.Pass?)
    ensures r.Completed? ==>
              && |r.log| == |go.log| + |node.log| + 5
              && r.log[2..2 + |go.log|] == go.log
              && r.log[|r.log| - 2 - |node.log|..|r.log| - 2] == node.log
    ensures r.Completed? ==> r.log[2 + |go.log|] == BlankLine && r.log[|r.log| - 2] == BlankLine
    ensures r.Completed? ==>
              r.log[|r.log| - 1] == (if r.allPassed then SuccessLine(AllPassed) else FailLine(NotAllPassed))
  {
    var header := [PlainLine(CheckingDependencies), BlankLine];
    if go.Crash? then
      Panicked(header + go.log, go.panic)
    else
      var allPassed := go.Pass? && node.Pass?;
      var summary := if allPassed then SuccessLine(AllPassed) else FailLine(NotAllPassed);
      var tail := [BlankLine] + node.log + [BlankLine, summary];
      var log := header + go.log + tail;
      Middle(header, go.log, tail);
      assert log == header + go.log + [BlankLine] + node.log + [BlankLine, summary];
      Middle(header + go.log + [BlankLine], node.log, [BlankLine, summary]);
      Completed(allPassed, log)
  }

  lemma Middle<T>(a: seq<T>, b: seq<T>, c: seq<T>)
    ensures (a + b + c)[|a|..|a| + |b|] == b
  {
  }

  /** The process exit status: `runDoctor` never calls `os.Exit`, so a run
      that reaches its summary exits with 0 whatever the checks said; a Go
      panic exits with 2. */
  function ExitStatus(o: Outcome): (r: int)
    ensures r == 0 <==> o.Completed?
    ensures r != 0 ==> r == 2
  {
    if o.Completed? then 0 else 2
  }

  /** Failing checks do not change the exit status: it is non-zero only when
      the Go check panics. */
  lemma ExitStatusIgnoresVerdicts(rev: Revision, env: Environment)
    ensures ExitStatus(RunDoctor(rev, env)) == 0 <==> !GoCheck(rev, env).Crash?
  {
  }

  /** A missing .nvmrc is a failure, never a skip, in both revisions. */
  lemma MissingNvmrcFailsRun(rev: Revision, env: Environment)
    requires env.nvmrc.None?
    ensures RunDoctor(rev, env).Completed? ==> !RunDoctor(rev, env).allPassed
  {
  }

  /** On `go version` output whose third field starts with "go", the two
      revisions of the Go check agree: neither panics, and one passes exactly
      when the other does. */
  lemma GoRevisionsAgree(env: Environment)
    requires env.goMod.GoModParsed? && env.goMod.goDirective.Some? && env.goVersion.err.None?
    requires ValidationsRevision.InstalledGoVersion(env.goVersion.stdout).Some?
    ensures !MainRevision.GoCheck(env).Crash?
    ensures MainRevision.GoCheck(env).Pass? <==> ValidationsRevision.GoCheck(env).Pass?
  {
    var v := ValidationsRevision.InstalledGoVersion(env.goVersion.stdout).value;
    assert MainRevision.InstalledGoVersion(env.goVersion.stdout) == Some("v" + v);
  }

  /** On `go version` output with fewer than three fields the older revision
      panics on its unguarded index, where the newer one reports a parse
      failure. */
  lemma ShortGoOutputPanicsOnlyInMain(env: Environment)
    requires env.goMod.GoModParsed? && env.goMod.goDirective.Some? && env.goVersion.err.None?
    requires Count(env.goVersion.stdout, ' ') < 2
    ensures MainRevision.GoCheck(env) == Crash([], MainRevision.IndexPanic(2, Count(env.goVersion.stdout, ' ') + 1))
    ensures ValidationsRevision.GoCheck(env) == Fail([FailLine(ValidationsRevision.ParseGoVersionFailed)])
  {
    SplitCount(env.goVersion.stdout, ' ');
  }

  /** An installed Go exactly at the required version passes in both
      revisions, whatever the directive says. */
  lemma GoEqualVersionsPass(rev: Revision, directive: string, platform: string)
    requires ' ' !in directive && ' ' !in platform
    ensures GoCheck(rev, Environment(GoModParsed(Some(directive)),
                                     CommandResult("go version go" + directive + " " + platform, None),
                                     None, CommandResult("", None), false)).Pass?
  {
    var output := "go version go" + directive + " " + platform;
    assert output == "go" + " " + "version" + " " + "go" + directive + (" " + platform);
    ValidationsRevision.InstalledGoVersionOfFields("go", "version", directive, " " + platform);
    assert output == "go" + " " + "version" + " " + ['g', 'o'] + directive + (" " + platform);
    MainRevision.InstalledGoVersionOfFields("go", "version", 'g', 'o', directive, " " + platform);
  }

  /** Whenever the newer Node check passes, the older one passes too: equal
      major and minor versions have equal major versions. */
  lemma NodeValidationsPassImpliesMainPass(env: Environment)
    requires ValidationsRevision.NodeCheck(env).Pass?
    ensures MainRevision.NodeCheck(env).Pass?
  {
    SameMajorMinorImpliesSameMajor(ParseSemver(ValidationsRevision.InstalledNodeVersion(env)),
                                   ParseSemver(RequiredNodeVersion(env.nvmrc.value)));
  }
}
