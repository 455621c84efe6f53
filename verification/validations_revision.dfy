/** The newer revision of the two checks, as in validations.go: `runGoCheck`
    guards its parse of the `go version` output and passes when the
    installed Go is at least go.mod's `go` directive; `runNodeCheck` stops
    as soon as `node -v` fails and compares major and minor versions. */
module ValidationsRevision {
  import opened Wrappers
  import opened Text
  import opened Semver
  import opened Report

  const NoGoMod := "No go.mod file found for server plugin."
  const ParseGoModFailed := "Failed to parse go.mod file. Error: "
  const RunGoVersionFailed := "Failed to run `go version` command. Error: "
  const ParseGoVersionFailed := "Failed to parse installed Go version " + "from `go version` command"
  const NoNvmrc := "No .nvmrc file found, therefore the required Node.js version is unknown."

  function NodeIncompatible(installed: string, required: string): string
  {
    "Installed Node.js version " + installed + " is incompatible with required version " + required
  }

  function NodeCompatible(installed: string, required: string): string
  {
    "Installed Node.js version " + installed + " is compatible with required version " + required
  }

  /** The installed Go version: the third space-separated field of the
      `go version` output without its "go" prefix. None when there are fewer
      than three fields (fewer than two spaces) or the third field does not
      start with "go". */
  function InstalledGoVersion(output: string): (r: Option<string>)
    ensures r.None? <==> |Split(output, ' ')| < 3 || !HasPrefix(Split(output, ' ')[2], "go")
    ensures Count(output, ' ') < 2 ==> r.None?
    ensures r.Some? ==> ' ' !in r.value && "go" + r.value == Split(output, ' ')[2]
  {
    var words := Split(output, ' ');
    SplitCount(output, ' ');
    if |words| < 3 || !HasPrefix(words[2], "go") then None
    else
      assert words[2] == "go" + words[2][2..];
      Some(words[2][2..])
  }

  /** On output shaped "name verb goVERSION rest" the installed version is
      VERSION. */
  lemma InstalledGoVersionOfFields(name: string, verb: string, version: string, rest: string)
    requires ' ' !in name && ' ' !in verb && ' ' !in version
    requires rest == [] || rest[0] == ' '
    ensures InstalledGoVersion(name + " " + verb + " " + "go" + version + rest) == Some(version)
  {
    var third := "go" + version;
    assert ' ' !in third;
    assert name + " " + verb + " " + "go" + version + rest == name + [' '] + verb + [' '] + third + rest;
    SplitThreeFields(name, verb, third, rest, ' ');
    assert third[2..] == version;
  }

  /** The Go check got as far as comparing versions: go.mod has a `go`
      directive and `go version` ran and printed a third field starting with
      "go". */
  predicate ReachesComparison(env: Environment)
  {
    && env.goMod.GoModParsed? && env.goMod.goDirective.Some? && env.goVersion.err.None?
    && InstalledGoVersion(env.goVersion.stdout).Some?
  }

  /** `runGoCheck` of validations.go. */
  function GoCheck(env: Environment): (r: Verdict)
    ensures env.goMod.GoModUnreadable? ==> r == Fail([FailLine(NoGoMod)])
    ensures env.goMod.GoModMalformed? ==> r == Fail([FailLine(ParseGoModFailed + env.goMod.cause)])
    ensures env.goMod == GoModParsed(None) ==> r == Crash([], NilDereference)
    ensures env.goMod.GoModParsed? && env.goMod.goDirective.Some? && env.goVersion.err.Some? ==>
              r == Fail([FailLine(RunGoVersionFailed + env.goVersion.err.value)])
    ensures env.goMod.GoModParsed? && env.goMod.goDirective.Some? && env.goVersion.err.None?
              && InstalledGoVersion(env.goVersion.stdout).None? ==>
              r == Fail([FailLine(ParseGoVersionFailed)])
    ensures r.Crash? <==> env.goMod == GoModParsed(None)
    ensures r.Pass? <==>
              && env.goMod.GoModParsed? && env.goMod.goDirective.Some? && env.goVersion.err.None?
              && InstalledGoVersion(env.goVersion.stdout).Some?
              && !Precedes(ParseSemver("v" + InstalledGoVersion(env.goVersion.stdout).value),
                           ParseSemver("v" + env.goMod.goDirective.value))
    ensures ReachesComparison(env) ==>
              var current := InstalledGoVersion(env.goVersion.stdout).value;
              var required := env.goMod.goDirective.value;
              && (r.Pass? ==> r.log == [SuccessLine(GoCompatible(current, required))])
              && (r.Fail? ==> r.log == [FailLine(GoIncompatible(current, required)), PlainLine(GoDownloadHint)])
    ensures r.Pass? ==> |r.log| == 1 && r.log[0].SuccessLine?
    ensures r.Fail? ==> 1 <= |r.log| <= 2 && r.log[0].FailLine?
  {
    match env.goMod
    case GoModUnreadable => Fail([FailLine(NoGoMod)])
    case GoModMalformed(cause) => Fail([FailLine(ParseGoModFailed + cause)])
    case GoModParsed(None) => Crash([], NilDereference)
    case GoModParsed(Some(required)) =>
      match env.goVersion.err
      case Some(e) => Fail([FailLine(RunGoVersionFailed + e)])
      case None =>
        match InstalledGoVersion(env.goVersion.stdout)
        case None => Fail([FailLine(ParseGoVersionFailed)])
        case Some(current) =>
          if Compare("v" + current, "v" + required) >= 0 then
            Pass([SuccessLine(GoCompatible(current, required))])
          else
            Fail([FailLine(GoIncompatible(current, required)), PlainLine(GoDownloadHint)])
  }

  /** The four ways the Go check can fail before comparing versions print
      four different lines, whatever the error texts are. */
  lemma GoFailureLinesDistinct(parseCause: string, runCause: string)
    ensures NoGoMod != ParseGoModFailed + parseCause
    ensures NoGoMod != RunGoVersionFailed + runCause
    ensures NoGoMod != ParseGoVersionFailed
    ensures ParseGoModFailed + parseCause != RunGoVersionFailed + runCause
    ensures ParseGoModFailed + parseCause != ParseGoVersionFailed
    ensures RunGoVersionFailed + runCause != ParseGoVersionFailed
  {
    assert (ParseGoModFailed + parseCause)[0] == 'F';
    assert (RunGoVersionFailed + runCause)[0] == 'F';
    assert (ParseGoModFailed + parseCause)[10] == 'p';
    assert (RunGoVersionFailed + runCause)[10] == 'r';
    assert (ParseGoModFailed + parseCause)[16] == 'g';
    assert ParseGoVersionFailed[16] == 'i';
  }

  /** The version `node -v` reports, trimmed. */
  function InstalledNodeVersion(env: Environment): string
  {
    TrimSpace(env.nodeVersion.stdout)
  }

  /** `runNodeCheck` of validations.go. */
  function NodeCheck(env: Environment): (r: Verdict)
    ensures !r.Crash? && |r.log| > 0
    ensures env.nvmrc.None? ==> r == Fail([FailLine(NoNvmrc)])
    ensures env.nvmrc.Some? && env.nodeVersion.err.Some? ==> r == Fail([FailLine(NodeMissing)])
    ensures r.Pass? <==>
              && env.nvmrc.Some? && env.nodeVersion.err.None?
              && SameMajorMinor(ParseSemver(InstalledNodeVersion(env)),
                                ParseSemver(RequiredNodeVersion(env.nvmrc.value)))
    ensures r.Pass? ==>
              r.log == [SuccessLine(NodeCompatible(InstalledNodeVersion(env), RequiredNodeVersion(env.nvmrc.value)))]
    ensures r.Fail? && env.nvmrc.Some? && env.nodeVersion.err.None? ==>
              r.log == [FailLine(NodeIncompatible(InstalledNodeVersion(env), RequiredNodeVersion(env.nvmrc.value))),
                        PlainLine(NvmInstallMessage)]
  {
    match env.nvmrc
    case None => Fail([FailLine(NoNvmrc)])
    case Some(content) =>
      if env.nodeVersion.err.Some? then Fail([FailLine(NodeMissing)])
      else
        var current := InstalledNodeVersion(env);
        var required := RequiredNodeVersion(content);
        MajorMinorEqualIff(current, required);
        if MajorMinor(current) == MajorMinor(required) then
          Pass([SuccessLine(NodeCompatible(current, required))])
        else
          Fail([FailLine(NodeIncompatible(current, required)), PlainLine(NvmInstallMessage)])
  }
}
