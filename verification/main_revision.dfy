/** The older revision of the two checks, as in main.go: `runGoCheck`
    indexes the `go version` output without guarding it and fails when the
    installed Go is older than go.mod's `go` directive; `runNodeCheck`
    compares only the major Node.js versions, and when `node -v` fails it
    prints an error and carries on with whatever the command wrote. */
module MainRevision {
  import opened Wrappers
  import opened Text
  import opened Numerals
  import opened Semver
  import opened Report

  const ReadGoModFailed := "Failed to read go.mod file"
  const ParseGoModFailed := "Failed to parse go.mod file"
  const RunGoVersionFailed := "Failed to run go version command"
  const ReadNvmrcFailed := "Failed to read .nvmrc file"
  const RunNvmInstall := "Run `nvm install` in this directory to install the correct version."

  function NodeIncompatible(installed: string, required: string): string
  {
    "Node version " + installed + " is incompatible with required version " + required
  }

  function NodeCompatible(installed: string, required: string): string
  {
    "Node version " + installed + " is compatible with required version " + required
  }

  /** The texts of Go's bounds-check panics: indexing `s[index]` past the end
      of a sequence of `length` elements, and slicing `s[low:]` from beyond
      the end of a string of `length` bytes. */
  function IndexPanic(index: nat, length: nat): string
  {
    "runtime error: index out of range [" + Render(index) + "] with length " + Render(length)
  }

  function SlicePanic(low: nat, length: nat): string
  {
    "runtime error: slice bounds out of range [" + Render(low) + ":" + Render(length) + "]"
  }

  /** The installed Go version: "v" and the third space-separated field of
      the `go version` output minus its first two characters, whatever they
      are. None stands for the index panic Go raises when the output has
      fewer than three fields (fewer than two spaces) or the third field is
      shorter than two characters. */
  function InstalledGoVersion(output: string): (r: Option<string>)
    ensures r.None? <==> |Split(output, ' ')| < 3 || |Split(output, ' ')[2]| < 2
    ensures Count(output, ' ') < 2 ==> r.None?
    ensures r.Some? ==> HasPrefix(r.value, "v") && ' ' !in r.value
  {
    var words := Split(output, ' ');
    SplitCount(output, ' ');
    if |words| < 3 || |words[2]| < 2 then None
    else
      assert ' ' !in words[2][2..] by {
        assert forall k :: 0 <= k < |words[2]| - 2 ==> words[2][2..][k] == words[2][k + 2];
      }
      Some("v" + words[2][2..])
  }

  /** On output shaped "name verb xyVERSION rest" the installed version is
      "v" + VERSION: the first two characters of the third field are dropped
      without looking at them. */
  lemma InstalledGoVersionOfFields(name: string, verb: string, x: char, y: char, version: string, rest: string)
    requires ' ' !in name && ' ' !in verb && x != ' ' && y != ' ' && ' ' !in version
    requires rest == [] || rest[0] == ' '
    ensures InstalledGoVersion(name + " " + verb + " " + [x, y] + version + rest) == Some("v" + version)
  {
    var third := [x, y] + version;
    assert ' ' !in third;
    assert name + " " + verb + " " + [x, y] + version + rest == name + [' '] + verb + [' '] + third + rest;
    SplitThreeFields(name, verb, third, rest, ' ');
    assert third[2..] == version;
  }

  /** The Go check got as far as comparing versions: go.mod has a `go`
      directive and `go version` ran and printed a third field of two or more
      characters. */
  predicate ReachesComparison(env: Environment)
  {
    && env.goMod.GoModParsed? && env.goMod.goDirective.Some? && env.goVersion.err.None?
    && InstalledGoVersion(env.goVersion.stdout).Some?
  }

  /** `runGoCheck` of main.go. */
  function GoCheck(env: Environment): (r: Verdict)
    ensures env.goMod.GoModUnreadable? ==> r == Fail([FailLine(ReadGoModFailed)])
    ensures env.goMod.GoModMalformed? ==> r == Fail([FailLine(ParseGoModFailed)])
    ensures env.goMod == GoModParsed(None) ==> r == Crash([], NilDereference)
    ensures env.goMod.GoModParsed? && env.goMod.goDirective.Some? && env.goVersion.err.Some? ==>
              r == Fail([FailLine(RunGoVersionFailed)])
    ensures r.Crash? <==>
              || env.goMod == GoModParsed(None)
              || (&& env.goMod.GoModParsed? && env.goMod.goDirective.Some? && env.goVersion.err.None?
                  && InstalledGoVersion(env.goVersion.stdout).None?)
    ensures r.Pass? <==>
              && env.goMod.GoModParsed? && env.goMod.goDirective.Some? && env.goVersion.err.None?
              && InstalledGoVersion(env.goVersion.stdout).Some?
              && !Precedes(ParseSemver(InstalledGoVersion(env.goVersion.stdout).value),
                           ParseSemver("v" + env.goMod.goDirective.value))
    ensures r.Crash? && env.goMod != GoModParsed(None) ==>
              var words := Split(env.goVersion.stdout, ' ');
              r == Crash([], if |words| < 3 then IndexPanic(2, |words|) else SlicePanic(2, |words[2]|))
    ensures ReachesComparison(env) ==>
              var current := InstalledGoVersion(env.goVersion.stdout).value;
              var required := "v" + env.goMod.goDirective.value;
              && (r.Pass? ==> r.log == [SuccessLine(GoCompatible(current, required))])
              && (r.Fail? ==> r.log == [FailLine(GoIncompatible(current, required)), PlainLine(GoDownloadHint)])
    ensures r.Pass? ==> |r.log| == 1 && r.log[0].SuccessLine?
    ensures r.Fail? ==> 1 <= |r.log| <= 2 && r.log[0].FailLine?
  {
    match env.goMod
    case GoModUnreadable => Fail([FailLine(ReadGoModFailed)])
    case GoModMalformed(_) => Fail([FailLine(ParseGoModFailed)])
    case GoModParsed(None) => Crash([], NilDereference)
    case GoModParsed(Some(directive)) =>
      var required := "v" + directive;
      if env.goVersion.err.Some? then Fail([FailLine(RunGoVersionFailed)])
      else
        match InstalledGoVersion(env.goVersion.stdout)
        case None =>
          var words := Split(env.goVersion.stdout, ' ');
          Crash([], if |words| < 3 then IndexPanic(2, |words|) else SlicePanic(2, |words[2]|))
        case Some(current) =>
          if Compare(current, required) < 0 then
            Fail([FailLine(GoIncompatible(current, required)), PlainLine(GoDownloadHint)])
          else
            Pass([SuccessLine(GoCompatible(current, required))])
  }

  /** The version `node -v` reports, trimmed; used even if the command failed. */
  function InstalledNodeVersion(env: Environment): string
  {
    TrimSpace(env.nodeVersion.stdout)
  }

  /** `runNodeCheck` of main.go. */
  function NodeCheck(env: Environment): (r: Verdict)
    ensures !r.Crash? && |r.log| > 0
    ensures env.nvmrc.None? ==> r == Fail([FailLine(ReadNvmrcFailed)])
    ensures r.Pass? <==>
              && env.nvmrc.Some?
              && SameMajor(ParseSemver(InstalledNodeVersion(env)),
                           ParseSemver(RequiredNodeVersion(env.nvmrc.value)))
    ensures env.nvmrc.Some? && env.nodeVersion.err.Some? ==> r.log[0] == FailLine(NodeMissing)
    ensures env.nvmrc.Some? && !r.Pass? ==>
              r.log[|r.log| - 1] == PlainLine(if env.nvmOnPath then RunNvmInstall else NvmInstallMessage)
    ensures env.nvmrc.Some? ==>
              var probe := if env.nodeVersion.err.Some? then [FailLine(NodeMissing)] else [];
              var current := InstalledNodeVersion(env);
              var required := RequiredNodeVersion(env.nvmrc.value);
              var remedy := if env.nvmOnPath then RunNvmInstall else NvmInstallMessage;
              && (r.Pass? ==> r.log == probe + [SuccessLine(NodeCompatible(current, required))])
              && (r.Fail? ==> r.log == probe + [FailLine(NodeIncompatible(current, required)), PlainLine(remedy)])
  {
    match env.nvmrc
    case None => Fail([FailLine(ReadNvmrcFailed)])
    case Some(content) =>
      var required := RequiredNodeVersion(content);
      var probe := if env.nodeVersion.err.Some? then [FailLine(NodeMissing)] else [];
      var current := InstalledNodeVersion(env);
      MajorEqualIff(current, required);
      if Major(current) == Major(required) then
        Pass(probe + [SuccessLine(NodeCompatible(current, required))])
      else
        var remedy := if env.nvmOnPath then RunNvmInstall else NvmInstallMessage;
        var log := probe + [FailLine(NodeIncompatible(current, required)), PlainLine(remedy)];
        assert log[|log| - 1] == PlainLine(remedy);
        Fail(log)
  }
}
