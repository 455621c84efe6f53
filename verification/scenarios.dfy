/** Whole runs of the doctor check in both revisions, for every version
    number: a Go module whose installed toolchain is at or above the `go`
    directive, a Node.js pin "vM" against an installed "vM.m.p", and a
    machine without Node.js. They show where the two revisions of the
    Node.js check disagree. */
module Scenarios {
  import opened Wrappers
  import opened Text
  import opened Numerals
  import opened Semver
  import opened Report
  import MainRevision
  import ValidationsRevision
  import Doctor

  /** The go directive "M.m" and the version "M.m.p" of an installed Go. */
  function Directive(x: Version): string
  {
    Render(x.major) + "." + Render(x.minor)
  }

  function GoRelease(x: Version): string
  {
    FullText(x)[1..]
  }

  /** The texts both revisions hand to the semver library parse as M.m.0 and
      M.m.p. */
  lemma GoVersionsParse(x: Version)
    ensures ParseSemver("v" + Directive(x)) == Some(Version(x.major, x.minor, 0))
    ensures ParseSemver("v" + GoRelease(x)) == Some(x)
  {
    FullTextShape(x);
    assert "v" + GoRelease(x) == FullText(x);
    ParseSemverComplete(FullText(x), x);
    var floor := Version(x.major, x.minor, 0);
    assert "v" + Directive(x) == MajorMinorText(floor);
    ParseSemverComplete(MajorMinorText(floor), floor);
  }

  /** go.mod says `go M.m` and `go version` reports `goM.m.p` for any patch p:
      both revisions pass. With p = 5 and M.m = 1.19 this is Go 1.19.5 against
      a module that asks for 1.19. */
  lemma GoPatchReleasePasses(rev: Doctor.Revision, env: Environment, x: Version, rest: string)
    requires env.goMod == GoModParsed(Some(Directive(x)))
    requires env.goVersion == CommandResult("go version go" + GoRelease(x) + rest, None)
    requires rest == [] || rest[0] == ' '
    ensures Doctor.GoCheck(rev, env).Pass?
  {
    GoVersionsParse(x);
    if rev == Doctor.MainGo {
      MainGoPasses(env, x, rest);
    } else {
      ValidationsGoPasses(env, x, rest);
    }
  }

  /** What each revision reads from `go version` output for release M.m.p. */
  lemma MainReadsRelease(x: Version, rest: string)
    requires rest == [] || rest[0] == ' '
    ensures MainRevision.InstalledGoVersion("go version go" + GoRelease(x) + rest) == Some(FullText(x))
  {
    var release := GoRelease(x);
    FullTextShape(x);
    assert "go version go" + release + rest == "go" + " " + "version" + " " + ['g', 'o'] + release + rest;
    MainRevision.InstalledGoVersionOfFields("go", "version", 'g', 'o', release, rest);
    assert "v" + release == FullText(x);
  }

  lemma ValidationsReadsRelease(x: Version, rest: string)
    requires rest == [] || rest[0] == ' '
    ensures ValidationsRevision.InstalledGoVersion("go version go" + GoRelease(x) + rest) == Some(GoRelease(x))
  {
    var release := GoRelease(x);
    FullTextShape(x);
    assert "go version go" + release + rest == "go" + " " + "version" + " " + "go" + release + rest;
    ValidationsRevision.InstalledGoVersionOfFields("go", "version", release, rest);
  }

  lemma MainGoPasses(env: Environment, x: Version, rest: string)
    requires env.goMod == GoModParsed(Some(Directive(x)))
    requires env.goVersion == CommandResult("go version go" + GoRelease(x) + rest, None)
    requires rest == [] || rest[0] == ' '
    requires ParseSemver("v" + Directive(x)) == Some(Version(x.major, x.minor, 0))
    requires ParseSemver("v" + GoRelease(x)) == Some(x)
    ensures MainRevision.GoCheck(env).Pass?
  {
    MainReadsRelease(x, rest);
  }

  lemma ValidationsGoPasses(env: Environment, x: Version, rest: string)
    requires env.goMod == GoModParsed(Some(Directive(x)))
    requires env.goVersion == CommandResult("go version go" + GoRelease(x) + rest, None)
    requires rest == [] || rest[0] == ' '
    requires ParseSemver("v" + Directive(x)) == Some(Version(x.major, x.minor, 0))
    requires ParseSemver("v" + GoRelease(x)) == Some(x)
    ensures ValidationsRevision.GoCheck(env).Pass?
  {
    ValidationsReadsRelease(x, rest);
  }

  /** .nvmrc pins "vM" and `node -v` prints "vM.m.p" and a newline: the
      older revision passes (same major), the newer one fails unless m is 0
      (the pin means minor 0). With 18.2.0 against a pin of v18 this is the
      case where the two revisions disagree. */
  lemma MinorDriftSplitsRevisions(env: Environment, x: Version)
    requires env.nvmrc == Some(MajorText(x.major))
    requires env.nodeVersion == CommandResult(FullText(x) + "\n", None)
    ensures MainRevision.NodeCheck(env).Pass?
    ensures ValidationsRevision.NodeCheck(env).Pass? <==> x.minor == 0
  {
    FullTextShape(x);
    TrimSpacePadded(FullText(x), "\n");
    ParseSemverComplete(FullText(x), x);
    MajorTextShape(x.major);
    TrimSpaceOfTrimmed(MajorText(x.major));
    assert RequiredNodeVersion(MajorText(x.major)) == MajorText(x.major);
    ParseSemverComplete(MajorText(x.major), Version(x.major, 0, 0));
  }

  /** Both facts together: with Node.js a minor release ahead of the pin, a
      whole run passes in the older revision and fails in the newer one.
      Either way the run completes, so the exit status is 0. */
  lemma MinorDriftRuns(env: Environment, goRelease: Version, node: Version, rest: string)
    requires env.goMod == GoModParsed(Some(Directive(goRelease)))
    requires env.goVersion == CommandResult("go version go" + GoRelease(goRelease) + rest, None)
    requires rest == [] || rest[0] == ' '
    requires env.nvmrc == Some(MajorText(node.major))
    requires env.nodeVersion == CommandResult(FullText(node) + "\n", None)
    requires node.minor != 0
    ensures Doctor.RunDoctor(Doctor.MainGo, env).Completed?
    ensures Doctor.RunDoctor(Doctor.MainGo, env).allPassed
    ensures Doctor.RunDoctor(Doctor.ValidationsGo, env).Completed?
    ensures !Doctor.RunDoctor(Doctor.ValidationsGo, env).allPassed
    ensures Doctor.ExitStatus(Doctor.RunDoctor(Doctor.ValidationsGo, env)) == 0
  {
    GoPatchReleasePasses(Doctor.MainGo, env, goRelease, rest);
    GoPatchReleasePasses(Doctor.ValidationsGo, env, goRelease, rest);
    MinorDriftSplitsRevisions(env, node);
  }

  /** Node.js is missing (`node -v` fails and prints nothing but white
      space) and .nvmrc does not hold a version, say "lts/hydrogen": the
      older revision prints the missing-Node.js error and then passes, since
      `Major` is "" on both sides; the newer revision stops at the error. */
  lemma MissingNodePassesOnlyInMain(env: Environment)
    requires env.nvmrc.Some? && ParseSemver(RequiredNodeVersion(env.nvmrc.value)).None?
    requires env.nodeVersion.err.Some? && AllSpace(env.nodeVersion.stdout)
    ensures MainRevision.NodeCheck(env).Pass?
    ensures MainRevision.NodeCheck(env).log[0] == FailLine(NodeMissing)
    ensures ValidationsRevision.NodeCheck(env) == Fail([FailLine(NodeMissing)])
  {
    TrimSpaceAllSpace(env.nodeVersion.stdout);
  }
}
