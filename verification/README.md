# mmplug `doctor`: a Dafny model

`mmplug doctor` checks that a Mattermost plugin's development environment
fits the project. It reads the `go` directive of `go.mod`, runs `go version`
and compares the installed Go release with the directive. It reads the
Node.js pin from `.nvmrc`, runs `node -v` and compares the installed Node.js
with the pin. It prints one ✅ or ❌ line per finding and a summary line.

The repository holds two revisions of the two checks:

- the older one in `main.go` (`runGoCheck`, `runNodeCheck`);
- the newer one in `validations.go`.

Both files are `package main` without build constraints, and both declare
`runGoCheck`, `runNodeCheck`, `success` and `fail`, so as they stand they
cannot be compiled together; nothing in the repository selects one of them.
The model treats them as alternative revisions of the checks that
`runDoctor` calls.

They differ in real ways:

- their error texts;
- a guard on the `go version` output, which the older revision lacks and so
  panics on short output;
- Node.js compared by major version (older) or by major and minor (newer);
- what happens after `node -v` fails: the older revision carries on, the
  newer one stops.

The model has both revisions side by side (`MainRevision`,
`ValidationsRevision`). `Doctor.RunDoctor` is `runDoctor` of `main.go` over
either revision, and the lemmas in `Doctor` and `Scenarios` state where the
two revisions agree and where they differ.

Modules:

- `Text`: Go's `strings.TrimSpace` (with `unicode.IsSpace`'s full set of
  white space), `HasPrefix`, and `Split` on a one-character separator, with
  `Join` as its inverse.
- `Numerals`: decimal numerals without leading zeros and their values.
- `Semver`: the part of `golang.org/x/mod/semver` the checks use: validity,
  `Compare`, `Major` and `MajorMinor` on "vM", "vM.m" and "vM.m.p".
- `Report`: the environment the checks observe (go.mod, command results,
  `.nvmrc`, whether `nvm` is on the PATH), the printed lines and the verdicts,
  and the `.nvmrc` normalisation both revisions share.
- `MainRevision`, `ValidationsRevision`: the two revisions of the checks.
- `Doctor`: `runDoctor`, the exit status, and cross-revision lemmas.
- `Scenarios`: whole runs, stated for every version number.

A Go runtime panic is a result, not a precondition. The checks are total
functions returning `Crash` with the panic text. In both revisions, a go.mod
with no `go` directive dereferences a nil `modFile.Go`. In the older revision,
`go version` output with fewer than three space-separated fields panics on the
index `[2]` ("index out of range [2] with length N"), and a third field
shorter than two characters panics on the slice `[2:]` ("slice bounds out of
range [2:N]").

Behaviour of the code worth noting:

- `runDoctor` never sets a failing exit status. It is a cobra `Run` handler
  that does not call `os.Exit`, so a run that finishes exits with 0 even when
  checks failed (`Doctor.ExitStatusIgnoresVerdicts`). Only a panic ends it
  otherwise.
- The checks are not gated on the plugin manifest. `findManifest` in utils.go
  is never called, so both checks always run.
- A pin of `v18` against an installed `v18.2.0` passes only in the older
  revision. The newer one reads the pin as `v18.0` and compares major and
  minor (`Scenarios.MinorDriftSplitsRevisions`).

## Model

| member | source | states |
|---|---|---|
| Text.TrimSpace | main.go:117 | The trimmed text is a slice of the input. Only white space is cut from either end, and what is left neither starts nor ends with white space, so the cut is maximal. |
| Text.TrimSpaceIdempotent | main.go:106 | Trimming a trimmed string changes nothing. |
| Text.TrimSpacePadded | main.go:117 | Output such as "v18.2.0\n" trims to exactly the text before its trailing white space. |
| Text.TrimSpaceAllSpace | validations.go:66 | Output made only of white space trims to the empty string. |
| Text.Split | main.go:87 | `strings.Split` with a one-character separator: there is always at least one piece, and no piece contains the separator. |
| Text.SplitCount | validations.go:35-36 | Splitting on a separator gives one more piece than there are separators, so fewer than three fields means fewer than two spaces. |
| Text.JoinSplit | main.go:87 | Splitting loses nothing: joining the pieces with the separator gives back the input. |
| Text.SplitJoin | validations.go:35 | Splitting the join of separator-free pieces gives back exactly those pieces. |
| Text.SplitThreeFields | validations.go:35-40 | Output "name verb third rest", where rest is empty or starts with a space, splits into at least three fields, and the third is `third`. |
| Semver.ParseSemver | validations.go:42 | Only a string starting with "v" and a digit parses as a version. |
| Semver.ParseSemverIff | main.go:89 | A string is a valid version exactly when it spells one: "v" and one to three canonical numerals; a missing minor or patch is 0. |
| Semver.Compare | main.go:89 | Compare is -1, 0 or +1. It is 0 exactly when both sides parse equal, negative exactly when the left precedes: invalid before valid, valid versions by (major, minor, patch). |
| Semver.CompareReflexive | validations.go:42 | Every string compares equal to itself. |
| Semver.CompareAntisymmetric | validations.go:42 | Swapping the arguments negates the result. |
| Semver.CompareTransitive | validations.go:42 | "Not above" is transitive, so the minimum-version test is a preorder. |
| Semver.CompareIsNumeric | validations.go:42 | v1.10.0 is above v1.9.0: numbers are compared as numbers, not as text. |
| Semver.CompareSameMajorMinor | main.go:89 | With equal major and minor, the patch numbers alone decide. |
| Semver.Major | main.go:119 | Major is "" exactly for invalid versions, and otherwise a prefix of the input. |
| Semver.MajorEqualIff | main.go:119 | Two Major texts are equal exactly when both versions are invalid or both have the same major number. |
| Semver.MajorMinor | validations.go:72 | MajorMinor is "" exactly for invalid versions, and otherwise a prefix of the input or the input with ".0" appended. |
| Semver.MajorMinorEqualIff | validations.go:72 | Two MajorMinor texts are equal exactly when both versions are invalid or both have the same major and minor numbers. |
| Report.RequiredNodeVersion | main.go:106-109 | The required version is the trimmed .nvmrc content, with "v" put in front exactly when it does not already start with "v". It always starts with "v" and is trimmed. |
| Report.RequiredNodeVersionIdempotent | validations.go:68-70 | Normalising an already normalised pin changes nothing. |
| Report.RequiredNodeVersionExample | validations.go:58-70 | A pin "16" followed by a newline requires "v16". |
| MainRevision.InstalledGoVersion | main.go:86-87 | The older revision reads "v" plus the third field minus its first two characters, whatever they are. It panics exactly when there are fewer than three fields or the third is shorter than two characters, and always when the output has fewer than two spaces. |
| MainRevision.InstalledGoVersionOfFields | main.go:86-87 | On output "go version goX rest" the older revision reads "vX". |
| MainRevision.GoCheck | main.go:64-97 | Each early failure prints its own fixed line. A missing go directive panics with the nil-dereference text. Unreadable output panics with the index or slice bounds text, giving the length found. Nothing else panics. The check passes exactly when the installed version is not below "v" plus the directive. A pass prints the ✅ line naming both versions. A mismatch prints the ❌ line naming both versions, then the go.dev hint. |
| MainRevision.NodeCheck | main.go:99-135 | It never panics. Without .nvmrc it fails with the read error. A failing `node -v`, and only a failing one, first prints the not-installed line, and the check continues. It passes exactly when the installed and required versions have the same major number, or are both invalid, and then prints the ✅ line naming both versions. A mismatch prints the ❌ line naming both versions, then `nvm install` advice if nvm is on the PATH, and the nvm download text otherwise. |
| ValidationsRevision.InstalledGoVersion | validations.go:34-40 | The newer revision rejects output with fewer than three fields or whose third field does not start with "go". Otherwise it reads the third field without "go", and that text has no space. |
| ValidationsRevision.InstalledGoVersionOfFields | validations.go:34-40 | On output "go version goX rest" the newer revision reads "X". |
| ValidationsRevision.GoCheck | validations.go:13-50 | Each early failure prints its own line, carrying the error text where the source formats it. It panics exactly on a missing go directive. It passes exactly when "v" plus the installed version is not below "v" plus the directive. A pass prints the ✅ line naming both versions without "v". A mismatch prints the ❌ line naming both versions, then the go.dev hint. |
| ValidationsRevision.GoFailureLinesDistinct | validations.go:14-38 | The four early-failure lines differ from one another, whatever the error texts are. |
| ValidationsRevision.NodeCheck | validations.go:52-80 | Without .nvmrc it fails with the unknown-version line. A failing `node -v` fails with the not-installed line alone. It passes exactly when major and minor agree, or both versions are invalid, and then prints only the ✅ line naming both versions. A mismatch prints the ❌ line naming both versions and the nvm download text. |
| Doctor.RunDoctor | main.go:40-62 | A run panics exactly when the Go check panics. Otherwise it reports success exactly when both checks pass. |
| Doctor.Summarise | main.go:41-61 | The log starts with the header and a blank line. It then holds the Go check's lines, a blank line, the Node.js check's lines and another blank line. It ends with the summary line matching the verdict, five lines longer than the two checks' output together. After a Go panic the log is the header and the Go check's lines, with no Node.js lines, and the run carries the Go check's panic text. |
| Doctor.ExitStatus | main.go:40-62 | A run that reaches its summary exits with 0; one that panicked exits with 2, and no other status occurs. |
| Doctor.ExitStatusIgnoresVerdicts | main.go:57-61 | The exit status is 0 exactly when the Go check does not panic, whatever the verdicts. |
| Doctor.MissingNvmrcFailsRun | validations.go:53-57 | Without .nvmrc a completed run never reports success, in either revision. |
| Doctor.GoRevisionsAgree | validations.go:35-42 | On output whose third field starts with "go", the older revision does not panic and passes exactly when the newer one does. |
| Doctor.ShortGoOutputPanicsOnlyInMain | main.go:87 | On output with fewer than two spaces the older revision panics with "index out of range [2] with length N", N being the number of spaces plus one. The newer one fails with its parse error line. |
| Doctor.GoEqualVersionsPass | validations.go:42-44 | An installed Go exactly at the directive passes in both revisions. |
| Doctor.NodeValidationsPassImpliesMainPass | validations.go:72-74 | Whenever the newer Node.js check passes, the older one passes too. |
| Scenarios.GoPatchReleasePasses | main.go:89-96 | A directive "M.m" against an installed "goM.m.p" passes in both revisions, for every M, m and p. |
| Scenarios.MinorDriftSplitsRevisions | validations.go:72-79 | A pin "vM" against an installed "vM.m.p" followed by a newline passes in the older revision. It passes in the newer one exactly when m is 0. |
| Scenarios.MinorDriftRuns | main.go:40-62 | With Go in range and Node.js a minor release past the pin, a whole run reports success in the older revision and failure in the newer one, and exits with 0 either way. |
| Scenarios.MissingNodePassesOnlyInMain | main.go:111-121 | When `node -v` fails and .nvmrc is not a version (such as "lts/hydrogen"), the older revision prints the not-installed line and then passes, because both Major texts are "". The newer revision fails with that line alone. |

## Left out

- The command-line wiring (main.go:20-38): cobra registration, argument handling and the exit on a command error.
- The plugin manifest lookup (`findManifest` in utils.go): nothing calls it from the checks.
- File reads, process runs and the PATH lookup of `nvm` are inputs of the model, given as `Report.Environment`, not performed.
- Printing: the output is a sequence of lines tagged success, failure, plain or blank. The ✅/❌ glyphs and the final newline of each line are implied by the tag.
- `fmt` formatting of error values (`%v`): an error is its text, concatenated as is.
- Parsing of go.mod (`modfile.Parse`) is not modelled. Its outcome is an input: unreadable, malformed with an error text, or parsed with or without a `go` directive.
- Pre-release and build suffixes of versions ("v1.2.3-rc.1", "+meta") are not accepted by `Semver.ParseSemver`. The library accepts them, but neither a go directive nor a `node -v` output carries them in practice.
- Semver.Major: states only that the result is empty exactly for invalid versions and otherwise a prefix of the input, not that it is exactly "v" and the major numeral. The checks only ever compare two `Major` texts for equality, and `Semver.MajorEqualIff` states what that equality means.
- Semver.MajorMinor: states only empty-exactly-when-invalid and prefix-or-".0"-extension, not the exact text. The checks only compare two `MajorMinor` texts for equality, and `Semver.MajorMinorEqualIff` states what that equality means.
- Semver.ParseSemver: its own contract states only the leading "v" and digit. The full meaning, both directions, is `Semver.ParseSemverIff`.
- Text.Split: its own contract states only the shape of the pieces. That the pieces are exactly the input cut at each separator is `Text.JoinSplit` with `Text.SplitJoin`, and the count is `Text.SplitCount`.
- MainRevision.InstalledGoVersion: drops the first two code points of the third field, where Go drops the first two bytes. When the third field is a single non-ASCII character (such as "é", two bytes in UTF-8) the model panics and Go does not. When it is longer, the model drops more than Go does: on "éx" the model reads "v" and Go reads "vx". Strings throughout are sequences of Unicode code points. Everywhere else the checks slice only ASCII text ("go" prefixes and "v" versions), where the two readings agree.
- The exit status of a Go panic is 2, the Go runtime's status for an unrecovered panic. Only the panic's error text is modelled, not the "panic: " framing, goroutine trace or stack trace the runtime prints with it.
- Only `runDoctor` of main.go exists. `Doctor.RunDoctor` over the newer revision is that `runDoctor` calling the validations.go checks instead; the source itself has no build in which this happens.
