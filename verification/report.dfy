/** What the doctor check reads from its environment and what it reports.
    File reads, process runs and the lookup of `nvm` on the PATH are inputs;
    the printed output is a sequence of lines; the boolean each check returns
    is the verdict. */
module Report {
  import opened Wrappers
  import opened Text

  /** The outcome of reading go.mod and parsing it: the file could not be
      read, it could not be parsed (with the parser's error text), or it
      parsed and has, or lacks, a `go` directive. */
  datatype GoMod = GoModUnreadable | GoModMalformed(cause: string) | GoModParsed(goDirective: Option<string>)

  /** What running an external command produced: its standard output, and
      the error text when it could not be started or exited non-zero. */
  datatype CommandResult = CommandResult(stdout: string, err: Option<string>)

  /** Everything the two checks observe. `nvmrc` is the content of .nvmrc,
      None when the file cannot be read. */
  datatype Environment = Environment(
    goMod: GoMod,
    goVersion: CommandResult,
    nvmrc: Option<string>,
    nodeVersion: CommandResult,
    nvmOnPath: bool)

  /** One printed line: through `success` (a check mark), through `fail` (a
      cross), a plain `fmt.Println` line, or an empty line. */
  datatype Line = SuccessLine(text: string) | FailLine(text: string) | PlainLine(text: string) | BlankLine

  /** The result of one check: it returned true, it returned false, or the
      Go runtime panicked (a nil pointer or an index out of range) after the
      lines in `log` had been printed. */
  datatype Verdict = Pass(log: seq<Line>) | Fail(log: seq<Line>) | Crash(log: seq<Line>, panic: string)

  const NvmInstallMessage := "You can download the required Node.js version using Node Version Manager (https://github.com/nvm-sh/nvm). Once nvm is installed, run `nvm install` in this directory to install the correct Node version."
  const GoDownloadHint := "Please follow the instructions at https://go.dev to download the correct version."
  const NodeMissing := "Node.js is not installed or not in PATH. " + NvmInstallMessage
  const NilDereference := "runtime error: invalid memory address or nil pointer dereference"

  /** The ✅/❌ lines both revisions print after comparing Go versions. */
  function GoIncompatible(installed: string, required: string): string
  {
    "Go version " + installed + " is incompatible with required version " + required
  }

  function GoCompatible(installed: string, required: string): string
  {
    "Go version " + installed + " is compatible with required version " + required
  }

  /** The required Node.js version from the content of .nvmrc: trimmed, and
      with a "v" put in front unless it already starts with one. */
  function RequiredNodeVersion(nvmrc: string): (r: string)
    ensures HasPrefix(r, "v") && IsTrimmed(r)
    ensures r == TrimSpace(nvmrc) || r == "v" + TrimSpace(nvmrc)
    ensures HasPrefix(TrimSpace(nvmrc), "v") <==> r == TrimSpace(nvmrc)
  {
    var t := TrimSpace(nvmrc);
    if HasPrefix(t, "v") then t else "v" + t
  }

  /** Normalising an already normalised version changes nothing. */
  lemma RequiredNodeVersionIdempotent(nvmrc: string)
    ensures RequiredNodeVersion(RequiredNodeVersion(nvmrc)) == RequiredNodeVersion(nvmrc)
  {
    TrimSpaceOfTrimmed(RequiredNodeVersion(nvmrc));
  }

  /** A pin of "16" followed by a newline requires "v16". */
  lemma RequiredNodeVersionExample()
    ensures RequiredNodeVersion("16\n") == "v16"
  {
    assert TrimStart("16\n") == "16\n";
    assert TrimEnd("16\n") == "16" by {
      assert "16\n"[..2] == "16";
    }
  }
}
