/**
 * The directive dispatcher and its handlers.
 *
 * Everything the handlers ask of the host (`os.name`, `os.path.expandvars`
 * and `expanduser`, `os.path.dirname`, `os.path.exists`, `os.makedirs`,
 * writing a file, and `subprocess.run` together with `shlex.split`) is an
 * oracle in `Env`. A handler is a function of those answers; besides the
 * result record it returns the host actions it performed, in order, so that
 * "no filesystem action" and "the write is never attempted" can be stated.
 * The module-global `git_credentials_configured` is the field of class
 * `Executor`, whose methods record what happens in a ghost event trace.
 */
module CommandExecutor {
  import opened Wrappers
  import opened Text
  import opened Config
  import opened CommandResult
  import Utils

  // ---------------------------------------------------------------------------
  // Classification

  datatype Kind = FileWrite | DirCreate | ShellRun | VersionControl | Install | Generic

  /** The five prefixes start with five different letters, so a directive has at most one of them. */
  lemma PrefixesExclusive(cmd: string)
    ensures StartsWith(cmd, FilePrefix) ==> cmd[0] == 'F'
    ensures StartsWith(cmd, DirPrefix) ==> cmd[0] == 'D'
    ensures StartsWith(cmd, RunPrefix) ==> cmd[0] == 'R'
    ensures StartsWith(cmd, GitPrefix) ==> cmd[0] == 'G'
    ensures StartsWith(cmd, InstallPrefix) ==> cmd[0] == 'I'
  {
    if StartsWith(cmd, FilePrefix) { assert cmd[0] == cmd[..5][0]; }
    if StartsWith(cmd, DirPrefix) { assert cmd[0] == cmd[..4][0]; }
    if StartsWith(cmd, RunPrefix) { assert cmd[0] == cmd[..4][0]; }
    if StartsWith(cmd, GitPrefix) { assert cmd[0] == cmd[..4][0]; }
    if StartsWith(cmd, InstallPrefix) { assert cmd[0] == cmd[..8][0]; }
  }

  /**
   * The `if/elif` chain of `execute_command`: each kind is chosen exactly
   * when the directive starts with its prefix, and Generic exactly when it
   * starts with none of them.
   */
  function Classify(cmd: string): (k: Kind)
    ensures k == FileWrite <==> StartsWith(cmd, FilePrefix)
    ensures k == DirCreate <==> StartsWith(cmd, DirPrefix)
    ensures k == ShellRun <==> StartsWith(cmd, RunPrefix)
    ensures k == VersionControl <==> StartsWith(cmd, GitPrefix)
    ensures k == Install <==> StartsWith(cmd, InstallPrefix)
    ensures k == Generic <==> !StartsWith(cmd, FilePrefix) && !StartsWith(cmd, DirPrefix) && !StartsWith(cmd, RunPrefix)
                              && !StartsWith(cmd, GitPrefix) && !StartsWith(cmd, InstallPrefix)
  {
    PrefixesExclusive(cmd);
    if StartsWith(cmd, FilePrefix) then FileWrite
    else if StartsWith(cmd, DirPrefix) then DirCreate
    else if StartsWith(cmd, RunPrefix) then ShellRun
    else if StartsWith(cmd, GitPrefix) then VersionControl
    else if StartsWith(cmd, InstallPrefix) then Install
    else Generic
  }

  // ---------------------------------------------------------------------------
  // The host, as oracles

  /** A location handed to `os.path.exists`: a literal path, or `os.path.join(os.environ.get(variable, fallback), *parts)`. */
  datatype Location = Path(path: string) | EnvRelative(variable: string, fallback: string, parts: seq<string>)

  /** The outcome of `os.makedirs` or of writing a file; `error` is `str(e)` of the exception. */
  datatype FsOutcome = Done | Failed(error: string)

  /** What `subprocess.run` is given: a command line for the shell (`shell=True`), or a line that `shlex.split` turns into an argument list. */
  datatype Argv = ShellLine(line: string) | Tokenized(line: string)

  /** A process to run and the environment variables set for it on top of the inherited ones. */
  datatype Invocation = Invocation(argv: Argv, envOverrides: seq<(string, string)>)

  /**
   * What running a process gives: its captured output and exit code, or the
   * text of the exception raised (by `shlex.split` on bad quoting, or by
   * `subprocess.run` when the program cannot be started).
   */
  datatype ProcOutcome = Completed(stdout: string, stderr: string, returncode: int) | Raised(error: string)

  datatype Env = Env(
    windows: bool,                            // os.name == 'nt'
    expandPath: string -> string,             // expand_path
    dirname: string -> string,                // os.path.dirname
    pathExists: Location -> bool,             // os.path.exists
    makedirs: (string, bool) -> FsOutcome,    // os.makedirs(path, exist_ok)
    writeFile: (string, string) -> FsOutcome, // open(path, 'w').write(content)
    run: Invocation -> ProcOutcome)           // subprocess.run

  /** A host action a handler performs. */
  datatype Action = MakeDirs(path: string, existOk: bool) | WriteFile(path: string, content: string) | Spawn(invocation: Invocation)

  /** A handler's result record and the actions it performed, in order. */
  datatype Handled = Handled(result: ExecResult, actions: seq<Action>)

  // ---------------------------------------------------------------------------
  // FILE:

  const InvalidFileFormat := "Error: Invalid FILE command format"

  const CreatedDirectoryLead := "Created directory: "
  const FileCreatedLead := "File created: "
  const FileErrorLead := "Error creating file: "
  const DirErrorLead := "Error creating directory: "
  const DirCreatedLead := "Directory created: "

  /** `cmd.split("]]", 1)`: the text before the first `]]` and the text after it, or `None` when there is no `]]`. */
  function FileSplit(cmd: string): (r: Option<(string, string)>)
    ensures r.None? <==> !Contains(cmd, Closer)
    ensures r.Some? ==> cmd == r.value.0 + Closer + r.value.1 && !Contains(r.value.0, Closer)
    ensures r.Some? ==> forall k :: 0 <= k < |r.value.0| ==> !OccursAt(cmd, Closer, k)
  {
    match Find(cmd, Closer)
    case None => None
    case Some(i) =>
      var before := cmd[..i];
      assert cmd == before + Closer + cmd[i + 2..] by {
        assert cmd[i..i + 2] == Closer;
      }
      forall k | 0 <= k <= |before| - |Closer| ensures !OccursAt(before, Closer, k) {
        assert k < i;
        assert !OccursAt(cmd, Closer, k);
        assert before[k..k + 2] == cmd[k..k + 2];
      }
      Some((before, cmd[i + 2..]))
  }

  /** The directory-creation step is taken when the parent directory is named and does not exist. */
  predicate NeedsDirectory(env: Env, filePath: string) {
    env.dirname(filePath) != "" && !env.pathExists(Path(env.dirname(filePath)))
  }

  /** Creating the missing parent directory raised. */
  predicate DirectoryFails(env: Env, filePath: string) {
    NeedsDirectory(env, filePath) && env.makedirs(env.dirname(filePath), false).Failed?
  }

  /** The message so far when the write is reached: the directory notice, if one was created. */
  function DirectoryNotice(env: Env, filePath: string): string {
    if NeedsDirectory(env, filePath) then CreatedDirectoryLead + env.dirname(filePath) + "\n" else ""
  }

  /** The actions before the write: `os.makedirs(directory)` when the parent is missing. */
  function DirectoryActions(env: Env, filePath: string): seq<Action> {
    if NeedsDirectory(env, filePath) then [MakeDirs(env.dirname(filePath), false)] else []
  }

  /** The write step of `handle_file_command`, appending to the message built so far. */
  function WriteStep(result: ExecResult, actions: seq<Action>, filePath: string, content: string, env: Env): Handled {
    match env.writeFile(filePath, content)
    case Done => Handled(result.(message := result.message + FileCreatedLead + filePath), actions + [WriteFile(filePath, content)])
    case Failed(e) => Handled(result.(stderr := e, message := result.message + FileErrorLead + e), actions + [WriteFile(filePath, content)])
  }

  /**
   * The body of `handle_file_command` once the path (already expanded) and
   * the content are known. The parent directory is created first when it is
   * missing; if that fails the error is reported and the write is never
   * attempted; else the message is "Created directory: …\n" (only when one
   * was created) followed by "File created: …" or the write error.
   */
  function WriteFileAt(filePath: string, content: string, env: Env): (h: Handled)
    ensures h.result.returncode.None? && h.result.stdout == ""
    ensures forall k :: 0 <= k < |h.actions| ==> !h.actions[k].Spawn?
    ensures DirectoryFails(env, filePath) ==>
              var e := env.makedirs(env.dirname(filePath), false).error;
              && h.actions == [MakeDirs(env.dirname(filePath), false)]
              && h.result.stderr == e && h.result.message == DirErrorLead + e + "\n"
    ensures !DirectoryFails(env, filePath) ==>
              h.actions == DirectoryActions(env, filePath) + [WriteFile(filePath, content)]
    ensures !DirectoryFails(env, filePath) && env.writeFile(filePath, content).Done? ==>
              h.result.stderr == "" && h.result.message == DirectoryNotice(env, filePath) + FileCreatedLead + filePath
    ensures !DirectoryFails(env, filePath) && env.writeFile(filePath, content).Failed? ==>
              var e := env.writeFile(filePath, content).error;
              h.result.stderr == e && h.result.message == DirectoryNotice(env, filePath) + FileErrorLead + e
  {
    var directory := env.dirname(filePath);
    if directory != "" && !env.pathExists(Path(directory)) then
      match env.makedirs(directory, false)
      case Failed(e) =>
        Handled(Blank.(stderr := e, message := DirErrorLead + e + "\n"), [MakeDirs(directory, false)])
      case Done =>
        WriteStep(Blank.(message := CreatedDirectoryLead + directory + "\n"), [MakeDirs(directory, false)], filePath, content, env)
    else
      WriteStep(Blank, [], filePath, content, env)
  }

  /**
   * `handle_file_command`: without a `]]` the directive is rejected with no
   * host action; otherwise the text between the prefix and the first `]]`,
   * stripped and expanded, is the path and the stripped rest is the content.
   * No exit code is ever set.
   */
  function HandleFile(cmd: string, env: Env): (h: Handled)
    ensures h.result.returncode.None? && h.result.stdout == ""
    ensures FileSplit(cmd).None? ==> h == Handled(Blank.(message := InvalidFileFormat), [])
    ensures FileSplit(cmd).Some? ==>
              h == WriteFileAt(env.expandPath(Strip(SliceFrom(FileSplit(cmd).value.0, |FilePrefix|))),
                               Strip(FileSplit(cmd).value.1), env)
  {
    match FileSplit(cmd)
    case None => Handled(Blank.(message := InvalidFileFormat), [])
    case Some((before, after)) =>
      var filePath := env.expandPath(Strip(SliceFrom(before, |FilePrefix|)));
      var content := Strip(after);
      WriteFileAt(filePath, content, env)
  }

  // ---------------------------------------------------------------------------
  // DIR:

  /** `handle_dir_command`: one `os.makedirs(path, exist_ok=True)`, so an existing directory is not an error. */
  function HandleDir(cmd: string, env: Env): (h: Handled)
    ensures var dirPath := env.expandPath(Strip(SliceFrom(cmd, |DirPrefix|)));
            && h.actions == [MakeDirs(dirPath, true)]
            && h.result.returncode.None? && h.result.stdout == ""
            && (env.makedirs(dirPath, true).Done? ==> h.result.message == DirCreatedLead + dirPath && h.result.stderr == "")
            && (env.makedirs(dirPath, true).Failed? ==>
                  var e := env.makedirs(dirPath, true).error;
                  h.result.stderr == e && h.result.message == DirErrorLead + e)
  {
    var dirPath := env.expandPath(Strip(SliceFrom(cmd, |DirPrefix|)));
    match env.makedirs(dirPath, true)
    case Done => Handled(Blank.(message := DirCreatedLead + dirPath), [MakeDirs(dirPath, true)])
    case Failed(e) => Handled(Blank.(stderr := e, message := DirErrorLead + e), [MakeDirs(dirPath, true)])
  }

  // ---------------------------------------------------------------------------
  // Processes: RUN:, GIT:, INSTALL: and generic directives

  /** The `use_shell` test: on Windows only, and only for a line with `&&`, `%` or `$`. */
  predicate UseShell(line: string, windows: bool) {
    windows && HasShellSyntax(line)
  }

  /** `shell_cmd if use_shell else shlex.split(shell_cmd)` */
  function ShellOrSplit(line: string, windows: bool): (a: Argv)
    ensures a.line == line
    ensures !windows ==> a.Tokenized?
  {
    if UseShell(line, windows) then ShellLine(line) else Tokenized(line)
  }

  const CommandErrorLead := "Error executing command: "
  const GitErrorLead := "Error executing git command: "
  const InstallErrorLead := "Error installing package: "

  /** The result record of a process handler: output and exit code copied, or the exception's text. */
  function ProcessResult(outcome: ProcOutcome, errorLead: string): (r: ExecResult)
    ensures outcome.Completed? ==> r == ExecResult(outcome.stdout, outcome.stderr, Some(outcome.returncode), "")
    ensures outcome.Raised? ==> r == ExecResult("", outcome.error, None, errorLead + outcome.error)
  {
    var result := Blank;
    match outcome
    case Completed(out, err, code) => result.(stdout := out, stderr := err, returncode := Some(code))
    case Raised(e) => result.(stderr := e, message := errorLead + e)
  }

  function RunInvocation(cmd: string, windows: bool): (inv: Invocation)
    ensures !windows ==> inv.argv.Tokenized?
  {
    var shellCmd := Strip(SliceFrom(cmd, |RunPrefix|));
    Invocation(ShellOrSplit(shellCmd, windows), [])
  }

  const GitWord := "git "
  const NoTerminalPrompt := ("GIT_TERMINAL_PROMPT", "0")
  const EchoAskPass := ("GIT_ASKPASS", "/bin/echo")

  /** `git <remainder>`, with `GIT_TERMINAL_PROMPT=0`, and off Windows also `GIT_ASKPASS=/bin/echo`. */
  function GitInvocation(cmd: string, windows: bool): (inv: Invocation)
    ensures !windows ==> inv.argv.Tokenized?
  {
    var gitCmd := Strip(SliceFrom(cmd, |GitPrefix|));
    var fullCmd := GitWord + gitCmd;
    var overrides := if windows then [NoTerminalPrompt]
                     else [NoTerminalPrompt, EchoAskPass];
    Invocation(if UseShell(gitCmd, windows) then ShellLine(fullCmd) else Tokenized(fullCmd), overrides)
  }

  function GenericInvocation(cmd: string, windows: bool): (inv: Invocation)
    ensures !windows ==> inv.argv.Tokenized?
  {
    Invocation(ShellOrSplit(cmd, windows), [])
  }

  /** The package-manager command goes through the shell exactly on Windows, whatever it contains. */
  function InstallInvocation(pmCmd: string, windows: bool): Invocation {
    Invocation(if windows then ShellLine(pmCmd) else Tokenized(pmCmd), [])
  }

  /** `handle_run_command`: the stripped remainder runs as one process, and the record reports it. */
  function HandleRun(cmd: string, env: Env): (h: Handled)
    ensures Spawned(h) == [RunInvocation(cmd, env.windows)]
    ensures ReportsProcess(h, env)
    ensures env.run(RunInvocation(cmd, env.windows)).Raised? ==>
              h.result.message == CommandErrorLead + env.run(RunInvocation(cmd, env.windows)).error
  {
    var inv := RunInvocation(cmd, env.windows);
    ProcessHandlerReports(inv, CommandErrorLead, env);
    Handled(ProcessResult(env.run(inv), CommandErrorLead), [Spawn(inv)])
  }

  /** `handle_git_command`: `git` and the stripped remainder run as one process, and the record reports it. */
  function HandleGit(cmd: string, env: Env): (h: Handled)
    ensures Spawned(h) == [GitInvocation(cmd, env.windows)]
    ensures ReportsProcess(h, env)
    ensures env.run(GitInvocation(cmd, env.windows)).Raised? ==>
              h.result.message == GitErrorLead + env.run(GitInvocation(cmd, env.windows)).error
  {
    var inv := GitInvocation(cmd, env.windows);
    ProcessHandlerReports(inv, GitErrorLead, env);
    Handled(ProcessResult(env.run(inv), GitErrorLead), [Spawn(inv)])
  }

  /** Any other directive runs as one process, the text as it is, and the record reports it. */
  function HandleGeneric(cmd: string, env: Env): (h: Handled)
    ensures Spawned(h) == [GenericInvocation(cmd, env.windows)]
    ensures ReportsProcess(h, env)
    ensures env.run(GenericInvocation(cmd, env.windows)).Raised? ==>
              h.result.message == CommandErrorLead + env.run(GenericInvocation(cmd, env.windows)).error
  {
    var inv := GenericInvocation(cmd, env.windows);
    ProcessHandlerReports(inv, CommandErrorLead, env);
    Handled(ProcessResult(env.run(inv), CommandErrorLead), [Spawn(inv)])
  }

  const NoPackageManager := "Could not detect package manager. Please install manually."

  /** `handle_install_command`: with no package manager found nothing is run and no exit code is set. */
  function HandleInstall(cmd: string, env: Env): (h: Handled)
    ensures var package := Strip(SliceFrom(cmd, |InstallPrefix|));
            DetectPackageManager(package, env.windows, env.pathExists).None? ==>
              h == Handled(Blank.(message := NoPackageManager), [])
    ensures ReportsProcess(h, env)
  {
    var package := Strip(SliceFrom(cmd, |InstallPrefix|));
    match DetectPackageManager(package, env.windows, env.pathExists)
    case None => Handled(Blank.(message := NoPackageManager), [])
    case Some(pmCmd) =>
      var inv := InstallInvocation(pmCmd, env.windows);
      Handled(ProcessResult(env.run(inv), InstallErrorLead), [Spawn(inv)])
  }

  // ---------------------------------------------------------------------------
  // detect_package_manager

  datatype Manager = Pip | Npm | Choco | Apt | Yum | Dnf | Brew

  /** The managers probed, in priority order. */
  function Candidates(windows: bool): seq<Manager> {
    if windows then [Pip, Npm, Choco] else [Apt, Yum, Dnf, Brew, Pip, Npm]
  }

  /** The locations probed on Windows: under environment variables with their defaults. */
  const WinPython := EnvRelative("SYSTEMDRIVE", "C:", ["Python"])
  const WinUserPython := EnvRelative("LOCALAPPDATA", "", ["Programs", "Python"])
  const WinNode := EnvRelative("PROGRAMFILES", "", ["nodejs"])
  const WinNode32 := EnvRelative("PROGRAMFILES(X86)", "", ["nodejs"])
  const WinChoco := EnvRelative("PROGRAMDATA", "", ["chocolatey"])

  /** The locations probed elsewhere: fixed paths. */
  const UsrApt := Path("/usr/bin/apt")
  const BinApt := Path("/bin/apt")
  const UsrYum := Path("/usr/bin/yum")
  const BinYum := Path("/bin/yum")
  const UsrDnf := Path("/usr/bin/dnf")
  const BinDnf := Path("/bin/dnf")
  const UsrBrew := Path("/usr/bin/brew")
  const LocalBrew := Path("/usr/local/bin/brew")
  const UsrPip := Path("/usr/bin/pip")
  const LocalPip := Path("/usr/local/bin/pip")
  const UsrNpm := Path("/usr/bin/npm")
  const LocalNpm := Path("/usr/local/bin/npm")

  /** Where each manager is looked for. */
  function Locations(m: Manager, windows: bool): seq<Location> {
    if windows then
      match m
      case Pip => [WinPython, WinUserPython]
      case Npm => [WinNode, WinNode32]
      case Choco => [WinChoco]
      case _ => []
    else
      match m
      case Apt => [UsrApt, BinApt]
      case Yum => [UsrYum, BinYum]
      case Dnf => [UsrDnf, BinDnf]
      case Brew => [UsrBrew, LocalBrew]
      case Pip => [UsrPip, LocalPip]
      case Npm => [UsrNpm, LocalNpm]
      case Choco => []
  }

  predicate Present(m: Manager, windows: bool, pathExists: Location -> bool) {
    exists l :: l in Locations(m, windows) && pathExists(l)
  }

  const PipInstall := "pip install "
  const NpmInstall := "npm install -g "
  const ChocoInstall := "choco install "
  const AssumeYes := " -y"
  const AptInstall := "apt-get install -y "
  const YumInstall := "yum install -y "
  const DnfInstall := "dnf install -y "
  const BrewInstall := "brew install "

  function InstallCommand(m: Manager, package: string): string {
    match m
    case Pip => PipInstall + package
    case Npm => NpmInstall + package
    case Choco => ChocoInstall + package + AssumeYes
    case Apt => AptInstall + package
    case Yum => YumInstall + package
    case Dnf => DnfInstall + package
    case Brew => BrewInstall + package
  }

  /** The first present manager of a priority list. */
  function FirstPresent(cands: seq<Manager>, windows: bool, pathExists: Location -> bool): (r: Option<Manager>)
    ensures r.None? <==> forall i :: 0 <= i < |cands| ==> !Present(cands[i], windows, pathExists)
    ensures r.Some? ==> exists i :: && 0 <= i < |cands| && cands[i] == r.value && Present(cands[i], windows, pathExists)
                                    && forall j :: 0 <= j < i ==> !Present(cands[j], windows, pathExists)
  {
    if cands == [] then None
    else if Present(cands[0], windows, pathExists) then Some(cands[0])
    else
      var r := FirstPresent(cands[1..], windows, pathExists);
      assert r.Some? ==> exists i :: && 0 <= i < |cands| && cands[i] == r.value && Present(cands[i], windows, pathExists)
                                     && forall j :: 0 <= j < i ==> !Present(cands[j], windows, pathExists) by {
        if r.Some? {
          var i :| && 0 <= i < |cands[1..]| && cands[1..][i] == r.value && Present(cands[1..][i], windows, pathExists)
                   && forall j :: 0 <= j < i ==> !Present(cands[1..][j], windows, pathExists);
          assert cands[i + 1] == r.value;
          forall j | 0 <= j < i + 1 ensures !Present(cands[j], windows, pathExists) {
            if j > 0 { assert cands[j] == cands[1..][j - 1]; }
          }
        }
      }
      r
  }

  /** `detect_package_manager`: the source's `if/elif` chain over fixed locations. */
  function DetectPackageManager(package: string, windows: bool, pathExists: Location -> bool): (r: Option<string>)
    ensures r.None? ==> forall m :: m in Candidates(windows) ==> !Present(m, windows, pathExists)
  {
    if windows then
      if pathExists(WinPython) || pathExists(WinUserPython) then
        Some(PipInstall + package)
      else if pathExists(WinNode) || pathExists(WinNode32) then
        Some(NpmInstall + package)
      else if pathExists(WinChoco) then
        Some(ChocoInstall + package + AssumeYes)
      else
        None
    else
      if pathExists(UsrApt) || pathExists(BinApt) then
        Some(AptInstall + package)
      else if pathExists(UsrYum) || pathExists(BinYum) then
        Some(YumInstall + package)
      else if pathExists(UsrDnf) || pathExists(BinDnf) then
        Some(DnfInstall + package)
      else if pathExists(UsrBrew) || pathExists(LocalBrew) then
        Some(BrewInstall + package)
      else if pathExists(UsrPip) || pathExists(LocalPip) then
        Some(PipInstall + package)
      else if pathExists(UsrNpm) || pathExists(LocalNpm) then
        Some(NpmInstall + package)
      else
        None
  }

  /**
   * The chain gives the install command of the first manager present in the
   * platform's priority order (Windows: pip, npm, choco; elsewhere: apt, yum,
   * dnf, brew, pip, npm), and `None` exactly when none is present.
   */
  lemma DetectFollowsPriority(package: string, windows: bool, pathExists: Location -> bool)
    ensures DetectPackageManager(package, windows, pathExists) ==
              match FirstPresent(Candidates(windows), windows, pathExists)
              case None => None
              case Some(m) => Some(InstallCommand(m, package))
    ensures DetectPackageManager(package, windows, pathExists).None? <==>
              forall m :: m in Candidates(windows) ==> !Present(m, windows, pathExists)
  {
    DetectIsFirstPresent(package, windows, pathExists);
    var r := FirstPresent(Candidates(windows), windows, pathExists);
    if r.None? {
      forall m | m in Candidates(windows) ensures !Present(m, windows, pathExists) {
        var i :| 0 <= i < |Candidates(windows)| && Candidates(windows)[i] == m;
      }
    } else {
      var i :| 0 <= i < |Candidates(windows)| && Candidates(windows)[i] == r.value && Present(Candidates(windows)[i], windows, pathExists);
      assert r.value in Candidates(windows);
    }
  }

  lemma DetectIsFirstPresent(package: string, windows: bool, pathExists: Location -> bool)
    ensures DetectPackageManager(package, windows, pathExists) ==
              match FirstPresent(Candidates(windows), windows, pathExists)
              case None => None
              case Some(m) => Some(InstallCommand(m, package))
  {
    if windows {
      WindowsChain(package, pathExists);
    } else {
      UnixChain(package, pathExists);
    }
  }

  lemma WindowsChain(package: string, pathExists: Location -> bool)
    ensures DetectPackageManager(package, true, pathExists) ==
              match FirstPresent(Candidates(true), true, pathExists)
              case None => None
              case Some(m) => Some(InstallCommand(m, package))
  {
    var c := Candidates(true);
    PresentByIndex(Pip, true, pathExists);
    PresentByIndex(Npm, true, pathExists);
    PresentByIndex(Choco, true, pathExists);
    assert c[1..] == [Npm, Choco] && c[2..] == [Choco] && c[3..] == [];
    assert FirstPresent(c, true, pathExists) == if Present(Pip, true, pathExists) then Some(Pip) else FirstPresent(c[1..], true, pathExists);
    assert FirstPresent(c[1..], true, pathExists) == if Present(Npm, true, pathExists) then Some(Npm) else FirstPresent(c[2..], true, pathExists);
    assert FirstPresent(c[2..], true, pathExists) == if Present(Choco, true, pathExists) then Some(Choco) else FirstPresent(c[3..], true, pathExists);
  }

  lemma UnixChain(package: string, pathExists: Location -> bool)
    ensures DetectPackageManager(package, false, pathExists) ==
              match FirstPresent(Candidates(false), false, pathExists)
              case None => None
              case Some(m) => Some(InstallCommand(m, package))
  {
    var c := Candidates(false);
    assert c[1..] == [Yum, Dnf, Brew, Pip, Npm] && c[2..] == [Dnf, Brew, Pip, Npm] && c[3..] == [Brew, Pip, Npm];
    assert c[4..] == [Pip, Npm] && c[5..] == [Npm] && c[6..] == [];
    PresentByIndex(Apt, false, pathExists);
    if !Present(Apt, false, pathExists) {
      assert FirstPresent(c, false, pathExists) == FirstPresent(c[1..], false, pathExists);
      PresentByIndex(Yum, false, pathExists);
      if !Present(Yum, false, pathExists) {
        assert FirstPresent(c[1..], false, pathExists) == FirstPresent(c[2..], false, pathExists);
        PresentByIndex(Dnf, false, pathExists);
        if !Present(Dnf, false, pathExists) {
          assert FirstPresent(c[2..], false, pathExists) == FirstPresent(c[3..], false, pathExists);
          UnixChainTail(package, pathExists);
        }
      }
    }
  }

  lemma UnixChainTail(package: string, pathExists: Location -> bool)
    requires !Present(Apt, false, pathExists) && !Present(Yum, false, pathExists) && !Present(Dnf, false, pathExists)
    ensures DetectPackageManager(package, false, pathExists) ==
              match FirstPresent(Candidates(false)[3..], false, pathExists)
              case None => None
              case Some(m) => Some(InstallCommand(m, package))
  {
    var c := Candidates(false)[3..];
    assert c == [Brew, Pip, Npm] && c[1..] == [Pip, Npm] && c[2..] == [Npm] && c[3..] == [];
    PresentByIndex(Apt, false, pathExists);
    PresentByIndex(Yum, false, pathExists);
    PresentByIndex(Dnf, false, pathExists);
    PresentByIndex(Brew, false, pathExists);
    if !Present(Brew, false, pathExists) {
      assert FirstPresent(c, false, pathExists) == FirstPresent(c[1..], false, pathExists);
      PresentByIndex(Pip, false, pathExists);
      if !Present(Pip, false, pathExists) {
        assert FirstPresent(c[1..], false, pathExists) == FirstPresent(c[2..], false, pathExists);
        PresentByIndex(Npm, false, pathExists);
      }
    }
  }

  lemma PresentByIndex(m: Manager, windows: bool, pathExists: Location -> bool)
    requires m in Candidates(windows)
    ensures 1 <= |Locations(m, windows)| <= 2
    ensures Present(m, windows, pathExists) <==>
              pathExists(Locations(m, windows)[0]) || (|Locations(m, windows)| > 1 && pathExists(Locations(m, windows)[1]))
  {
    var ls := Locations(m, windows);
    if pathExists(ls[0]) { assert ls[0] in ls; }
    if |ls| > 1 && pathExists(ls[1]) { assert ls[1] in ls; }
  }

  // ---------------------------------------------------------------------------
  // Dispatch

  /** The handler `execute_command` routes a directive to. */
  function Dispatch(cmd: string, env: Env): (h: Handled)
    ensures ReportsProcess(h, env)
  {
    match Classify(cmd)
    case FileWrite => FileHandlerStartsNothing(cmd, env); HandleFile(cmd, env)
    case DirCreate => HandleDir(cmd, env)
    case ShellRun => HandleRun(cmd, env)
    case VersionControl => HandleGit(cmd, env)
    case Install => HandleInstall(cmd, env)
    case Generic => HandleGeneric(cmd, env)
  }

  /**
   * What the result record says about processes: at most one process is
   * started, and then the record holds its output and exit code verbatim
   * with an empty message, or, when starting it raised, the exception's text
   * as standard error and no exit code; when no process is started there is
   * no exit code and no output.
   */
  predicate ReportsProcess(h: Handled, env: Env) {
    && (forall k :: 0 <= k < |h.actions| && h.actions[k].Spawn? ==> |h.actions| == 1)
    && if |h.actions| == 1 && h.actions[0].Spawn? then
         match env.run(h.actions[0].invocation)
         case Completed(o, e, c) => h.result == ExecResult(o, e, Some(c), "")
         case Raised(x) => h.result.returncode.None? && h.result.stdout == "" && h.result.stderr == x
       else
         h.result.returncode.None? && h.result.stdout == ""
  }

  /** A handler that starts `inv` and reports it with `lead`: one process, reported, with the lead on failure. */
  lemma ProcessHandlerReports(inv: Invocation, lead: string, env: Env)
    ensures var h := Handled(ProcessResult(env.run(inv), lead), [Spawn(inv)]);
            && Spawned(h) == [inv]
            && ReportsProcess(h, env)
            && (env.run(inv).Raised? ==> h.result.message == lead + env.run(inv).error)
  {
    SpawnsOnce(Handled(ProcessResult(env.run(inv), lead), [Spawn(inv)]), inv);
  }

  /** FILE directives only create directories and write files. */
  lemma FileHandlerStartsNothing(cmd: string, env: Env)
    ensures forall k :: 0 <= k < |HandleFile(cmd, env).actions| ==> !HandleFile(cmd, env).actions[k].Spawn?
    ensures ReportsProcess(HandleFile(cmd, env), env)
  {
    var h := HandleFile(cmd, env);
    if FileSplit(cmd).Some? {
      var filePath := env.expandPath(Strip(SliceFrom(FileSplit(cmd).value.0, |FilePrefix|)));
      var w := WriteFileAt(filePath, Strip(FileSplit(cmd).value.1), env);
      assert h == w;
    }
  }

  /** The processes a directive starts. */
  function Spawned(h: Handled): seq<Invocation> {
    if |h.actions| == 1 && h.actions[0].Spawn? then [h.actions[0].invocation] else []
  }

  /** Every one of these processes is started from a token list. */
  predicate AllTokenized(invs: seq<Invocation>) {
    forall k :: 0 <= k < |invs| ==> invs[k].argv.Tokenized?
  }

  /** Every one of these processes is started through the shell. */
  predicate AllThroughShell(invs: seq<Invocation>) {
    forall k :: 0 <= k < |invs| ==> invs[k].argv.ShellLine?
  }

  /**
   * Off Windows every process is started from a `shlex.split` argument list;
   * on Windows an INSTALL directive's command always goes through the shell.
   */
  lemma ShellOnlyOnWindows(cmd: string, env: Env)
    ensures !env.windows ==> AllTokenized(Spawned(Dispatch(cmd, env)))
    ensures env.windows && Classify(cmd) == Install ==> AllThroughShell(Spawned(Dispatch(cmd, env)))
  {
    if env.windows {
      if Classify(cmd) == Install {
        InstallShellPolicy(cmd, env);
      }
    } else {
      match Classify(cmd)
      case FileWrite => SpawnedByFile(cmd, env);
      case DirCreate => SpawnedByDir(cmd, env);
      case ShellRun => SpawnedByRun(cmd, env);
      case VersionControl => SpawnedByGit(cmd, env);
      case Install => InstallShellPolicy(cmd, env);
      case Generic => SpawnedByGeneric(cmd, env);
    }
  }

  // The process each kind of directive starts, one kind at a time.

  lemma SpawnedByFile(cmd: string, env: Env)
    requires Classify(cmd) == FileWrite
    ensures Spawned(Dispatch(cmd, env)) == []
    ensures !env.windows ==> AllTokenized(Spawned(Dispatch(cmd, env)))
  {
    FileHandlerStartsNothing(cmd, env);
    var h := HandleFile(cmd, env);
    assert Dispatch(cmd, env) == h;
    if |h.actions| == 1 {
      assert !h.actions[0].Spawn?;
    }
  }

  lemma SpawnedByDir(cmd: string, env: Env)
    requires Classify(cmd) == DirCreate
    ensures Spawned(Dispatch(cmd, env)) == []
    ensures !env.windows ==> AllTokenized(Spawned(Dispatch(cmd, env)))
  {
    assert Dispatch(cmd, env) == HandleDir(cmd, env);
  }

  lemma SpawnedByRun(cmd: string, env: Env)
    requires Classify(cmd) == ShellRun
    ensures Spawned(Dispatch(cmd, env)) == [RunInvocation(cmd, env.windows)]
    ensures !env.windows ==> AllTokenized(Spawned(Dispatch(cmd, env)))
    ensures env.run(RunInvocation(cmd, env.windows)).Raised? ==>
              Dispatch(cmd, env).result.message == CommandErrorLead + env.run(RunInvocation(cmd, env.windows)).error
  {
    assert Dispatch(cmd, env) == HandleRun(cmd, env);
    SpawnsOnce(HandleRun(cmd, env), RunInvocation(cmd, env.windows));
    if !env.windows {
      TokenizedSingleton(RunInvocation(cmd, env.windows));
    }
  }

  lemma SpawnedByGit(cmd: string, env: Env)
    requires Classify(cmd) == VersionControl
    ensures Spawned(Dispatch(cmd, env)) == [GitInvocation(cmd, env.windows)]
    ensures !env.windows ==> AllTokenized(Spawned(Dispatch(cmd, env)))
    ensures env.run(GitInvocation(cmd, env.windows)).Raised? ==>
              Dispatch(cmd, env).result.message == GitErrorLead + env.run(GitInvocation(cmd, env.windows)).error
  {
    assert Dispatch(cmd, env) == HandleGit(cmd, env);
    SpawnsOnce(HandleGit(cmd, env), GitInvocation(cmd, env.windows));
    if !env.windows {
      TokenizedSingleton(GitInvocation(cmd, env.windows));
    }
  }

  lemma SpawnedByGeneric(cmd: string, env: Env)
    requires Classify(cmd) == Generic
    ensures Spawned(Dispatch(cmd, env)) == [GenericInvocation(cmd, env.windows)]
    ensures !env.windows ==> AllTokenized(Spawned(Dispatch(cmd, env)))
    ensures env.run(GenericInvocation(cmd, env.windows)).Raised? ==>
              Dispatch(cmd, env).result.message == CommandErrorLead + env.run(GenericInvocation(cmd, env.windows)).error
  {
    assert Dispatch(cmd, env) == HandleGeneric(cmd, env);
    SpawnsOnce(HandleGeneric(cmd, env), GenericInvocation(cmd, env.windows));
    if !env.windows {
      TokenizedSingleton(GenericInvocation(cmd, env.windows));
    }
  }

  lemma InstallShellPolicy(cmd: string, env: Env)
    requires Classify(cmd) == Install
    ensures env.windows ==> AllThroughShell(Spawned(Dispatch(cmd, env)))
    ensures !env.windows ==> AllTokenized(Spawned(Dispatch(cmd, env)))
  {
    assert Dispatch(cmd, env) == HandleInstall(cmd, env);
    var package := Strip(SliceFrom(cmd, |InstallPrefix|));
    var pm := DetectPackageManager(package, env.windows, env.pathExists);
    if pm.Some? {
      SpawnsOnce(HandleInstall(cmd, env), InstallInvocation(pm.value, env.windows));
    }
  }


  /**
   * An INSTALL directive runs the install command of the first package
   * manager present for the platform, and reports a failure to start it as
   * "Error installing package: …"; with none present nothing is run.
   */
  lemma InstallUsesFirstPresent(cmd: string, env: Env)
    requires Classify(cmd) == Install
    ensures var package := Strip(SliceFrom(cmd, |InstallPrefix|));
            var h := Dispatch(cmd, env);
            match FirstPresent(Candidates(env.windows), env.windows, env.pathExists)
            case None => h == Handled(Blank.(message := NoPackageManager), [])
            case Some(m) =>
              && Spawned(h) == [InstallInvocation(InstallCommand(m, package), env.windows)]
              && (env.run(Spawned(h)[0]).Raised? ==>
                    h.result.message == InstallErrorLead + env.run(Spawned(h)[0]).error)
  {
    assert Dispatch(cmd, env) == HandleInstall(cmd, env);
    InstallHandlerUsesFirstPresent(cmd, env);
  }

  lemma InstallHandlerUsesFirstPresent(cmd: string, env: Env)
    ensures var package := Strip(SliceFrom(cmd, |InstallPrefix|));
            var h := HandleInstall(cmd, env);
            match FirstPresent(Candidates(env.windows), env.windows, env.pathExists)
            case None => h == Handled(Blank.(message := NoPackageManager), [])
            case Some(m) =>
              && Spawned(h) == [InstallInvocation(InstallCommand(m, package), env.windows)]
              && (env.run(Spawned(h)[0]).Raised? ==>
                    h.result.message == InstallErrorLead + env.run(Spawned(h)[0]).error)
  {
    var package := Strip(SliceFrom(cmd, |InstallPrefix|));
    DetectIsFirstPresent(package, env.windows, env.pathExists);
    match FirstPresent(Candidates(env.windows), env.windows, env.pathExists)
    case None =>
    case Some(m) =>
      var inv := InstallInvocation(InstallCommand(m, package), env.windows);
      InstallWith(cmd, env, InstallCommand(m, package));
      SpawnsOnce(HandleInstall(cmd, env), inv);
  }

  lemma InstallWith(cmd: string, env: Env, pmCmd: string)
    requires DetectPackageManager(Strip(SliceFrom(cmd, |InstallPrefix|)), env.windows, env.pathExists) == Some(pmCmd)
    ensures var inv := InstallInvocation(pmCmd, env.windows);
            HandleInstall(cmd, env) == Handled(ProcessResult(env.run(inv), InstallErrorLead), [Spawn(inv)])
  {
  }

  /** The text `use_shell` tests has `&&`, `%` or `$` in it. */
  predicate HasShellSyntax(line: string) {
    Contains(line, "&&") || Contains(line, "%") || Contains(line, "$")
  }

  /**
   * The process each non-FILE, non-DIR, non-INSTALL directive starts, and
   * how: RUN runs its stripped remainder, GIT runs `git ` + its stripped
   * remainder with credential prompts switched off (and, off Windows, the
   * password helper set to `/bin/echo`), a generic directive runs itself
   * with the inherited environment; each goes through the shell
   * exactly when on Windows the tested text (for GIT the remainder, not the
   * full command) has shell syntax.
   */
  lemma ShellDecision(cmd: string, env: Env)
    ensures Classify(cmd) == ShellRun ==>
              var line := Strip(SliceFrom(cmd, |RunPrefix|));
              && Spawned(Dispatch(cmd, env)) == [Invocation(Spawned(Dispatch(cmd, env))[0].argv, [])]
              && Spawned(Dispatch(cmd, env))[0].argv.line == line
              && (Spawned(Dispatch(cmd, env))[0].argv.ShellLine? <==> env.windows && HasShellSyntax(line))
              && (env.run(Spawned(Dispatch(cmd, env))[0]).Raised? ==>
                    Dispatch(cmd, env).result.message == CommandErrorLead + env.run(Spawned(Dispatch(cmd, env))[0]).error)
    ensures Classify(cmd) == VersionControl ==>
              var gitCmd := Strip(SliceFrom(cmd, |GitPrefix|));
              && |Spawned(Dispatch(cmd, env))| == 1
              && Spawned(Dispatch(cmd, env))[0].argv.line == GitWord + gitCmd
              && Spawned(Dispatch(cmd, env))[0].envOverrides ==
                   (if env.windows then [NoTerminalPrompt]
                    else [NoTerminalPrompt, EchoAskPass])
              && (Spawned(Dispatch(cmd, env))[0].argv.ShellLine? <==> env.windows && HasShellSyntax(gitCmd))
              && (env.run(Spawned(Dispatch(cmd, env))[0]).Raised? ==>
                    Dispatch(cmd, env).result.message == GitErrorLead + env.run(Spawned(Dispatch(cmd, env))[0]).error)
    ensures Classify(cmd) == Generic ==>
              && Spawned(Dispatch(cmd, env)) == [Invocation(Spawned(Dispatch(cmd, env))[0].argv, [])]
              && Spawned(Dispatch(cmd, env))[0].argv.line == cmd
              && (Spawned(Dispatch(cmd, env))[0].argv.ShellLine? <==> env.windows && HasShellSyntax(cmd))
              && (env.run(Spawned(Dispatch(cmd, env))[0]).Raised? ==>
                    Dispatch(cmd, env).result.message == CommandErrorLead + env.run(Spawned(Dispatch(cmd, env))[0]).error)
  {
    match Classify(cmd)
    case ShellRun => SpawnedByRun(cmd, env);
    case VersionControl => SpawnedByGit(cmd, env);
    case Generic => SpawnedByGeneric(cmd, env);
    case _ =>
  }

  /**
   * Whatever the directive, at most one process is started, and the record
   * has an exit code only when that process ran to completion, in which
   * case its output and exit code are the record's, with no message.
   */
  lemma ExitCodeOnlyFromProcess(cmd: string, env: Env)
    ensures |Spawned(Dispatch(cmd, env))| <= 1
    ensures Dispatch(cmd, env).result.returncode.Some? ==>
              && |Spawned(Dispatch(cmd, env))| == 1
              && env.run(Spawned(Dispatch(cmd, env))[0]).Completed?
              && var o := env.run(Spawned(Dispatch(cmd, env))[0]);
                 Dispatch(cmd, env).result == ExecResult(o.stdout, o.stderr, Some(o.returncode), "")
  {
    var h := Dispatch(cmd, env);
    assert ReportsProcess(h, env);
  }

  lemma TokenizedSingleton(inv: Invocation)
    requires inv.argv.Tokenized?
    ensures AllTokenized([inv])
  {
  }

  lemma SpawnsOnce(h: Handled, inv: Invocation)
    requires h.actions == [Spawn(inv)]
    ensures Spawned(h) == [inv]
  {
  }

  /**
   * Every FILE directive that extraction can produce is rejected without
   * touching the filesystem: extracted bodies never contain `]]`, and the
   * handler needs one to separate the path from the content.
   */
  lemma ExtractedFileDirectivesRejected(text: Option<string>, env: Env)
    ensures forall b :: b in Utils.ExtractCommands(text) && Classify(b) == FileWrite ==>
              Dispatch(b, env) == Handled(Blank.(message := InvalidFileFormat), [])
  {
    Utils.ExtractedBodiesAreFlat(text);
  }

  // ---------------------------------------------------------------------------
  // The run-once credential setup

  /** What the process observes: the one-time git credential setup, the handler chosen, and the host actions it performs. */
  datatype Event = CredentialSetup | Dispatched(command: string, kind: Kind) | Performed(action: Action)

  function ActionEvents(actions: seq<Action>): (es: seq<Event>)
    ensures |es| == |actions| && forall k :: 0 <= k < |es| ==> es[k] == Performed(actions[k])
  {
    seq(|actions|, k requires 0 <= k < |actions| => Performed(actions[k]))
  }

  /**
   * The events of one `execute_command` call whose handler performed
   * `actions`, given whether the credentials were already configured.
   */
  function CommandEvents(cmd: string, actions: seq<Action>, configured: bool): seq<Event> {
    (if StartsWith(cmd, GitPrefix) && !configured then [CredentialSetup] else [])
    + [Dispatched(cmd, Classify(cmd))] + ActionEvents(actions)
  }

  /**
   * The credential-setup discipline of a trace: the flag is set exactly when
   * the setup has happened, it happened at most once, it was immediately
   * followed by the dispatch of a GIT directive, and no GIT directive was
   * dispatched before it.
   */
  ghost predicate TraceOk(trace: seq<Event>, configured: bool) {
    && (configured <==> CredentialSetup in trace)
    && (forall i, j :: 0 <= i < j < |trace| && trace[i] == CredentialSetup ==> trace[j] != CredentialSetup)
    && (forall i :: 0 <= i < |trace| && trace[i] == CredentialSetup ==> i + 1 < |trace| && trace[i + 1].Dispatched? && trace[i + 1].kind == VersionControl)
    && (forall j :: 0 <= j < |trace| && trace[j].Dispatched? && trace[j].kind == VersionControl ==> CredentialSetup in trace[..j])
  }

  /** One more `execute_command` keeps the discipline; the flag becomes set by any GIT directive and is never reset. */
  lemma CommandKeepsTraceOk(trace: seq<Event>, configured: bool, cmd: string, actions: seq<Action>)
    requires TraceOk(trace, configured)
    ensures TraceOk(trace + CommandEvents(cmd, actions, configured), configured || StartsWith(cmd, GitPrefix))
  {
    var setup := StartsWith(cmd, GitPrefix) && !configured;
    var acts := ActionEvents(actions);
    StepKeepsTraceOk(trace, configured, setup, cmd, Classify(cmd), acts);
  }

  lemma StepKeepsTraceOk(trace: seq<Event>, configured: bool, setup: bool, cmd: string, kind: Kind, acts: seq<Event>)
    requires TraceOk(trace, configured)
    requires forall k :: 0 <= k < |acts| ==> acts[k].Performed?
    requires setup ==> !configured && kind == VersionControl
    requires kind == VersionControl ==> setup || configured
    ensures TraceOk(trace + ((if setup then [CredentialSetup] else []) + [Dispatched(cmd, kind)] + acts), configured || setup)
  {
    var pre := if setup then [CredentialSetup] else [];
    var t := trace + (pre + [Dispatched(cmd, kind)] + acts);
    var n := |trace| + |pre|;
    assert t[n] == Dispatched(cmd, kind);
    assert forall k :: n < k < |t| ==> t[k] == acts[k - n - 1];
    assert forall k :: 0 <= k < |trace| ==> t[k] == trace[k];
    assert forall j :: 0 <= j <= |trace| ==> t[..j] == trace[..j];
    if setup {
      assert t[|trace|] == CredentialSetup;
      assert CredentialSetup in t[..n];
    } else if CredentialSetup in trace {
      assert CredentialSetup in t[..|trace|];
    }
  }

  /** The directives handed to `execute_command`, in order, read off a trace. */
  function DispatchedCommands(trace: seq<Event>): seq<string> {
    if trace == [] then []
    else DispatchedCommands(trace[..|trace| - 1])
         + (if trace[|trace| - 1].Dispatched? then [trace[|trace| - 1].command] else [])
  }

  lemma {:induction false} DispatchedCommandsAppend(a: seq<Event>, b: seq<Event>)
    ensures DispatchedCommands(a + b) == DispatchedCommands(a) + DispatchedCommands(b)
    decreases |b|
  {
    if b == [] {
      assert a + b == a;
    } else {
      assert (a + b)[..|a + b| - 1] == a + b[..|b| - 1];
      assert (a + b)[|a + b| - 1] == b[|b| - 1];
      DispatchedCommandsAppend(a, b[..|b| - 1]);
    }
  }

  /** Each `execute_command` call dispatches its directive exactly once. */
  lemma CommandDispatchedOnce(trace: seq<Event>, cmd: string, actions: seq<Action>, configured: bool)
    ensures DispatchedCommands(trace + CommandEvents(cmd, actions, configured)) == DispatchedCommands(trace) + [cmd]
  {
    var pre := if StartsWith(cmd, GitPrefix) && !configured then [CredentialSetup] else [];
    var acts := ActionEvents(actions);
    assert DispatchedCommands(acts) == [] by { NoDispatchIn(acts); }
    assert DispatchedCommands(pre) == [] by {
      if pre != [] { assert pre[..0] == []; }
    }
    assert DispatchedCommands([Dispatched(cmd, Classify(cmd))]) == [cmd] by {
      assert [Dispatched(cmd, Classify(cmd))][..0] == [];
    }
    assert CommandEvents(cmd, actions, configured) == pre + [Dispatched(cmd, Classify(cmd))] + acts;
    DispatchedCommandsAppend(pre, [Dispatched(cmd, Classify(cmd))]);
    DispatchedCommandsAppend(pre + [Dispatched(cmd, Classify(cmd))], acts);
    DispatchedCommandsAppend(trace, CommandEvents(cmd, actions, configured));
  }

  lemma {:induction false} NoDispatchIn(es: seq<Event>)
    requires forall k :: 0 <= k < |es| ==> es[k].Performed?
    ensures DispatchedCommands(es) == []
    decreases |es|
  {
    if es != [] {
      NoDispatchIn(es[..|es| - 1]);
    }
  }

  /** The process-wide dispatcher state: `git_credentials_configured`. */
  class Executor {
    var gitCredentialsConfigured: bool
    ghost var trace: seq<Event>

    ghost predicate Valid()
      reads this
    {
      TraceOk(trace, gitCredentialsConfigured)
    }

    /** At process start the flag is false and nothing has happened. */
    constructor ()
      ensures Valid() && !gitCredentialsConfigured && trace == []
    {
      gitCredentialsConfigured := false;
      trace := [];
    }

    /**
     * `execute_command(cmd)`: for a GIT directive while the flag is false,
     * the setup runs first and the flag is set whatever the setup's outcome
     * (its return value is ignored); then exactly one handler runs.
     */
    method ExecuteCommand(cmd: string, env: Env) returns (result: ExecResult)
      requires Valid()
      modifies this
      ensures Valid()
      ensures result == Dispatch(cmd, env).result
      ensures gitCredentialsConfigured == (old(gitCredentialsConfigured) || StartsWith(cmd, GitPrefix))
      ensures trace == old(trace) + CommandEvents(cmd, Dispatch(cmd, env).actions, old(gitCredentialsConfigured))
      ensures DispatchedCommands(trace) == DispatchedCommands(old(trace)) + [cmd]
    {
      var handled := Dispatch(cmd, env);
      CommandDispatchedOnce(trace, cmd, handled.actions, gitCredentialsConfigured);
      CommandKeepsTraceOk(trace, gitCredentialsConfigured, cmd, handled.actions);
      trace := trace + CommandEvents(cmd, handled.actions, gitCredentialsConfigured);
      if StartsWith(cmd, GitPrefix) && !gitCredentialsConfigured {
        gitCredentialsConfigured := true;
      }
      result := handled.result;
    }
  }

  /**
   * Two GIT directives in one fresh process: the setup comes first, right
   * before the first GIT dispatch, and never again.
   */
  lemma GitSetupOnce(first: string, second: string, firstActions: seq<Action>, secondActions: seq<Action>)
    requires StartsWith(first, GitPrefix) && StartsWith(second, GitPrefix)
    ensures var t := CommandEvents(first, firstActions, false) + CommandEvents(second, secondActions, true);
            && t[0] == CredentialSetup && t[1] == Dispatched(first, VersionControl)
            && forall k :: 1 <= k < |t| ==> t[k] != CredentialSetup
  {
    var e1 := CommandEvents(first, firstActions, false);
    var e2 := CommandEvents(second, secondActions, true);
    assert e1 == [CredentialSetup, Dispatched(first, VersionControl)] + ActionEvents(firstActions);
    assert e2 == [Dispatched(second, VersionControl)] + ActionEvents(secondActions);
  }

}
