/**
 * The Mercurial side of pretested integration as pure state transitions.
 *
 * The state is what the Java object and its surroundings hold: the bound working
 * directory and cached cursor path (fields of the object), the regular files it
 * reads and writes (the cursor file and whatever FilePath.readToString() reads),
 * and the trace of hg commands issued so far. The hg binary is an abstract
 * client: a total function from the trace, ending with the command just issued,
 * to the command's reply, so it can script any repository behaviour.
 *
 * Each operation of the class is one function from a state to a Step: the new
 * state together with the value returned or the exception thrown.
 */
module MercurialSpec {
  import opened Wrappers
  import opened JavaText

  type Path = string

  /** One hg command, run in the directory that was bound when it was issued. */
  datatype Invocation = Invocation(dir: Path, args: seq<string>)

  /** How one run of hg ended: it exited, `join()` was interrupted, or the launch failed with an IOException. */
  datatype Reply = Exited(code: int, stdout: string) | Interrupted(message: string) | LaunchFailed(message: string)

  /** The repository client: the reply to the last command of a trace. */
  type Client = seq<Invocation> -> Reply

  /** A run of hg that exited: its exit code and what it printed. */
  datatype Output = Output(code: int, stdout: string)

  /** Jenkins' build results, best first. */
  datatype BuildResult = Success | Unstable | Failure | NotBuilt | Aborted

  /** What the plugin uses of an AbstractBuild: its workspace and its result so far (null while unknown). */
  datatype Build = Build(workspace: Path, result: Option<BuildResult>)

  /** The exceptions that leave the operations. AbortException is Jenkins' IOException carrying a message for the build log. */
  datatype Error =
    | IOException(message: string)
    | AbortException(message: string)
    | InterruptedException(message: string)
    | NullPointerException

  datatype State = State(
    workingDirectory: Option<Path>,
    currentBuildFile: Option<string>,
    files: map<Path, string>,
    trace: seq<Invocation>)

  /** The state after an operation and how the operation ended. */
  datatype Step<+T> = Step(state: State, out: Result<T, Error>)

  const SENTINEL := "0"
  const CURSOR_FILE := "/.hg/currentBuildFile"
  /** The cursor path the exit-code-only hg overload caches, spelled as in that overload. */
  const MISSPELT_CURSOR_FILE := "/.hg/curentBuildFile"
  const CONFLICT_MESSAGE := "Merging branches caused conflict"
  const MERGE_INTERRUPTED_MESSAGE := "Merge into integration branch exited unexpectedly"
  const COMMIT_INTERRUPTED_MESSAGE := "Commiting changes on integration branch exited unexpectedly"
  const REVERT_INTERRUPTED_MESSAGE := "Unable to revert changes in integration branch"
  const COMMIT_MESSAGE := "Successfully integrated development branch"

  const PULL_ARGS: seq<string> := ["pull"]
  const UPDATE_DEFAULT_ARGS: seq<string> := ["update", "-C", "default"]
  const COMMIT_ARGS: seq<string> := ["commit", "-m", COMMIT_MESSAGE]
  const REVERT_ARGS: seq<string> := ["update", "-C"]

  /** How Java renders a revision read from the cursor file into a string: null becomes "null". */
  function RevisionText(revision: Option<string>): string {
    match revision
    case None => "null"
    case Some(id) => id
  }

  /** The revset of changes off the integration branch from the cursor (inclusive) to tip. */
  function PendingRange(revision: Option<string>): string {
    "not branch(default) and " + RevisionText(revision) + ":tip"
  }

  /** The log hasNextCommit runs: node ids with nothing between them. */
  function PendingLogArgs(revision: Option<string>): seq<string> {
    ["log", "-r", PendingRange(revision), "--template", "{node}"]
  }

  /** The log popCommit runs: one node id per line (hg expands the template's \n). */
  function PopLogArgs(revision: Option<string>): seq<string> {
    ["log", "-r", PendingRange(revision), "--template", "{node}\\n"]
  }

  function MergeArgs(id: string): seq<string> {
    ["merge", id, "--tool", "internal:merge"]
  }

  function DateLogArgs(date: string): seq<string> {
    ["log", "-r", "0:tip", "-l1", "--date", ">" + date, "--template", "{node}"]
  }

  /** FilePath.readToString(): the content of a regular file; anything else (a directory included) fails. */
  function ReadToString(files: map<Path, string>, path: Path): Option<string> {
    if path in files then Some(files[path]) else None
  }

  /** The first line of the cursor file at path, or the sentinel when there is no such file. */
  function ReadCursor(files: map<Path, string>, path: Path): Option<string> {
    if path in files then ReadLine(files[path]) else Some(SENTINEL)
  }

  /** Result.isBetterOrEqualTo: a result is at least as good as another when it comes no later in the ranking. */
  function Rank(r: BuildResult): nat {
    match r
    case Success => 0
    case Unstable => 1
    case Failure => 2
    case NotBuilt => 3
    case Aborted => 4
  }

  predicate IsBetterOrEqualTo(r: BuildResult, other: BuildResult) {
    Rank(r) <= Rank(other)
  }

  /** handlePostBuild commits exactly when the result is known and at least SUCCESS. */
  predicate Integrates(result: Option<BuildResult>) {
    result.Some? && IsBetterOrEqualTo(result.value, Success)
  }

  /** An InterruptedException rethrown as an IOException with the same message; other errors unchanged. */
  function AsIOException(e: Error): Error {
    if e.InterruptedException? then IOException(e.message) else e
  }

  /** An InterruptedException rethrown as an AbortException with the given message; other errors unchanged. */
  function AsAbort(e: Error, message: string): Error {
    if e.InterruptedException? then AbortException(message) else e
  }

  /** The binding hasNextCommit and popCommit do themselves: the build's workspace when none is bound yet. */
  function BindIfUnset(s: State, workspace: Path): (r: State)
    ensures r.workingDirectory.Some?
    ensures s.workingDirectory.Some? ==> r == s
    ensures s.workingDirectory.None? ==> r == s.(workingDirectory := Some(workspace))
  {
    if s.workingDirectory.None? then s.(workingDirectory := Some(workspace)) else s
  }

  /**
   * The binding inside both hg overloads: with no directory bound, bind the build's
   * workspace and cache the cursor path built from workspace.readToString(), which
   * fails unless the workspace is a regular file. A bound directory is kept.
   */
  function BindStep(s: State, workspace: Path, cursorFile: string): (r: Step<()>)
    ensures r.state.files == s.files && r.state.trace == s.trace
    ensures r.state.workingDirectory == if s.workingDirectory.Some? then s.workingDirectory else Some(workspace)
    ensures r.out.Err? <==> s.workingDirectory.None? && workspace !in s.files
    ensures r.out.Err? ==> r.out.error == IOException(workspace) && r.state.currentBuildFile == s.currentBuildFile
    ensures r.out.Ok? && s.workingDirectory.None? ==> r.state.currentBuildFile == Some(s.files[workspace] + cursorFile)
    ensures s.workingDirectory.Some? ==> r == Step(s, Ok(()))
  {
    if s.workingDirectory.Some? then Step(s, Ok(()))
    else
      var bound := s.(workingDirectory := Some(workspace));
      match ReadToString(s.files, workspace)
      case None => Step(bound, Err(IOException(workspace)))
      case Some(text) => Step(bound.(currentBuildFile := Some(text + cursorFile)), Ok(()))
  }

  /** Running hg in the bound directory: the command joins the trace and the client answers it. */
  function LaunchStep(s: State, c: Client, args: seq<string>): (r: Step<Output>)
    requires s.workingDirectory.Some?
    ensures r.state == s.(trace := s.trace + [Invocation(s.workingDirectory.value, args)])
  {
    var t := s.trace + [Invocation(s.workingDirectory.value, args)];
    var s1 := s.(trace := t);
    match c(t)
    case Exited(code, stdout) => Step(s1, Ok(Output(code, stdout)))
    case Interrupted(m) => Step(s1, Err(InterruptedException(m)))
    case LaunchFailed(m) => Step(s1, Err(IOException(m)))
  }

  /** hg(build, launcher, listener, cmds...): the exit code only. */
  function HgStep(s: State, c: Client, workspace: Path, args: seq<string>): (r: Step<int>) {
    var b := BindStep(s, workspace, MISSPELT_CURSOR_FILE);
    if b.out.Err? then Step(b.state, Err(b.out.error))
    else
      var l := LaunchStep(b.state, c, args);
      Step(l.state, if l.out.Ok? then Ok(l.out.value.code) else Err(l.out.error))
  }

  /** hg(build, launcher, listener, out, cmds...): the exit code and the captured standard output. */
  function HgCaptureStep(s: State, c: Client, workspace: Path, args: seq<string>): (r: Step<Output>) {
    var b := BindStep(s, workspace, CURSOR_FILE);
    if b.out.Err? then Step(b.state, Err(b.out.error)) else LaunchStep(b.state, c, args)
  }

  /**
   * The decision of hasNextCommit on the trimmed log output: more than one 40-character
   * node, or a cursor still at the sentinel. A null revision is only dereferenced when
   * the output is not long enough.
   */
  function Decide(revision: Option<string>, stdout: string): (r: Result<bool, Error>) {
    if |Trim(stdout)| > 40 then Ok(true)
    else if revision.None? then Err(NullPointerException)
    else Ok(revision.value == SENTINEL)
  }

  /** hasNextCommit after its pull: read the cursor at cursorPath, run the log, decide. */
  function PendingFrom(s: State, c: Client, workspace: Path, cursorPath: Path): (r: Step<bool>) {
    var revision := ReadCursor(s.files, cursorPath);
    var log := HgCaptureStep(s, c, workspace, PendingLogArgs(revision));
    if log.out.Err? then Step(log.state, Err(AsIOException(log.out.error)))
    else Step(log.state, Decide(revision, log.out.value.stdout))
  }

  /**
   * hasNextCommit as written: bind, pull, then read the cursor from a path built
   * from workspace.readToString(), that is from the workspace's CONTENT.
   */
  function HasNextStep(s: State, c: Client, b: Build): (r: Step<bool>) {
    var pull := HgStep(BindIfUnset(s, b.workspace), c, b.workspace, PULL_ARGS);
    if pull.out.Err? then Step(pull.state, Err(AsIOException(pull.out.error)))
    else
      match ReadToString(pull.state.files, b.workspace)
      case None => Step(pull.state, Err(IOException(b.workspace)))
      case Some(text) => PendingFrom(pull.state, c, b.workspace, text + CURSOR_FILE)
  }

  /** hasNextCommit as evidently intended: the cursor path is built from the workspace's path. */
  function HasNextIntendedStep(s: State, c: Client, b: Build): (r: Step<bool>) {
    var pull := HgStep(BindIfUnset(s, b.workspace), c, b.workspace, PULL_ARGS);
    if pull.out.Err? then Step(pull.state, Err(AsIOException(pull.out.error)))
    else PendingFrom(pull.state, c, b.workspace, b.workspace + CURSOR_FILE)
  }

  /** The cursor file popCommit uses: the one in the bound working directory. */
  function PopCursorPath(s: State, workspace: Path): Path {
    BindIfUnset(s, workspace).workingDirectory.value + CURSOR_FILE
  }

  /**
   * popCommit: bind, create the cursor file with the sentinel if it is missing, list
   * the pending nodes one per line, and hand out (and write to the cursor) the first
   * element of Java's split of that listing; null when the split is empty.
   */
  function PopStep(s: State, c: Client, b: Build): (r: Step<Option<string>>) {
    var s1 := BindIfUnset(s, b.workspace);
    var path := PopCursorPath(s, b.workspace);
    var revision := ReadCursor(s1.files, path);
    var s2 := if path in s1.files then s1 else s1.(files := s1.files[path := Println(SENTINEL)]);
    var log := HgCaptureStep(s2, c, b.workspace, PopLogArgs(revision));
    if log.out.Err? then Step(log.state, Err(AsIOException(log.out.error)))
    else
      var ids := SplitLines(log.out.value.stdout);
      if |ids| > 0 then Step(log.state.(files := log.state.files[path := Println(ids[0])]), Ok(Some(ids[0])))
      else Step(log.state, Ok(None))
  }

  /** prepareWorkspace: a clean update to the integration branch, then the merge, whose exit code alone is checked. */
  function PrepareStep(s: State, c: Client, b: Build, id: string): (r: Step<()>) {
    var update := HgStep(s, c, b.workspace, UPDATE_DEFAULT_ARGS);
    if update.out.Err? then Step(update.state, Err(AsAbort(update.out.error, MERGE_INTERRUPTED_MESSAGE)))
    else
      var merge := HgCaptureStep(update.state, c, b.workspace, MergeArgs(id));
      if merge.out.Err? then Step(merge.state, Err(AsAbort(merge.out.error, MERGE_INTERRUPTED_MESSAGE)))
      else if merge.out.value.code != 0 then Step(merge.state, Err(AbortException(CONFLICT_MESSAGE)))
      else Step(merge.state, Ok(()))
  }

  /** handlePostBuild: commit after a successful build, otherwise a clean update that drops the merge. */
  function PostBuildStep(s: State, c: Client, b: Build): (r: Step<()>) {
    var args := if Integrates(b.result) then COMMIT_ARGS else REVERT_ARGS;
    var message := if Integrates(b.result) then COMMIT_INTERRUPTED_MESSAGE else REVERT_INTERRUPTED_MESSAGE;
    var run := HgStep(s, c, b.workspace, args);
    Step(run.state, if run.out.Ok? then Ok(()) else Err(AsAbort(run.out.error, message)))
  }

  /** commitFromDate: the first node committed after the (already formatted) date, when hg prints one. */
  function CommitFromDateStep(s: State, c: Client, b: Build, date: string): (r: Step<Option<string>>) {
    var log := HgCaptureStep(s, c, b.workspace, DateLogArgs(date));
    if log.out.Err? then Step(log.state, Err(log.out.error))
    else Step(log.state, Ok(if |log.out.value.stdout| > 0 then Some(log.out.value.stdout) else None))
  }
}
