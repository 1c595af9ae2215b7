/**
 * What the Mercurial integration promises, proved about the step functions of
 * MercurialSpec (and so, through their ensures, about the methods of
 * MercurialScm.Mercurial): the pending-work decision and its sentinel rule, a
 * read-only discovery, popping and the cursor it leaves behind, the order and
 * outcome of the merge and post-build commands, and a binding that is never
 * replaced.
 */
module MercurialProperties {
  import opened Wrappers
  import opened JavaText
  import opened MercurialSpec

  /** A trace with one more command, issued in dir. */
  function Issue(t: seq<Invocation>, dir: Path, args: seq<string>): seq<Invocation> {
    t + [Invocation(dir, args)]
  }

  /** The directory in which an operation started in s for this workspace runs its commands. */
  function RunDir(s: State, workspace: Path): Path {
    BindIfUnset(s, workspace).workingDirectory.value
  }

  /**
   * r follows s: the bound directory is the one s had, or the workspace if s had
   * none; a bound object keeps its cached cursor path; the trace only grows; and
   * every command added ran in that directory.
   */
  predicate Follows(s: State, r: State, workspace: Path) {
    r.workingDirectory == BindIfUnset(s, workspace).workingDirectory
    && (s.workingDirectory.Some? ==> r.currentBuildFile == s.currentBuildFile)
    && |s.trace| <= |r.trace| && r.trace[..|s.trace|] == s.trace
    && forall i :: |s.trace| <= i < |r.trace| ==> r.trace[i].dir == RunDir(s, workspace)
  }

  // ----- the pending-work decision -----------------------------------------

  /**
   * With the cursor at the sentinel (no cursor file, or one whose first line is "0"),
   * hasNextCommit never answers false and never dereferences null: once pull and log
   * have both run it answers true, whatever the log printed, and otherwise the
   * failure is an IOException.
   */
  lemma HasNextSentinel(s: State, c: Client, b: Build)
    requires b.workspace in s.files
    requires ReadCursor(s.files, s.files[b.workspace] + CURSOR_FILE) == Some(SENTINEL)
    ensures var r := HasNextStep(s, c, b).out;
      (r.Ok? ==> r.value) && (r.Err? ==> r.error.IOException?)
    ensures var d := RunDir(s, b.workspace);
      var t1 := Issue(s.trace, d, PULL_ARGS);
      var t2 := Issue(t1, d, PendingLogArgs(Some(SENTINEL)));
      c(t1).Exited? && c(t2).Exited? ==> HasNextStep(s, c, b).out == Ok(true)
  {
  }

  /**
   * Past the sentinel, once pull and log have run, hasNextCommit answers true exactly
   * when the trimmed log output is longer than 40 characters; a null revision (an
   * empty cursor file) raises a NullPointerException instead of answering false.
   */
  lemma HasNextBeyondSentinel(s: State, c: Client, b: Build)
    requires b.workspace in s.files
    requires ReadCursor(s.files, s.files[b.workspace] + CURSOR_FILE) != Some(SENTINEL)
    requires var d := RunDir(s, b.workspace);
      var t1 := Issue(s.trace, d, PULL_ARGS);
      c(t1).Exited? && c(Issue(t1, d, PendingLogArgs(ReadCursor(s.files, s.files[b.workspace] + CURSOR_FILE)))).Exited?
    ensures var revision := ReadCursor(s.files, s.files[b.workspace] + CURSOR_FILE);
      var d := RunDir(s, b.workspace);
      var t1 := Issue(s.trace, d, PULL_ARGS);
      var stdout := c(Issue(t1, d, PendingLogArgs(revision))).stdout;
      var r := HasNextStep(s, c, b).out;
      (revision.Some? ==> r == Ok(|Trim(stdout)| > 40))
      && (revision.None? ==> r == if |Trim(stdout)| > 40 then Ok(true) else Err(NullPointerException))
  {
  }

  /**
   * hasNextCommit only reads: the files and the cached cursor path are untouched, and
   * the commands it adds are a pull, then the log over the cursor's range when the pull
   * exited and the workspace could be read.
   */
  lemma HasNextReadOnly(s: State, c: Client, b: Build)
    ensures var r := HasNextStep(s, c, b).state;
      var d := RunDir(s, b.workspace);
      var t1 := Issue(s.trace, d, PULL_ARGS);
      r.files == s.files && r.currentBuildFile == s.currentBuildFile
      && r.workingDirectory == Some(d)
      && (c(t1).Exited? && b.workspace in s.files ==>
            r.trace == Issue(t1, d, PendingLogArgs(ReadCursor(s.files, s.files[b.workspace] + CURSOR_FILE))))
      && (!(c(t1).Exited? && b.workspace in s.files) ==> r.trace == t1)
  {
  }

  /**
   * Asking twice leaves every file, the cursor included, as it was, and the second call
   * asks the log about the same range as the first: nothing hasNextCommit does moves the cursor.
   */
  lemma HasNextRepeated(s: State, c: Client, b: Build)
    ensures var s1 := HasNextStep(s, c, b).state;
      var s2 := HasNextStep(s1, c, b).state;
      var t := Issue(s1.trace, RunDir(s, b.workspace), PULL_ARGS);
      s2.files == s.files && s2.currentBuildFile == s.currentBuildFile
      && (c(t).Exited? && b.workspace in s.files ==>
            s2.trace == Issue(t, RunDir(s, b.workspace),
                              PendingLogArgs(ReadCursor(s.files, s.files[b.workspace] + CURSOR_FILE))))
  {
    HasNextReadOnly(s, c, b);
    HasNextReadOnly(HasNextStep(s, c, b).state, c, b);
  }

  // ----- popping -----------------------------------------------------------

  /**
   * Without a cursor file, popCommit first writes "0" to it and lists from revision 0:
   * the one command it issues is the log of "not branch(default) and 0:tip".
   */
  lemma PopCreatesSentinel(s: State, c: Client, b: Build)
    requires PopCursorPath(s, b.workspace) !in s.files
    ensures var r := PopStep(s, c, b);
      var p := PopCursorPath(s, b.workspace);
      r.state.trace == Issue(s.trace, RunDir(s, b.workspace),
                             ["log", "-r", "not branch(default) and 0:tip", "--template", "{node}\\n"])
      && (!(r.out.Ok? && r.out.value.Some?) ==> r.state.files == s.files[p := "0\n"])
  {
    assert Println(SENTINEL) == "0\n";
    assert RevisionText(Some(SENTINEL)) == "0";
    assert PendingRange(Some(SENTINEL)) == "not branch(default) and 0:tip";
  }

  /**
   * popCommit hands out the first line of the log output, or null when Java's split
   * of that output is empty, which happens exactly when it is a non-empty run of
   * newlines; the empty output hands out the id "". Interruption becomes an IOException.
   */
  lemma PopHandsOutFirstLine(s: State, c: Client, b: Build)
    ensures var p := PopCursorPath(s, b.workspace);
      var t := Issue(s.trace, RunDir(s, b.workspace), PopLogArgs(ReadCursor(s.files, p)));
      var r := PopStep(s, c, b).out;
      match c(t)
      case Exited(_, out) =>
        (r == Ok(None) <==> out != [] && forall k :: 0 <= k < |out| ==> out[k] == '\n')
        && (r.Ok? && r.value.Some? ==> r.value.value == FirstLine(out))
        && (out == [] ==> r == Ok(Some([])))
        && r.Ok?
      case Interrupted(m) => r == Err(IOException(m))
      case LaunchFailed(m) => r == Err(IOException(m))
  {
    var p := PopCursorPath(s, b.workspace);
    var t := Issue(s.trace, RunDir(s, b.workspace), PopLogArgs(ReadCursor(s.files, p)));
    if c(t).Exited? {
      SplitFirst(c(t).stdout);
      SplitEmpty(c(t).stdout);
    }
  }

  /**
   * popCommit overwrites the cursor file with exactly the id it hands out, touches no
   * other file, and when it hands out nothing leaves only the sentinel it may have created.
   */
  lemma PopWritesCursor(s: State, c: Client, b: Build)
    ensures var r := PopStep(s, c, b);
      var p := PopCursorPath(s, b.workspace);
      (r.out.Ok? && r.out.value.Some? ==> r.state.files == s.files[p := Println(r.out.value.value)])
      && (!(r.out.Ok? && r.out.value.Some?) ==>
            r.state.files == if p in s.files then s.files else s.files[p := Println(SENTINEL)])
  {
  }

  /** Reading the cursor after a pop gives back the id handed out (for an id that holds no carriage return). */
  lemma PopReadsBack(s: State, c: Client, b: Build)
    requires var r := PopStep(s, c, b).out; r.Ok? && r.value.Some? && '\r' !in r.value.value
    ensures var r := PopStep(s, c, b);
      ReadCursor(r.state.files, PopCursorPath(s, b.workspace)) == r.out.value
  {
    var p := PopCursorPath(s, b.workspace);
    var t := Issue(s.trace, RunDir(s, b.workspace), PopLogArgs(ReadCursor(s.files, p)));
    SplitNoNewline(c(t).stdout);
    ReadPrintln(PopStep(s, c, b).out.value.value);
  }

  /**
   * The range is inclusive of the cursor: when the listing from the popped id to tip
   * starts with that id again, the next pop hands out the same id once more.
   */
  lemma PopRepeatsCursor(s: State, c: Client, b: Build)
    requires var r := PopStep(s, c, b).out; r.Ok? && r.value.Some? && r.value.value != [] && '\r' !in r.value.value
    requires var p := PopStep(s, c, b);
      var id := p.out.value.value;
      var reply := c(Issue(p.state.trace, RunDir(p.state, b.workspace), PopLogArgs(Some(id))));
      reply.Exited? && |reply.stdout| > |id| && reply.stdout[..|id| + 1] == id + "\n"
    ensures PopStep(PopStep(s, c, b).state, c, b).out == PopStep(s, c, b).out
  {
    var p := PopStep(s, c, b);
    var id := p.out.value.value;
    var t0 := Issue(s.trace, RunDir(s, b.workspace), PopLogArgs(ReadCursor(s.files, PopCursorPath(s, b.workspace))));
    SplitNoNewline(c(t0).stdout);
    assert '\n' !in id;
    PopReadsBack(s, c, b);
    assert PopCursorPath(p.state, b.workspace) == PopCursorPath(s, b.workspace);
    var t := Issue(p.state.trace, RunDir(p.state, b.workspace), PopLogArgs(Some(id)));
    var out := c(t).stdout;
    assert SplitLines(out) != [] by {
      SplitEmpty(out);
      assert out[0] != '\n';
    }
    SplitFirst(out);
    var f := FirstLine(out);
    assert out[..|id|] == id && out[|id|] == '\n';
    assert f == id;
  }

  /** Interruptions inside hasNextCommit leave it as IOExceptions, never as InterruptedExceptions. */
  lemma HasNextNeverInterrupted(s: State, c: Client, b: Build)
    ensures var r := HasNextStep(s, c, b).out; r.Err? ==> !r.error.InterruptedException?
    ensures var t1 := Issue(s.trace, RunDir(s, b.workspace), PULL_ARGS);
      c(t1).Interrupted? ==> HasNextStep(s, c, b).out == Err(IOException(c(t1).message))
  {
  }

  /** Interruptions inside popCommit leave it as IOExceptions, never as InterruptedExceptions. */
  lemma PopNeverInterrupted(s: State, c: Client, b: Build)
    ensures var r := PopStep(s, c, b).out; r.Err? ==> !r.error.InterruptedException?
    ensures var t := Issue(s.trace, RunDir(s, b.workspace),
                           PopLogArgs(ReadCursor(s.files, PopCursorPath(s, b.workspace))));
      c(t).Interrupted? ==> PopStep(s, c, b).out == Err(IOException(c(t).message))
  {
  }

  // ----- merge and post-build ----------------------------------------------

  /** The workspace an unbound object would bind cannot be read: its first hg command throws before it runs. */
  predicate Unreadable(s: State, workspace: Path) {
    s.workingDirectory.None? && workspace !in s.files
  }

  /**
   * r is s after the binding of an hg overload whose cursor file is spelt cursorFile:
   * the run directory is bound, the files are as they were, and an unbound object now
   * caches the path built from the workspace's content (a bound one keeps its own).
   */
  predicate BoundAs(s: State, r: State, workspace: Path, cursorFile: string) {
    r.workingDirectory == Some(RunDir(s, workspace))
    && r.files == s.files
    && (s.workingDirectory.Some? ==> r.currentBuildFile == s.currentBuildFile)
    && (s.workingDirectory.None? ==>
          workspace in s.files && r.currentBuildFile == Some(s.files[workspace] + cursorFile))
  }

  /**
   * prepareWorkspace runs `update -C default`, then, whatever its exit code, the merge;
   * it succeeds exactly when the merge exits with 0, a non-zero merge exit is the
   * conflict abort, and an interruption of either command becomes the merge abort.
   * An unbound object whose workspace cannot be read throws an IOException before
   * any command runs.
   */
  lemma PrepareSequence(s: State, c: Client, b: Build, id: string)
    ensures var r := PrepareStep(s, c, b, id);
      Unreadable(s, b.workspace) ==>
        r == Step(s.(workingDirectory := Some(b.workspace)), Err(IOException(b.workspace)))
    ensures var d := RunDir(s, b.workspace);
      var t1 := Issue(s.trace, d, UPDATE_DEFAULT_ARGS);
      var t2 := Issue(t1, d, MergeArgs(id));
      var r := PrepareStep(s, c, b, id);
      !Unreadable(s, b.workspace) ==>
        BoundAs(s, r.state, b.workspace, MISSPELT_CURSOR_FILE)
        && r.state.trace == (if c(t1).Exited? then t2 else t1)
        && (r.out == Ok(()) <==> c(t1).Exited? && c(t2).Exited? && c(t2).code == 0)
        && (c(t1).Exited? && c(t2).Exited? && c(t2).code != 0 ==> r.out == Err(AbortException(CONFLICT_MESSAGE)))
        && (c(t1).Interrupted? || (c(t1).Exited? && c(t2).Interrupted?) ==>
              r.out == Err(AbortException(MERGE_INTERRUPTED_MESSAGE)))
        && (c(t1).LaunchFailed? ==> r.out == Err(IOException(c(t1).message)))
        && (c(t1).Exited? && c(t2).LaunchFailed? ==> r.out == Err(IOException(c(t2).message)))
  {
  }

  /** Only a SUCCESS result is at least SUCCESS; a missing result never is. */
  lemma IntegratesOnlySuccess(result: Option<BuildResult>)
    ensures Integrates(result) <==> result == Some(Success)
  {
  }

  /**
   * handlePostBuild issues exactly one command, the commit after a SUCCESS and the
   * clean update otherwise; it ignores the exit code, and an interruption becomes
   * the abort that names the branch it was in. An unbound object whose workspace
   * cannot be read throws an IOException and issues nothing.
   */
  lemma PostBuildSingleCommand(s: State, c: Client, b: Build)
    ensures var r := PostBuildStep(s, c, b);
      Unreadable(s, b.workspace) ==>
        r == Step(s.(workingDirectory := Some(b.workspace)), Err(IOException(b.workspace)))
    ensures var ok := b.result == Some(Success);
      var t := Issue(s.trace, RunDir(s, b.workspace), if ok then COMMIT_ARGS else REVERT_ARGS);
      var r := PostBuildStep(s, c, b);
      !Unreadable(s, b.workspace) ==>
        BoundAs(s, r.state, b.workspace, MISSPELT_CURSOR_FILE)
        && r.state.trace == t
        && (r.out == Ok(()) <==> c(t).Exited?)
        && (c(t).Interrupted? ==>
              r.out == Err(AbortException(if ok then COMMIT_INTERRUPTED_MESSAGE else REVERT_INTERRUPTED_MESSAGE)))
        && (c(t).LaunchFailed? ==> r.out == Err(IOException(c(t).message)))
  {
    IntegratesOnlySuccess(b.result);
  }

  /**
   * commitFromDate returns a commit exactly when the log printed something; its
   * interruption is not translated. An unbound object whose workspace cannot be read
   * throws an IOException and issues nothing.
   */
  lemma CommitFromDateOutput(s: State, c: Client, b: Build, date: string)
    ensures var r := CommitFromDateStep(s, c, b, date);
      Unreadable(s, b.workspace) ==>
        r == Step(s.(workingDirectory := Some(b.workspace)), Err(IOException(b.workspace)))
    ensures var t := Issue(s.trace, RunDir(s, b.workspace), DateLogArgs(date));
      var r := CommitFromDateStep(s, c, b, date);
      !Unreadable(s, b.workspace) ==>
        BoundAs(s, r.state, b.workspace, CURSOR_FILE)
        && r.state.trace == t
        && (c(t).Exited? ==> r.out == Ok(if c(t).stdout == [] then None else Some(c(t).stdout)))
        && (c(t).Interrupted? ==> r.out == Err(InterruptedException(c(t).message)))
        && (c(t).LaunchFailed? ==> r.out == Err(IOException(c(t).message)))
  {
  }

  // ----- the working-directory binding -------------------------------------

  /**
   * The first hg command of an unbound object binds the build's workspace. The cached
   * cursor path is built from the workspace's content and spelt "curentBuildFile" by the
   * exit-code overload, "currentBuildFile" by the capturing one; when the workspace cannot
   * be read (a directory) the command is not run and an IOException leaves the binding in place.
   */
  lemma FirstCommandBinds(s: State, c: Client, workspace: Path, args: seq<string>)
    requires s.workingDirectory.None?
    ensures var r := HgStep(s, c, workspace, args);
      r.state.workingDirectory == Some(workspace)
      && (workspace !in s.files ==> r == Step(s.(workingDirectory := Some(workspace)), Err(IOException(workspace))))
      && (workspace in s.files ==>
            r.state.currentBuildFile == Some(s.files[workspace] + "/.hg/curentBuildFile")
            && r.state.trace == Issue(s.trace, workspace, args))
    ensures var r := HgCaptureStep(s, c, workspace, args);
      r.state.workingDirectory == Some(workspace)
      && (workspace !in s.files ==> r == Step(s.(workingDirectory := Some(workspace)), Err(IOException(workspace))))
      && (workspace in s.files ==>
            r.state.currentBuildFile == Some(s.files[workspace] + "/.hg/currentBuildFile")
            && r.state.trace == Issue(s.trace, workspace, args))
  {
  }

  /** No operation replaces a bound working directory, and every command runs in the bound directory. */
  lemma HasNextKeepsBinding(s: State, c: Client, b: Build)
    ensures Follows(s, HasNextStep(s, c, b).state, b.workspace)
  {
    HasNextReadOnly(s, c, b);
  }

  lemma PopKeepsBinding(s: State, c: Client, b: Build)
    ensures Follows(s, PopStep(s, c, b).state, b.workspace)
  {
  }

  lemma PrepareKeepsBinding(s: State, c: Client, b: Build, id: string)
    ensures Follows(s, PrepareStep(s, c, b, id).state, b.workspace)
  {
  }

  lemma PostBuildKeepsBinding(s: State, c: Client, b: Build)
    ensures Follows(s, PostBuildStep(s, c, b).state, b.workspace)
  {
  }

  lemma CommitFromDateKeepsBinding(s: State, c: Client, b: Build, date: string)
    ensures Follows(s, CommitFromDateStep(s, c, b, date).state, b.workspace)
  {
  }

  // ----- what the log templates print --------------------------------------

  predicate IsHexDigit(ch: char) {
    '0' <= ch <= '9' || 'a' <= ch <= 'f'
  }

  /** A Mercurial node id as `{node}` prints it: 40 lower-case hexadecimal digits. */
  predicate IsNode(n: string) {
    |n| == 40 && forall k :: 0 <= k < |n| ==> IsHexDigit(n[k])
  }

  /** What `--template {node}` prints for a list of changes. */
  function Concat(nodes: seq<string>): string {
    if nodes == [] then "" else nodes[0] + Concat(nodes[1..])
  }

  /** What `--template {node}\n` prints for a list of changes. */
  function Lines(nodes: seq<string>): string {
    if nodes == [] then "" else nodes[0] + "\n" + Lines(nodes[1..])
  }

  lemma {:induction false} ConcatOfNodes(nodes: seq<string>)
    requires forall i :: 0 <= i < |nodes| ==> IsNode(nodes[i])
    ensures |Concat(nodes)| == 40 * |nodes|
    ensures forall k :: 0 <= k < |Concat(nodes)| ==> !IsBlank(Concat(nodes)[k])
  {
    if nodes != [] {
      ConcatOfNodes(nodes[1..]);
      var rest := Concat(nodes[1..]);
      assert Concat(nodes) == nodes[0] + rest;
      forall k | 0 <= k < |Concat(nodes)| ensures !IsBlank(Concat(nodes)[k]) {
        if k < 40 {
          assert Concat(nodes)[k] == nodes[0][k];
        } else {
          assert Concat(nodes)[k] == rest[k - 40];
        }
      }
    }
  }

  /** Because `{node}` separates nothing, "trimmed output longer than 40" means "more than one change listed". */
  lemma PendingLengthCountsNodes(nodes: seq<string>)
    requires forall i :: 0 <= i < |nodes| ==> IsNode(nodes[i])
    ensures |Trim(Concat(nodes))| > 40 <==> |nodes| > 1
  {
    ConcatOfNodes(nodes);
    TrimNoBlanks(Concat(nodes));
  }

  /** Splitting a string at its first newline. */
  lemma {:induction false} PiecesOfLine(line: string, rest: string)
    requires '\n' !in line
    ensures Pieces(line + "\n" + rest) == [line] + Pieces(rest)
  {
    if line != [] {
      PiecesOfLine(line[1..], rest);
      assert (line + "\n" + rest)[1..] == line[1..] + "\n" + rest;
      assert (line + "\n" + rest)[0] == line[0] != '\n';
      assert [line[0]] + line[1..] == line;
    } else {
      assert ("" + "\n" + rest)[1..] == rest;
    }
  }

  lemma {:induction false} PiecesOfLines(nodes: seq<string>)
    requires forall i :: 0 <= i < |nodes| ==> '\n' !in nodes[i]
    ensures Pieces(Lines(nodes)) == nodes + [""]
  {
    if nodes != [] {
      PiecesOfLines(nodes[1..]);
      PiecesOfLine(nodes[0], Lines(nodes[1..]));
      assert nodes == [nodes[0]] + nodes[1..];
    }
  }

  /**
   * Java's split gives back exactly the listed changes from `{node}\n` output, so
   * popCommit hands out the first change listed; with no change listed it splits
   * into [""] and hands out the empty id.
   */
  lemma PopListingRoundTrip(nodes: seq<string>)
    requires forall i :: 0 <= i < |nodes| ==> IsNode(nodes[i])
    ensures nodes != [] ==> SplitLines(Lines(nodes)) == nodes
    ensures nodes == [] ==> SplitLines(Lines(nodes)) == [""]
  {
    if nodes != [] {
      assert forall i :: 0 <= i < |nodes| ==> '\n' !in nodes[i] by {
        forall i | 0 <= i < |nodes| ensures '\n' !in nodes[i] {
          NodeChars(nodes[i]);
        }
      }
      PiecesOfLines(nodes);
      var out := Lines(nodes);
      assert out == nodes[0] + "\n" + Lines(nodes[1..]);
      assert out[|nodes[0]|] == '\n';
      var ps := nodes + [""];
      assert ps[..|ps| - 1] == nodes;
      assert nodes[|nodes| - 1] != [];
      assert DropTrailingEmpty(ps) == DropTrailingEmpty(nodes);
    }
  }

  // ----- the cursor path of hasNextCommit ----------------------------------

  /**
   * As written, hasNextCommit builds its cursor path from workspace.readToString(),
   * the workspace's content. For a workspace that is a directory (not a regular file)
   * that read fails: after the pull the call always throws an IOException and the
   * log is never run, so no cursor is ever consulted.
   */
  lemma HasNextUnreadableWorkspace(s: State, c: Client, b: Build)
    requires b.workspace !in s.files
    ensures var t1 := Issue(s.trace, RunDir(s, b.workspace), PULL_ARGS);
      HasNextStep(s, c, b)
        == Step(BindIfUnset(s, b.workspace).(trace := t1),
                Err(if c(t1).Exited? then IOException(b.workspace) else IOException(c(t1).message)))
  {
  }

  /**
   * With the cursor path built from the workspace's path, hasNextCommit decides on the
   * cursor popCommit keeps: the sentinel means pending, any other id means pending
   * exactly when the trimmed log output is longer than one node.
   */
  lemma HasNextIntendedDecides(s: State, c: Client, b: Build)
    requires var d := RunDir(s, b.workspace);
      var t1 := Issue(s.trace, d, PULL_ARGS);
      c(t1).Exited? && c(Issue(t1, d, PendingLogArgs(ReadCursor(s.files, b.workspace + CURSOR_FILE)))).Exited?
    ensures var revision := ReadCursor(s.files, b.workspace + CURSOR_FILE);
      var d := RunDir(s, b.workspace);
      var t1 := Issue(s.trace, d, PULL_ARGS);
      var stdout := c(Issue(t1, d, PendingLogArgs(revision))).stdout;
      var r := HasNextIntendedStep(s, c, b);
      r.state.files == s.files
      && (revision == Some(SENTINEL) ==> r.out == Ok(true))
      && (revision.Some? && revision != Some(SENTINEL) ==> r.out == Ok(|Trim(stdout)| > 40))
  {
  }

  /**
   * When popCommit runs in the build's own workspace, the intended hasNextCommit that
   * follows it reads back the popped id and asks for the range that starts there.
   */
  lemma PopThenIntendedHasNext(s: State, c: Client, b: Build)
    requires RunDir(s, b.workspace) == b.workspace
    requires var r := PopStep(s, c, b).out; r.Ok? && r.value.Some? && '\r' !in r.value.value
    ensures var p := PopStep(s, c, b);
      var t1 := Issue(p.state.trace, b.workspace, PULL_ARGS);
      ReadCursor(p.state.files, b.workspace + CURSOR_FILE) == p.out.value
      && (c(t1).Exited? ==>
            HasNextIntendedStep(p.state, c, b).state.trace == Issue(t1, b.workspace, PendingLogArgs(p.out.value)))
  {
    PopReadsBack(s, c, b);
  }

  // ----- one change on a development branch --------------------------------

  /**
   * A repository with one change on a development branch: every log lists that node
   * (the ranges are inclusive), in the format of its template; every other command
   * exits with 0 and prints nothing.
   */
  function OneChangeReply(node: string, args: seq<string>): Reply {
    if |args| == 5 && args[0] == "log" then
      if args[4] == "{node}" then Exited(0, node) else Exited(0, node + "\n")
    else Exited(0, "")
  }

  /** The repository answers each command by its arguments alone. */
  function OneChangeRepository(node: string): Client {
    (t: seq<Invocation>) => if t == [] then Exited(0, "") else OneChangeReply(node, t[|t| - 1].args)
  }

  /** A node id holds no line terminator, is no blank and is not the sentinel. */
  lemma NodeChars(node: string)
    requires IsNode(node)
    ensures '\n' !in node && '\r' !in node && node != SENTINEL
    ensures forall k :: 0 <= k < |node| ==> !IsBlank(node[k])
  {
    assert forall k :: 0 <= k < |node| ==> IsHexDigit(node[k]);
  }

  /** A node id is its own trim. */
  lemma NodeTrim(node: string)
    requires IsNode(node)
    ensures Trim(node) == node
  {
    NodeChars(node);
    TrimNoBlanks(node);
  }

  /** A node id printed on a line splits back into itself. */
  lemma NodeSplit(node: string)
    requires IsNode(node)
    ensures SplitLines(node + "\n") == [node]
  {
    PopListingRoundTrip([node]);
    assert Lines([node]) == node + "\n";
  }

  /** A node id written with println reads back as itself. */
  lemma NodeReadBack(node: string)
    requires IsNode(node)
    ensures ReadLine(Println(node)) == Some(node)
  {
    NodeChars(node);
    ReadPrintln(node);
  }

  /** The repository's answer to a command is its answer to the command's arguments. */
  lemma OneChangeLast(node: string, t: seq<Invocation>, cmd: Invocation)
    ensures OneChangeRepository(node)(t + [cmd]) == OneChangeReply(node, cmd.args)
  {
    assert (t + [cmd])[|t|] == cmd;
  }

  /** A log with the `{node}\n` template lists the node on a line of its own. */
  lemma OneChangePopAnswer(node: string, revision: Option<string>)
    ensures OneChangeReply(node, PopLogArgs(revision)) == Exited(0, node + "\n")
  {
    var pop := PopLogArgs(revision);
    assert pop[4] != "{node}" by {
      assert pop[4][6] == '\\';
    }
  }

  /** The three commands of the scenario, as the repository answers them. */
  lemma OneChangeAnswers(node: string, t: seq<Invocation>, dir: Path, revision: Option<string>)
    ensures OneChangeRepository(node)(t + [Invocation(dir, PULL_ARGS)]) == Exited(0, "")
    ensures OneChangeRepository(node)(t + [Invocation(dir, PendingLogArgs(revision))]) == Exited(0, node)
    ensures OneChangeRepository(node)(t + [Invocation(dir, PopLogArgs(revision))]) == Exited(0, node + "\n")
  {
    OneChangeLast(node, t, Invocation(dir, PULL_ARGS));
    OneChangeLast(node, t, Invocation(dir, PendingLogArgs(revision)));
    OneChangeLast(node, t, Invocation(dir, PopLogArgs(revision)));
    OneChangePopAnswer(node, revision);
  }

  /** The first, corrected, hasNextCommit of an unbound object: the cursor is at the sentinel, so there is work. */
  lemma OneChangeFirstAsk(workspace: Path, node: string, c: Client)
    requires IsNode(node)
    requires var t1 := [Invocation(workspace, PULL_ARGS)];
      c(t1) == Exited(0, "") && c(t1 + [Invocation(workspace, PendingLogArgs(Some(SENTINEL)))]) == Exited(0, node)
    ensures var t2 := [Invocation(workspace, PULL_ARGS), Invocation(workspace, PendingLogArgs(Some(SENTINEL)))];
      HasNextIntendedStep(State(None, None, map[], []), c, Build(workspace, None))
        == Step(State(Some(workspace), None, map[], t2), Ok(true))
  {
    var s1 := State(Some(workspace), None, map[], []);
    var t1 := [Invocation(workspace, PULL_ARGS)];
    var b := Build(workspace, None);
    assert BindIfUnset(State(None, None, map[], []), workspace) == s1;
    assert s1.trace + [Invocation(workspace, PULL_ARGS)] == t1;
    assert LaunchStep(s1, c, PULL_ARGS) == Step(s1.(trace := t1), Ok(Output(0, "")));
    assert HgStep(s1, c, workspace, PULL_ARGS) == Step(s1.(trace := t1), Ok(0));
    var t2 := t1 + [Invocation(workspace, PendingLogArgs(Some(SENTINEL)))];
    assert ReadCursor(map[], workspace + CURSOR_FILE) == Some(SENTINEL);
    assert HgCaptureStep(s1.(trace := t1), c, workspace, PendingLogArgs(Some(SENTINEL)))
        == Step(s1.(trace := t2), Ok(Output(0, node)));
  }

  /** The pop from an empty workspace hands out the change and writes it to the cursor. */
  lemma OneChangePop(workspace: Path, node: string, t: seq<Invocation>, c: Client)
    requires IsNode(node)
    requires c(t + [Invocation(workspace, PopLogArgs(Some(SENTINEL)))]) == Exited(0, node + "\n")
    ensures PopStep(State(Some(workspace), None, map[], t), c, Build(workspace, None))
        == Step(State(Some(workspace), None, map[workspace + CURSOR_FILE := Println(node)],
                      t + [Invocation(workspace, PopLogArgs(Some(SENTINEL)))]),
                Ok(Some(node)))
  {
    var s := State(Some(workspace), None, map[], t);
    var path := workspace + CURSOR_FILE;
    assert PopCursorPath(s, workspace) == path;
    assert ReadCursor(s.files, path) == Some(SENTINEL);
    var s2 := s.(files := map[path := Println(SENTINEL)]);
    var t1 := t + [Invocation(workspace, PopLogArgs(Some(SENTINEL)))];
    assert HgCaptureStep(s2, c, workspace, PopLogArgs(Some(SENTINEL))) == Step(s2.(trace := t1), Ok(Output(0, node + "\n")));
    NodeSplit(node);
  }

  /** After the pop, the corrected hasNextCommit finds no more work, and a second pop repeats the change. */
  lemma OneChangeAfterPop(workspace: Path, node: string, t: seq<Invocation>, c: Client)
    requires IsNode(node)
    requires var t1 := t + [Invocation(workspace, PULL_ARGS)];
      c(t1) == Exited(0, "") && c(t1 + [Invocation(workspace, PendingLogArgs(Some(node)))]) == Exited(0, node)
    requires c(t + [Invocation(workspace, PopLogArgs(Some(node)))]) == Exited(0, node + "\n")
    ensures var s := State(Some(workspace), None, map[workspace + CURSOR_FILE := Println(node)], t);
      HasNextIntendedStep(s, c, Build(workspace, None)).out == Ok(false)
      && PopStep(s, c, Build(workspace, None)).out == Ok(Some(node))
  {
    var s := State(Some(workspace), None, map[workspace + CURSOR_FILE := Println(node)], t);
    var path := workspace + CURSOR_FILE;
    NodeChars(node);
    NodeTrim(node);
    NodeSplit(node);
    NodeReadBack(node);
    assert ReadCursor(s.files, path) == Some(node);
    var t1 := t + [Invocation(workspace, PULL_ARGS)];
    assert LaunchStep(s, c, PULL_ARGS) == Step(s.(trace := t1), Ok(Output(0, "")));
    assert HgStep(s, c, workspace, PULL_ARGS) == Step(s.(trace := t1), Ok(0));
    var t2 := t1 + [Invocation(workspace, PendingLogArgs(Some(node)))];
    assert HgCaptureStep(s.(trace := t1), c, workspace, PendingLogArgs(Some(node)))
        == Step(s.(trace := t2), Ok(Output(0, node)));
    assert Decide(Some(node), node) == Ok(false);
    assert PopCursorPath(s, workspace) == path;
    var t3 := t + [Invocation(workspace, PopLogArgs(Some(node)))];
    assert HgCaptureStep(s, c, workspace, PopLogArgs(Some(node))) == Step(s.(trace := t3), Ok(Output(0, node + "\n")));
  }

  /**
   * From an empty workspace with the cursor at the sentinel: the intended hasNextCommit
   * says there is work, popCommit hands out the change and the cursor now holds it, and
   * hasNextCommit then says there is none. As written, the first hasNextCommit already
   * fails, and a second pop hands out the same change again, because its range
   * starts at (and includes) the cursor.
   */
  lemma OneChangeScenario(workspace: Path, node: string)
    requires IsNode(node)
    ensures var c := OneChangeRepository(node);
      var b := Build(workspace, None);
      var s0 := State(None, None, map[], []);
      var h1 := HasNextIntendedStep(s0, c, b);
      var p := PopStep(h1.state, c, b);
      var h2 := HasNextIntendedStep(p.state, c, b);
      h1.out == Ok(true)
      && p.out == Ok(Some(node))
      && ReadCursor(p.state.files, workspace + CURSOR_FILE) == Some(node)
      && h2.out == Ok(false)
      && HasNextStep(s0, c, b).out == Err(IOException(workspace))
      && PopStep(p.state, c, b).out == Ok(Some(node))
  {
    var c := OneChangeRepository(node);
    var b := Build(workspace, None);
    var s0 := State(None, None, map[], []);
    OneChangeAnswers(node, [], workspace, Some(SENTINEL));
    OneChangeAnswers(node, [Invocation(workspace, PULL_ARGS)], workspace, Some(SENTINEL));
    OneChangeFirstAsk(workspace, node, c);
    var h1 := HasNextIntendedStep(s0, c, b);
    OneChangeAnswers(node, h1.state.trace, workspace, Some(SENTINEL));
    OneChangePop(workspace, node, h1.state.trace, c);
    var p := PopStep(h1.state, c, b);
    NodeReadBack(node);
    OneChangeAnswers(node, p.state.trace, workspace, Some(node));
    OneChangeAnswers(node, p.state.trace + [Invocation(workspace, PULL_ARGS)], workspace, Some(node));
    OneChangeAfterPop(workspace, node, p.state.trace, c);
    HasNextUnreadableWorkspace(s0, c, b);
  }
}
