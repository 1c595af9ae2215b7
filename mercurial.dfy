/**
 * The plugin's Mercurial SCM interface as an object. Its fields are the two the
 * Java class updates (the bound working directory and the cached cursor path),
 * the regular files the operations read and write, and the append-only trace of
 * hg commands handed to the injected client. Every method is proved to do
 * exactly what the matching step function of MercurialSpec says.
 */
module MercurialScm {
  import opened Wrappers
  import opened JavaText
  import opened MercurialSpec

  class Mercurial {
    /** The injected repository client that answers every hg command. */
    const client: Client
    var workingDirectory: Option<Path>
    var currentBuildFile: Option<string>
    var files: map<Path, string>
    var trace: seq<Invocation>

    /** The object's state as the step functions see it. */
    function Model(): State
      reads this
    {
      State(workingDirectory, currentBuildFile, files, trace)
    }

    /** A fresh object: nothing bound, nothing issued; files is the file system it starts from. */
    constructor (client: Client, files: map<Path, string>)
      ensures this.client == client
      ensures Model() == State(None, None, files, [])
    {
      this.client := client;
      workingDirectory := None;
      currentBuildFile := None;
      this.files := files;
      trace := [];
    }

    method SetWorkingDirectory(dir: Option<Path>)
      modifies this`workingDirectory
      ensures workingDirectory == dir
    {
      workingDirectory := dir;
    }

    method SetCurrentBuildFilePath(path: Option<string>)
      modifies this`currentBuildFile
      ensures currentBuildFile == path
    {
      currentBuildFile := path;
    }

    /** The binding both hg overloads do before launching; cursorFile is the overload's spelling of the cursor path. */
    method Bind(workspace: Path, cursorFile: string) returns (r: Result<(), Error>)
      modifies this`workingDirectory, this`currentBuildFile
      ensures Step(Model(), r) == BindStep(old(Model()), workspace, cursorFile)
    {
      if workingDirectory.None? {
        SetWorkingDirectory(Some(workspace));
        if workspace !in files {
          return Err(IOException(workspace));
        }
        SetCurrentBuildFilePath(Some(files[workspace] + cursorFile));
      }
      return Ok(());
    }

    /** Launch hg in the bound directory: record the command, then ask the client. */
    method Launch(args: seq<string>) returns (r: Result<Output, Error>)
      requires workingDirectory.Some?
      modifies this`trace
      ensures Step(Model(), r) == LaunchStep(old(Model()), client, args)
    {
      trace := trace + [Invocation(workingDirectory.value, args)];
      var reply := client(trace);
      match reply
      case Exited(code, stdout) => r := Ok(Output(code, stdout));
      case Interrupted(m) => r := Err(InterruptedException(m));
      case LaunchFailed(m) => r := Err(IOException(m));
    }

    /** The hg overload that returns only the exit code. */
    method Hg(b: Build, args: seq<string>) returns (r: Result<int, Error>)
      modifies this`workingDirectory, this`currentBuildFile, this`trace
      ensures Step(Model(), r) == HgStep(old(Model()), client, b.workspace, args)
    {
      var bound := Bind(b.workspace, MISSPELT_CURSOR_FILE);
      if bound.Err? {
        return Err(bound.error);
      }
      var run := Launch(args);
      if run.Err? {
        return Err(run.error);
      }
      return Ok(run.value.code);
    }

    /** The hg overload that also captures standard output. */
    method HgCapture(b: Build, args: seq<string>) returns (r: Result<Output, Error>)
      modifies this`workingDirectory, this`currentBuildFile, this`trace
      ensures Step(Model(), r) == HgCaptureStep(old(Model()), client, b.workspace, args)
    {
      var bound := Bind(b.workspace, CURSOR_FILE);
      if bound.Err? {
        return Err(bound.error);
      }
      r := Launch(args);
    }

    /** Is there a change to integrate? Never writes a file. */
    method HasNextCommit(b: Build) returns (r: Result<bool, Error>)
      modifies this`workingDirectory, this`currentBuildFile, this`trace
      ensures files == old(files)
      ensures Step(Model(), r) == HasNextStep(old(Model()), client, b)
    {
      if workingDirectory.None? {
        SetWorkingDirectory(Some(b.workspace));
      }
      var pull := Hg(b, PULL_ARGS);
      if pull.Err? {
        return Err(AsIOException(pull.error));
      }
      if b.workspace !in files {
        return Err(IOException(b.workspace));
      }
      var f := files[b.workspace] + CURSOR_FILE;
      var revision := Some(SENTINEL);
      if f in files {
        revision := ReadLine(files[f]);
      }
      var log := HgCapture(b, PendingLogArgs(revision));
      if log.Err? {
        return Err(AsIOException(log.error));
      }
      var outString := Trim(log.value.stdout);
      if |outString| > 40 {
        return Ok(true);
      }
      if revision.None? {
        return Err(NullPointerException);
      }
      return Ok(revision.value == SENTINEL);
    }

    /** Hand out the next change and record it in the cursor file. */
    method PopCommit(b: Build) returns (r: Result<Option<string>, Error>)
      modifies this`workingDirectory, this`currentBuildFile, this`files, this`trace
      ensures Step(Model(), r) == PopStep(old(Model()), client, b)
    {
      ghost var s0 := Model();
      if workingDirectory.None? {
        SetWorkingDirectory(Some(b.workspace));
      }
      var file := workingDirectory.value + CURSOR_FILE;
      assert file == PopCursorPath(s0, b.workspace);
      var revision := Some(SENTINEL);
      if file in files {
        revision := ReadLine(files[file]);
      } else {
        files := files[file := Println(SENTINEL)];
      }
      var log := HgCapture(b, PopLogArgs(revision));
      if log.Err? {
        return Err(AsIOException(log.error));
      }
      var commitArray := SplitLines(log.value.stdout);
      if |commitArray| > 0 {
        files := files[file := Println(commitArray[0])];
        return Ok(Some(commitArray[0]));
      }
      return Ok(None);
    }

    /** Check out the integration branch cleanly and merge change id into it. */
    method PrepareWorkspace(b: Build, id: string) returns (r: Result<(), Error>)
      modifies this`workingDirectory, this`currentBuildFile, this`trace
      ensures files == old(files)
      ensures Step(Model(), r) == PrepareStep(old(Model()), client, b, id)
    {
      var update := Hg(b, UPDATE_DEFAULT_ARGS);
      if update.Err? {
        return Err(AsAbort(update.error, MERGE_INTERRUPTED_MESSAGE));
      }
      var merge := HgCapture(b, MergeArgs(id));
      if merge.Err? {
        return Err(AsAbort(merge.error, MERGE_INTERRUPTED_MESSAGE));
      }
      if merge.value.code != 0 {
        return Err(AbortException(CONFLICT_MESSAGE));
      }
      return Ok(());
    }

    /** After the build: commit the merge if the build succeeded, otherwise discard it. */
    method HandlePostBuild(b: Build) returns (r: Result<(), Error>)
      modifies this`workingDirectory, this`currentBuildFile, this`trace
      ensures files == old(files)
      ensures Step(Model(), r) == PostBuildStep(old(Model()), client, b)
    {
      if b.result.Some? && IsBetterOrEqualTo(b.result.value, Success) {
        var run := Hg(b, COMMIT_ARGS);
        if run.Err? {
          return Err(AsAbort(run.error, COMMIT_INTERRUPTED_MESSAGE));
        }
      } else {
        var run := Hg(b, REVERT_ARGS);
        if run.Err? {
          return Err(AsAbort(run.error, REVERT_INTERRUPTED_MESSAGE));
        }
      }
      return Ok(());
    }

    /** The first change committed after date (already rendered as text), if hg prints one. */
    method CommitFromDate(b: Build, date: string) returns (r: Result<Option<string>, Error>)
      modifies this`workingDirectory, this`currentBuildFile, this`trace
      ensures files == old(files)
      ensures Step(Model(), r) == CommitFromDateStep(old(Model()), client, b, date)
    {
      var log := HgCapture(b, DateLogArgs(date));
      if log.Err? {
        return Err(log.error);
      }
      var revision := log.value.stdout;
      if |revision| > 0 {
        return Ok(Some(revision));
      }
      return Ok(None);
    }
  }
}
