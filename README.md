# Pretested integration for Mercurial, modelled in Dafny

This project models the Mercurial SCM interface of the Jenkins "pretested
integration" plugin. The interface decides whether a change on a development
branch is waiting (`hasNextCommit`). It hands that change out and records it in a
cursor file (`popCommit`). It merges the change into the integration branch
`default` (`prepareWorkspace`). After the build it commits the merge or throws it
away (`handlePostBuild`). It can also find the first change after a date
(`commitFromDate`).

The hg binary is replaced by an abstract repository client. The client is a total
function from the trace of commands issued so far, ending with the new command, to
that command's reply. A reply is an exit code with the captured standard output, an
interruption, or a failed launch. So the client can script any repository,
including one whose answers depend on earlier pulls and merges.

Files:

- `wrappers.dfy`: `Option` (Java's `null`) and `Result` (Java's exceptions).
- `java_text.dfy`: the Java text semantics the code depends on:
  - `String.trim()`;
  - `String.split("\\n")`, which drops trailing empty strings and splits `""` into `[""]`;
  - `BufferedReader.readLine()`, which returns `null` on an empty file and stops at `\n` or `\r`;
  - `PrintWriter.println()`.
- `mercurial_spec.dfy`: the state and one pure step function per operation. The
  state holds the bound working directory, the cached cursor path, the regular files
  and the command trace. Each step function returns the new state together with the
  value returned or the exception thrown.
- `mercurial.dfy`: class `Mercurial`. Its fields are the ones the Java object updates
  in place. Each method is proved equal to its step function.
- `mercurial_properties.dfy`: the properties, proved about the step functions.

As in the code, `FilePath.readToString()` reads a file's *content*. At lines 145, 168
and 232 the code applies it to the workspace, so the model reads the content too. It
fails (an `IOException`) when the workspace is not a regular file, for instance a
directory.

Three behaviours of the code that are easy to misread:

- **Null from `popCommit`.** Line 310 can be reached. A log output made only of
  newlines splits into an empty array, so `popCommit` returns `null`. The empty
  output splits into `[""]`, so the id `""` is handed out and written.
- **Repeated pops.** The log range `<cursor>:tip` includes the cursor. So a pop after
  a pop can hand out the same change again (`PopRepeatsCursor`, `OneChangeScenario`).
  Nothing guarantees that a change is handed out at most once.
- **Cursor path in `hasNextCommit`.** `hasNextCommit` builds its cursor path from the
  workspace's content, not from its path (see Findings).

## Model

| member | source | states |
|---|---|---|
| JavaText.Trim | src/main/java/org/jenkinsci/plugins/pretestedintegration/scm/mercurial/Mercurial.java:244 | the trimmed output is the part of the log output between its leading and trailing characters `<= ' '`, and neither starts nor ends with one |
| JavaText.TrimNoBlanks | src/main/java/org/jenkinsci/plugins/pretestedintegration/scm/mercurial/Mercurial.java:244 | output with no blank character is left as it is by the trim |
| JavaText.SplitFirst | src/main/java/org/jenkinsci/plugins/pretestedintegration/scm/mercurial/Mercurial.java:288-291 | a non-empty split of the log output starts with the text before its first newline |
| JavaText.SplitEmpty | src/main/java/org/jenkinsci/plugins/pretestedintegration/scm/mercurial/Mercurial.java:288-289 | the split is empty (`commitArray.length == 0`) exactly when the output is a non-empty run of newlines |
| JavaText.SplitNoNewline | src/main/java/org/jenkinsci/plugins/pretestedintegration/scm/mercurial/Mercurial.java:288 | no element of the split holds a newline |
| JavaText.PiecesJoin | src/main/java/org/jenkinsci/plugins/pretestedintegration/scm/mercurial/Mercurial.java:288 | cutting at the newlines and joining the pieces with newlines gives back the output |
| JavaText.ReadLine | src/main/java/org/jenkinsci/plugins/pretestedintegration/scm/mercurial/Mercurial.java:236-237 | reading the cursor gives null exactly for an empty file, otherwise the text before the first line terminator |
| JavaText.ReadPrintln | src/main/java/org/jenkinsci/plugins/pretestedintegration/scm/mercurial/Mercurial.java:293-296 | a value written with `println` reads back as itself if and only if it holds no `\n` or `\r` |
| MercurialScm.Mercurial.constructor | src/main/java/org/jenkinsci/plugins/pretestedintegration/scm/mercurial/Mercurial.java:60-62 | a new object has no working directory, no cached cursor path and an empty trace |
| MercurialScm.Mercurial.SetWorkingDirectory | src/main/java/org/jenkinsci/plugins/pretestedintegration/scm/mercurial/Mercurial.java:64-66 | sets the working directory |
| MercurialScm.Mercurial.SetCurrentBuildFilePath | src/main/java/org/jenkinsci/plugins/pretestedintegration/scm/mercurial/Mercurial.java:76-79 | sets the cached cursor path |
| MercurialScm.Mercurial.Bind | src/main/java/org/jenkinsci/plugins/pretestedintegration/scm/mercurial/Mercurial.java:165-169 | the binding of both hg overloads: an unbound object binds the workspace and caches `readToString()` plus the overload's cursor file, throwing an IOException when the workspace is not a readable file; a bound object changes nothing |
| MercurialScm.Mercurial.Launch | src/main/java/org/jenkinsci/plugins/pretestedintegration/scm/mercurial/Mercurial.java:171 | appends exactly one command, in the bound directory, to the trace and returns the client's reply (an interruption as an InterruptedException, a failed launch as an IOException) |
| MercurialScm.Mercurial.Hg | src/main/java/org/jenkinsci/plugins/pretestedintegration/scm/mercurial/Mercurial.java:139-149 | binds with the `curentBuildFile` spelling, then runs the command and returns its exit code |
| MercurialScm.Mercurial.HgCapture | src/main/java/org/jenkinsci/plugins/pretestedintegration/scm/mercurial/Mercurial.java:161-173 | binds with the `currentBuildFile` spelling, then runs the command and returns its exit code and output |
| MercurialScm.Mercurial.HasNextCommit | src/main/java/org/jenkinsci/plugins/pretestedintegration/scm/mercurial/Mercurial.java:222-253 | leaves every file as it was and ends as `HasNextStep` says |
| MercurialScm.Mercurial.PopCommit | src/main/java/org/jenkinsci/plugins/pretestedintegration/scm/mercurial/Mercurial.java:258-311 | ends as `PopStep` says: the cursor is created if missing, the log runs, and the first split element is written and returned |
| MercurialScm.Mercurial.PrepareWorkspace | src/main/java/org/jenkinsci/plugins/pretestedintegration/scm/mercurial/Mercurial.java:200-217 | leaves every file as it was and ends as `PrepareStep` says |
| MercurialScm.Mercurial.HandlePostBuild | src/main/java/org/jenkinsci/plugins/pretestedintegration/scm/mercurial/Mercurial.java:316-337 | leaves every file as it was and ends as `PostBuildStep` says |
| MercurialScm.Mercurial.CommitFromDate | src/main/java/org/jenkinsci/plugins/pretestedintegration/scm/mercurial/Mercurial.java:186-195 | leaves every file as it was and ends as `CommitFromDateStep` says |
| MercurialProperties.HasNextSentinel | src/main/java/org/jenkinsci/plugins/pretestedintegration/scm/mercurial/Mercurial.java:225-248 | with the cursor at "0" (no file, or first line "0"), once pull and log have run the answer is true whatever the log printed; it is never false, and any failure is an IOException |
| MercurialProperties.HasNextBeyondSentinel | src/main/java/org/jenkinsci/plugins/pretestedintegration/scm/mercurial/Mercurial.java:244-252 | past the sentinel the answer is true exactly when the trimmed output is longer than 40 characters; a null revision throws a NullPointerException instead of answering false |
| MercurialProperties.HasNextReadOnly | src/main/java/org/jenkinsci/plugins/pretestedintegration/scm/mercurial/Mercurial.java:231-242 | files and cached path unchanged; the commands added are `pull`, then the log over the cursor's range when the pull exited and the workspace was readable |
| MercurialProperties.HasNextRepeated | src/main/java/org/jenkinsci/plugins/pretestedintegration/scm/mercurial/Mercurial.java:232-242 | two calls in a row leave every file and the cached path unchanged, and the second asks the log about the same range as the first |
| MercurialProperties.PopCreatesSentinel | src/main/java/org/jenkinsci/plugins/pretestedintegration/scm/mercurial/Mercurial.java:262-286 | without a cursor file, the file is created with "0" and the one command is `log -r "not branch(default) and 0:tip" --template {node}\n` |
| MercurialProperties.PopHandsOutFirstLine | src/main/java/org/jenkinsci/plugins/pretestedintegration/scm/mercurial/Mercurial.java:286-310 | the id returned is the first line of the output; null exactly for a non-empty run of newlines; "" for empty output; interruption becomes an IOException |
| MercurialProperties.PopWritesCursor | src/main/java/org/jenkinsci/plugins/pretestedintegration/scm/mercurial/Mercurial.java:276-296 | the cursor is overwritten with exactly the id returned and no other file changes; with no id only the created sentinel remains |
| MercurialProperties.PopReadsBack | src/main/java/org/jenkinsci/plugins/pretestedintegration/scm/mercurial/Mercurial.java:268-296 | reading the cursor after a pop gives back the id returned (an id without `\r`) |
| MercurialProperties.PopRepeatsCursor | src/main/java/org/jenkinsci/plugins/pretestedintegration/scm/mercurial/Mercurial.java:268-291 | a listing of `<id>:tip` that starts with the popped id makes the next pop return that id again |
| MercurialProperties.HasNextNeverInterrupted | src/main/java/org/jenkinsci/plugins/pretestedintegration/scm/mercurial/Mercurial.java:249-250 | hasNextCommit never throws an InterruptedException; an interrupted pull becomes an IOException with its message |
| MercurialProperties.PopNeverInterrupted | src/main/java/org/jenkinsci/plugins/pretestedintegration/scm/mercurial/Mercurial.java:305-307 | popCommit never throws an InterruptedException; an interrupted log becomes an IOException with its message |
| MercurialProperties.PrepareSequence | src/main/java/org/jenkinsci/plugins/pretestedintegration/scm/mercurial/Mercurial.java:207-216 | an unbound object with an unreadable workspace throws an IOException before any command; otherwise, after the binding of line 143, `update -C default`, then the merge whatever update's exit code; success exactly when the merge exits 0; non-zero is "Merging branches caused conflict"; an interruption is the merge abort; a failed launch is an IOException |
| MercurialProperties.IntegratesOnlySuccess | src/main/java/org/jenkinsci/plugins/pretestedintegration/scm/mercurial/Mercurial.java:322 | a result that is non-null and at least SUCCESS is exactly SUCCESS |
| MercurialProperties.PostBuildSingleCommand | src/main/java/org/jenkinsci/plugins/pretestedintegration/scm/mercurial/Mercurial.java:320-336 | an unbound object with an unreadable workspace throws an IOException and issues nothing; otherwise exactly one command: the commit with the fixed message after SUCCESS, `update -C` otherwise; exit code ignored; each kind of interruption becomes its own abort |
| MercurialProperties.CommitFromDateOutput | src/main/java/org/jenkinsci/plugins/pretestedintegration/scm/mercurial/Mercurial.java:186-195 | an unbound object with an unreadable workspace throws an IOException and issues nothing; otherwise one log, and a commit is returned exactly when it printed something; an interruption is passed on untranslated |
| MercurialProperties.FirstCommandBinds | src/main/java/org/jenkinsci/plugins/pretestedintegration/scm/mercurial/Mercurial.java:143-146 | the first command of an unbound object binds the workspace and caches `curentBuildFile` (exit-code overload) or `currentBuildFile` (capturing overload); an unreadable workspace throws before the command runs |
| MercurialProperties.HasNextKeepsBinding | src/main/java/org/jenkinsci/plugins/pretestedintegration/scm/mercurial/Mercurial.java:228-230 | hasNextCommit never replaces a bound directory, and all its commands run in the bound directory |
| MercurialProperties.PopKeepsBinding | src/main/java/org/jenkinsci/plugins/pretestedintegration/scm/mercurial/Mercurial.java:264-266 | the same for popCommit |
| MercurialProperties.PrepareKeepsBinding | src/main/java/org/jenkinsci/plugins/pretestedintegration/scm/mercurial/Mercurial.java:165-169 | the same for prepareWorkspace |
| MercurialProperties.PostBuildKeepsBinding | src/main/java/org/jenkinsci/plugins/pretestedintegration/scm/mercurial/Mercurial.java:143-146 | the same for handlePostBuild |
| MercurialProperties.CommitFromDateKeepsBinding | src/main/java/org/jenkinsci/plugins/pretestedintegration/scm/mercurial/Mercurial.java:190 | the same for commitFromDate |
| MercurialProperties.PendingLengthCountsNodes | src/main/java/org/jenkinsci/plugins/pretestedintegration/scm/mercurial/Mercurial.java:242-246 | for `{node}` output of 40-digit node ids, "trimmed length > 40" holds exactly when more than one change is listed |
| MercurialProperties.PopListingRoundTrip | src/main/java/org/jenkinsci/plugins/pretestedintegration/scm/mercurial/Mercurial.java:286-288 | splitting `{node}\n` output gives back exactly the listed node ids, and `[""]` when none is listed |
| MercurialProperties.HasNextUnreadableWorkspace | src/main/java/org/jenkinsci/plugins/pretestedintegration/scm/mercurial/Mercurial.java:231-232 | with a workspace that is a directory, hasNextCommit issues only `pull` and then always throws an IOException |
| MercurialProperties.HasNextIntendedDecides | src/main/java/org/jenkinsci/plugins/pretestedintegration/scm/mercurial/Mercurial.java:232-248 | with the path built from the workspace's path, the sentinel means pending, and another id means pending exactly when the output is longer than one node |
| MercurialProperties.PopThenIntendedHasNext | src/main/java/org/jenkinsci/plugins/pretestedintegration/scm/mercurial/Mercurial.java:268 | after a pop in the build's workspace, the corrected hasNextCommit reads back the popped id and lists the range starting there |
| MercurialProperties.OneChangeScenario | src/main/java/org/jenkinsci/plugins/pretestedintegration/scm/mercurial/Mercurial.java:222-311 | one change on a branch, fresh workspace: pending (corrected check), pop gives that change, cursor holds it, then not pending; as written the first check throws, and a second pop returns the same change |

## Left out

- `findHgExe` (lines 97-127) looks up the hg installation through Jenkins and plugin APIs, which are not part of this model. The model assumes it succeeds, so its failure ("Configured scm is not mercurial") is not modelled.
- Launching the process (lines 147, 171) is the abstract client. The launcher, the listener and the argument builder are not modelled.
- `DescriptorImpl` (lines 339-359) is UI configuration and is left out.
- Also left out: the constructor's `latest` and `pattern` fields and their getters, the getters of the two bound fields (the model reads the fields directly), the empty `writeToBuildFile`, `LOG_PREFIX` and the `System.out.println` debugging.
- The date in `commitFromDate` is taken as the text `SimpleDateFormat` would produce. Date formatting is not modelled.
- File writes always succeed. A missing `.hg` directory or an unwritable file would make `PrintWriter` throw, and that is not modelled. Reading a cursor file that exists never fails. An interrupted `readToString()` is not modelled.
- Files are replaced whole. Atomicity, encodings and concurrent writers are not modelled. The line separator is `\n`, as on a Unix host.
- Lengths are counted in Unicode characters. Java counts UTF-16 units, which makes no difference for hexadecimal node ids.
- A `null` commit, or a `null` id, passed to `prepareWorkspace` is not modelled. The id is always a string.
- What `update`, `merge` and `commit` do to the repository contents is up to the client. So "a rollback restores the pre-merge state" cannot be stated. The model states only which commands are issued and in what order.
- The two test files exercise helper classes whose sources are not part of this model.

## Findings

| source | as written | input that shows it | evidently intended | confidence | as-written member | corrected member |
|---|---|---|---|---|---|---|
| src/main/java/org/jenkinsci/plugins/pretestedintegration/scm/mercurial/Mercurial.java:232 | the cursor path is `build.getWorkspace().readToString() + "/.hg/currentBuildFile"`, built from the workspace's content | any build whose workspace is a directory: after `pull` the call throws an IOException, so the log never runs and the cursor is never read | the path is built from the workspace's path, as `popCommit` does at line 268 | not executed; high | MercurialProperties.HasNextUnreadableWorkspace | MercurialProperties.HasNextIntendedDecides |
