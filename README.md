# git2cc hooks — a Dafny model

git2cc-hooks keeps a ClearCase view in step with a Git repository. Its parts:

- `update` is a server-side hook git runs before it moves a reference. For a branch kept in sync, it replays the pushed changes on the ClearCase view:
  - directories are created for added files;
  - modified files are checked out, with a comment built from the commit messages and a label taken from them;
  - deleted paths are removed.
- If the replay fails, `update` cancels every open checkout and rejects the push.
- `post-receive` runs after the push. It pulls the view, adds the new files and checks in the modified ones, then checks in the directories it opened, with the labels of the last commit.
- `install.py` finds the bare repository and its `hooks` directory from the working directory. It then links the hooks, copies the message catalogues and copies the configuration.

The model is written in Dafny and covers the following:

- **ClearCase view** (`Cleartool`). The view is a value: the directories and files on disk, the versioned elements, the open checkouts in order, the root listing, and the commands the tool rejects. Each `cleartool` command and each file system change `ClearCase.py` makes has an answer and an effect on the view. Which commands fail is left open: it is the view's `faults` set.
- **`ClearCase.py`** (`ClearCaseModel`, `ClearCase`).
  - Each method of the `ClearCase` class is a function, in `ClearCaseModel`, from the world before the call to the world after it and the method's completion. The world is the view plus the log of commands issued, and the completion is a pass or the `CCError` raised.
  - Class `ClearCase.ClearCase` holds the world as fields and runs the same methods imperatively, with their loops. Each method is proved to end in exactly the state and result the function gives.
- **`GIT.py`** (`Git`). The null revision, the parsing of `git diff --name-status`, and what each query makes of its command's exit status and output. The environment `pull` runs git in.
- **`HooksConfig.py`** (`HooksConfig`). Validation of the configuration, given as a map from section to options. The list of branches kept in sync.
- **The hooks** (`Hooks`, `UpdateHook`, `PostReceiveHook`, `UpdateScript`, `PostReceiveScript`).
  - A `Site` is the ClearCase world, the trace of the calls the hooks made, and the set of calls that raise.
  - Operations that `ClearCase.py` defines run their model on the world.
  - The hooks also call operations that `ClearCase.py` and `GIT.py` do not define, or call them with other arguments: `makelabel`, `checkin_list`, the three-argument `create_file`, the two-argument `checkin` and `remove_name`, and `last_commit_labels`. These are recorded in the trace and otherwise left open.
  - The only exception is `remove_name(path, co_list)`. When it returns, the model takes its path, and everything below it, to be gone.
  - What git answers during one run is a `Repo` value.
  - The loops of `modify_file`, `process_push` and `process_deletions` (update), and of `process_push` (post-receive), are methods proved equal to the functions.
- **`install.py`** (`Install`, `InstallScript`). Detection of the repository and hooks paths, the links, and the copies.

`Results` holds Option, Result and Outcome, and a command's reply. `Strings` and `PosixPath` hold the Python 2 string primitives the code relies on, with round-trip lemmas:

- `split`, `split()`, `strip`, `splitlines` and `join`;
- `os.path.dirname`.

Behaviour of the code worth knowing when reading the model:

- The label pattern is `@[A-Z_0-9]*`, so a bare `@` gives an empty label.
- `modify_file` applies one label: the label of the last comment that has one.
- When a push fails, `update` calls `uncheckout_all`, which undoes every checkout in the whole view, not only the ones this push made.
- `create_file` checks out the parent directory whether or not it is already checked out.
- Before `cleartool co`, `checkout` checks only that the element is versioned (unless a version is given) and not already checked out.
- `create_dir` raises on an existing directory, and leaves the parent and the new directory checked out.

## Model

| member | source | states |
|---|---|---|
| ClearCaseModel.IsVersioned | src/ClearCase.py:57-83 | true iff the path exists, is an element and `ls -vob_only` answers; a path not on disk issues no command; the view is unchanged |
| ClearCaseModel.IsCheckout | src/ClearCase.py:85-102 | true iff `lsco` answers and echoes exactly the queried name (a plain element name that is checked out); one `lsco` is issued and the view is unchanged |
| ClearCaseModel.EchoOfElement | src/ClearCase.py:98-100 | `rstrip('\r\n')` of the name `lsco` prints equals the queried path iff the path is a plain element name not ending in a line break |
| ClearCaseModel.Checkout | src/ClearCase.py:104-150 | raises not_in_CC for an unversioned path without addVersion, then already_co for a checked-out one, both after queries only; passes iff neither holds and `co` succeeds; the element is added to the checkouts exactly on a pass; only `ls`, `lsco` and this `co` are issued |
| ClearCaseModel.Uncheckout | src/ClearCase.py:152-166 | issues `unco -rm`; passes iff it succeeds; the checkout is dropped exactly on a pass |
| ClearCaseModel.Checkin | src/ClearCase.py:168-202 | a path not on disk raises not_in_CC with no command issued; a path not checked out raises ci_not_co after queries only; passes iff on disk, checked out and `ci` succeeds; the checkout is dropped exactly on a pass |
| ClearCaseModel.OpenDir | src/ClearCase.py:228-230 | a parent that `lsco` reports checked out is left alone with no checkout issued; otherwise it is checked out; never checks anything in, keeps every open checkout |
| ClearCaseModel.MakeDir | src/ClearCase.py:232-249 | passes iff `mkdir` succeeds, and then the directory exists, is versioned and is checked out; nothing is checked in or out |
| ClearCaseModel.CreateDir | src/ClearCase.py:204-253 | an existing directory raises already_in_CC and a missing parent raises not_in_CC, both with nothing issued; a parent already checked out is not checked out again; on a pass the directory exists, is versioned and checked out, and so is its parent when it is a plain element name; nothing is checked in |
| ClearCaseModel.CreatePathFrom | src/ClearCase.py:272-287 | the walk over the segments only adds directories and elements and never checks anything in |
| ClearCaseModel.CreatePathFromPrefixes | src/ClearCase.py:272-287 | when the walk completes, every prefix it visited is a directory |
| ClearCaseModel.CreatePath | src/ClearCase.py:255-287 | only adds directories and elements, leaves files alone, keeps every checkout and checks nothing in |
| ClearCaseModel.CreatePathMakesPath | src/ClearCase.py:264-287 | for an absolute path, a completed `create_path` leaves the path a directory |
| ClearCaseModel.AddElement | src/ClearCase.py:311-330 | a failing `mkelem` raises creation_failed right after it; on a pass the file is a versioned element, on disk, not checked out, and its `.keep` is gone |
| ClearCaseModel.MoveKeepAside | src/ClearCase.py:301-303 | with no `p.keep`, nothing is issued and it passes; otherwise `p.keep` is renamed to `p.keep.old`: on a pass the files lose `p.keep` and gain `p.keep.old`, on a failure the view is unchanged and the rename's OSError is raised; only the files change and `p` stays |
| ClearCaseModel.RestoreContent | src/ClearCase.py:325-328 | on a pass the content is back under the file name, the file is checked in and `.keep` is gone; the versioned set is unchanged |
| ClearCaseModel.CreateFile | src/ClearCase.py:289-341 | a missing file raises file_not_exists with nothing issued; a parent already checked out raises already_co before any element is made; on a pass the file is a versioned element, checked in, with no `.keep` left |
| ClearCaseModel.CheckinIfOut | src/ClearCase.py:475-478 | a directory that `lsco` reports checked out is checked in, and nothing on disk changes; only that path is checked in, nothing is checked out, and no other checkout closes |
| ClearCaseModel.Unlink | src/ClearCase.py:475-496 | a failing `rmname` raises; on a pass the path is gone from disk; a checked-out directory is checked in first; no other checkout is closed and nothing is checked out |
| ClearCaseModel.RemoveName | src/ClearCase.py:462-496 | a parent already checked out is not checked out again; the only checkin is of the path itself; a failing `rmname` raises; on a pass the path is gone and the parent is checked out (it is never checked back in) |
| ClearCaseModel.Inspect | src/ClearCase.py:355-388 | looking at one top-level entry issues queries only and leaves the view unchanged |
| ClearCaseModel.InspectSound | src/ClearCase.py:355-388 | every path found for an entry is checked out within that entry, which is a versioned directory |
| ClearCaseModel.Collect | src/ClearCase.py:351-390 | the loop over the root listing issues queries only and leaves the view unchanged |
| ClearCaseModel.CollectSound | src/ClearCase.py:351-390 | every path collected is checked out within a versioned top-level directory of the view |
| ClearCaseModel.ListCheckouts | src/ClearCase.py:343-394 | issues queries only and leaves the view unchanged |
| ClearCaseModel.ListCheckoutsSound | src/ClearCase.py:343-394 | every path listed is a checkout within a versioned top-level directory |
| ClearCaseModel.CheckinEach | src/ClearCase.py:404-423 | the sweep changes no tree and opens no checkout |
| ClearCaseModel.CheckinEachSettles | src/ClearCase.py:404-423 | every path of the sweep ends checked in or is reported in the warnings, and only swept paths are warned about, in order after earlier warnings |
| ClearCaseModel.CheckinAll | src/ClearCase.py:396-423 | a failed listing is returned as is; otherwise only checkouts change, none is opened, every path `list_checkouts` gives ends checked in or warned about, and only listed paths are warned about |
| ClearCaseModel.UncheckoutOne | src/ClearCase.py:436-460 | issues `unco` first; a failing `unco` is a warning; otherwise the checkout is gone; `rmdir` is issued only after a successful `unco` of an empty, unversioned directory |
| ClearCaseModel.RemoveIfEmpty | src/ClearCase.py:456-460 | `rmdir` is issued only for an existing, empty directory that `ls` does not report versioned; only the directories change; the result is never a warning |
| ClearCaseModel.UncheckoutEach | src/ClearCase.py:434-460 | the sweep opens no checkout and keeps the listing and the faults |
| ClearCaseModel.UncheckoutEachSettles | src/ClearCase.py:434-460 | every swept path ends not checked out or is warned about; only swept paths are warned about |
| ClearCaseModel.UncheckoutEachRemovesListed | src/ClearCase.py:434-460 | the sweep runs `os.rmdir` only on paths of the list it sweeps |
| ClearCaseModel.UncheckoutAll | src/ClearCase.py:425-460 | a failed listing is returned as is; no checkout is opened, the listing and faults stay, `os.rmdir` touches only listed paths, and when it completes every listed path ends not checked out or warned about, with only listed paths warned about |
| ClearCase.ClearCase.constructor | src/ClearCase.py:39-55 | a fresh object over the given view with an empty command log |
| ClearCase.ClearCase.IsVersioned | src/ClearCase.py:57-83 | new world and result are those of `ClearCaseModel.IsVersioned` |
| ClearCase.ClearCase.IsCheckout | src/ClearCase.py:85-102 | new world and result are those of `ClearCaseModel.IsCheckout` |
| ClearCase.ClearCase.Checkout | src/ClearCase.py:104-150 | new world and completion are those of `ClearCaseModel.Checkout` |
| ClearCase.ClearCase.Uncheckout | src/ClearCase.py:152-166 | new world and completion are those of `ClearCaseModel.Uncheckout` |
| ClearCase.ClearCase.Checkin | src/ClearCase.py:168-202 | new world and completion are those of `ClearCaseModel.Checkin` |
| ClearCase.ClearCase.CreateDir | src/ClearCase.py:204-253 | new world and completion are those of `ClearCaseModel.CreateDir` |
| ClearCase.ClearCase.OpenDir | src/ClearCase.py:228-230 | new world and completion are those of `ClearCaseModel.OpenDir` |
| ClearCase.ClearCase.CreatePath | src/ClearCase.py:255-287 | the loop accumulating `current` ends in the world and completion of `ClearCaseModel.CreatePath` |
| ClearCase.ClearCase.CreateFile | src/ClearCase.py:289-341 | new world and completion are those of `ClearCaseModel.CreateFile` |
| ClearCase.ClearCase.MoveKeepAside | src/ClearCase.py:301-303 | new world and completion are those of `ClearCaseModel.MoveKeepAside` |
| ClearCase.ClearCase.AddElement | src/ClearCase.py:311-330 | new world and completion are those of `ClearCaseModel.AddElement` |
| ClearCase.ClearCase.RestoreContent | src/ClearCase.py:325-328 | new world and completion are those of `ClearCaseModel.RestoreContent` |
| ClearCase.ClearCase.Inspect | src/ClearCase.py:355-388 | new world and result are those of `ClearCaseModel.Inspect` |
| ClearCase.ClearCase.ListCheckouts | src/ClearCase.py:343-394 | the listing loop and the in-place reversal end in the world and list of `ClearCaseModel.ListCheckouts` |
| ClearCase.ClearCase.CheckinAll | src/ClearCase.py:396-423 | the loop that continues past failures ends in the world and warnings of `ClearCaseModel.CheckinAll` |
| ClearCase.ClearCase.UncheckoutAll | src/ClearCase.py:425-460 | the loop that continues past failures ends in the world and warnings of `ClearCaseModel.UncheckoutAll` |
| ClearCase.ClearCase.UncheckoutOne | src/ClearCase.py:436-460 | new world and result are those of `ClearCaseModel.UncheckoutOne` |
| ClearCase.ClearCase.RemoveIfEmpty | src/ClearCase.py:456-460 | new world and result are those of `ClearCaseModel.RemoveIfEmpty` |
| ClearCase.ClearCase.RemoveName | src/ClearCase.py:462-496 | new world and completion are those of `ClearCaseModel.RemoveName` |
| ClearCase.ClearCase.Unlink | src/ClearCase.py:475-496 | new world and completion are those of `ClearCaseModel.Unlink` |
| ClearCase.ClearCase.CheckinIfOut | src/ClearCase.py:475-478 | new world and completion are those of `ClearCaseModel.CheckinIfOut` |
| Git.NullRevision | src/GIT.py:43-50 | forty '0' characters |
| Git.IsNullRevision | src/GIT.py:52-59 | true iff the revision is exactly forty '0' characters |
| Git.Entries | src/GIT.py:71-79 | one entry per line, in order, each the whitespace-split words of its line |
| Git.ParseDiff | src/GIT.py:61-79 | the append loop gives the entries of the lines of the diff |
| Git.NameStatusLine | src/GIT.py:61-79 | a `status\tpath` line parses to `[status, path]` |
| Git.WordsOfEntry | src/GIT.py:77 | `split()` of `status\tpath` is `[status, path]` |
| Git.CommitFiles | src/GIT.py:107-130 | Ok iff `git diff` exits 0, then one entry per line of its output, entry i the whitespace-split words of line i; otherwise a "git diff" GITError |
| Git.GetCommitFiles | src/GIT.py:95-130 | the result of `Git.CommitFiles` |
| Git.Messages | src/GIT.py:159-185 | one comment per revision |
| Git.MessagesInOrder | src/GIT.py:159-185 | the comments follow the revisions in order, each the stripped output of that revision's message pipeline |
| Git.Comments | src/GIT.py:132-200 | Ok iff `git rev-list` exits 0; then the stripped comments, oldest first (the reverse of rev-list's order); otherwise a "git rev-list" GITError |
| Git.GetCommentsList | src/GIT.py:132-200 | the append loop and the in-place reversal give `Git.Comments` |
| Git.CollectMessages | src/GIT.py:159-190 | the append loop over the revisions collects `Git.Messages`, one stripped message per revision in rev-list order |
| Git.CommentsIgnorePipelineStatus | src/GIT.py:183-190 | the comments depend only on the pipelines' output, never on their exit status (the only status the code inspects is rev-list's) |
| Git.CommitterName | src/GIT.py:214-216 | the output of `git log -1 --pretty=%cn` is the name followed by one line break, or the name alone when no line break ends it |
| Git.GetCommitterAsWritten | src/GIT.py:202-230 | Ok iff `git log` exits 0, then its output unmodified, line break included; otherwise a "git log" GITError |
| Git.CommitterAsWrittenNeverMatches | src/GIT.py:214-230 | as written, the committer returned for the line `name\n` is never `name` |
| Git.GetCommitter | src/GIT.py:202-230 | corrected: Ok iff `git log` exits 0, then the committer's name without git's line break; otherwise a "git log" GITError |
| Git.CommitterOfLine | src/GIT.py:214-230 | corrected: the line `name\n` reads back as `name` |
| Git.ListDeletions | src/GIT.py:232-263 | Ok iff `git diff-tree` exits 0, then its lines (empty iff the output is empty); otherwise a GITError labelled "git cat-file" |
| Git.SetEnv | src/GIT.py:81-93 | a copy of the environment with `GIT_DIR = gitpath + ".git"` and `GIT_WORK_TREE = gitpath`, every other entry as it was |
| Git.Pull | src/GIT.py:265-290 | passes iff `git pull` exits 0; otherwise a CC_update_failed GITError |
| HooksConfig.ValidateConfig | src/HooksConfig.py:87-127 | the first failing check, in order: cc_view section, cc_config section, path option, view directory, cleartool_path option, cleartool file, cc_pusher_user option; each of the seven failures iff the earlier checks hold and it fails, the directory and file failures naming the configured path; passes iff all hold |
| HooksConfig.GitConfigNotRequired | src/HooksConfig.py:95-127 | removing the git_config section never changes the validation |
| HooksConfig.StripEach | src/HooksConfig.py:169 | each piece stripped, order and count kept |
| HooksConfig.GetSyncBranches | src/HooksConfig.py:154-171 | `["master"]` without the sync_branches option; otherwise the comma-separated pieces, each stripped, in order, empty ones kept |
| HooksConfig.SyncBranchesOfList | src/HooksConfig.py:154-171 | a value written as names joined by commas gives back exactly those names |
| Hooks.RemoveNameInto | src/update.py:87-91 | the two-argument `remove_name` is recorded; when it returns, the path and all below it are gone and nothing else disappears; when it raises, the world is unchanged |
| UpdateHook.LabelRun | src/update.py:47 | the longest run of `[A-Z_0-9]` characters at the start |
| UpdateHook.FirstLabel | src/update.py:47-49 | a label iff the comment holds '@'; it is the maximal `[A-Z_0-9]*` run right after the first '@' |
| UpdateHook.StripLabels | src/update.py:52 | the comment with every `@[A-Z_0-9]*` token removed: no '@' is left, text before the first '@' is kept, a comment without '@' is unchanged |
| UpdateHook.Cleaned | src/update.py:45-54 | one cleaned comment per comment |
| UpdateHook.CleanedAt | src/update.py:45-54 | each comment with its label tokens removed, order kept |
| UpdateHook.LastLabel | src/update.py:45-51 | a label iff some comment holds '@'; it is the first label of the last such comment |
| UpdateHook.CheckoutCommentLines | src/update.py:42-54 | the lines of the checkout comment are the heading `committer.GIT push:` and then each comment, in order, without label tokens |
| UpdateHook.ComposedIsCheckoutComment | src/update.py:42-54 | the loop's running comment and label, after all comments, are the checkout comment and the last label |
| UpdateHook.AddFile | src/update.py:24-32 | only `create_path` of the directory is called; files are untouched; for an absolute path a pass leaves that directory existing |
| UpdateHook.ModifyFile | src/update.py:35-60 | a checkout with the composed comment; `makelabel` with the last label only if a comment matched and only after the checkout succeeded; passes iff both pass |
| UpdateHook.Act | src/update.py:142-148 | an A or M entry that completes makes exactly its intended calls |
| UpdateHook.Dispatch | src/update.py:133-169 | the loop over the entries only adds to the trace |
| UpdateHook.Turn | src/update.py:133-169 | one entry of the loop only adds to the trace |
| UpdateHook.DispatchStep | src/update.py:133-169 | a loop that completes makes the first entry's intended calls, sets the deletion mark iff that entry is a deletion, and goes on with the rest |
| UpdateHook.DispatchFollowsPlan | src/update.py:133-169 | a loop that completes leaves exactly the planned calls, entry by entry: `create_path` for A, checkout and label for M, nothing for `.gitignore` or D |
| UpdateHook.DispatchMarks | src/update.py:150-154 | a loop that completes met no unsupported status, and sets the mark iff some entry is a deletion |
| UpdateHook.UnsupportedStops | src/update.py:156-162 | any entry with a status other than A, M or D (and not `.gitignore`) stops the loop with an error |
| UpdateHook.RemoveEach | src/update.py:74-91 | only `remove_name` calls with the one `co_list`, at most one per deletion; nothing new appears; when it completes, no deleted path exists |
| UpdateHook.NestedDeletionsTakeOneCall | src/update.py:76-91 | for `dir1`, `dir1/dir2`, `dir1/dir2/file` only `dir1` is removed, in one call |
| UpdateHook.ProcessDeletions | src/update.py:62-95 | `list_deletions` comes first, and its failure raises "git cat-file"; a completed pass ends with one `checkin_list(co_list)` and no deleted path left |
| UpdateHook.ProcessPush | src/update.py:97-174 | only adds to the trace |
| UpdateHook.ProcessPushOrder | src/update.py:114-174 | a completed push makes the planned calls first, and the deletion pass follows iff some entry is a deletion |
| UpdateHook.ProcessPushStages | src/update.py:114-174 | a completed push had well-formed entries, made exactly the planned calls, then ran `process_deletions` once iff a D was seen |
| UpdateHook.DoSync | src/update.py:177-196 | corrected: false with nothing asked when the old revision is null or the new one missing; otherwise `git log` is asked once, a git failure is an error, and the result is true iff the committer's name (the corrected `Git.GetCommitter`) differs from the pusher |
| UpdateHook.PusherPushNotSynced | src/update.py:188-194 | corrected: with the corrected `Git.GetCommitter`, a commit whose committer git prints as the pusher's line is not synced (as written it is; see Findings) |
| UpdateHook.PushOrRollBack | src/update.py:268-294 | a failure ends with `uncheckout_all` |
| UpdateHook.RollBackAfterFailure | src/update.py:268-294 | a completed push stands unchanged; a failed one keeps its error and is followed by `uncheckout_all` on the view |
| UpdateHook.Fetch | src/update.py:252-255 | reading committer, comments and files from git makes git calls only |
| UpdateHook.Replay | src/update.py:243-294 | a failure either touched only git or ends with `uncheckout_all` |
| UpdateHook.Sync | src/update.py:243-294 | a failure touched only git or ends with `uncheckout_all`; ClearCase is touched only if the old revision is not null and the committer's name (the corrected `Git.GetCommitter`) differs from the pusher |
| UpdateHook.Main | src/update.py:199-304 | missing arguments raise IndexError, a missing new revision TypeError at the debug line; an invalid configuration exits 1 with nothing done; a ref that is not under `heads`, or a branch not in the sync list, exits 0 with nothing done; a short ref raises IndexError; a failure touched only git or ends with `uncheckout_all` |
| UpdateScript.ComposeCheckout | src/update.py:42-54 | the loop builds the checkout comment, and the label flag and label of the last matching comment |
| UpdateScript.ModifyFile | src/update.py:35-60 | ends in the site and outcome of `UpdateHook.ModifyFile` |
| UpdateScript.ProcessDeletions | src/update.py:62-95 | the loop with its existence re-check ends as `UpdateHook.ProcessDeletions` |
| UpdateScript.ProcessPush | src/update.py:97-174 | the logging loop, the dispatch loop with its `delete_mark` flag and the deferred deletion pass end as `UpdateHook.ProcessPush` |
| PostReceiveHook.GetStandardInput | src/post-receive.py:139-155 | IndexError iff the line has no word or exactly two; otherwise old is the first word, and new and ref are given iff there are more than two |
| PostReceiveHook.StandardInputOfLine | src/post-receive.py:139-155 | the line `old new ref` git writes is read back as those three values |
| PostReceiveHook.DoSync | src/post-receive.py:112-136 | corrected: IndexError exactly on a ref with fewer than two parts or a two-part `heads` ref reaching `refs[2]`; `git log` is asked, once, iff the ref is under `heads`, old is not null, new is given and the branch is in the sync list; then a git failure is the "git log" error, and the result is true iff the committer's name (the corrected `Git.GetCommitter`) differs from the pusher |
| PostReceiveHook.PusherPushNotSynced | src/post-receive.py:126-134 | corrected: with the corrected `Git.GetCommitter`, a commit whose committer git prints as the pusher's line is never synced (as written it is; see Findings) |
| PostReceiveHook.SameDecisionAsUpdate | src/post-receive.py:126-134 | for a branch under `heads` in the sync list, the same decision and calls as the update hook's `do_sync` |
| PostReceiveHook.Walk | src/post-receive.py:89-106 | the loop only adds to the trace and does not touch the view |
| PostReceiveHook.WalkFollowsPlan | src/post-receive.py:89-106 | the loop completes iff every entry has a path and no planned call raises; it then makes exactly the planned calls: `create_file` with the labels and `list_co` for A, `checkin` with the labels for M, nothing for `.gitignore`, D or other statuses |
| PostReceiveHook.WalkCompletes | src/post-receive.py:89-106 | the loop runs to its end iff every entry has a path (otherwise the IndexError stops it) and none of the planned `create_file`/`checkin` calls raises |
| PostReceiveHook.WalkTrace | src/post-receive.py:89-106 | a loop that ran to its end saw only entries with a path and made exactly the planned calls, in entry order |
| PostReceiveHook.ProcessPush | src/post-receive.py:71-110 | a completed push made `last_commit_labels` once, then the planned calls with that one label value and one `list_co`, then exactly one `checkin_list(list_co, labels)` |
| PostReceiveHook.ProcessPushCompletes | src/post-receive.py:71-110 | completes iff `last_commit_labels`, every planned call and the final `checkin_list` do not raise and every entry has a path |
| PostReceiveHook.Gather | src/post-receive.py:205-208 | `pull` comes before `get_commit_files`; a failing pull raises CC_update_failed with nothing else asked |
| PostReceiveHook.Synchronise | src/post-receive.py:199-225 | `pull` comes first and `get_commit_files` second; a completed run had both succeed; a pull failure ends the run at once; the ClearCase world is left as it was, so no failure is followed by a rollback |
| PostReceiveHook.Main | src/post-receive.py:158-227 | an invalid configuration exits 1; an unreadable input line raises IndexError, a one-word line AttributeError; ClearCase is touched only when the full sync condition holds, the committer compared through the corrected `Git.GetCommitter` |
| PostReceiveScript.ProcessPush | src/post-receive.py:71-110 | the loop over the entries, threading `list_co`, ends as `PostReceiveHook.ProcessPush` |
| Install.IndexOf | src/install.py:108 | Python's `list.index`: the first position of the value, or the length when it is absent |
| Install.GitIndex | src/install.py:103-108 | after the loop, zero or the position of a component ending in ".git"; zero when no component does |
| Install.GitIndexOfLast | src/install.py:106-108 | the loop's value is the first position of the last component ending in ".git" |
| Install.RepeatedGitComponent | src/install.py:106-108 | `/r.git/b/r.git/hooks` gives index 1, the first occurrence of the repeated name |
| Install.Detect | src/install.py:100-126 | detected iff the ".git" index is positive, "hooks" is a component, and the ".git" index is below the first "hooks"; otherwise "Repository not detected" |
| Install.DetectNests | src/install.py:115-116 | gitpath ends in ".git", hookspath ends in "/hooks" and lies strictly below gitpath, and the working directory lies in hookspath |
| Install.InstallExecutables | src/install.py:25-51 | the update link is checked first; an existing link raises its message; a pass makes exactly `hookspath/update` and `hookspath/post-receive`, linked to the scripts; no existing name is overwritten |
| Install.TwoLinks | src/install.py:43-51 | a pass makes two links, both inside hookspath |
| Install.Copies | src/install.py:54-77 | each item whose `messages/item/item.po` exists is copied to `gitpath/locale/item/LC_MESSAGES/item.po`, and nothing else is copied |
| Install.Notice | src/install.py:90-95 | the message names the configuration as installed, `gitpath/hooks_config/bridge.cfg` |
| Install.NoticeAsWritten | src/install.py:124 | as `main` calls it, the message names the configuration path of the working directory, as if it were the git directory |
| Install.NoticeAsWrittenMissesConfig | src/install.py:124 | for every detected layout, the file the message names as called is not the installed configuration |
| Install.Main | src/install.py:98-126 | no detection: no links and "Repository not detected"; detected: the links and the error of `install_executables`, succeeding iff it passes; success: the detected layout, the two links, exactly the catalogue copies of `Copies`, the configuration copied from `cwd/hooks_config` to `gitpath/hooks_config`, and the corrected message; any error is one of the three messages |
| InstallScript.FindGitIndex | src/install.py:101-108 | the loop that overwrites `git_index` ends with `Install.GitIndex` of all components |
| InstallScript.InstallLanguage | src/install.py:54-77 | the loop over the items makes exactly the copies of `Install.Copies` |

## Left out

- Logging (`Log.py`) and every `print`; the text of messages, which are message keys, not translated strings.
- Translations and locale (`get_translations`, gettext), the `HooksConfig` singleton and the reading of the configuration file. The configuration is a map from section to options.
- Running processes. Every `cleartool` and `git` command is an abstract reply. Whether a command fails is an input: the view's `faults`, or the `Repo` replies. A process that cannot be started is not distinguished from one that fails.
- The exact text of `CCError` and `GITError`. Errors are kinds with their path or command.
- The calls the hooks make that `ClearCase.py` and `GIT.py` do not define, or define with other arguments: `makelabel`, `checkin_list`, the three-argument `create_file`, the two-argument `checkin` and `remove_name`, `last_commit_labels`. Each is a recorded call that raises or not, given as input. None is given an effect, except that a returning `remove_name` leaves its path gone, which the deletion pass re-checks.
- `checkin_all(cc_view_path)` and `log_received_files_and_labels` in post-receive.py. The first is never called, since its call in `main` is commented out. The second only logs.
- `git pull` beyond its environment and exit status.
- The effects of `chmod`, `symlink`, `makedirs`, `shutil.copy`, `msgfmt` and `copytree` in install.py. Links, copies and the configuration copy are returned as values. `makedirs` failing on an existing destination and `copytree` failing on an existing configuration are not modelled.
- The script entry points' exception printing in install.py.
- Which unexpected exceptions (OSError from `os.rename`, `os.listdir` or `os.rmdir`) the bare `except:` clauses turn into exit status 1. They are modelled as failures of the named command.
- UpdateHook.Main: update.py raises TypeError at its debug line when the new revision is missing, before `do_sync`. `do_sync`'s `None` test is therefore never reached from `main`, and the model reaches it only through `UpdateHook.DoSync` itself.
- PostReceiveHook.Main: a one-word input line makes `refs.split` fail with AttributeError, caught by the bare `except:` and ending with exit status 1. The model returns that failure without distinguishing how it was caught.
- ClearCaseModel.CreatePath: its own contract states only the frame (what may change). That the path exists after a completed call is stated by `ClearCaseModel.CreatePathMakesPath`, for absolute paths only.
- ClearCaseModel.ListCheckouts: its contract and lemmas state that every listed path is a checkout under a versioned top-level directory. They do not state that every such checkout is listed, nor the order of the reversed list.
- Install.Main: its final message is the corrected `Install.Notice`, naming `gitpath/hooks_config/bridge.cfg`; install.py:124 as written names `cwd/hooks_config/bridge.cfg`, which `Install.NoticeAsWritten` models (see Findings).
- ClearCaseModel.CreateDir: paths are compared as strings. A name with a trailing `/` or a doubled `/` is a different path from its canonical form, whereas `os.path.isdir` and `os.path.exists` treat `d/` as `d` and `a//b` as `a/b`. So `create_dir("d/")` on an existing `d` is not recognised as existing, and a configured view path ending in `/` gives prefixes that `create_path` does not recognise as directories. The model describes canonical paths only.
- `os.sep` and `os.linesep` are fixed to the POSIX `/` and `\n`; other platforms are not modelled.
- UpdateHook.DoSync: `do_sync`, `Sync`, `Main` and, through `Fetch`, the checkout comment heading of `modify_file` use the corrected `Git.GetCommitter`, which drops the line break git prints after the committer's name. As written (`Git.GetCommitterAsWritten`), the name keeps it, never equals `cc_pusher_user`, and the pusher's own commits are synced (see Findings).
- PostReceiveHook.DoSync: `do_sync` and `Main` compare the committer through the corrected `Git.GetCommitter`. As written, the pusher's own commits are synced (see Findings).
- Concurrency: the hooks run alone on the view.

## Findings

| source | as written | input that shows it | evidently intended | confidence | as-written member | corrected member |
|---|---|---|---|---|---|---|
| src/install.py:124 | `main` calls `print_final_message(cwd)`, so the message asks to review `cwd/hooks_config/bridge.cfg` | working directory `/srv/r.git/hooks/git2cc`: the message names `/srv/r.git/hooks/git2cc/hooks_config/bridge.cfg`, while the configuration is copied to `/srv/r.git/hooks_config/bridge.cfg` | `print_final_message(gitpath)`, naming the installed `gitpath/hooks_config/bridge.cfg` as its parameter name says | medium, not executed | Install.NoticeAsWritten, Install.NoticeAsWrittenMissesConfig | Install.Notice |
| src/GIT.py:214-230 | `get_committer` returns the output of `git log -1 --pretty=%cn` as it is, and `do_sync` compares it with `cc_pusher_user` (update.py:191-194, post-receive.py:132-134) | a commit by the pusher `ccuser`: git prints `ccuser\n`, which differs from `ccuser`, so a push made from ClearCase is synced back to ClearCase | the committer's name without the line break git ends it with, so that the pusher's own commits are not synced (the checkout comment heading of update.py:42 then also reads `name.GIT push:`) | medium, not executed | Git.GetCommitterAsWritten, Git.CommitterAsWrittenNeverMatches | Git.GetCommitter, Git.CommitterOfLine |
