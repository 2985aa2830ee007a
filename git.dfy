/**
 * GIT.py: how the hooks read what `git` prints. The git commands themselves
 * are not run here; each operation is given the exit status and output of
 * its command as a `Reply` and turns them into a value or a `GitError`.
 */
module Git {
  import opened Results
  import opened Process
  import opened Strings

  /** GITError, by the command its message names. */
  datatype GitError = GitError(command: string)

  /** `nullRevision`: the all-zero object name git uses for "no revision". */
  function NullRevision(): (r: string)
    ensures |r| == 40 && forall i :: 0 <= i < |r| ==> r[i] == '0'
  {
    "0000000000000000000000000000000000000000"
  }

  /** `isNullRevision`: string equality with the null revision. */
  function IsNullRevision(revision: string): (b: bool)
    ensures b <==> |revision| == 40 && forall i :: 0 <= i < |revision| ==> revision[i] == '0'
  {
    revision == NullRevision()
  }

  /** The whitespace-split tokens of each line, in order. */
  function Entries(lines: seq<string>): (entries: seq<seq<string>>)
    ensures |entries| == |lines|
    ensures forall i :: 0 <= i < |lines| ==> entries[i] == SplitWs(lines[i])
  {
    if lines == [] then [] else [SplitWs(lines[0])] + Entries(lines[1..])
  }

  /** `_parse_diff`: one entry per line of the `--name-status` output, each the tokens of its line. */
  method ParseDiff(diff: string) returns (filestatus: seq<seq<string>>)
    ensures filestatus == Entries(SplitLines(diff))
  {
    filestatus := [];
    var lines := SplitLines(diff);
    var i := 0;
    while i < |lines|
      invariant 0 <= i <= |lines|
      invariant filestatus == Entries(lines[..i])
    {
      EntriesAppend(lines[..i], lines[i]);
      assert lines[..i + 1] == lines[..i] + [lines[i]];
      filestatus := filestatus + [SplitWs(lines[i])];
      i := i + 1;
    }
    assert lines[..i] == lines;
  }

  lemma {:induction false} EntriesAppend(lines: seq<string>, line: string)
    ensures Entries(lines + [line]) == Entries(lines) + [SplitWs(line)]
  {
    if lines != [] {
      assert (lines + [line])[1..] == lines[1..] + [line];
      EntriesAppend(lines[1..], line);
    }
  }

  /** A one-line `--name-status` output parses to its status and its path. */
  lemma NameStatusLine(status: string, path: string)
    requires status != [] && path != []
    requires NoneIn(status, Whitespace) && NoneIn(path, Whitespace)
    ensures Entries(SplitLines(status + "\t" + path)) == [[status, path]]
  {
    var line := status + "\t" + path;
    assert forall k :: 0 <= k < |line| ==> line[k] in status || line[k] == '\t' || line[k] in path;
    assert NoneIn(line, LineBreaks);
    WordsOfEntry(status, path);
  }

  /** A status and a path without whitespace, separated by a tab, split into the two. */
  lemma WordsOfEntry(status: string, path: string)
    requires status != [] && path != []
    requires NoneIn(status, Whitespace) && NoneIn(path, Whitespace)
    ensures SplitWs(status + "\t" + path) == [status, path]
  {
    assert status + "\t" + path == status + (['\t'] + path);
    SplitWsWord(status, ['\t'] + path);
    SplitWsSkip('\t', path);
    SplitWsWord(path, []);
    assert path + [] == path;
  }

  /** `get_commit_files` on the reply of `git diff --name-status`. */
  function CommitFiles(diff: Reply): (r: Result<seq<seq<string>>, GitError>)
    ensures r.Ok? <==> diff.code == 0
    ensures r.Err? ==> r.error == GitError("git diff")
    ensures r.Ok? ==> |r.value| == |SplitLines(diff.out)|
    ensures r.Ok? ==> forall i :: 0 <= i < |r.value| ==> r.value[i] == SplitWs(SplitLines(diff.out)[i])
  {
    if diff.code == 0 then Ok(Entries(SplitLines(diff.out))) else Err(GitError("git diff"))
  }

  method GetCommitFiles(diff: Reply) returns (r: Result<seq<seq<string>>, GitError>)
    ensures r == CommitFiles(diff)
  {
    if diff.code != 0 {
      return Err(GitError("git diff"));
    }
    var filestatus := ParseDiff(diff.out);
    return Ok(filestatus);
  }

  /** The stripped output of the per-commit pipeline for each revision, in the given order. */
  function Messages(revisions: seq<string>, message: string -> Reply): (cs: seq<string>)
    ensures |cs| == |revisions|
  {
    if revisions == [] then [] else [Strip(message(revisions[0]).out)] + Messages(revisions[1..], message)
  }

  /** The `i`-th message is the stripped output of the pipeline for the `i`-th revision. */
  lemma {:induction false} MessagesInOrder(revisions: seq<string>, message: string -> Reply)
    ensures forall i :: 0 <= i < |revisions| ==> Messages(revisions, message)[i] == Strip(message(revisions[i]).out)
  {
    if revisions != [] {
      var tail := revisions[1..];
      MessagesInOrder(tail, message);
      var cs := Messages(revisions, message);
      assert cs == [Strip(message(revisions[0]).out)] + Messages(tail, message);
      forall i | 0 <= i < |revisions| ensures cs[i] == Strip(message(revisions[i]).out) {
        if i > 0 {
          assert revisions[i] == tail[i - 1];
        }
      }
    }
  }

  lemma {:induction false} MessagesAppend(revisions: seq<string>, revision: string, message: string -> Reply)
    ensures Messages(revisions + [revision], message) == Messages(revisions, message) + [Strip(message(revision).out)]
  {
    if revisions != [] {
      assert (revisions + [revision])[1..] == revisions[1..] + [revision];
      MessagesAppend(revisions[1..], revision, message);
    }
  }

  /**
   * `get_comments_list`, given the reply of `git rev-list` (newest commit
   * first) and the reply of `git cat-file commit <rev> | sed '1,/^$/d'` for
   * each revision: the comments oldest first. The pipeline's exit status is
   * never looked at.
   */
  function Comments(revList: Reply, message: string -> Reply): (r: Result<seq<string>, GitError>)
    ensures r.Ok? <==> revList.code == 0
    ensures r.Err? ==> r.error == GitError("git rev-list")
    ensures r.Ok?
            ==> var revs := SplitLines(revList.out);
                |r.value| == |revs|
                && forall i :: 0 <= i < |revs| ==> r.value[i] == Strip(message(revs[|revs| - 1 - i]).out)
  {
    if revList.code != 0 then Err(GitError("git rev-list"))
    else
      MessagesInOrder(SplitLines(revList.out), message);
      Ok(Reverse(Messages(SplitLines(revList.out), message)))
  }

  method GetCommentsList(revList: Reply, message: string -> Reply) returns (r: Result<seq<string>, GitError>)
    ensures r == Comments(revList, message)
  {
    if revList.code != 0 {
      return Err(GitError("git rev-list"));
    }
    var comments := CollectMessages(SplitLines(revList.out), message);
    comments := Reverse(comments);
    return Ok(comments);
  }

  /** The loop of `get_comments_list`: the stripped message of each revision, in the order given. */
  method CollectMessages(revisions: seq<string>, message: string -> Reply) returns (comments: seq<string>)
    ensures comments == Messages(revisions, message)
  {
    comments := [];
    var i := 0;
    while i < |revisions|
      invariant 0 <= i <= |revisions|
      invariant comments == Messages(revisions[..i], message)
    {
      MessagesAppend(revisions[..i], revisions[i], message);
      assert revisions[..i + 1] == revisions[..i] + [revisions[i]];
      comments := comments + [Strip(message(revisions[i]).out)];
      i := i + 1;
    }
    assert revisions[..i] == revisions;
  }

  /** Whatever each per-commit pipeline exits with, the comments depend only on what it printed. */
  lemma CommentsIgnorePipelineStatus(revList: Reply, m1: string -> Reply, m2: string -> Reply)
    requires forall rev :: m1(rev).out == m2(rev).out
    ensures Comments(revList, m1) == Comments(revList, m2)
  {
    var revs := SplitLines(revList.out);
    MessagesInOrder(revs, m1);
    MessagesInOrder(revs, m2);
    assert Messages(revs, m1) == Messages(revs, m2);
  }

  /** The name `git log -1 --pretty=%cn` prints, without the line break git ends its output with. */
  function CommitterName(out: string): (name: string)
    ensures out == name + "\n" || (out == name && (out == [] || out[|out| - 1] != '\n'))
  {
    if out != [] && out[|out| - 1] == '\n' then out[..|out| - 1] else out
  }

  /** `get_committer` as written: git's output as it is, line break included. */
  function GetCommitterAsWritten(log: Reply): (r: Result<string, GitError>)
    ensures r.Ok? <==> log.code == 0
    ensures r.Ok? ==> r.value == log.out
    ensures r.Err? ==> r.error == GitError("git log")
  {
    if log.code != 0 then Err(GitError("git log")) else Ok(log.out)
  }

  /**
   * As written, what `get_committer` returns for a commit never equals the
   * committer's name: the line break git prints after the name stays.
   */
  lemma CommitterAsWrittenNeverMatches(name: string)
    ensures GetCommitterAsWritten(Reply(0, name + "\n")) == Ok(name + "\n")
    ensures GetCommitterAsWritten(Reply(0, name + "\n")) != Ok(name)
  {
    assert |name + "\n"| != |name|;
  }

  /** `get_committer` as its callers use it: the committer's name, without git's line break. */
  function GetCommitter(log: Reply): (r: Result<string, GitError>)
    ensures r.Ok? <==> log.code == 0
    ensures r.Ok? ==> r.value == CommitterName(log.out)
    ensures r.Err? ==> r.error == GitError("git log")
  {
    if log.code != 0 then Err(GitError("git log")) else Ok(CommitterName(log.out))
  }

  /** The line git prints for a committer reads back as that committer's name. */
  lemma CommitterOfLine(name: string)
    ensures GetCommitter(Reply(0, name + "\n")) == Ok(name)
  {
    assert (name + "\n")[..|name|] == name;
  }

  /** `list_deletions`: the lines `git diff-tree --diff-filter=D --name-only` prints. */
  function ListDeletions(tree: Reply): (r: Result<seq<string>, GitError>)
    ensures r.Ok? <==> tree.code == 0
    ensures r.Ok? ==> (r.value == [] <==> tree.out == [])
    ensures r.Ok? ==> forall i :: 0 <= i < |r.value| ==> NoneIn(r.value[i], LineBreaks)
    ensures r.Err? ==> r.error == GitError("git cat-file")
  {
    if tree.code == 0 then Ok(SplitLines(tree.out)) else Err(GitError("git cat-file"))
  }

  /** `_set_env`: a copy of the environment with GIT_DIR and GIT_WORK_TREE set for `gitpath`. */
  function SetEnv(env: map<string, string>, gitpath: string): (r: map<string, string>)
    ensures "GIT_DIR" in r && r["GIT_DIR"] == gitpath + ".git"
    ensures "GIT_WORK_TREE" in r && r["GIT_WORK_TREE"] == gitpath
    ensures r.Keys == env.Keys + {"GIT_DIR", "GIT_WORK_TREE"}
    ensures forall k :: k in env && k != "GIT_DIR" && k != "GIT_WORK_TREE" ==> k in r && r[k] == env[k]
  {
    env["GIT_DIR" := gitpath + ".git"]["GIT_WORK_TREE" := gitpath]
  }

  /** `pull`: a non-zero exit of `git pull` raises (its message is "CC_update_failed"). */
  function Pull(pull: Reply): (r: Outcome<GitError>)
    ensures r == Pass <==> pull.code == 0
    ensures r.Fail? ==> r.error == GitError("CC_update_failed")
  {
    if pull.code != 0 then Fail(GitError("CC_update_failed")) else Pass
  }
}
