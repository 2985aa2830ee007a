/**
 * update.py: the hook git runs before it moves a reference. For a pushed
 * branch that is kept in sync, it replays the push on the ClearCase view
 * (directories for added files, checkouts for modified ones, removals for
 * deleted ones) and rejects the push, exit status 1, when that fails, after
 * undoing the open checkouts. The loops of `modify_file`, `process_push` and
 * `process_deletions` are methods in UpdateScript, proved equal to the
 * functions here.
 */
module UpdateHook {
  import opened Results
  import opened Process
  import opened Strings
  import opened PosixPath
  import opened Cleartool
  import opened Hooks
  import M = ClearCaseModel
  import G = Git
  import HooksConfig

  /** A character the label pattern `@[A-Z_0-9]*` accepts after the `@`. */
  predicate LabelChar(c: char) {
    ('A' <= c <= 'Z') || ('0' <= c <= '9') || c == '_'
  }

  /** Length of the run of label characters `s` starts with. */
  function LabelRun(s: string): (n: nat)
    ensures n <= |s|
    ensures forall k :: 0 <= k < n ==> LabelChar(s[k])
    ensures n < |s| ==> !LabelChar(s[n])
  {
    if s != [] && LabelChar(s[0]) then 1 + LabelRun(s[1..]) else 0
  }

  /**
   * The label a comment names (`re.search`, then the match without its
   * `@`): the label characters right after the first `@`. The `*` lets a
   * bare `@` match, so every comment with an `@` names a label, maybe empty.
   */
  function FirstLabel(comment: string): (r: Option<string>)
    ensures r.Some? <==> '@' in comment
    ensures r.Some? ==>
              var at := FirstIn(comment, {'@'});
              at < |comment| && comment[at] == '@' && '@' !in comment[..at]
              && StartsWith(comment[at + 1..], r.value)
              && (forall k :: 0 <= k < |r.value| ==> LabelChar(r.value[k]))
              && (at + 1 + |r.value| == |comment| || !LabelChar(comment[at + 1 + |r.value|]))
  {
    var at := FirstIn(comment, {'@'});
    if at == |comment| then None
    else Some(comment[at + 1..][..LabelRun(comment[at + 1..])])
  }

  /**
   * The comment with every match of the pattern removed (`re.sub` by the
   * empty string): no `@` is left, the text before the first `@` is kept,
   * and nothing is added.
   */
  function StripLabels(s: string): (r: string)
    ensures '@' !in r
    ensures '@' !in s ==> r == s
    ensures StartsWith(r, s[..FirstIn(s, {'@'})])
    ensures forall k :: 0 <= k < |r| ==> r[k] in s
  {
    if s == [] then []
    else if s[0] == '@' then StripLabels(s[1..][LabelRun(s[1..])..])
    else [s[0]] + StripLabels(s[1..])
  }

  /** The comments as `modify_file` writes them into the checkout comment, labels removed. */
  function Cleaned(comments: seq<string>): (r: seq<string>)
    ensures |r| == |comments|
  {
    if comments == [] then [] else [StripLabels(comments[0])] + Cleaned(comments[1..])
  }

  /** The `i`-th cleaned comment is the `i`-th comment with its label tokens removed. */
  lemma {:induction false} CleanedAt(comments: seq<string>)
    ensures forall i :: 0 <= i < |comments| ==> Cleaned(comments)[i] == StripLabels(comments[i])
  {
    if comments != [] {
      CleanedAt(comments[1..]);
      assert forall i :: 1 <= i < |comments| ==> Cleaned(comments)[i] == Cleaned(comments[1..])[i - 1];
    }
  }

  /** The heading line of every checkout comment. */
  function Heading(committer: string): string {
    committer + ".GIT push:"
  }

  /** The checkout comment `modify_file` builds: the heading, then each comment in order, labels removed, one per line. */
  function CheckoutComment(committer: string, comments: seq<string>): string {
    JoinLines([Heading(committer)] + Cleaned(comments))
  }

  /** Index of the last comment with an `@`, or -1 when none has one. */
  function LastWithAt(comments: seq<string>): (n: int)
    ensures -1 <= n < |comments|
    ensures n >= 0 ==> '@' in comments[n]
    ensures forall j :: n < j < |comments| ==> '@' !in comments[j]
  {
    if comments == [] then -1
    else if '@' in comments[|comments| - 1] then |comments| - 1
    else
      var n := LastWithAt(comments[..|comments| - 1]);
      assert forall j :: n < j < |comments| - 1 ==> comments[..|comments| - 1][j] == comments[j];
      n
  }

  /**
   * The label `modify_file` applies: that of the last comment with an `@`
   * (each matching comment overwrites the one before), or none.
   */
  function LastLabel(comments: seq<string>): (r: Option<string>)
    ensures r.Some? <==> exists i :: 0 <= i < |comments| && '@' in comments[i]
    ensures r.Some? ==>
              exists i :: 0 <= i < |comments| && FirstLabel(comments[i]) == r
                          && forall j :: i < j < |comments| ==> '@' !in comments[j]
  {
    var n := LastWithAt(comments);
    if n < 0 then None
    else
      assert FirstLabel(comments[n]).Some?;
      FirstLabel(comments[n])
  }

  /** The label after one more comment: that comment's own label if it has one, else the label so far. */
  lemma LastLabelStep(comments: seq<string>)
    requires comments != []
    ensures var last := comments[|comments| - 1];
            LastLabel(comments)
            == if FirstLabel(last).Some? then FirstLabel(last) else LastLabel(comments[..|comments| - 1])
  {
  }

  /**
   * Read back line by line, the checkout comment gives the heading and then
   * the comments in order, each without its labels, so no label token
   * reaches ClearCase.
   */
  lemma {:induction false} CheckoutCommentLines(committer: string, comments: seq<string>)
    requires NoneIn(committer, LineBreaks)
    requires forall i :: 0 <= i < |comments| ==> NoneIn(comments[i], LineBreaks)
    ensures SplitLines(CheckoutComment(committer, comments)) == [Heading(committer)] + Cleaned(comments)
    ensures forall i :: 1 <= i <= |comments| ==> '@' !in SplitLines(CheckoutComment(committer, comments))[i]
  {
    var lines := [Heading(committer)] + Cleaned(comments);
    CleanedAt(comments);
    forall i | 0 <= i < |lines| ensures NoneIn(lines[i], LineBreaks) {
      if i > 0 {
        assert lines[i] == StripLabels(comments[i - 1]);
        assert forall k :: 0 <= k < |lines[i]| ==> lines[i][k] in comments[i - 1];
      }
    }
    SplitLinesOfJoinLines(lines);
  }

  lemma {:induction false} JoinLinesAppend(lines: seq<string>, line: string)
    ensures JoinLines(lines + [line]) == JoinLines(lines) + line + "\n"
  {
    if lines != [] {
      assert (lines + [line])[1..] == lines[1..] + [line];
      JoinLinesAppend(lines[1..], line);
    }
  }

  /** `add_file`: only the directory that will hold the file is created. */
  function AddFile(s: Site, ccpath: Path): (r: (Site, Outcome<Failure>))
    ensures r.0.trace == s.trace + [CreatePath(Dirname(ccpath))] && r.0.raising == s.raising
    ensures r.0.world.view.files == s.world.view.files
    ensures r.1 == Pass && ccpath != [] && ccpath[0] == Sep ==> Dirname(ccpath) in r.0.world.view.dirs
  {
    var d := Dirname(ccpath);
    var r := RunCreatePath(s, d);
    if r.1 == Pass && ccpath != [] && ccpath[0] == Sep then
      AbsoluteDirname(ccpath);
      M.CreatePathMakesPath(s.world, d);
      r
    else r
  }

  /** The directory of an absolute path is absolute. */
  lemma AbsoluteDirname(p: Path)
    requires p != [] && p[0] == Sep
    ensures Dirname(p) != [] && Dirname(p)[0] == Sep
  {
    var i := AfterLastSep(p);
    var head := p[..i];
    assert head[0] == Sep;
    if head != [] && exists k :: 0 <= k < |head| && head[k] != Sep {
      var t := RStrip(head, {Sep});
      assert t[0] == head[0];
    }
  }

  /**
   * The state of `modify_file`'s loop once it has read `comments`: the
   * checkout comment so far and the label last found. A comment with a
   * match is added without its labels and sets the label; any other
   * comment is added as it is.
   */
  function Composed(committer: string, comments: seq<string>): (r: (string, Option<string>))
    decreases |comments|, 1
  {
    if comments == [] then (Heading(committer) + "\n", None) else ComposedTurn(committer, comments)
  }

  /** One turn of that loop: the last comment, read after all the others. */
  function ComposedTurn(committer: string, comments: seq<string>): (r: (string, Option<string>))
    requires comments != []
    decreases |comments|, 0
  {
    var last := comments[|comments| - 1];
    var before := Composed(committer, comments[..|comments| - 1]);
    var found := FirstLabel(last);
    if found.Some? then (before.0 + StripLabels(last) + "\n", found)
    else (before.0 + last + "\n", before.1)
  }

  /**
   * The loop builds exactly the checkout comment (heading, then the cleaned
   * comments, one per line) and ends with exactly the last label named.
   */
  lemma ComposedIsCheckoutComment(committer: string, comments: seq<string>)
    ensures Composed(committer, comments) == (CheckoutComment(committer, comments), LastLabel(comments))
  {
    ComposedComment(committer, comments);
    ComposedLabel(committer, comments);
  }

  /** The comment the loop builds is the checkout comment. */
  lemma {:induction false} ComposedComment(committer: string, comments: seq<string>)
    decreases |comments|
    ensures Composed(committer, comments).0 == CheckoutComment(committer, comments)
  {
    if comments == [] {
      assert [Heading(committer)] + Cleaned(comments) == [Heading(committer)];
      assert JoinLines([Heading(committer)]) == Heading(committer) + "\n" + JoinLines([]);
      assert Heading(committer) + "\n" + [] == Heading(committer) + "\n";
    } else {
      var n := |comments| - 1;
      var init, last := comments[..n], comments[n];
      ComposedComment(committer, init);
      var added := if FirstLabel(last).Some? then StripLabels(last) else last;
      assert added == StripLabels(last);
      assert Composed(committer, comments).0 == Composed(committer, init).0 + added + "\n";
      CleanedAppend(comments);
      JoinLinesAppend([Heading(committer)] + Cleaned(init), StripLabels(last));
      assert [Heading(committer)] + Cleaned(init) + [StripLabels(last)] == [Heading(committer)] + Cleaned(comments);
    }
  }

  /** Cleaning one more comment appends its cleaned text. */
  lemma {:induction false} CleanedAppend(comments: seq<string>)
    requires comments != []
    ensures Cleaned(comments) == Cleaned(comments[..|comments| - 1]) + [StripLabels(comments[|comments| - 1])]
  {
    var n := |comments| - 1;
    if n == 0 {
      assert comments[..n] == [];
    } else {
      var tail := comments[1..];
      CleanedAppend(tail);
      assert tail[..n - 1] == comments[..n][1..];
      assert tail[n - 1] == comments[n];
      assert comments[..n][0] == comments[0];
    }
  }

  /** The label the loop ends with is the label of the last comment that names one. */
  lemma {:induction false} ComposedLabel(committer: string, comments: seq<string>)
    decreases |comments|
    ensures Composed(committer, comments).1 == LastLabel(comments)
  {
    if comments != [] {
      ComposedLabel(committer, comments[..|comments| - 1]);
      assert Composed(committer, comments) == ComposedTurn(committer, comments);
      LastLabelStep(comments);
    }
  }

  /**
   * `modify_file`: one checkout of the file, commented with the composed
   * comment, and then, only if some comment named a label and only once the
   * checkout succeeded, the label applied to the file.
   */
  function ModifyFile(s: Site, ccpath: Path, committer: string, comments: seq<string>): (r: (Site, Outcome<Failure>))
    ensures var (coComment, named) := Composed(committer, comments);
            var co := RunCheckout(s, ccpath, coComment);
            var labelled := named.Some? && co.1 == Pass;
            && r.0.world == co.0.world
            && r.0.raising == s.raising
            && r.0.trace == s.trace + [Checkout(ccpath, coComment)]
                            + (if labelled then [MakeLabel(ccpath, named.value)] else [])
            && (r.1 == Pass <==> co.1 == Pass && (labelled ==> MakeLabel(ccpath, named.value) !in s.raising))
  {
    var (coComment, named) := Composed(committer, comments);
    var (s1, o) := RunCheckout(s, ccpath, coComment);
    if o.Fail? || named.None? then (s1, o)
    else Foreign(s1, MakeLabel(ccpath, named.value))
  }

  /** What one push gives `process_push`: the view path with its separator, the revisions, the committer and comments, and the identity of `co_list`. */
  datatype Push = Push(root: Path, oldRevision: string, newRevision: string,
                       committer: string, comments: seq<string>, coList: nat)

  /** Every entry has a status and a path (the logging loop indexes both). */
  predicate WellFormed(entries: seq<seq<string>>) {
    forall i :: 0 <= i < |entries| ==> |entries[i]| >= 2
  }

  /** An entry `process_push` stops at: not `.gitignore`, and a status other than A, M and D. */
  predicate UnsupportedEntry(e: seq<string>)
    requires |e| >= 2
  {
    e[1] != ".gitignore" && e[0] != "A" && e[0] != "M" && e[0] != "D"
  }

  /** An entry that marks a deletion. */
  predicate DeletionEntry(e: seq<string>)
    requires |e| >= 2
  {
    e[1] != ".gitignore" && e[0] == "D"
  }

  /** The calls `modify_file` makes when they succeed: the checkout, then the label if a comment names one. */
  function Modification(path: Path, committer: string, comments: seq<string>): seq<Call> {
    var (coComment, named) := Composed(committer, comments);
    [Checkout(path, coComment)] + (if named.Some? then [MakeLabel(path, named.value)] else [])
  }

  /** The calls the loop makes for one entry when they succeed. */
  function Intended(p: Push, e: seq<string>): (calls: seq<Call>)
    requires |e| >= 2
  {
    if e[1] == ".gitignore" then []
    else if e[0] == "A" then [CreatePath(Dirname(p.root + e[1]))]
    else if e[0] == "M" then Modification(p.root + e[1], p.committer, p.comments)
    else []
  }

  /**
   * The calls `process_push`'s loop makes when every one of them succeeds:
   * a reference definition, entry by entry, independent of the site.
   * Entries that are ignored, deleted or unsupported contribute nothing.
   */
  function Planned(p: Push, entries: seq<seq<string>>): (calls: seq<Call>)
    requires WellFormed(entries)
  {
    if entries == [] then [] else Intended(p, entries[0]) + Planned(p, entries[1..])
  }

  /** The loop body for an entry that asks for work: `add_file` for A, `modify_file` for M. */
  function Act(s: Site, p: Push, e: seq<string>): (r: (Site, Outcome<Failure>))
    requires |e| >= 2 && e[1] != ".gitignore" && (e[0] == "A" || e[0] == "M")
    ensures Later(s, r.0)
    ensures r.1 == Pass ==> r.0.trace == s.trace + Intended(p, e)
  {
    if e[0] == "A" then AddFile(s, p.root + e[1])
    else ModifyFile(s, p.root + e[1], p.committer, p.comments)
  }

  /**
   * `process_push`'s loop over the entries: the site after it, and whether a
   * deletion was seen (`delete_mark`), or what stopped it.
   */
  function Dispatch(s: Site, p: Push, entries: seq<seq<string>>, mark: bool): (r: (Site, Result<bool, Failure>))
    requires WellFormed(entries)
    ensures Later(s, r.0)
    decreases |entries|, 1
  {
    if entries == [] then (s, Ok(mark)) else Turn(s, p, entries, mark)
  }

  /** One turn of the loop, on the first entry, and the rest of the loop after it. */
  function Turn(s: Site, p: Push, entries: seq<seq<string>>, mark: bool): (r: (Site, Result<bool, Failure>))
    requires WellFormed(entries) && entries != []
    ensures Later(s, r.0)
    decreases |entries|, 0
  {
    var e := entries[0];
    if e[1] == ".gitignore" then Dispatch(s, p, entries[1..], mark)
    else if e[0] == "A" || e[0] == "M" then
      var (s1, o) := Act(s, p, e);
      if o.Fail? then (s1, Err(o.error))
      else
        var r := Dispatch(s1, p, entries[1..], mark);
        LaterTrans(s, s1, r.0);
        r
    else if e[0] == "D" then Dispatch(s, p, entries[1..], true)
    else (s, Err(Unsupported(e[0])))
  }

  /** One turn of the loop, when the loop completes: the site and the mark it hands to the next turn. */
  lemma DispatchStep(s: Site, p: Push, entries: seq<seq<string>>, mark: bool) returns (s1: Site, mark1: bool)
    requires WellFormed(entries) && entries != []
    requires Dispatch(s, p, entries, mark).1.Ok?
    ensures WellFormed(entries[1..])
    ensures Dispatch(s, p, entries, mark) == Dispatch(s1, p, entries[1..], mark1)
    ensures s1.trace == s.trace + Intended(p, entries[0])
    ensures mark1 <==> mark || DeletionEntry(entries[0])
    ensures !UnsupportedEntry(entries[0])
  {
    var e := entries[0];
    var tail := entries[1..];
    assert forall i :: 0 <= i < |tail| ==> tail[i] == entries[i + 1];
    assert Dispatch(s, p, entries, mark) == Turn(s, p, entries, mark);
    if e[1] == ".gitignore" || e[0] == "D" {
      s1, mark1 := s, mark || DeletionEntry(e);
    } else {
      var o;
      s1, o := Act(s, p, e).0, Act(s, p, e).1;
      mark1 := mark;
    }
  }

  /** When the loop completes, it made exactly the planned calls, in order. */
  lemma {:induction false} DispatchFollowsPlan(s: Site, p: Push, entries: seq<seq<string>>, mark: bool)
    requires WellFormed(entries)
    decreases |entries|
    ensures Dispatch(s, p, entries, mark).1.Ok? ==> Dispatch(s, p, entries, mark).0.trace == s.trace + Planned(p, entries)
  {
    if entries != [] && Dispatch(s, p, entries, mark).1.Ok? {
      var s1, mark1 := DispatchStep(s, p, entries, mark);
      DispatchFollowsPlan(s1, p, entries[1..], mark1);
      assert Planned(p, entries) == Intended(p, entries[0]) + Planned(p, entries[1..]);
    }
  }

  /**
   * When the loop completes, it reports a deletion iff one was marked
   * before or some entry is a deletion, and no entry had an unsupported
   * status.
   */
  lemma {:induction false} DispatchMarks(s: Site, p: Push, entries: seq<seq<string>>, mark: bool)
    requires WellFormed(entries)
    decreases |entries|
    ensures var r := Dispatch(s, p, entries, mark);
            r.1.Ok? ==>
              && (r.1.value <==> mark || exists i :: 0 <= i < |entries| && DeletionEntry(entries[i]))
              && forall i :: 0 <= i < |entries| ==> !UnsupportedEntry(entries[i])
  {
    var r := Dispatch(s, p, entries, mark);
    if entries != [] && r.1.Ok? {
      var s1, mark1 := DispatchStep(s, p, entries, mark);
      var tail := entries[1..];
      DispatchMarks(s1, p, tail, mark1);
      assert forall i :: 1 <= i < |entries| ==> entries[i] == tail[i - 1];
      if r.1.value && !mark && !DeletionEntry(entries[0]) {
        var j :| 0 <= j < |tail| && DeletionEntry(tail[j]);
        assert DeletionEntry(entries[j + 1]);
      }
    }
  }

  /** An unsupported status anywhere in the list makes the loop fail. */
  lemma UnsupportedStops(s: Site, p: Push, entries: seq<seq<string>>, mark: bool, i: nat)
    requires WellFormed(entries) && i < |entries| && UnsupportedEntry(entries[i])
    ensures Dispatch(s, p, entries, mark).1.Err?
  {
    DispatchMarks(s, p, entries, mark);
  }

  /**
   * The deletion loop of `process_deletions`: each listed path, in order,
   * is removed only if it still exists when its turn comes. Afterwards none
   * of them exists, and nothing came back into existence.
   */
  function RemoveEach(s: Site, root: Path, deletions: seq<string>, coList: nat): (r: (Site, Outcome<Failure>))
    ensures Later(s, r.0) && r.0.world.log == s.world.log
    ensures forall k :: |s.trace| <= k < |r.0.trace| ==> r.0.trace[k].RemoveName? && r.0.trace[k].coList == coList
    ensures |r.0.trace| <= |s.trace| + |deletions|
    ensures forall q :: Exists(r.0.world.view, q) ==> Exists(s.world.view, q)
    ensures r.1 == Pass ==> forall d :: d in deletions ==> !Exists(r.0.world.view, root + d)
    decreases |deletions|
  {
    if deletions == [] then (s, Pass)
    else
      var path := root + deletions[0];
      if Exists(s.world.view, path) then
        var (s1, o) := RemoveNameInto(s, path, coList);
        if o.Fail? then (s1, o)
        else
          assert !Exists(s1.world.view, path);
          var r := RemoveEach(s1, root, deletions[1..], coList);
          assert r.0.trace[..|s1.trace|] == s1.trace;
          assert r.0.trace[..|s.trace|] == r.0.trace[..|s1.trace|][..|s.trace|];
          r
      else
        RemoveEach(s, root, deletions[1..], coList)
  }

  /**
   * Removing a directory before the paths below it takes one call: for
   * `dir1`, `dir1/dir2`, `dir1/dir2/file`, only `dir1` is removed.
   */
  lemma NestedDeletionsTakeOneCall(s: Site, coList: nat)
    requires s.world.view.dirs == {"/v/dir1", "/v/dir1/dir2"}
    requires s.world.view.files == {"/v/dir1/dir2/file"}
    requires s.raising == {}
    ensures RemoveEach(s, "/v/", ["dir1", "dir1/dir2", "dir1/dir2/file"], coList).0.trace
            == s.trace + [RemoveName("/v/dir1", coList)]
  {
    var ds: seq<string> := ["dir1", "dir1/dir2", "dir1/dir2/file"];
    assert "/v/" + ds[0] == "/v/dir1";
    assert "/v/" + ds[1..][0] == "/v/dir1/dir2";
    assert "/v/" + ds[2..][0] == "/v/dir1/dir2/file";
    assert Exists(s.world.view, "/v/dir1");
    var (s1, o) := RemoveNameInto(s, "/v/dir1", coList);
    assert o == Pass;
    assert RemoveEach(s, "/v/", ds, coList) == RemoveEach(s1, "/v/", ds[1..], coList);
    assert Within("/v/dir1/dir2", "/v/dir1") by {
      assert ("/v/dir1/dir2")[..|"/v/dir1" + "/"|] == "/v/dir1/";
    }
    assert Within("/v/dir1/dir2/file", "/v/dir1") by {
      assert ("/v/dir1/dir2/file")[..|"/v/dir1" + "/"|] == "/v/dir1/";
    }
    assert !Exists(s1.world.view, "/v/dir1/dir2");
    assert !Exists(s1.world.view, "/v/dir1/dir2/file");
    assert ds[1..][1..] == ds[2..];
    assert RemoveEach(s1, "/v/", ds[1..], coList) == RemoveEach(s1, "/v/", ds[2..], coList);
    assert ds[2..][1..] == [];
    assert RemoveEach(s1, "/v/", ds[2..], coList) == RemoveEach(s1, "/v/", [], coList);
  }

  /**
   * `process_deletions`: the deletions git lists, removed in order where
   * they still exist, then one `checkin_list` of the same `co_list`.
   */
  function ProcessDeletions(s: Site, p: Push, deletions: Reply): (r: (Site, Outcome<Failure>))
    ensures Later(s, r.0) && |s.trace| < |r.0.trace|
    ensures r.0.trace[|s.trace|] == ListDeletions(p.oldRevision, p.newRevision)
    ensures deletions.code != 0 ==> r == (Record(s, ListDeletions(p.oldRevision, p.newRevision)), Fail(GitFailed(G.GitError("git cat-file"))))
    ensures r.1 == Pass ==>
              && r.0.trace[|r.0.trace| - 1] == CheckinList(p.coList)
              && forall d :: d in SplitLines(deletions.out) ==> !Exists(r.0.world.view, p.root + d)
  {
    var s1 := Record(s, ListDeletions(p.oldRevision, p.newRevision));
    var listed := G.ListDeletions(deletions);
    if listed.Err? then (s1, Fail(GitFailed(listed.error)))
    else
      var (s2, o) := RemoveEach(s1, p.root, listed.value, p.coList);
      if o.Fail? then (s2, o)
      else
        var r := Foreign(s2, CheckinList(p.coList));
        assert r.0.trace[..|s2.trace|] == s2.trace;
        r
  }

  /**
   * `process_push`: every entry needs a status and a path (the log lines
   * index both before anything is done); then the loop; then, only if a
   * deletion was seen, the deletion pass, once.
   */
  function ProcessPush(s: Site, p: Push, entries: seq<seq<string>>, deletions: Reply): (r: (Site, Outcome<Failure>))
    ensures Later(s, r.0)
  {
    if !WellFormed(entries) then (s, Fail(IndexError))
    else
      var (s1, mark) := Dispatch(s, p, entries, false);
      if mark.Err? then (s1, Fail(mark.error))
      else if mark.value then
        var r := ProcessDeletions(s1, p, deletions);
        LaterTrans(s, s1, r.0);
        r
      else (s1, Pass)
  }

  /**
   * When `process_push` completes, the loop's calls come first, exactly as
   * planned, and the deletion pass follows iff some entry is a deletion.
   */
  lemma ProcessPushOrder(s: Site, p: Push, entries: seq<seq<string>>, deletions: Reply)
    requires WellFormed(entries)
    ensures var r := ProcessPush(s, p, entries, deletions);
            r.1 == Pass ==>
              var n := |s.trace| + |Planned(p, entries)|;
              && n <= |r.0.trace|
              && r.0.trace[..n] == s.trace + Planned(p, entries)
              && ((exists i :: 0 <= i < |entries| && DeletionEntry(entries[i]))
                  <==> n < |r.0.trace| && r.0.trace[n] == ListDeletions(p.oldRevision, p.newRevision))
  {
    if ProcessPush(s, p, entries, deletions).1 == Pass {
      var s1, mark := ProcessPushStages(s, p, entries, deletions);
      DeletionPassFollows(s1, p, deletions, mark);
    }
  }

  /** After the loop's calls, the deletion pass (if any) starts with the request for the deleted paths. */
  lemma DeletionPassFollows(s1: Site, p: Push, deletions: Reply, mark: bool)
    ensures var r := if mark then ProcessDeletions(s1, p, deletions) else (s1, Pass);
            var n := |s1.trace|;
            r.1 == Pass ==>
              && n <= |r.0.trace| && r.0.trace[..n] == s1.trace
              && (mark <==> n < |r.0.trace| && r.0.trace[n] == ListDeletions(p.oldRevision, p.newRevision))
  {
    if !mark {
      assert s1.trace[..|s1.trace|] == s1.trace;
    }
  }

  /**
   * A completed `process_push` is the loop, which made the planned calls and
   * marked whether some entry is a deletion, then the deletion pass if it did.
   */
  lemma ProcessPushStages(s: Site, p: Push, entries: seq<seq<string>>, deletions: Reply) returns (s1: Site, mark: bool)
    requires ProcessPush(s, p, entries, deletions).1 == Pass
    ensures WellFormed(entries) && s1.trace == s.trace + Planned(p, entries)
    ensures mark <==> exists i :: 0 <= i < |entries| && DeletionEntry(entries[i])
    ensures ProcessPush(s, p, entries, deletions) == if mark then ProcessDeletions(s1, p, deletions) else (s1, Pass)
  {
    var r := Dispatch(s, p, entries, false);
    s1 := r.0;
    mark := r.1.value;
    DispatchFollowsPlan(s, p, entries, false);
    DispatchMarks(s, p, entries, false);
  }

  /**
   * `do_sync`: no sync for a null old revision or a missing new one (and
   * then git is not asked); otherwise sync iff the committer git reports
   * differs from the ClearCase pusher.
   */
  function DoSync(s: Site, oldRevision: string, newRevision: Option<string>, repo: Repo, pusher: string): (r: (Site, Result<bool, Failure>))
    ensures G.IsNullRevision(oldRevision) || newRevision.None? ==> r == (s, Ok(false))
    ensures !G.IsNullRevision(oldRevision) && newRevision.Some? ==>
              && r.0 == Record(s, GetCommitter(newRevision.value))
              && (r.1.Err? <==> repo.log.code != 0)
              && (r.1 == Ok(true) <==> repo.log.code == 0 && G.CommitterName(repo.log.out) != pusher)
  {
    if G.IsNullRevision(oldRevision) || newRevision.None? then (s, Ok(false))
    else
      var committer := G.GetCommitter(repo.log);
      var s1 := Record(s, GetCommitter(newRevision.value));
      if committer.Err? then (s1, Err(GitFailed(committer.error)))
      else (s1, Ok(committer.value != pusher))
  }

  /** A commit the ClearCase pusher made is not synced back: the line git prints for it names the pusher. */
  lemma PusherPushNotSynced(s: Site, oldRevision: string, newRevision: string, repo: Repo, pusher: string)
    requires repo.log == Reply(0, pusher + "\n")
    ensures DoSync(s, oldRevision, Some(newRevision), repo, pusher).1 == Ok(false)
  {
    G.CommitterOfLine(pusher);
  }

  /** From position `from` on, the trace holds git queries only: ClearCase was not touched. */
  predicate GitOnly(trace: seq<Call>, from: nat) {
    forall k :: from <= k < |trace| ==> IsGitCall(trace[k])
  }

  /** The try block around `process_push` in `main`: a failure is followed by `uncheckout_all` and exit status 1. */
  function PushOrRollBack(s: Site, view: Path, push: Push, entries: seq<seq<string>>, deletions: Reply): (r: (Site, Outcome<Failure>))
    ensures Later(s, r.0)
    ensures r.1.Fail? ==> |r.0.trace| > 0 && r.0.trace[|r.0.trace| - 1] == UncheckoutAll
  {
    var (s1, o) := ProcessPush(s, push, entries, deletions);
    if o.Pass? then (s1, Pass)
    else
      var (s2, _) := RunUncheckoutAll(s1, view);
      LaterTrans(s, s1, s2);
      (s2, o)
  }

  /** `process_push` under rollback: a completed push stands; a failed one is followed by `uncheckout_all`. */
  lemma RollBackAfterFailure(s: Site, view: Path, push: Push, entries: seq<seq<string>>, deletions: Reply)
    ensures var pushed := ProcessPush(s, push, entries, deletions);
            var r := PushOrRollBack(s, view, push, entries, deletions);
            && (r.1 == Pass <==> pushed.1 == Pass)
            && (pushed.1 == Pass ==> r.0 == pushed.0)
            && (pushed.1.Fail? ==> r.1 == pushed.1 && r.0.trace == pushed.0.trace + [UncheckoutAll]
                                   && r.0.world == M.UncheckoutAll(pushed.0.world, view).0)
  {
  }

  /**
   * A synced push: the committer, the comments and the file list from git
   * (a git failure ends the hook with only git queried), then
   * `process_push` under rollback.
   */
  function Fetch(s: Site, oldRevision: string, newRevision: string, repo: Repo): (r: (Site, Result<(string, seq<string>, seq<seq<string>>), Failure>))
    ensures Later(s, r.0) && GitOnly(r.0.trace, |s.trace|)
  {
    var s1 := Record(s, GetCommitter(newRevision));
    var committer := G.GetCommitter(repo.log);
    if committer.Err? then (s1, Err(GitFailed(committer.error)))
    else
      var s2 := Record(s1, GetCommentsList(oldRevision, newRevision));
      var comments := G.Comments(repo.revList, repo.message);
      if comments.Err? then (s2, Err(GitFailed(comments.error)))
      else
        var s3 := Record(s2, GetCommitFiles(oldRevision, newRevision));
        var entries := G.CommitFiles(repo.diff);
        assert s3.trace == s.trace + [GetCommitter(newRevision), GetCommentsList(oldRevision, newRevision),
                                      GetCommitFiles(oldRevision, newRevision)];
        if entries.Err? then (s3, Err(GitFailed(entries.error)))
        else (s3, Ok((committer.value, comments.value, entries.value)))
  }

  function Replay(s: Site, view: Path, oldRevision: string, newRevision: string, repo: Repo, coList: nat): (r: (Site, Outcome<Failure>))
    ensures Later(s, r.0)
    ensures r.1.Fail? ==> GitOnly(r.0.trace, |s.trace|) || r.0.trace[|r.0.trace| - 1] == UncheckoutAll
  {
    var (s3, fetched) := Fetch(s, oldRevision, newRevision, repo);
    if fetched.Err? then (s3, Fail(fetched.error))
    else
      var (committer, comments, entries) := fetched.value;
      var push := Push(view + "/", oldRevision, newRevision, committer, comments, coList);
      var r := PushOrRollBack(s3, view, push, entries, repo.deletions);
      LaterTrans(s, s3, r.0);
      r
  }

  /**
   * The part of `main` for a branch kept in sync: `do_sync`, and the replay
   * when it says so. ClearCase is touched only when the committer git
   * reports differs from the ClearCase pusher, and a failure after it was
   * touched ends with `uncheckout_all`.
   */
  function Sync(s: Site, view: Path, pusher: string, oldRevision: string, newRevision: string,
                repo: Repo, coList: nat): (r: (Site, Outcome<Failure>))
    ensures Later(s, r.0)
    ensures r.1.Fail? ==> GitOnly(r.0.trace, |s.trace|) || r.0.trace[|r.0.trace| - 1] == UncheckoutAll
    ensures !GitOnly(r.0.trace, |s.trace|) ==> !G.IsNullRevision(oldRevision) && repo.log.code == 0 && G.CommitterName(repo.log.out) != pusher
  {
    var decided := DoSync(s, oldRevision, Some(newRevision), repo, pusher);
    if decided.1.Err? then (decided.0, Fail(decided.1.error))
    else if !decided.1.value then (decided.0, Pass)
    else
      var r := Replay(decided.0, view, oldRevision, newRevision, repo, coList);
      LaterTrans(s, decided.0, r.0);
      r
  }

  /** Python's `sys.argv[1:]` as `main` reads it: references, old revision, and the new revision when given. */
  function NewRevision(args: seq<string>): Option<string> {
    if |args| > 2 then Some(args[2]) else None
  }

  /**
   * `main`. The result is the exit status: `Pass` is 0 and lets git move the
   * reference, `Fail` is 1 and rejects it. The debug line that concatenates
   * the new revision fails when it is missing, before anything else.
   */
  function Main(s: Site, args: seq<string>, c: HooksConfig.Config, dirs: set<string>, files: set<string>,
                repo: Repo, coList: nat): (r: (Site, Outcome<Failure>))
    ensures |args| < 2 ==> r == (s, Fail(IndexError))
    ensures |args| == 2 ==> r == (s, Fail(TypeError))
    ensures |args| > 2 && HooksConfig.ValidateConfig(c, dirs, files).Fail?
            ==> r == (s, Fail(ConfigFailed(HooksConfig.ValidateConfig(c, dirs, files).error)))
    ensures |args| > 2 && HooksConfig.ValidateConfig(c, dirs, files) == Pass ==>
              var refs := Split(args[0], '/');
              && (|refs| < 2 ==> r == (s, Fail(IndexError)))
              && (|refs| >= 2 && refs[1] != "heads" ==> r == (s, Pass))
              && (|refs| == 2 && refs[1] == "heads" ==> r == (s, Fail(IndexError)))
              && (|refs| > 2 && refs[1] == "heads" && refs[2] !in HooksConfig.GetSyncBranches(c) ==> r == (s, Pass))
    ensures Later(s, r.0)
    ensures r.1.Fail? ==> GitOnly(r.0.trace, |s.trace|) || r.0.trace[|r.0.trace| - 1] == UncheckoutAll
  {
    if |args| < 2 then (s, Fail(IndexError))
    else if |args| == 2 then (s, Fail(TypeError))
    else
      var valid := HooksConfig.ValidateConfig(c, dirs, files);
      if valid.Fail? then (s, Fail(ConfigFailed(valid.error)))
      else
        var refs := Split(args[0], '/');
        if |refs| < 2 then (s, Fail(IndexError))
        else if refs[1] != "heads" then (s, Pass)
        else if |refs| < 3 then (s, Fail(IndexError))
        else if refs[2] !in HooksConfig.GetSyncBranches(c) then (s, Pass)
        else
          Sync(s, HooksConfig.Get(c, "cc_view", "path"), HooksConfig.Get(c, "cc_config", "cc_pusher_user"),
               args[1], args[2], repo, coList)
  }
}
