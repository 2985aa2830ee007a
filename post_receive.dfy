/**
 * post-receive.py: once git has moved a reference, the hook reads the old
 * revision, the new revision and the reference from its standard input,
 * decides whether the push must reach ClearCase, and if so pulls the view,
 * asks git for the changed files and checks them in with the labels of the
 * last commit. Every operation it applies to ClearCase is one ClearCase.py
 * does not define with those arguments, so in this model the hook records
 * calls and never changes the ClearCase world itself.
 */
module PostReceiveHook {
  import opened Results
  import opened Process
  import opened Strings
  import opened Cleartool
  import opened Hooks
  import G = Git
  import HooksConfig
  import U = UpdateHook

  /** What `get_standard_input` returns: the old revision, then the new revision and the reference when given. */
  datatype Input = Input(oldRevision: string, newRevision: Option<string>, refs: Option<string>)

  /**
   * `get_standard_input` on the line read: its words; with two words or
   * more the third is read too, with fewer the first.
   */
  function GetStandardInput(line: string): (r: Result<Input, Failure>)
    ensures var params := SplitWs(line);
            && (r.Err? <==> |params| == 0 || |params| == 2)
            && (r.Err? ==> r.error == IndexError)
            && (r.Ok? ==> r.value.oldRevision == params[0]
                          && (r.value.newRevision.Some? <==> |params| > 2)
                          && (r.value.refs.Some? <==> |params| > 2))
  {
    var params := SplitWs(line);
    if |params| > 1 then
      if |params| < 3 then Err(IndexError)
      else Ok(Input(params[0], Some(params[1]), Some(params[2])))
    else if |params| == 0 then Err(IndexError)
    else Ok(Input(params[0], None, None))
  }

  /** The line git writes for one updated reference reads back as its three parts. */
  lemma StandardInputOfLine(oldRevision: string, newRevision: string, refs: string)
    requires oldRevision != [] && newRevision != [] && refs != []
    requires NoneIn(oldRevision, Whitespace) && NoneIn(newRevision, Whitespace) && NoneIn(refs, Whitespace)
    ensures GetStandardInput(oldRevision + " " + newRevision + " " + refs + "\n")
            == Ok(Input(oldRevision, Some(newRevision), Some(refs)))
  {
    var words := [oldRevision, newRevision, refs];
    var line := oldRevision + " " + newRevision + " " + refs + "\n";
    JoinThree(oldRevision, newRevision, refs);
    SplitWsOfJoin(words);
    assert SplitWs(line) == words;
  }

  lemma JoinThree(a: string, b: string, c: string)
    ensures Join([a, b, c], ' ') + "\n" == a + " " + b + " " + c + "\n"
  {
    assert [a, b, c][1..] == [b, c];
    assert [b, c][1..] == [c];
    assert Join([c], ' ') == c;
    assert Join([b, c], ' ') == b + [' '] + c;
    assert Join([a, b, c], ' ') == a + [' '] + (b + [' '] + c);
  }

  /**
   * `do_sync`: the conditions are read left to right and stop at the first
   * false one; `refs[1]` and, past the revision checks, `refs[2]` must
   * exist. git is asked for the committer only when all of them hold.
   */
  function DoSync(s: Site, oldRevision: string, newRevision: Option<string>, refs: seq<string>,
                  branches: seq<string>, repo: Repo, pusher: string): (r: (Site, Result<bool, Failure>))
    ensures |refs| < 2 ==> r == (s, Err(IndexError))
    ensures r.1 == Err(IndexError) <==>
              |refs| < 2 || (|refs| == 2 && refs[1] == "heads" && !G.IsNullRevision(oldRevision) && newRevision.Some?)
    ensures r.1 == Ok(true) <==>
              && |refs| > 2 && refs[1] == "heads" && !G.IsNullRevision(oldRevision) && newRevision.Some?
              && refs[2] in branches && repo.log.code == 0 && G.CommitterName(repo.log.out) != pusher
    ensures r.0 != s <==>
              |refs| > 2 && refs[1] == "heads" && !G.IsNullRevision(oldRevision) && newRevision.Some? && refs[2] in branches
    ensures r.0 != s ==> newRevision.Some? && r.0 == Record(s, GetCommitter(newRevision.value))
    ensures r.1 == Err(GitFailed(G.GitError("git log"))) <==>
              && |refs| > 2 && refs[1] == "heads" && !G.IsNullRevision(oldRevision) && newRevision.Some?
              && refs[2] in branches && repo.log.code != 0
  {
    if |refs| < 2 then (s, Err(IndexError))
    else if refs[1] != "heads" || G.IsNullRevision(oldRevision) || newRevision.None? then (s, Ok(false))
    else if |refs| < 3 then (s, Err(IndexError))
    else if refs[2] !in branches then (s, Ok(false))
    else
      var s1 := Record(s, GetCommitter(newRevision.value));
      var committer := G.GetCommitter(repo.log);
      if committer.Err? then (s1, Err(GitFailed(committer.error)))
      else (s1, Ok(committer.value != pusher))
  }

  /** A commit the ClearCase pusher made is not synced back: the line git prints for it names the pusher. */
  lemma PusherPushNotSynced(s: Site, oldRevision: string, newRevision: Option<string>, refs: seq<string>,
                            branches: seq<string>, repo: Repo, pusher: string)
    requires repo.log == Reply(0, pusher + "\n")
    ensures DoSync(s, oldRevision, newRevision, refs, branches, repo, pusher).1 != Ok(true)
  {
    G.CommitterOfLine(pusher);
  }

  /**
   * On a branch reference kept in sync, the post-receive hook decides
   * exactly as the update hook does.
   */
  lemma SameDecisionAsUpdate(s: Site, oldRevision: string, newRevision: Option<string>, refs: seq<string>,
                             branches: seq<string>, repo: Repo, pusher: string)
    requires |refs| > 2 && refs[1] == "heads" && refs[2] in branches
    ensures DoSync(s, oldRevision, newRevision, refs, branches, repo, pusher)
            == U.DoSync(s, oldRevision, newRevision, repo, pusher)
  {
  }

  /** Every entry has a status and a path. */
  predicate WellFormed(entries: seq<seq<string>>) {
    forall i :: 0 <= i < |entries| ==> |entries[i]| >= 2
  }

  /** The call the loop makes for one entry: `create_file` for A, `checkin` for M, none otherwise. */
  function Intended(root: Path, labels: string, coList: nat, e: seq<string>): (calls: seq<Call>)
    requires |e| >= 2
  {
    if e[1] == ".gitignore" then []
    else if e[0] == "A" then [CreateFile(root + e[1], labels, coList)]
    else if e[0] == "M" then [CheckinFile(root + e[1], labels)]
    else []
  }

  /** The calls the loop makes when none of them raises: a reference definition, entry by entry. */
  function Planned(root: Path, labels: string, coList: nat, entries: seq<seq<string>>): (calls: seq<Call>)
    requires WellFormed(entries)
  {
    if entries == [] then [] else Intended(root, labels, coList, entries[0]) + Planned(root, labels, coList, entries[1..])
  }

  /** No call of `calls` raises. */
  predicate NoneRaise(raising: set<Call>, calls: seq<Call>) {
    forall k :: 0 <= k < |calls| ==> calls[k] !in raising
  }

  /**
   * `process_push`'s loop: an entry without a path stops it, when its turn
   * comes, with IndexError; `.gitignore` and statuses other than A and M
   * (deletions among them) are passed over.
   */
  function Walk(s: Site, root: Path, labels: string, coList: nat, entries: seq<seq<string>>): (r: (Site, Outcome<Failure>))
    ensures Later(s, r.0) && r.0.world == s.world
    decreases |entries|
  {
    if entries == [] then (s, Pass)
    else
      var e := entries[0];
      if |e| < 2 then (s, Fail(IndexError))
      else if e[1] == ".gitignore" then Walk(s, root, labels, coList, entries[1..])
      else if e[0] == "A" || e[0] == "M" then
        var c := if e[0] == "A" then CreateFile(root + e[1], labels, coList) else CheckinFile(root + e[1], labels);
        var (s1, o) := Foreign(s, c);
        if o.Fail? then (s1, o)
        else
          var r := Walk(s1, root, labels, coList, entries[1..]);
          LaterTrans(s, s1, r.0);
          r
      else Walk(s, root, labels, coList, entries[1..])
  }

  /**
   * The loop completes iff every entry has a path and none of the planned
   * calls raises, and then it made exactly the planned calls, in order.
   */
  lemma WalkFollowsPlan(s: Site, root: Path, labels: string, coList: nat, entries: seq<seq<string>>)
    ensures var r := Walk(s, root, labels, coList, entries);
            && (r.1 == Pass <==> WellFormed(entries) && NoneRaise(s.raising, Planned(root, labels, coList, entries)))
            && (r.1 == Pass ==> r.0.trace == s.trace + Planned(root, labels, coList, entries))
  {
    WalkCompletes(s, root, labels, coList, entries);
    WalkTrace(s, root, labels, coList, entries);
  }

  /** The entries minus the first are well formed iff all are, given the first has a path. */
  lemma WellFormedTail(entries: seq<seq<string>>)
    requires entries != []
    ensures WellFormed(entries) <==> |entries[0]| >= 2 && WellFormed(entries[1..])
  {
    assert forall i :: 0 <= i < |entries[1..]| ==> entries[1..][i] == entries[i + 1];
  }

  /** The loop completes iff every entry has a path and none of the planned calls raises. */
  lemma {:induction false} WalkCompletes(s: Site, root: Path, labels: string, coList: nat, entries: seq<seq<string>>)
    decreases |entries|
    ensures Walk(s, root, labels, coList, entries).1 == Pass
            <==> WellFormed(entries) && NoneRaise(s.raising, Planned(root, labels, coList, entries))
  {
    if entries != [] {
      WellFormedTail(entries);
      if |entries[0]| >= 2 {
        var head := Intended(root, labels, coList, entries[0]);
        var s1 := if head == [] then s else Record(s, head[0]);
        WalkTurn(s, root, labels, coList, entries);
        WalkCompletes(s1, root, labels, coList, entries[1..]);
        if WellFormed(entries[1..]) {
          var later := Planned(root, labels, coList, entries[1..]);
          assert Planned(root, labels, coList, entries) == head + later;
          NoneRaiseAppend(s.raising, head, later);
        }
      }
    }
  }

  /** When the loop completes, it has made exactly the planned calls, in order. */
  lemma {:induction false} WalkTrace(s: Site, root: Path, labels: string, coList: nat, entries: seq<seq<string>>)
    decreases |entries|
    ensures var r := Walk(s, root, labels, coList, entries);
            r.1 == Pass ==> WellFormed(entries) && r.0.trace == s.trace + Planned(root, labels, coList, entries)
  {
    if entries != [] {
      WellFormedTail(entries);
      if |entries[0]| >= 2 {
        var head := Intended(root, labels, coList, entries[0]);
        var s1 := if head == [] then s else Record(s, head[0]);
        WalkTurn(s, root, labels, coList, entries);
        WalkTrace(s1, root, labels, coList, entries[1..]);
        if WellFormed(entries[1..]) {
          assert Planned(root, labels, coList, entries) == head + Planned(root, labels, coList, entries[1..]);
        }
      }
    }
  }

  /** One turn of the loop on an entry with a path: its planned call, if any, then the rest of the loop unless that call raised. */
  lemma WalkTurn(s: Site, root: Path, labels: string, coList: nat, entries: seq<seq<string>>)
    requires entries != [] && |entries[0]| >= 2
    ensures var head := Intended(root, labels, coList, entries[0]);
            var s1 := if head == [] then s else Record(s, head[0]);
            Walk(s, root, labels, coList, entries)
            == if head != [] && head[0] in s.raising then (s1, Fail(Raised(head[0])))
               else Walk(s1, root, labels, coList, entries[1..])
  {
  }

  lemma NoneRaiseAppend(raising: set<Call>, a: seq<Call>, b: seq<Call>)
    ensures NoneRaise(raising, a + b) <==> NoneRaise(raising, a) && NoneRaise(raising, b)
  {
    if NoneRaise(raising, a) && NoneRaise(raising, b) {
      forall k | 0 <= k < |a + b| ensures (a + b)[k] !in raising {
        if k >= |a| { assert (a + b)[k] == b[k - |a|]; }
      }
    }
    if NoneRaise(raising, a + b) {
      forall k | 0 <= k < |a| ensures a[k] !in raising {
        assert (a + b)[k] == a[k];
      }
      forall k | 0 <= k < |b| ensures b[k] !in raising {
        assert (a + b)[|a| + k] == b[k];
      }
    }
  }

  /**
   * `process_push`: the labels of the last commit, asked once, then the
   * loop, then one `checkin_list` of the directories `create_file` checked
   * out, with those labels.
   */
  function ProcessPush(s: Site, root: Path, entries: seq<seq<string>>, repo: Repo, coList: nat): (r: (Site, Outcome<Failure>))
    ensures Later(s, r.0) && r.0.world == s.world
    ensures r.1 == Pass ==>
              && WellFormed(entries)
              && r.0.trace == s.trace + [LastCommitLabels(root)] + Planned(root, repo.labels, coList, entries)
                           + [CheckinListLabelled(coList, repo.labels)]
  {
    var (s1, o) := Foreign(s, LastCommitLabels(root));
    if o.Fail? then (s1, o)
    else
      var labels := repo.labels;
      var (s2, walked) := Walk(s1, root, labels, coList, entries);
      WalkFollowsPlan(s1, root, labels, coList, entries);
      LaterTrans(s, s1, s2);
      if walked.Fail? then (s2, walked)
      else
        var r := Foreign(s2, CheckinListLabelled(coList, labels));
        LaterTrans(s, s2, r.0);
        r
  }

  /**
   * `process_push` completes iff asking for the labels, every planned call
   * and the final `checkin_list` all return, and every entry has a path.
   */
  lemma ProcessPushCompletes(s: Site, root: Path, entries: seq<seq<string>>, repo: Repo, coList: nat)
    ensures ProcessPush(s, root, entries, repo, coList).1 == Pass <==>
              && LastCommitLabels(root) !in s.raising
              && WellFormed(entries) && NoneRaise(s.raising, Planned(root, repo.labels, coList, entries))
              && CheckinListLabelled(coList, repo.labels) !in s.raising
  {
    WalkFollowsPlan(Record(s, LastCommitLabels(root)), root, repo.labels, coList, entries);
  }

  /** `git pull` into the view, then the changed files: what `process_push` is given, or the git error. */
  function Gather(s: Site, root: Path, oldRevision: string, newRevision: string, repo: Repo): (r: (Site, Result<seq<seq<string>>, Failure>))
    ensures r.0.world == s.world && r.0.raising == s.raising
    ensures repo.pull.code != 0 ==> r == (Record(s, Pull(root)), Err(GitFailed(G.GitError("CC_update_failed"))))
    ensures repo.pull.code == 0 ==> r.0.trace == s.trace + [Pull(root), GetCommitFiles(oldRevision, newRevision)]
    ensures r.1.Ok? <==> repo.pull.code == 0 && repo.diff.code == 0
    ensures r.1.Ok? ==> |r.1.value| == |SplitLines(repo.diff.out)|
  {
    var s1 := Record(s, Pull(root));
    var pulled := G.Pull(repo.pull);
    if pulled.Fail? then (s1, Err(GitFailed(pulled.error)))
    else
      var s2 := Record(s1, GetCommitFiles(oldRevision, newRevision));
      var entries := G.CommitFiles(repo.diff);
      if entries.Err? then (s2, Err(GitFailed(entries.error)))
      else (s2, Ok(entries.value))
  }

  /**
   * The try block of `main` after a positive `do_sync`: `git pull` into the
   * view, the changed files, then `process_push`. Any failure is reported
   * and the hook exits with status 1; nothing is rolled back.
   */
  function Synchronise(s: Site, root: Path, oldRevision: string, newRevision: string, repo: Repo, coList: nat): (r: (Site, Outcome<Failure>))
    ensures Later(s, r.0) && r.0.world == s.world
    ensures |s.trace| < |r.0.trace| && r.0.trace[|s.trace|] == Pull(root)
    ensures repo.pull.code != 0 ==> r == (Record(s, Pull(root)), Fail(GitFailed(G.GitError("CC_update_failed"))))
    ensures r.1 == Pass ==>
              && repo.pull.code == 0 && repo.diff.code == 0
              && |s.trace| + 2 <= |r.0.trace|
              && r.0.trace[..|s.trace| + 2] == s.trace + [Pull(root), GetCommitFiles(oldRevision, newRevision)]
  {
    var (s2, entries) := Gather(s, root, oldRevision, newRevision, repo);
    if entries.Err? then (s2, Fail(entries.error))
    else
      var r := ProcessPush(s2, root, entries.value, repo, coList);
      assert r.0.trace[..|s2.trace|] == s2.trace;
      LaterTrans(s, s2, r.0);
      r
  }

  /**
   * `main`: the configuration is checked, the standard input read and the
   * reference split before anything else (a failure there ends the hook
   * with status 1); `do_sync`, whose errors are not caught; then the
   * synchronisation. The result is the exit status, which git reports but
   * which cannot undo the push.
   */
  function Main(s: Site, c: HooksConfig.Config, dirs: set<string>, files: set<string>,
                line: string, repo: Repo, coList: nat): (r: (Site, Outcome<Failure>))
    ensures Later(s, r.0) && r.0.world == s.world
    ensures HooksConfig.ValidateConfig(c, dirs, files).Fail?
            ==> r == (s, Fail(ConfigFailed(HooksConfig.ValidateConfig(c, dirs, files).error)))
    ensures HooksConfig.ValidateConfig(c, dirs, files) == Pass ==>
              && (GetStandardInput(line).Err? ==> r == (s, Fail(IndexError)))
              && (|SplitWs(line)| == 1 ==> r == (s, Fail(AttributeError)))
    ensures !U.GitOnly(r.0.trace, |s.trace|) ==>
              var params := SplitWs(line);
              && HooksConfig.ValidateConfig(c, dirs, files) == Pass && |params| > 2
              && var refs := Split(params[2], '/');
              && |refs| > 2 && refs[1] == "heads" && refs[2] in HooksConfig.GetSyncBranches(c)
              && !G.IsNullRevision(params[0])
              && repo.log.code == 0 && G.CommitterName(repo.log.out) != HooksConfig.Get(c, "cc_config", "cc_pusher_user")
  {
    var valid := HooksConfig.ValidateConfig(c, dirs, files);
    if valid.Fail? then (s, Fail(ConfigFailed(valid.error)))
    else
      var input := GetStandardInput(line);
      if input.Err? then (s, Fail(input.error))
      else if input.value.refs.None? then (s, Fail(AttributeError))
      else
        var refs := Split(input.value.refs.value, '/');
        var pusher := HooksConfig.Get(c, "cc_config", "cc_pusher_user");
        var (s1, sync) := DoSync(s, input.value.oldRevision, input.value.newRevision, refs,
                                 HooksConfig.GetSyncBranches(c), repo, pusher);
        assert U.GitOnly(s1.trace, |s.trace|);
        if sync.Err? then (s1, Fail(sync.error))
        else if !sync.value then (s1, Pass)
        else
          var root := HooksConfig.Get(c, "cc_view", "path") + "/";
          var r := Synchronise(s1, root, input.value.oldRevision, input.value.newRevision.value, repo, coList);
          LaterTrans(s, s1, r.0);
          r
  }
}
