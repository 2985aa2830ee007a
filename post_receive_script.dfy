/**
 * The loop of post-receive.py's `process_push` as it runs, proved to end
 * in the site and outcome `PostReceiveHook.ProcessPush` defines.
 */
module PostReceiveScript {
  import opened Results
  import opened Cleartool
  import opened Hooks
  import P = PostReceiveHook

  /**
   * `process_push`: the labels of the last commit, then each entry in turn
   * (`create_file` into `list_co` for A, `checkin` for M), then one
   * `checkin_list` of `list_co` with the labels.
   */
  method ProcessPush(s: Site, root: Path, entries: seq<seq<string>>, repo: Repo, coList: nat) returns (s': Site, o: Outcome<Failure>)
    ensures (s', o) == P.ProcessPush(s, root, entries, repo, coList)
  {
    s', o := Foreign(s, LastCommitLabels(root)).0, Foreign(s, LastCommitLabels(root)).1;
    if o.Fail? {
      return;
    }
    var labels := repo.labels;
    ghost var s1 := s';
    var i := 0;
    while i < |entries|
      invariant 0 <= i <= |entries|
      invariant P.Walk(s1, root, labels, coList, entries) == P.Walk(s', root, labels, coList, entries[i..])
    {
      var gitFile := entries[i];
      assert entries[i..][1..] == entries[i + 1..];
      if |gitFile| < 2 {
        return s', Fail(IndexError);
      }
      if gitFile[1] != ".gitignore" {
        if gitFile[0] == "A" {
          var added := Foreign(s', CreateFile(root + gitFile[1], labels, coList));
          if added.1.Fail? {
            return added.0, added.1;
          }
          s' := added.0;
        } else if gitFile[0] == "M" {
          var checkedIn := Foreign(s', CheckinFile(root + gitFile[1], labels));
          if checkedIn.1.Fail? {
            return checkedIn.0, checkedIn.1;
          }
          s' := checkedIn.0;
        }
      }
      i := i + 1;
    }
    s', o := Foreign(s', CheckinListLabelled(coList, labels)).0, Foreign(s', CheckinListLabelled(coList, labels)).1;
  }
}
