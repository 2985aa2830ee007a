/**
 * The loops of update.py as they run: each method walks its list step by
 * step, as the script does, and is proved to end in exactly the site and
 * outcome the functions of `UpdateHook` define.
 */
module UpdateScript {
  import opened Results
  import opened Process
  import opened Strings
  import opened Cleartool
  import opened Hooks
  import G = Git
  import U = UpdateHook

  /**
   * `modify_file`'s loop over the comments: the checkout comment, whether a
   * label was found, and the label (empty when none was).
   */
  method ComposeCheckout(committer: string, comments: seq<string>) returns (coComment: string, makeLabel: bool, named: string)
    ensures coComment == U.CheckoutComment(committer, comments)
    ensures makeLabel <==> U.LastLabel(comments).Some?
    ensures makeLabel ==> named == U.LastLabel(comments).value
  {
    coComment := U.Heading(committer) + "\n";
    makeLabel := false;
    named := "";
    for i := 0 to |comments|
      invariant U.Composed(committer, comments[..i]) == (coComment, if makeLabel then Some(named) else None)
    {
      var comment := comments[i];
      assert comments[..i + 1][..i] == comments[..i];
      assert U.Composed(committer, comments[..i + 1]) == U.ComposedTurn(committer, comments[..i + 1]);
      var m := U.FirstLabel(comment);
      if m.Some? {
        named := m.value;
        makeLabel := true;
        coComment := coComment + U.StripLabels(comment) + "\n";
      } else {
        coComment := coComment + comment + "\n";
      }
    }
    assert comments[..|comments|] == comments;
    U.ComposedIsCheckoutComment(committer, comments);
  }

  /** `modify_file`: the checkout with the composed comment, then the label if one was found. */
  method ModifyFile(s: Site, ccpath: Path, committer: string, comments: seq<string>) returns (s': Site, o: Outcome<Failure>)
    ensures (s', o) == U.ModifyFile(s, ccpath, committer, comments)
  {
    var coComment, makeLabel, named := ComposeCheckout(committer, comments);
    U.ComposedIsCheckoutComment(committer, comments);
    s', o := RunCheckout(s, ccpath, coComment).0, RunCheckout(s, ccpath, coComment).1;
    if o.Pass? && makeLabel {
      s', o := Foreign(s', MakeLabel(ccpath, named)).0, Foreign(s', MakeLabel(ccpath, named)).1;
    }
  }

  /**
   * `process_deletions`: asks git for the deletions, removes each listed
   * path that still exists into one `co_list`, then checks that list in.
   */
  method ProcessDeletions(s: Site, p: U.Push, deletions: Reply) returns (s': Site, o: Outcome<Failure>)
    ensures (s', o) == U.ProcessDeletions(s, p, deletions)
  {
    s' := Record(s, ListDeletions(p.oldRevision, p.newRevision));
    var listed := G.ListDeletions(deletions);
    if listed.Err? {
      return s', Fail(GitFailed(listed.error));
    }
    var deletionList := listed.value;
    ghost var s1 := s';
    o := Pass;
    var i := 0;
    while i < |deletionList|
      invariant 0 <= i <= |deletionList|
      invariant U.RemoveEach(s1, p.root, deletionList, p.coList) == U.RemoveEach(s', p.root, deletionList[i..], p.coList)
    {
      var dpath := p.root + deletionList[i];
      assert deletionList[i..][1..] == deletionList[i + 1..];
      if Exists(s'.world.view, dpath) {
        var removed := RemoveNameInto(s', dpath, p.coList);
        if removed.1.Fail? {
          return removed.0, removed.1;
        }
        s' := removed.0;
      }
      i := i + 1;
    }
    s', o := Foreign(s', CheckinList(p.coList)).0, Foreign(s', CheckinList(p.coList)).1;
  }

  /**
   * `process_push`: the logging loop reads the status and the path of
   * every entry, then each entry is handled in order, and the deletion pass
   * runs once at the end if some entry was a deletion.
   */
  method ProcessPush(s: Site, p: U.Push, entries: seq<seq<string>>, deletions: Reply) returns (s': Site, o: Outcome<Failure>)
    ensures (s', o) == U.ProcessPush(s, p, entries, deletions)
  {
    s' := s;
    for i := 0 to |entries|
      invariant forall j :: 0 <= j < i ==> |entries[j]| >= 2
    {
      if |entries[i]| < 2 {
        return s, Fail(IndexError);
      }
    }
    var deleteMark := false;
    var i := 0;
    while i < |entries|
      invariant 0 <= i <= |entries|
      invariant U.Dispatch(s, p, entries, false) == U.Dispatch(s', p, entries[i..], deleteMark)
    {
      var gitFile := entries[i];
      assert entries[i..][1..] == entries[i + 1..];
      assert U.Dispatch(s', p, entries[i..], deleteMark) == U.Turn(s', p, entries[i..], deleteMark);
      if gitFile[1] != ".gitignore" {
        if gitFile[0] == "A" {
          var added := U.AddFile(s', p.root + gitFile[1]);
          if added.1.Fail? {
            return added.0, added.1;
          }
          s' := added.0;
        } else if gitFile[0] == "M" {
          var modified;
          s', modified := ModifyFile(s', p.root + gitFile[1], p.committer, p.comments);
          if modified.Fail? {
            return s', modified;
          }
        } else if gitFile[0] == "D" {
          if !deleteMark {
            deleteMark := true;
          }
        } else {
          return s', Fail(Unsupported(gitFile[0]));
        }
      }
      i := i + 1;
    }
    if deleteMark {
      s', o := ProcessDeletions(s', p, deletions);
    } else {
      o := Pass;
    }
  }
}
