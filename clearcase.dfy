/**
 * ClearCase.py's `ClearCase` class: every method runs `cleartool` (or an
 * `os` call) against the view, step by step, and is proved to do exactly
 * what the function of the same name in ClearCaseModel describes.
 */
module ClearCase {
  import opened Results
  import opened Process
  import opened Strings
  import opened PosixPath
  import opened Cleartool
  import M = ClearCaseModel

  class ClearCase {
    /** The view the commands act on. */
    var view: View
    /** Every command issued so far, oldest first. */
    var log: seq<Cmd>

    constructor (v: View)
      ensures view == v && log == []
    {
      view := v;
      log := [];
    }

    /** The state as the model sees it. */
    function World(): M.World
      reads this
    {
      M.World(view, log)
    }

    /** Run one command (a subprocess, or an `os` call) and wait for it. */
    method Run(c: Cmd) returns (reply: Reply)
      modifies this
      ensures (World(), reply) == M.Run(old(World()), c)
    {
      reply := Answer(view, c);
      view := Effect(view, c);
      log := log + [c];
    }

    method IsVersioned(p: Path) returns (b: bool)
      modifies this
      ensures (World(), b) == M.IsVersioned(old(World()), p)
    {
      if !Exists(view, p) {
        return false;
      }
      var reply := Run(Ls(p));
      b := reply.code == 0 && reply.out != "";
    }

    method IsCheckout(p: Path) returns (b: bool)
      modifies this
      ensures (World(), b) == M.IsCheckout(old(World()), p)
    {
      var reply := Run(Lsco(p));
      b := reply.code == 0 && reply.out != "" && RStrip(reply.out, LineBreaks) == p;
    }

    method Checkout(p: Path, comment: string, addVersion: bool) returns (o: Outcome<M.Error>)
      modifies this
      ensures (World(), o) == M.Checkout(old(World()), p, comment, addVersion)
    {
      if !addVersion {
        var known := IsVersioned(p);
        if !known {
          return Fail(M.NotInCC(p));
        }
      }
      var out := IsCheckout(p);
      if out {
        return Fail(M.AlreadyCheckedOut(p));
      }
      var co := M.CoCmd(p, comment, addVersion);
      var reply := Run(co);
      if reply.code != 0 {
        return Fail(M.CommandFailed(co));
      }
      return Pass;
    }

    method Uncheckout(p: Path) returns (o: Outcome<M.Error>)
      modifies this
      ensures (World(), o) == M.Uncheckout(old(World()), p)
    {
      var reply := Run(Unco(p));
      if reply.code != 0 {
        return Fail(M.CommandFailed(Unco(p)));
      }
      return Pass;
    }

    method Checkin(p: Path) returns (o: Outcome<M.Error>)
      modifies this
      ensures (World(), o) == M.Checkin(old(World()), p)
    {
      if !Exists(view, p) {
        return Fail(M.NotInCC(p));
      }
      var out := IsCheckout(p);
      if !out {
        return Fail(M.NotCheckedOut(p));
      }
      var reply := Run(Ci(p));
      if reply.code != 0 {
        return Fail(M.CommandFailed(Ci(p)));
      }
      return Pass;
    }

    method CreateDir(p: Path) returns (o: Outcome<M.Error>)
      modifies this
      ensures (World(), o) == M.CreateDir(old(World()), p)
    {
      if p in view.dirs {
        return Fail(M.AlreadyInCC(p));
      }
      if p == [] {
        return Fail(M.IndexError);
      }
      var parent := M.ParentOf(p);
      if parent !in view.dirs {
        return Fail(M.NotInCC(parent));
      }
      var r := OpenDir(parent);
      if r.Fail? {
        return r;
      }
      var reply := Run(Mkdir(p));
      if reply.code != 0 {
        return Fail(M.CreationFailed(p));
      }
      return Pass;
    }

    method CreatePath(p: Path) returns (o: Outcome<M.Error>)
      modifies this
      ensures (World(), o) == M.CreatePath(old(World()), p)
    {
      var dirs := Split(p, Sep);
      dirs := dirs[1..];
      var current := [Sep];
      var i := 0;
      while i < |dirs|
        invariant 0 <= i <= |dirs| && dirs == M.Segments(p)
        invariant M.CreatePath(old(World()), p) == M.CreatePathFrom(World(), current, dirs[i..])
      {
        assert dirs[i..][1..] == dirs[i + 1..];
        current := current + dirs[i];
        if current !in view.dirs {
          var r := CreateDir(current);
          if r.Fail? {
            return r;
          }
        }
        current := current + [Sep];
        i := i + 1;
      }
      return Pass;
    }

    method CreateFile(p: Path) returns (o: Outcome<M.Error>)
      modifies this
      ensures (World(), o) == M.CreateFile(old(World()), p)
    {
      if p !in view.files {
        return Fail(M.FileNotExists(p));
      }
      var moved := MoveKeepAside(p);
      if moved.Fail? {
        return moved;
      }
      var r := Checkout(Dirname(p), M.NewFileComment, false);
      if r.Fail? {
        return r;
      }
      o := AddElement(p);
    }

    /** A `.keep` file in the way of `p` is renamed aside. */
    method MoveKeepAside(p: Path) returns (o: Outcome<M.Error>)
      requires p in view.files
      modifies this
      ensures (World(), o) == M.MoveKeepAside(old(World()), p)
    {
      o := Pass;
      if M.Keep(p) in view.files {
        var moved := Run(M.KeepAside(p));
        if moved.code != 0 {
          o := Fail(M.OsError(M.KeepAside(p)));
        }
      }
    }

    /** The part of `create_file` after the parent checkout: `mkelem`, checkout of the latest version, then `RestoreContent`. */
    method AddElement(p: Path) returns (o: Outcome<M.Error>)
      modifies this
      ensures (World(), o) == M.AddElement(old(World()), p)
    {
      var made := Run(Mkelem(p));
      if made.code != 0 {
        return Fail(M.CreationFailed(p));
      }
      var r := Checkout(p + LatestOnMain, M.NewFileComment, true);
      if r.Fail? {
        return r;
      }
      o := RestoreContent(p);
    }

    /** The end of `create_file`: the kept content is moved back and the file checked in. */
    method RestoreContent(p: Path) returns (o: Outcome<M.Error>)
      modifies this
      ensures (World(), o) == M.RestoreContent(old(World()), p)
    {
      var back := Run(Rename(M.Keep(p), p));
      if back.code != 0 {
        return Fail(M.CreationFailed(p));
      }
      o := Checkin(p);
    }

    /** One turn of `list_checkouts`' loop: what it appends to the list for the top-level entry `cur`. */
    method Inspect(cur: Path) returns (found: Result<seq<Path>, M.Error>)
      modifies this
      ensures (World(), found) == M.Inspect(old(World()), cur)
    {
      var top := false;
      if cur in view.dirs {
        top := IsVersioned(cur);
      }
      if !top {
        return Ok([]);
      }
      var out := IsCheckout(cur);
      var added := if out then [cur] else [];
      var reply := Run(LscoTree(cur));
      if reply.code != 0 {
        return Err(M.CommandFailed(LscoTree(cur)));
      }
      if reply.out != "" {
        added := added + SplitLines(reply.out);
      }
      assert added == (if out then [cur] else []) + (if reply.out == "" then [] else SplitLines(reply.out));
      return Ok(added);
    }

    method ListCheckouts(root: Path) returns (r: Result<seq<Path>, M.Error>)
      modifies this
      ensures (World(), r) == M.ListCheckouts(old(World()), root)
    {
      if root !in view.dirs {
        return Err(M.ListingFailed(root));
      }
      var names := view.listing;
      var colist: seq<Path> := [];
      var i := 0;
      while i < |names|
        invariant 0 <= i <= |names| && view == old(view)
        invariant M.Collect(old(World()), root, names, []) == M.Collect(World(), root, names[i..], colist)
      {
        assert names[i..][1..] == names[i + 1..];
        var found := Inspect(root + [Sep] + names[i]);
        if found.Err? {
          return found;
        }
        colist := colist + found.value;
        i := i + 1;
      }
      colist := Reverse(colist);
      return Ok(colist);
    }

    method CheckinAll(root: Path) returns (r: Result<seq<Path>, M.Error>)
      modifies this
      ensures (World(), r) == M.CheckinAll(old(World()), root)
    {
      var listed := ListCheckouts(root);
      if listed.Err? {
        return Err(listed.error);
      }
      ghost var listedAt := World();
      var colist := listed.value;
      var warned: seq<Path> := [];
      var i := 0;
      while i < |colist|
        invariant 0 <= i <= |colist|
        invariant M.CheckinEach(listedAt, colist, []) == M.CheckinEach(World(), colist[i..], warned)
      {
        assert colist[i..][1..] == colist[i + 1..];
        var o := Checkin(colist[i]);
        if o.Fail? {
          warned := warned + [colist[i]];
        }
        i := i + 1;
      }
      return Ok(warned);
    }

    method UncheckoutAll(root: Path) returns (r: Result<seq<Path>, M.Error>)
      modifies this
      ensures (World(), r) == M.UncheckoutAll(old(World()), root)
    {
      var listed := ListCheckouts(root);
      if listed.Err? {
        return Err(listed.error);
      }
      ghost var listedAt := World();
      var colist := listed.value;
      var warned: seq<Path> := [];
      var i := 0;
      while i < |colist|
        invariant 0 <= i <= |colist|
        invariant M.UncheckoutEach(listedAt, colist, []) == M.UncheckoutEach(World(), colist[i..], warned)
      {
        assert colist[i..][1..] == colist[i + 1..];
        var one := UncheckoutOne(colist[i]);
        if one.Err? {
          return Err(one.error);
        }
        if one.value {
          warned := warned + [colist[i]];
        }
        i := i + 1;
      }
      return Ok(warned);
    }

    /** One step of `uncheckout_all`: `unco`, then removal of an empty unversioned directory. */
    method UncheckoutOne(co: Path) returns (r: Result<bool, M.Error>)
      modifies this
      ensures (World(), r) == M.UncheckoutOne(old(World()), co)
    {
      var o := Uncheckout(co);
      if o.Fail? {
        return Ok(true);
      }
      r := RemoveIfEmpty(co);
    }

    /** After a passing `unco`: an empty directory that `ls` does not report versioned is removed. */
    method RemoveIfEmpty(co: Path) returns (r: Result<bool, M.Error>)
      modifies this
      ensures (World(), r) == M.RemoveIfEmpty(old(World()), co)
    {
      r := Ok(false);
      if co in view.dirs && M.EmptyDir(view, co) {
        var ver := IsVersioned(co);
        if !ver {
          var reply := Run(Rmdir(co));
          if reply.code != 0 {
            r := Err(M.OsError(Rmdir(co)));
          }
        }
      }
    }

    method RemoveName(p: Path) returns (o: Outcome<M.Error>)
      modifies this
      ensures (World(), o) == M.RemoveName(old(World()), p)
    {
      o := OpenDir(Dirname(p));
      if o.Fail? {
        return;
      }
      o := Unlink(p);
    }

    /** The parent checkout of `create_dir` and `remove_name`: only when `lsco` does not report it checked out. */
    method OpenDir(d: Path) returns (o: Outcome<M.Error>)
      modifies this
      ensures (World(), o) == M.OpenDir(old(World()), d)
    {
      var out := IsCheckout(d);
      if out {
        return Pass;
      }
      o := Checkout(d, M.DirModificationComment, false);
    }

    /** A directory that `lsco` reports checked out is checked in. */
    method CheckinIfOut(p: Path) returns (o: Outcome<M.Error>)
      modifies this
      ensures (World(), o) == M.CheckinIfOut(old(World()), p)
    {
      o := Pass;
      if p in view.dirs {
        var dirOut := IsCheckout(p);
        if dirOut {
          o := Checkin(p);
        }
      }
    }

    /** The part of `remove_name` after the parent checkout: a checked-out directory is checked in, then `rmname`. */
    method Unlink(p: Path) returns (o: Outcome<M.Error>)
      modifies this
      ensures (World(), o) == M.Unlink(old(World()), p)
    {
      var r := CheckinIfOut(p);
      if r.Fail? {
        return r;
      }
      var reply := Run(Rmname(p));
      if reply.code != 0 {
        return Fail(M.CommandFailed(Rmname(p)));
      }
      return Pass;
    }
  }
}
