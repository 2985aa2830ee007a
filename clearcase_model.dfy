/**
 * What each method of ClearCase.py's `ClearCase` class does to the view and
 * which commands it issues, as functions from the world before the call to
 * the world after it and the method's completion. The class in module
 * ClearCase is proved to behave exactly like these functions; the lemmas at
 * the end state what the methods promise over several commands.
 */
module ClearCaseModel {
  import opened Results
  import opened Process
  import opened Strings
  import opened PosixPath
  import opened Cleartool

  /** Checkout comment for a parent directory (a message key; translations are not modelled). */
  const DirModificationComment: string := "CC_dir_modification_comment"

  /** Checkout comment used while adding a file (a message key). */
  const NewFileComment: string := "new_file"

  /** The view and every command issued against it so far, oldest first. */
  datatype World = World(view: View, log: seq<Cmd>)

  /**
   * What the methods raise: CCError by message kind, and the two other
   * exceptions that can escape them.
   */
  datatype Error =
    | NotInCC(path: Path)             // CCError "not_in_CC"
    | AlreadyCheckedOut(path: Path)   // CCError "already_co"
    | NotCheckedOut(path: Path)       // CCError "ci_not_co"
    | CommandFailed(cmd: Cmd)         // CCError "... command_failed"
    | CreationFailed(path: Path)      // CCError "creation_failed"
    | AlreadyInCC(path: Path)         // CCError "already_in_CC"
    | FileNotExists(path: Path)       // CCError "file_not_exists"
    | ListingFailed(path: Path)       // OSError from os.listdir
    | OsError(cmd: Cmd)               // OSError from os.rename or os.rmdir
    | IndexError                      // IndexError on an empty path

  /** Issue `c`: log it, apply its effect, return its answer. */
  function Run(w: World, c: Cmd): (World, Reply) {
    (World(Effect(w.view, c), w.log + [c]), Answer(w.view, c))
  }

  /** `w'` continues the log of `w`. */
  predicate Extends(w: World, w': World) {
    |w.log| <= |w'.log| && w'.log[..|w.log|] == w.log
  }

  /** Every command issued from `w` to `w'` only reads the view. */
  predicate QueriesOnly(w: World, w': World) {
    forall i :: |w.log| <= i < |w'.log| ==> IsQuery(w'.log[i])
  }

  /** No command issued from `w` to `w'` checks anything in or cancels a checkout. */
  predicate NoCheckin(w: World, w': World) {
    forall i :: |w.log| <= i < |w'.log| ==> !w'.log[i].Ci? && !w'.log[i].Unco?
  }

  /** No command issued from `w` to `w'` checks anything out. */
  predicate NoCheckout(w: World, w': World) {
    forall i :: |w.log| <= i < |w'.log| ==> !w'.log[i].Co?
  }

  /** Issuing one command more extends the log by that command. */
  lemma Step(w: World, c: Cmd)
    ensures Extends(w, Run(w, c).0)
    ensures forall i :: |w.log| <= i < |Run(w, c).0.log| ==> Run(w, c).0.log[i] == c
  {
  }

  /** The log predicates compose along a run. */
  lemma Chain(w: World, w1: World, w2: World)
    requires Extends(w, w1) && Extends(w1, w2)
    ensures Extends(w, w2)
    ensures QueriesOnly(w, w1) && QueriesOnly(w1, w2) ==> QueriesOnly(w, w2)
    ensures NoCheckin(w, w1) && NoCheckin(w1, w2) ==> NoCheckin(w, w2)
    ensures NoCheckout(w, w1) && NoCheckout(w1, w2) ==> NoCheckout(w, w2)
  {
    assert forall i :: 0 <= i < |w1.log| ==> w2.log[i] == w2.log[..|w1.log|][i];
    assert w2.log[..|w.log|] == w1.log[..|w.log|];
  }

  /** Only the open checkouts may differ. */
  predicate SameTree(v: View, v': View) {
    v'.dirs == v.dirs && v'.files == v.files && v'.versioned == v.versioned
    && v'.listing == v.listing && v'.faults == v.faults
  }

  /** Directories and elements were only added, files are untouched and no checkout was closed. */
  predicate Grows(v: View, v': View) {
    v.dirs <= v'.dirs && v.versioned <= v'.versioned && v'.files == v.files
    && v'.listing == v.listing && v'.faults == v.faults
    && forall x :: x in v.checkouts ==> x in v'.checkouts
  }

  /** `ls -vob_only p` would print something: `p` exists, is an element, and the tool answers. */
  predicate Versioned(v: View, p: Path) {
    Exists(v, p) && p in v.versioned && Ls(p) !in v.faults
  }

  /**
   * `lsco -s -d -cvi p` would print exactly `p`: the tool answers, `p` is
   * checked out, `p` is a plain element name and does not end in a line break.
   */
  predicate ReportedOut(v: View, p: Path) {
    Lsco(p) !in v.faults && p in v.checkouts && Element(p) == p
    && (p == [] || p[|p| - 1] !in LineBreaks)
  }

  /** `rstrip('\r\n')` of the name `lsco` echoes equals the queried name exactly when `ReportedOut` says so. */
  lemma {:induction false} EchoOfElement(p: Path)
    ensures RStrip(Element(p) + "\n", LineBreaks) == p
            <==> Element(p) == p && (p == [] || p[|p| - 1] !in LineBreaks)
  {
    var e := Element(p);
    assert (e + "\n")[..|e|] == e;
    assert RStrip(e + "\n", LineBreaks) == RStrip(e, LineBreaks);
    if e == p {
      if p != [] && p[|p| - 1] in LineBreaks {
        assert RStrip(p, LineBreaks) == RStrip(p[..|p| - 1], LineBreaks);
      }
    } else {
      assert |e| < |p|;
    }
  }

  // ---------------------------------------------------------------- queries

  /**
   * `is_versioned`: false without running the tool when the path is not on
   * disk; otherwise true when `ls -vob_only` exits 0 with some output.
   */
  function IsVersioned(w: World, p: Path): (r: (World, bool))
    ensures r.1 <==> Versioned(w.view, p)
    ensures r.0.view == w.view
    ensures r.0.log == if Exists(w.view, p) then w.log + [Ls(p)] else w.log
  {
    if !Exists(w.view, p) then (w, false)
    else
      var (w1, reply) := Run(w, Ls(p));
      (w1, reply.code == 0 && reply.out != "")
  }

  /** `is_checkout`: `lsco` exits 0 and its output, without trailing CR/LF, is the path itself. */
  function IsCheckout(w: World, p: Path): (r: (World, bool))
    ensures r.1 <==> ReportedOut(w.view, p)
    ensures r.0 == World(w.view, w.log + [Lsco(p)])
  {
    var (w1, reply) := Run(w, Lsco(p));
    QueryKeepsView(w.view, Lsco(p));
    EchoOfElement(p);
    assert Element(p) + "\n" != "";
    (w1, reply.code == 0 && reply.out != "" && RStrip(reply.out, LineBreaks) == p)
  }

  // ------------------------------------------------------ single elements

  /** The `co` command `checkout` issues; the comment is passed in double quotes. */
  function CoCmd(p: Path, comment: string, addVersion: bool): Cmd {
    Co(p, "\"" + comment + "\"", addVersion)
  }

  /**
   * `checkout`: refuses an unversioned path (unless a version is named),
   * then an already checked-out one, before issuing `co`; a failing `co`
   * raises.
   */
  function Checkout(w: World, p: Path, comment: string, addVersion: bool): (r: (World, Outcome<Error>))
    ensures Extends(w, r.0) && SameTree(w.view, r.0.view)
    ensures !addVersion && !Versioned(w.view, p)
            ==> r.1 == Fail(NotInCC(p)) && QueriesOnly(w, r.0)
    ensures (addVersion || Versioned(w.view, p)) && ReportedOut(w.view, p)
            ==> r.1 == Fail(AlreadyCheckedOut(p)) && QueriesOnly(w, r.0)
    ensures r.1 == Pass
            <==> (addVersion || Versioned(w.view, p)) && !ReportedOut(w.view, p)
                 && CoCmd(p, comment, addVersion) !in w.view.faults
    ensures r.0.view.checkouts
            == if r.1 == Pass then With(w.view.checkouts, Element(p)) else w.view.checkouts
    ensures forall i :: |w.log| <= i < |r.0.log| ==> r.0.log[i] in {Ls(p), Lsco(p), CoCmd(p, comment, addVersion)}
  {
    var known := if addVersion then (w, true) else IsVersioned(w, p);
    if !known.1 then (known.0, Fail(NotInCC(p)))
    else
      var out := IsCheckout(known.0, p);
      if out.1 then (out.0, Fail(AlreadyCheckedOut(p)))
      else
        var co := CoCmd(p, comment, addVersion);
        var done := Run(out.0, co);
        (done.0, if done.1.code != 0 then Fail(CommandFailed(co)) else Pass)
  }

  /** `uncheckout`: `unco -rm`; a failing command raises. */
  function Uncheckout(w: World, p: Path): (r: (World, Outcome<Error>))
    ensures SameTree(w.view, r.0.view) && r.0.log == w.log + [Unco(p)]
    ensures r.1 == Pass <==> Unco(p) !in w.view.faults
    ensures r.0.view.checkouts
            == if r.1 == Pass then Without(w.view.checkouts, p) else w.view.checkouts
  {
    var done := Run(w, Unco(p));
    (done.0, if done.1.code != 0 then Fail(CommandFailed(Unco(p))) else Pass)
  }

  /**
   * `checkin`: refuses a path that is not on disk (without running the
   * tool) or not checked out, before issuing `ci`; a failing `ci` raises.
   */
  function Checkin(w: World, p: Path): (r: (World, Outcome<Error>))
    ensures Extends(w, r.0) && SameTree(w.view, r.0.view)
    ensures !Exists(w.view, p) ==> r == (w, Fail(NotInCC(p)))
    ensures Exists(w.view, p) && !ReportedOut(w.view, p)
            ==> r.1 == Fail(NotCheckedOut(p)) && QueriesOnly(w, r.0)
    ensures r.1 == Pass <==> Exists(w.view, p) && ReportedOut(w.view, p) && Ci(p) !in w.view.faults
    ensures r.0.view.checkouts
            == if r.1 == Pass then Without(w.view.checkouts, p) else w.view.checkouts
    ensures forall i :: |w.log| <= i < |r.0.log| ==> r.0.log[i] in {Lsco(p), Ci(p)}
  {
    if !Exists(w.view, p) then (w, Fail(NotInCC(p)))
    else
      var out := IsCheckout(w, p);
      if !out.1 then (out.0, Fail(NotCheckedOut(p)))
      else
        var done := Run(out.0, Ci(p));
        (done.0, if done.1.code != 0 then Fail(CommandFailed(Ci(p))) else Pass)
  }

  /**
   * Check directory `d` out unless `lsco` reports it checked out already,
   * as `create_dir` and `remove_name` do with the parent directory.
   */
  function OpenDir(w: World, d: Path): (r: (World, Outcome<Error>))
    ensures Extends(w, r.0) && SameTree(w.view, r.0.view) && NoCheckin(w, r.0)
    ensures ReportedOut(w.view, d) ==> r.1 == Pass && NoCheckout(w, r.0)
    ensures r.1 == Pass && Element(d) == d ==> d in r.0.view.checkouts
    ensures forall x :: x in w.view.checkouts ==> x in r.0.view.checkouts
  {
    var (w1, out) := IsCheckout(w, d);
    if out then (w1, Pass)
    else
      var (w2, r2) := Checkout(w1, d, DirModificationComment, false);
      Chain(w, w1, w2);
      (w2, r2)
  }

  // ------------------------------------------------------------ creation

  /** The directory `create_dir` expects to exist: the dirname after one trailing '/' is dropped. */
  function ParentOf(p: Path): Path
    requires p != []
  {
    Dirname(if p[|p| - 1] == Sep then p[..|p| - 1] else p)
  }

  /** `mkdir` of `p`: the new directory is an element and checked out; a failure raises "creation_failed". */
  function MakeDir(w: World, p: Path): (r: (World, Outcome<Error>))
    ensures Extends(w, r.0) && Grows(w.view, r.0.view) && NoCheckin(w, r.0) && NoCheckout(w, r.0)
    ensures r.1 == Pass <==> Mkdir(p) !in w.view.faults
    ensures r.1 == Pass ==> p in r.0.view.dirs && p in r.0.view.versioned && p in r.0.view.checkouts
  {
    var (w1, reply) := Run(w, Mkdir(p));
    Step(w, Mkdir(p));
    (w1, if reply.code != 0 then Fail(CreationFailed(p)) else Pass)
  }

  /**
   * `create_dir`: raises on a path that is already a directory, then on a
   * parent that is not one; checks the parent out only when it is not
   * reported checked out; `mkdir` leaves the new directory checked out and
   * nothing is checked back in.
   */
  function CreateDir(w: World, p: Path): (r: (World, Outcome<Error>))
    ensures Extends(w, r.0) && Grows(w.view, r.0.view) && NoCheckin(w, r.0)
    ensures p in w.view.dirs ==> r == (w, Fail(AlreadyInCC(p)))
    ensures p !in w.view.dirs && p != [] && ParentOf(p) !in w.view.dirs
            ==> r == (w, Fail(NotInCC(ParentOf(p))))
    ensures p !in w.view.dirs && p != [] && ReportedOut(w.view, ParentOf(p)) ==> NoCheckout(w, r.0)
    ensures r.1 == Pass ==> p in r.0.view.dirs && p in r.0.view.versioned && p in r.0.view.checkouts
    ensures r.1 == Pass && p != [] && Element(ParentOf(p)) == ParentOf(p) ==> ParentOf(p) in r.0.view.checkouts
  {
    if p in w.view.dirs then (w, Fail(AlreadyInCC(p)))
    else if p == [] then (w, Fail(IndexError))
    else
      var parent := ParentOf(p);
      if parent !in w.view.dirs then (w, Fail(NotInCC(parent)))
      else
        var (w2, r2) := OpenDir(w, parent);
        if r2.Fail? then (w2, r2)
        else
          var (w3, r3) := MakeDir(w2, p);
          Chain(w, w2, w3);
          (w3, r3)
  }

  /**
   * The loop of `create_path` from prefix `current` over the remaining
   * segments: each prefix that is not a directory is created, and the first
   * failure stops the walk.
   */
  function CreatePathFrom(w: World, current: Path, segs: seq<string>): (r: (World, Outcome<Error>))
    ensures Extends(w, r.0) && Grows(w.view, r.0.view) && NoCheckin(w, r.0)
    decreases |segs|
  {
    if segs == [] then (w, Pass)
    else
      var next := current + segs[0];
      var (w1, r1) := if next in w.view.dirs then (w, Pass) else CreateDir(w, next);
      if r1.Fail? then (w1, r1)
      else
        var r := CreatePathFrom(w1, next + [Sep], segs[1..]);
        Chain(w, w1, r.0);
        r
  }

  /** The segments `create_path` walks: the path split at '/', the first (empty) piece dropped. */
  function Segments(p: Path): seq<string> {
    Split(p, Sep)[1..]
  }

  /** `create_path`: walk the prefixes of `p` from the root. */
  function CreatePath(w: World, p: Path): (r: (World, Outcome<Error>))
    ensures Extends(w, r.0) && Grows(w.view, r.0.view) && NoCheckin(w, r.0)
  {
    CreatePathFrom(w, [Sep], Segments(p))
  }

  /** The name under which `mkelem -nco` keeps the former content of `p`. */
  function Keep(p: Path): Path {
    p + ".keep"
  }

  /**
   * The part of `create_file` after the parent checkout: `mkelem` (a failure
   * raises "creation_failed"), checkout of the latest main-branch version,
   * the content moved back from `.keep`, and the checkin.
   */
  function AddElement(w: World, p: Path): (r: (World, Outcome<Error>))
    ensures Extends(w, r.0)
    ensures Mkelem(p) in w.view.faults ==> r == (Run(w, Mkelem(p)).0, Fail(CreationFailed(p)))
    ensures r.1 == Pass
            ==> p in r.0.view.versioned && p in r.0.view.files
                && p !in r.0.view.checkouts && Keep(p) !in r.0.view.files
  {
    var made := Run(w, Mkelem(p));
    Step(w, Mkelem(p));
    if made.1.code != 0 then (made.0, Fail(CreationFailed(p)))
    else
      var out := Checkout(made.0, p + LatestOnMain, NewFileComment, true);
      Chain(w, made.0, out.0);
      if out.1.Fail? then out
      else
        var r := RestoreContent(out.0, p);
        Chain(w, out.0, r.0);
        r
  }

  /**
   * The end of `create_file`: the content kept aside by `mkelem` is moved
   * back (a failure raises "creation_failed") and the file is checked in.
   */
  function RestoreContent(w: World, p: Path): (r: (World, Outcome<Error>))
    ensures Extends(w, r.0) && r.0.view.versioned == w.view.versioned
    ensures r.1 == Pass
            ==> p in r.0.view.files && p !in r.0.view.checkouts && Keep(p) !in r.0.view.files
  {
    var back := Run(w, Rename(Keep(p), p));
    Step(w, Rename(Keep(p), p));
    if back.1.code != 0 then (back.0, Fail(CreationFailed(p)))
    else
      assert p in back.0.view.files && Keep(p) !in back.0.view.files;
      var r := Checkin(back.0, p);
      Chain(w, back.0, r.0);
      r
  }

  /** The rename `create_file` issues first when a `.keep` file is in the way. */
  function KeepAside(p: Path): Cmd {
    Rename(Keep(p), Keep(p) + ".old")
  }

  /**
   * The start of `create_file` for an existing file: a `.keep` file in the
   * way is renamed aside; a failing rename raises. Only the files change.
   */
  function MoveKeepAside(w: World, p: Path): (r: (World, Outcome<Error>))
    requires p in w.view.files
    ensures Extends(w, r.0) && r.0.view == w.view.(files := r.0.view.files)
    ensures p in r.0.view.files
    ensures KeepAside(p) !in w.view.faults ==> r.1 == Pass
    ensures Keep(p) !in w.view.files ==> r == (w, Pass)
    ensures Keep(p) in w.view.files && r.1 == Pass
            ==> r.0.view.files == w.view.files - {Keep(p)} + {Keep(p) + ".old"}
    ensures r.1.Fail? ==> r.0.view == w.view && r.1 == Fail(OsError(KeepAside(p)))
  {
    if Keep(p) in w.view.files then
      var moved := Run(w, KeepAside(p));
      Step(w, KeepAside(p));
      assert p != Keep(p) + ".old" by { assert |p| < |Keep(p) + ".old"|; }
      (moved.0, if moved.1.code != 0 then Fail(OsError(KeepAside(p))) else Pass)
    else (w, Pass)
  }

  /** The parent of `p` is a versioned directory that `lsco` reports checked out. */
  predicate ParentOut(v: View, p: Path) {
    Versioned(v, Dirname(p)) && ReportedOut(v, Dirname(p))
  }

  /**
   * `create_file`: the file must exist; an old `.keep` is moved aside; the
   * parent is checked out unconditionally, so a parent already checked out
   * makes it raise before any element is made; then `AddElement`.
   */
  function CreateFile(w: World, p: Path): (r: (World, Outcome<Error>))
    ensures Extends(w, r.0)
    ensures p !in w.view.files ==> r == (w, Fail(FileNotExists(p)))
    ensures p in w.view.files && KeepAside(p) !in w.view.faults && ParentOut(w.view, p)
            ==> r.1 == Fail(AlreadyCheckedOut(Dirname(p))) && r.0.view.versioned == w.view.versioned
    ensures r.1 == Pass
            ==> p in r.0.view.versioned && p in r.0.view.files
                && p !in r.0.view.checkouts && Keep(p) !in r.0.view.files
  {
    if p !in w.view.files then (w, Fail(FileNotExists(p)))
    else
      var moved := MoveKeepAside(w, p);
      if moved.1.Fail? then moved
      else
        var out := Checkout(moved.0, Dirname(p), NewFileComment, false);
        Chain(w, moved.0, out.0);
        if out.1.Fail? then out
        else
          var r := AddElement(out.0, p);
          Chain(w, out.0, r.0);
          r
  }

  // --------------------------------------------------------------- removal

  /** Every checkin issued from `w` to `w'` is a checkin of `p`. */
  predicate ChecksInOnly(w: World, w': World, p: Path) {
    forall i :: |w.log| <= i < |w'.log| && w'.log[i].Ci? ==> w'.log[i] == Ci(p)
  }

  /**
   * The first half of unlinking in `remove_name`: a directory that `lsco`
   * reports checked out is checked in; nothing on disk changes.
   */
  function CheckinIfOut(w: World, p: Path): (r: (World, Outcome<Error>))
    ensures Extends(w, r.0) && NoCheckout(w, r.0) && ChecksInOnly(w, r.0, p)
    ensures SameTree(w.view, r.0.view)
    ensures r.1 == Pass && p in w.view.dirs && ReportedOut(w.view, p) ==> p !in r.0.view.checkouts
    ensures forall x :: x in w.view.checkouts && x != p ==> x in r.0.view.checkouts
  {
    var asked := if p in w.view.dirs then IsCheckout(w, p) else (w, false);
    if asked.1 then
      var checkedIn := Checkin(asked.0, p);
      Chain(w, asked.0, checkedIn.0);
      checkedIn
    else (asked.0, Pass)
  }

  /**
   * The part of `remove_name` after the parent checkout: a directory that
   * `lsco` reports checked out is checked in, then `rmname`.
   */
  function Unlink(w: World, p: Path): (r: (World, Outcome<Error>))
    ensures Extends(w, r.0) && NoCheckout(w, r.0) && ChecksInOnly(w, r.0, p)
    ensures Rmname(p) in w.view.faults ==> r.1.Fail?
    ensures r.1 == Pass ==> !Exists(r.0.view, p)
    ensures r.1 == Pass && p in w.view.dirs && ReportedOut(w.view, p) ==> p !in r.0.view.checkouts
    ensures forall x :: x in w.view.checkouts && x != p ==> x in r.0.view.checkouts
  {
    var checkedIn := CheckinIfOut(w, p);
    if checkedIn.1.Fail? then checkedIn
    else
      var w2 := checkedIn.0;
      var removed := Run(w2, Rmname(p));
      Step(w2, Rmname(p));
      Chain(w, w2, removed.0);
      RmnameEffect(w2.view, p);
      (removed.0, if removed.1.code != 0 then Fail(CommandFailed(Rmname(p))) else Pass)
  }

  /** What `rmname` answers and leaves: a rejected one changes nothing; an accepted one takes the path off disk and keeps the checkouts. */
  lemma RmnameEffect(v: View, p: Path)
    ensures Rmname(p) in v.faults ==> Answer(v, Rmname(p)).code != 0 && Effect(v, Rmname(p)) == v
    ensures Rmname(p) !in v.faults
            ==> Answer(v, Rmname(p)).code == 0 && !Exists(Effect(v, Rmname(p)), p)
                && Effect(v, Rmname(p)).checkouts == v.checkouts
                && Effect(v, Rmname(p)).faults == v.faults
  {
  }

  /**
   * `remove_name`: checks the parent out when `lsco` does not report it
   * checked out, then `Unlink`; the parent is never checked back in.
   */
  function RemoveName(w: World, p: Path): (r: (World, Outcome<Error>))
    ensures Extends(w, r.0) && ChecksInOnly(w, r.0, p)
    ensures ReportedOut(w.view, Dirname(p)) ==> NoCheckout(w, r.0)
    ensures Rmname(p) in w.view.faults ==> r.1.Fail?
    ensures r.1 == Pass ==> !Exists(r.0.view, p)
    ensures r.1 == Pass && p in w.view.dirs && ReportedOut(w.view, p) ==> p !in r.0.view.checkouts
    ensures r.1 == Pass && Element(Dirname(p)) == Dirname(p) && Dirname(p) != p
            ==> Dirname(p) in r.0.view.checkouts
  {
    var atParent := OpenDir(w, Dirname(p));
    if atParent.1.Fail? then
      ChecksInOnlyAfter(w, atParent.0, atParent.0, p);
      atParent
    else
      var r := Unlink(atParent.0, p);
      Chain(w, atParent.0, r.0);
      ChecksInOnlyAfter(w, atParent.0, r.0, p);
      r
  }

  /** A stretch without checkins followed by one that checks in only `p` checks in only `p`. */
  lemma ChecksInOnlyAfter(w: World, w1: World, w2: World, p: Path)
    requires Extends(w, w1) && Extends(w1, w2)
    requires NoCheckin(w, w1) && ChecksInOnly(w1, w2, p)
    ensures ChecksInOnly(w, w2, p)
  {
    assert forall i :: 0 <= i < |w1.log| ==> w2.log[i] == w2.log[..|w1.log|][i];
  }

  // ------------------------------------------------------- view-wide sweeps

  /**
   * What `list_checkouts` finds at the top-level entry `cur`: nothing unless
   * it is a versioned directory; then the entry itself when it is checked
   * out, followed by every line `lsco -r` prints below it.
   */
  function Inspect(w: World, cur: Path): (r: (World, Result<seq<Path>, Error>))
    ensures Extends(w, r.0) && r.0.view == w.view && QueriesOnly(w, r.0)
  {
    var (w1, top) := if cur in w.view.dirs then IsVersioned(w, cur) else (w, false);
    if !top then (w1, Ok([]))
    else
      var (w2, out) := IsCheckout(w1, cur);
      var (w3, reply) := Run(w2, LscoTree(cur));
      Step(w2, LscoTree(cur));
      Chain(w, w1, w2);
      Chain(w, w2, w3);
      if reply.code != 0 then (w3, Err(CommandFailed(LscoTree(cur))))
      else (w3, Ok((if out then [cur] else []) + (if reply.out == "" then [] else SplitLines(reply.out))))
  }

  /** The loop of `list_checkouts` over the root's entries `names`, `acc` holding what was found so far. */
  function Collect(w: World, root: Path, names: seq<string>, acc: seq<Path>): (r: (World, Result<seq<Path>, Error>))
    ensures Extends(w, r.0) && r.0.view == w.view && QueriesOnly(w, r.0)
    decreases |names|
  {
    if names == [] then (w, Ok(acc))
    else
      var (w1, found) := Inspect(w, root + [Sep] + names[0]);
      if found.Err? then (w1, found)
      else
        var r := Collect(w1, root, names[1..], acc + found.value);
        Chain(w, w1, r.0);
        r
  }

  /** `list_checkouts`: what `Collect` finds over the whole root listing, reversed. */
  function ListCheckouts(w: World, root: Path): (r: (World, Result<seq<Path>, Error>))
    ensures Extends(w, r.0) && r.0.view == w.view && QueriesOnly(w, r.0)
  {
    if root !in w.view.dirs then (w, Err(ListingFailed(root)))
    else
      var (w1, found) := Collect(w, root, w.view.listing, []);
      (w1, if found.Ok? then Ok(Reverse(found.value)) else found)
  }

  /** The loop of `checkin_all`: try each path, note the ones that raised and go on. */
  function CheckinEach(w: World, cos: seq<Path>, warned: seq<Path>): (r: (World, seq<Path>))
    ensures Extends(w, r.0) && SameTree(w.view, r.0.view)
    ensures forall x :: x in r.0.view.checkouts ==> x in w.view.checkouts
    decreases |cos|
  {
    if cos == [] then (w, warned)
    else
      var (w1, o) := Checkin(w, cos[0]);
      var r := CheckinEach(w1, cos[1..], if o.Fail? then warned + [cos[0]] else warned);
      Chain(w, w1, r.0);
      r
  }

  /**
   * `checkin_all`: list the checkouts (its failure propagates), then check
   * each in; the result lists the paths warned about. Only checkouts
   * change; every listed path ends checked in or warned about, and only
   * listed paths are warned about.
   */
  function CheckinAll(w: World, root: Path): (r: (World, Result<seq<Path>, Error>))
    ensures Extends(w, r.0) && SameTree(w.view, r.0.view)
    ensures forall x :: x in r.0.view.checkouts ==> x in w.view.checkouts
    ensures var listed := ListCheckouts(w, root);
            && (listed.1.Err? ==> r == (listed.0, Err(listed.1.error)))
            && (listed.1.Ok? ==> r.1.Ok?
                                 && (forall x :: x in listed.1.value ==> x in r.1.value || x !in r.0.view.checkouts)
                                 && (forall x :: x in r.1.value ==> x in listed.1.value))
  {
    var listed := ListCheckouts(w, root);
    if listed.1.Err? then (listed.0, Err(listed.1.error))
    else
      var swept := CheckinEach(listed.0, listed.1.value, []);
      CheckinEachSettles(listed.0, listed.1.value, []);
      Chain(w, listed.0, swept.0);
      (swept.0, Ok(swept.1))
  }

  /** Nothing exists below directory `d`: `os.listdir(d)` is empty. */
  predicate EmptyDir(v: View, d: Path) {
    (forall x :: x in v.dirs ==> !Below(x, d)) && (forall x :: x in v.files ==> !Below(x, d))
  }

  /**
   * One turn of `uncheckout_all`'s loop: cancel the checkout (a failure is
   * warned about and the path skipped); then remove the path when it is a
   * directory, empty and not reported versioned. The result says whether a
   * warning was given.
   */
  function UncheckoutOne(w: World, co: Path): (r: (World, Result<bool, Error>))
    ensures Extends(w, r.0) && |r.0.log| > |w.log| && r.0.log[|w.log|] == Unco(co)
    ensures forall i :: |w.log| <= i < |r.0.log| ==> r.0.log[i] in {Unco(co), Ls(co), Rmdir(co)}
    ensures Rmdir(co) in r.0.log[|w.log|..]
            ==> Unco(co) !in w.view.faults && co in w.view.dirs
                && EmptyDir(w.view, co) && !Versioned(w.view, co)
    ensures r.1 == Ok(true) <==> Unco(co) in w.view.faults
    ensures r.1 != Ok(true) ==> co !in r.0.view.checkouts
    ensures forall x :: x in r.0.view.checkouts ==> x in w.view.checkouts
    ensures r.0.view.listing == w.view.listing && r.0.view.faults == w.view.faults
  {
    var undone := Uncheckout(w, co);
    if undone.1.Fail? then (undone.0, Ok(true))
    else
      assert EmptyDir(undone.0.view, co) == EmptyDir(w.view, co);
      assert Versioned(undone.0.view, co) == Versioned(w.view, co);
      var r := RemoveIfEmpty(undone.0, co);
      assert r.0.log[|w.log|..] == [Unco(co)] + r.0.log[|undone.0.log|..];
      r
  }

  /**
   * The rest of one step of `uncheckout_all` once `unco` passed: an empty
   * directory that `ls` does not report versioned is removed with
   * `os.rmdir`, whose failure raises. Only the directories change.
   */
  function RemoveIfEmpty(w: World, co: Path): (r: (World, Result<bool, Error>))
    ensures Extends(w, r.0) && r.0.view == w.view.(dirs := r.0.view.dirs)
    ensures forall i :: |w.log| <= i < |r.0.log| ==> r.0.log[i] in {Ls(co), Rmdir(co)}
    ensures Rmdir(co) in r.0.log[|w.log|..]
            ==> co in w.view.dirs && EmptyDir(w.view, co) && !Versioned(w.view, co)
    ensures r.1 != Ok(true)
  {
    if co in w.view.dirs && EmptyDir(w.view, co) then
      var ver := IsVersioned(w, co);
      if ver.1 then (ver.0, Ok(false))
      else
        var removed := Run(ver.0, Rmdir(co));
        assert removed.0.log[|w.log|..] == [Ls(co), Rmdir(co)];
        (removed.0, if removed.1.code != 0 then Err(OsError(Rmdir(co))) else Ok(false))
    else (w, Ok(false))
  }

  /** The loop of `uncheckout_all` over `cos`; an OSError from `os.rmdir` escapes it. */
  function UncheckoutEach(w: World, cos: seq<Path>, warned: seq<Path>): (r: (World, Result<seq<Path>, Error>))
    ensures Extends(w, r.0)
    ensures forall x :: x in r.0.view.checkouts ==> x in w.view.checkouts
    ensures r.0.view.listing == w.view.listing && r.0.view.faults == w.view.faults
    decreases |cos|
  {
    if cos == [] then (w, Ok(warned))
    else
      var one := UncheckoutOne(w, cos[0]);
      if one.1.Err? then (one.0, Err(one.1.error))
      else
        var r := UncheckoutEach(one.0, cos[1..], if one.1.value then warned + [cos[0]] else warned);
        Chain(w, one.0, r.0);
        r
  }

  /**
   * `uncheckout_all`: list the checkouts (its failure propagates), then
   * cancel each. No checkout is opened and only listed directories are
   * removed; when it completes, every listed path ends not checked out or
   * warned about, and only listed paths are warned about.
   */
  function UncheckoutAll(w: World, root: Path): (r: (World, Result<seq<Path>, Error>))
    ensures Extends(w, r.0)
    ensures forall x :: x in r.0.view.checkouts ==> x in w.view.checkouts
    ensures r.0.view.listing == w.view.listing && r.0.view.faults == w.view.faults
    ensures var listed := ListCheckouts(w, root);
            && (listed.1.Err? ==> r == (listed.0, Err(listed.1.error)))
            && (listed.1.Ok? ==> RemovesOnly(listed.0, r.0, listed.1.value))
            && (r.1.Ok? ==> listed.1.Ok?
                            && (forall x :: x in listed.1.value ==> x in r.1.value || x !in r.0.view.checkouts)
                            && (forall x :: x in r.1.value ==> x in listed.1.value))
  {
    var listed := ListCheckouts(w, root);
    if listed.1.Err? then (listed.0, Err(listed.1.error))
    else
      var swept := UncheckoutEach(listed.0, listed.1.value, []);
      UncheckoutEachSettles(listed.0, listed.1.value, []);
      UncheckoutEachRemovesListed(listed.0, listed.1.value, []);
      Chain(w, listed.0, swept.0);
      swept
  }

  // ---------------------------------------------------------------- lemmas

  /** The prefix `create_path` has reached after segment `k`, starting from `current`. */
  function Reached(current: Path, segs: seq<string>, k: nat): Path
    requires k < |segs|
  {
    current + Join(segs[..k + 1], Sep)
  }

  /** Every prefix `create_path` walked through is a directory once it succeeds. */
  lemma {:induction false} CreatePathFromPrefixes(w: World, current: Path, segs: seq<string>)
    ensures var r := CreatePathFrom(w, current, segs);
            r.1 == Pass ==> forall k :: 0 <= k < |segs| ==> Reached(current, segs, k) in r.0.view.dirs
    decreases |segs|
  {
    if segs != [] {
      var next := current + segs[0];
      var made := if next in w.view.dirs then (w, Pass) else CreateDir(w, next);
      if made.1.Pass? {
        assert next in made.0.view.dirs;
        var r := CreatePathFrom(made.0, next + [Sep], segs[1..]);
        assert CreatePathFrom(w, current, segs) == r;
        CreatePathFromPrefixes(made.0, next + [Sep], segs[1..]);
        if r.1 == Pass {
          assert made.0.view.dirs <= r.0.view.dirs;
          forall k | 0 <= k < |segs|
            ensures Reached(current, segs, k) in r.0.view.dirs
          {
            ReachedStep(current, segs, k);
          }
        }
      }
    }
  }

  /** The prefix after segment `k` is the first segment's prefix, or is reached from it over the other segments. */
  lemma ReachedStep(current: Path, segs: seq<string>, k: nat)
    requires k < |segs|
    ensures k == 0 ==> Reached(current, segs, k) == current + segs[0]
    ensures k > 0 ==> Reached(current, segs, k) == Reached(current + segs[0] + [Sep], segs[1..], k - 1)
  {
    if k == 0 {
      assert segs[..1] == [segs[0]];
    } else {
      var tail := segs[1..][..k];
      assert segs[..k + 1][1..] == tail;
      assert Join(segs[..k + 1], Sep) == segs[0] + [Sep] + Join(tail, Sep);
    }
  }

  /** An absolute path is a '/' followed by its segments joined with '/'. */
  lemma AbsoluteSegments(p: Path)
    requires p != [] && p[0] == Sep
    ensures Segments(p) != [] && p == [Sep] + Join(Segments(p), Sep)
  {
    var parts := Split(p, Sep);
    if |parts| == 1 {
      assert false;
    }
    assert p == parts[0] + [Sep] + Join(parts[1..], Sep);
    if parts[0] != [] {
      assert false;
    }
  }

  /** A successful `create_path` of an absolute path leaves the path itself a directory. */
  lemma CreatePathMakesPath(w: World, p: Path)
    requires p != [] && p[0] == Sep
    ensures CreatePath(w, p).1 == Pass ==> p in CreatePath(w, p).0.view.dirs
  {
    AbsoluteSegments(p);
    var segs := Segments(p);
    assert segs[..|segs|] == segs;
    CreatePathFromPrefixes(w, [Sep], segs);
    assert Reached([Sep], segs, |segs| - 1) == p;
  }

  /** No open checkout has a line break in its name, so `lsco -r` output reads back exactly. */
  predicate PlainCheckouts(v: View) {
    forall x :: x in v.checkouts ==> NoneIn(x, LineBreaks)
  }

  /** `x` is checked out within `cur`, a versioned directory. */
  predicate FoundIn(v: View, cur: Path, x: Path) {
    x in v.checkouts && Within(x, cur) && cur in v.dirs && Versioned(v, cur)
  }

  /** `x` is checked out within a versioned directory `root/n`, `n` an entry of the root listing. */
  predicate FoundUnder(v: View, root: Path, x: Path) {
    exists n :: n in v.listing && FoundIn(v, root + [Sep] + n, x)
  }

  /** What `Inspect` reports for an entry is checked out within that entry, a versioned directory. */
  lemma InspectSound(w: World, cur: Path)
    requires PlainCheckouts(w.view)
    ensures Inspect(w, cur).1.Ok? ==> forall x :: x in Inspect(w, cur).1.value ==> FoundIn(w.view, cur, x)
  {
    var below := CheckoutsBelow(w.view.checkouts, cur);
    assert forall i :: 0 <= i < |below| ==> below[i] in w.view.checkouts;
    SplitLinesOfJoinLines(below);
  }

  /** Everything `Collect` adds to `acc` lies within a versioned top-level directory of the listing. */
  lemma {:induction false} CollectSound(w: World, root: Path, names: seq<string>, acc: seq<Path>)
    requires PlainCheckouts(w.view)
    requires forall n :: n in names ==> n in w.view.listing
    requires forall x :: x in acc ==> FoundUnder(w.view, root, x)
    ensures Collect(w, root, names, acc).1.Ok?
            ==> forall x :: x in Collect(w, root, names, acc).1.value ==> FoundUnder(w.view, root, x)
    decreases |names|
  {
    if names != [] {
      var cur := root + [Sep] + names[0];
      var (w1, found) := Inspect(w, cur);
      if found.Ok? {
        InspectSound(w, cur);
        assert names[0] in w.view.listing;
        assert forall x :: x in found.value ==> FoundUnder(w.view, root, x);
        assert forall n :: n in names[1..] ==> n in names;
        CollectSound(w1, root, names[1..], acc + found.value);
      }
    }
  }

  /**
   * `list_checkouts` reports only checkouts lying within a versioned
   * top-level directory of the view (when checkout names hold no line break).
   */
  lemma ListCheckoutsSound(w: World, root: Path)
    requires PlainCheckouts(w.view)
    ensures var r := ListCheckouts(w, root);
            r.1.Ok? ==> forall x :: x in r.1.value ==> FoundUnder(w.view, root, x)
  {
    if root in w.view.dirs {
      CollectSound(w, root, w.view.listing, []);
      var found := Collect(w, root, w.view.listing, []).1;
      if found.Ok? {
        var rev := Reverse(found.value);
        forall x | x in rev ensures x in found.value {
          var i :| 0 <= i < |rev| && rev[i] == x;
          assert found.value[|found.value| - 1 - i] == x;
        }
      }
    }
  }

  /**
   * `checkin_all`'s loop tries every path and goes on past failures: each
   * path is warned about or no longer checked out, and warnings name only
   * paths of the list.
   */
  lemma {:induction false} CheckinEachSettles(w: World, cos: seq<Path>, warned: seq<Path>)
    ensures var r := CheckinEach(w, cos, warned);
            StartsWith(r.1, warned)
            && (forall x :: x in r.1 ==> x in warned || x in cos)
            && (forall x :: x in cos ==> x in r.1 || x !in r.0.view.checkouts)
    decreases |cos|
  {
    if cos != [] {
      var (w1, o) := Checkin(w, cos[0]);
      var warned1 := if o.Fail? then warned + [cos[0]] else warned;
      CheckinEachSettles(w1, cos[1..], warned1);
      var r := CheckinEach(w1, cos[1..], warned1);
      assert CheckinEach(w, cos, warned) == r;
      assert StartsWith(r.1, warned1);
      assert r.1[..|warned|] == warned1[..|warned|];
      forall x | x in r.1 ensures x in warned || x in cos {
        if x in cos[1..] { assert x in cos; }
      }
      forall x | x in cos ensures x in r.1 || x !in r.0.view.checkouts {
        if x == cos[0] {
          if o.Fail? {
            assert r.1[|warned|] == x;
          }
        } else {
          assert x in cos[1..];
        }
      }
    }
  }

  /**
   * `uncheckout_all`'s loop tries every path and goes on past failed
   * uncheckouts: each path is warned about or no longer checked out, and
   * warnings name only paths of the list.
   */
  lemma {:induction false} UncheckoutEachSettles(w: World, cos: seq<Path>, warned: seq<Path>)
    ensures var r := UncheckoutEach(w, cos, warned);
            r.1.Ok?
            ==> StartsWith(r.1.value, warned)
                && (forall x :: x in r.1.value ==> x in warned || x in cos)
                && (forall x :: x in cos ==> x in r.1.value || x !in r.0.view.checkouts)
    decreases |cos|
  {
    if cos != [] {
      var one := UncheckoutOne(w, cos[0]);
      var w1, o := one.0, one.1;
      if o.Ok? {
        var warned1 := if o.value then warned + [cos[0]] else warned;
        UncheckoutEachSettles(w1, cos[1..], warned1);
        var r := UncheckoutEach(w1, cos[1..], warned1);
        assert UncheckoutEach(w, cos, warned) == r;
        if r.1.Ok? {
          assert StartsWith(r.1.value, warned1);
          assert r.1.value[..|warned|] == warned1[..|warned|];
          forall x | x in r.1.value ensures x in warned || x in cos {
            if x in cos[1..] { assert x in cos; }
          }
          forall x | x in cos ensures x in r.1.value || x !in r.0.view.checkouts {
            if x == cos[0] {
              if o.value {
                assert r.1.value[|warned|] == x;
              }
            } else {
              assert x in cos[1..];
            }
          }
        }
      }
    }
  }

  /** Every `os.rmdir` issued from `w` to `w'` removes a path of `cos`. */
  predicate RemovesOnly(w: World, w': World, cos: seq<Path>) {
    forall i :: |w.log| <= i < |w'.log| && w'.log[i].Rmdir? ==> w'.log[i].path in cos
  }

  /** `uncheckout_all`'s loop removes only directories of the list it sweeps. */
  lemma {:induction false} UncheckoutEachRemovesListed(w: World, cos: seq<Path>, warned: seq<Path>)
    ensures RemovesOnly(w, UncheckoutEach(w, cos, warned).0, cos)
    decreases |cos|
  {
    if cos != [] {
      var one := UncheckoutOne(w, cos[0]);
      var w1 := one.0;
      assert RemovesOnly(w, w1, cos) by {
        forall i | |w.log| <= i < |w1.log| && w1.log[i].Rmdir? ensures w1.log[i].path in cos {
          assert w1.log[i].path == cos[0];
        }
      }
      if one.1.Ok? {
        var warned1 := if one.1.value then warned + [cos[0]] else warned;
        UncheckoutEachRemovesListed(w1, cos[1..], warned1);
        var w2 := UncheckoutEach(w1, cos[1..], warned1).0;
        assert UncheckoutEach(w, cos, warned).0 == w2;
        RemovesOnlyChain(w, w1, w2, cos);
      }
    }
  }

  /** The removals of two consecutive stretches of the log, the second from the tail of `cos`, are removals from `cos`. */
  lemma RemovesOnlyChain(w: World, w1: World, w2: World, cos: seq<Path>)
    requires cos != [] && Extends(w, w1) && Extends(w1, w2)
    requires RemovesOnly(w, w1, cos) && RemovesOnly(w1, w2, cos[1..])
    ensures RemovesOnly(w, w2, cos)
  {
    forall i | |w.log| <= i < |w2.log| && w2.log[i].Rmdir? ensures w2.log[i].path in cos {
      if i < |w1.log| {
        assert w2.log[i] == w2.log[..|w1.log|][i] == w1.log[i];
      } else {
        assert w2.log[i].path in cos[1..];
      }
    }
  }
}
