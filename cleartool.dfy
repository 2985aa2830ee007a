/**
 * The ClearCase side as ClearCase.py sees it: a view (the directories and
 * files on disk, the elements under version control, the open checkouts)
 * and the commands that read or change it. Each command answers with an
 * exit status and an output text and, when it succeeds, changes the view.
 *
 * Which commands fail for reasons outside this model (locks, permissions,
 * a broken VOB) is not known: the view carries that as `faults`, the set of
 * commands the tool rejects with a non-zero status.
 */
module Cleartool {
  import opened Strings
  import opened Process

  type Path = string

  /** Suffix of the version-extended name that designates the latest version on the main branch. */
  const LatestOnMain: string := "@@/main/LATEST"

  /** The commands ClearCase.py issues: `cleartool` subcommands and its own two file system changes. */
  datatype Cmd =
    | Ls(path: Path)                                // cleartool ls -vob_only <path>
    | Lsco(path: Path)                              // cleartool lsco -s -d -cvi <path>
    | LscoTree(path: Path)                          // cleartool lsco -s -r -cvi <path>
    | Co(path: Path, comment: string, ver: bool)    // cleartool co -c <comment> [-ver] <path>
    | Ci(path: Path)                                // cleartool ci -nc <path>
    | Unco(path: Path)                              // cleartool unco -rm <path>
    | Mkdir(path: Path)                             // cleartool mkdir -c <comment> <path>
    | Mkelem(path: Path)                            // cleartool mkelem -nc -nco <path>
    | Rmname(path: Path)                            // cleartool rmname <path>
    | Rename(src: Path, dst: Path)                  // os.rename
    | Rmdir(path: Path)                             // os.rmdir

  /** A command that only reads the view. */
  predicate IsQuery(c: Cmd) {
    c.Ls? || c.Lsco? || c.LscoTree?
  }

  /**
   * The view: `dirs` and `files` are what exists on disk, `versioned` the
   * paths that are elements, `checkouts` the open checkouts in the order they
   * were made, `listing` what `os.listdir` gives for the view's root, and
   * `faults` the commands the tool rejects.
   */
  datatype View = View(
    dirs: set<Path>,
    files: set<Path>,
    versioned: set<Path>,
    checkouts: seq<Path>,
    listing: seq<string>,
    faults: set<Cmd>)

  /** Python's `os.path.exists`. */
  predicate Exists(v: View, p: Path) {
    p in v.dirs || p in v.files
  }

  /** The element a name designates: a version-extended name `x@@/main/LATEST` designates `x`. */
  function Element(p: Path): Path {
    if EndsWith(p, LatestOnMain) then p[..|p| - |LatestOnMain|] else p
  }

  /** `p` lies strictly below directory `q`. */
  predicate Below(p: Path, q: Path) {
    StartsWith(p, q + "/")
  }

  /** `p` is `q` or lies below it. */
  predicate Within(p: Path, q: Path) {
    p == q || Below(p, q)
  }

  /** The checkouts strictly below `q`, in checkout order. */
  function CheckoutsBelow(cos: seq<Path>, q: Path): (r: seq<Path>)
    ensures forall x :: x in r <==> x in cos && Below(x, q)
  {
    if cos == [] then []
    else (if Below(cos[0], q) then [cos[0]] else []) + CheckoutsBelow(cos[1..], q)
  }

  /** `cos` with every occurrence of `p` dropped. */
  function Without(cos: seq<Path>, p: Path): (r: seq<Path>)
    ensures forall x :: x in r <==> x in cos && x != p
  {
    if cos == [] then []
    else (if cos[0] == p then [] else [cos[0]]) + Without(cos[1..], p)
  }

  /** `cos` with `p` added at the end unless it is already there. */
  function With(cos: seq<Path>, p: Path): (r: seq<Path>)
    ensures forall x :: x in r <==> x in cos || x == p
  {
    if p in cos then cos else cos + [p]
  }

  /**
   * What the tool prints and returns for `c` in view `v`. `ls -vob_only`
   * lists an element and nothing else; `lsco` prints the name of the
   * checked-out element; a rename fails when its source file is missing.
   */
  function Answer(v: View, c: Cmd): Reply {
    if c in v.faults then Reply(1, "")
    else match c
      case Ls(p) => Reply(0, if p in v.versioned then p + "\n" else "")
      case Lsco(p) => Reply(0, if Element(p) in v.checkouts then Element(p) + "\n" else "")
      case LscoTree(p) => Reply(0, JoinLines(CheckoutsBelow(v.checkouts, p)))
      case Rename(src, _) => if src in v.files then Reply(0, "") else Reply(1, "")
      case _ => Reply(0, "")
  }

  /**
   * The view after `c`. A failed command changes nothing. A checkout opens the
   * element; `mkdir` creates a directory element and leaves it checked out;
   * `mkelem -nco` makes an element of the file and keeps its former content
   * aside as `<path>.keep`; `rmname` takes the name and all below it out of
   * the directory.
   */
  function Effect(v: View, c: Cmd): View {
    if Answer(v, c).code != 0 then v
    else match c
      case Co(p, _, _) => v.(checkouts := With(v.checkouts, Element(p)))
      case Ci(p) => v.(checkouts := Without(v.checkouts, p))
      case Unco(p) => v.(checkouts := Without(v.checkouts, p))
      case Mkdir(p) => v.(dirs := v.dirs + {p}, versioned := v.versioned + {p},
                          checkouts := With(v.checkouts, p))
      case Mkelem(p) => v.(versioned := v.versioned + {p}, files := v.files + {p + ".keep"})
      case Rmname(p) => v.(dirs := (set d | d in v.dirs && !Within(d, p)),
                           files := (set f | f in v.files && !Within(f, p)),
                           versioned := (set e | e in v.versioned && !Within(e, p)))
      case Rename(src, dst) => v.(files := v.files - {src} + {dst})
      case Rmdir(p) => v.(dirs := v.dirs - {p})
      case _ => v
  }

  /** A query leaves the view as it was. */
  lemma QueryKeepsView(v: View, c: Cmd)
    requires IsQuery(c)
    ensures Effect(v, c) == v
  {
  }
}
