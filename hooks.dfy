/**
 * What the two hook scripts act on: the ClearCase view (through the
 * operations of ClearCase.py) and git (through GIT.py). A `Site` is that
 * outside world as the hooks see it: the ClearCase world, and the trace of
 * the calls the hooks made on it, oldest first.
 *
 * The hook scripts also call operations that ClearCase.py and GIT.py do not
 * define, or define with another number of arguments. Those are recorded in
 * the trace and otherwise left open: whether one raises is given by the
 * site's `raising` set, and none of them changes the view, except that a
 * `remove_name` that returns leaves its path, and everything below it, gone.
 */
module Hooks {
  import opened Results
  import opened Process
  import opened Cleartool
  import M = ClearCaseModel
  import G = Git
  import HooksConfig

  /** A call a hook makes on ClearCase or on git. */
  datatype Call =
    // ClearCase.py operations
    | CreatePath(path: Path)
    | Checkout(path: Path, comment: string)
    | UncheckoutAll
    // called by the hooks, not defined by ClearCase.py (or with other arguments)
    | MakeLabel(path: Path, name: string)
    | RemoveName(path: Path, coList: nat)
    | CreateFile(path: Path, labels: string, coList: nat)
    | CheckinFile(path: Path, labels: string)
    | CheckinList(coList: nat)
    | CheckinListLabelled(coList: nat, labels: string)
    | LastCommitLabels(viewPath: Path)
    // GIT.py operations
    | GetCommitter(revision: string)
    | GetCommentsList(oldRevision: string, newRevision: string)
    | GetCommitFiles(oldRevision: string, newRevision: string)
    | ListDeletions(oldRevision: string, newRevision: string)
    | Pull(viewPath: Path)

  /** A call that reads git and leaves ClearCase alone. */
  predicate IsGitCall(c: Call) {
    c.GetCommitter? || c.GetCommentsList? || c.GetCommitFiles? || c.ListDeletions? || c.Pull?
  }

  /**
   * What git answers during one hook run, in which the old and the new
   * revision are fixed: the replies of `git log` (the committer), `git
   * rev-list`, the per-commit message pipeline, `git diff --name-status`,
   * `git diff-tree` (the deletions) and `git pull`, and the value
   * `last_commit_labels` returns.
   */
  datatype Repo = Repo(
    log: Reply,
    revList: Reply,
    message: string -> Reply,
    diff: Reply,
    deletions: Reply,
    pull: Reply,
    labels: string)

  /**
   * The outside world during a hook run. The `coList` number a call carries
   * stands for the Python list (`co_list`, `list_co`) handed to an undefined
   * operation: the number is the identity of the list.
   */
  datatype Site = Site(world: M.World, trace: seq<Call>, raising: set<Call>)

  /** Why a hook stopped: the exception that ended it, or `sys.exit(1)` on an unsupported status. */
  datatype Failure =
    | CC(ccError: M.Error)                          // CCError
    | GitFailed(gitError: G.GitError)                // GITError
    | ConfigFailed(configError: HooksConfig.ConfigError) // ConfigException
    | Raised(call: Call)                            // whatever an undefined operation raised
    | IndexError
    | TypeError                                     // a string concatenated with None
    | AttributeError                                // a method called on None
    | Unsupported(status: string)                   // sys.exit(1)

  /** `s` with `c` appended to its trace. */
  function Record(s: Site, c: Call): (r: Site)
    ensures r.world == s.world && r.raising == s.raising
    ensures r.trace == s.trace + [c]
  {
    s.(trace := s.trace + [c])
  }

  /** The site after `s`: same raising set, trace extended. */
  predicate Later(s: Site, s': Site) {
    s'.raising == s.raising && |s.trace| <= |s'.trace| && s'.trace[..|s.trace|] == s.trace
  }

  lemma LaterTrans(s1: Site, s2: Site, s3: Site)
    requires Later(s1, s2) && Later(s2, s3)
    ensures Later(s1, s3)
  {
    assert s3.trace[..|s1.trace|] == s3.trace[..|s2.trace|][..|s1.trace|];
  }

  /** A ClearCase outcome seen from the hook. */
  function Lift(o: Outcome<M.Error>): (r: Outcome<Failure>)
    ensures r == Pass <==> o == Pass
    ensures o.Fail? ==> r == Fail(CC(o.error))
  {
    if o.Pass? then Pass else Fail(CC(o.error))
  }

  /** An undefined operation other than `remove_name`: recorded; raises iff in `raising`; changes nothing else. */
  function Foreign(s: Site, c: Call): (r: (Site, Outcome<Failure>))
    ensures r.0 == Record(s, c)
    ensures r.1 == Pass <==> c !in s.raising
    ensures r.1.Fail? ==> r.1.error == Raised(c)
  {
    (Record(s, c), if c in s.raising then Fail(Raised(c)) else Pass)
  }

  /** The view with `p` and everything below it gone from disk and from version control. */
  function Unlinked(v: View, p: Path): (r: View)
    ensures forall q :: Exists(r, q) <==> Exists(v, q) && !Within(q, p)
    ensures r.checkouts == v.checkouts && r.faults == v.faults
  {
    v.(dirs := (set d | d in v.dirs && !Within(d, p)),
       files := (set f | f in v.files && !Within(f, p)),
       versioned := (set e | e in v.versioned && !Within(e, p)))
  }

  /** The two-argument `remove_name(path, co_list)`: when it returns, `path` and all below it are gone. */
  function RemoveNameInto(s: Site, p: Path, coList: nat): (r: (Site, Outcome<Failure>))
    ensures r.0.trace == s.trace + [RemoveName(p, coList)] && r.0.raising == s.raising
    ensures r.1 == Pass <==> RemoveName(p, coList) !in s.raising
    ensures r.1 == Pass ==> forall q :: Exists(r.0.world.view, q) <==> Exists(s.world.view, q) && !Within(q, p)
    ensures r.1.Fail? ==> r.0.world == s.world && r.1.error == Raised(RemoveName(p, coList))
  {
    var c := RemoveName(p, coList);
    if c in s.raising then (Record(s, c), Fail(Raised(c)))
    else (Site(M.World(Unlinked(s.world.view, p), s.world.log), s.trace + [c], s.raising), Pass)
  }

  /** `ClearCase().create_path(p)`. */
  function RunCreatePath(s: Site, p: Path): (r: (Site, Outcome<Failure>))
    ensures r.0.trace == s.trace + [CreatePath(p)] && r.0.raising == s.raising
  {
    var (w, o) := M.CreatePath(s.world, p);
    (Site(w, s.trace + [CreatePath(p)], s.raising), Lift(o))
  }

  /** `ClearCase().checkout(p, comment)`, without `addVersion`. */
  function RunCheckout(s: Site, p: Path, comment: string): (r: (Site, Outcome<Failure>))
    ensures r.0.trace == s.trace + [Checkout(p, comment)] && r.0.raising == s.raising
  {
    var (w, o) := M.Checkout(s.world, p, comment, false);
    (Site(w, s.trace + [Checkout(p, comment)], s.raising), Lift(o))
  }

  /** `ClearCase().uncheckout_all()` on the view rooted at `root`; the paths it only warned about are dropped. */
  function RunUncheckoutAll(s: Site, root: Path): (r: (Site, Outcome<Failure>))
    ensures r.0.trace == s.trace + [UncheckoutAll] && r.0.raising == s.raising
  {
    var (w, o) := M.UncheckoutAll(s.world, root);
    (Site(w, s.trace + [UncheckoutAll], s.raising), if o.Ok? then Pass else Fail(CC(o.error)))
  }
}
