/**
 * install.py: from the directory the installer runs in, find the git
 * directory and its `hooks` directory, then work out the two hook links,
 * the message catalogues to copy and where the configuration goes. The
 * file-system effects themselves (chmod, symlink, makedirs, copy, msgfmt,
 * copytree) are not modelled; the paths they act on and the existence
 * checks that decide between them are.
 */
module Install {
  import opened Results
  import opened Strings

  /** InstallerError, by its message. */
  datatype InstallerError = InstallerError(value: string)

  /** Python's `list.index`, with `|xs|` standing for the ValueError when `x` is absent: the first position of `x`. */
  function IndexOf(xs: seq<string>, x: string): (i: nat)
    ensures i <= |xs|
    ensures i < |xs| <==> x in xs
    ensures i < |xs| ==> xs[i] == x
    ensures forall j :: 0 <= j < i ==> xs[j] != x
  {
    if xs == [] then 0 else if xs[0] == x then 0 else 1 + IndexOf(xs[1..], x)
  }

  /**
   * The value the detection loop leaves in `git_index` once it has read
   * the first `n` components: each component ending in ".git" sets it to
   * the first position of that same value in the whole list.
   */
  function GitIndex(parts: seq<string>, n: nat): (gi: nat)
    requires n <= |parts|
    ensures gi == 0 || (gi < n && EndsWith(parts[gi], ".git"))
    ensures (forall j :: 0 <= j < n ==> !EndsWith(parts[j], ".git")) ==> gi == 0
  {
    if n == 0 then 0
    else if EndsWith(parts[n - 1], ".git") then IndexOf(parts, parts[n - 1])
    else GitIndex(parts, n - 1)
  }

  /** The last component ending in ".git" decides: its value's first position. */
  lemma {:induction false} GitIndexOfLast(parts: seq<string>, n: nat, j: nat)
    requires j < n <= |parts| && EndsWith(parts[j], ".git")
    requires forall k :: j < k < n ==> !EndsWith(parts[k], ".git")
    ensures GitIndex(parts, n) == IndexOf(parts, parts[j])
  {
    if j < n - 1 {
      GitIndexOfLast(parts, n - 1, j);
    }
  }

  /**
   * Two components with the same value ending in ".git": the loop keeps the
   * position of the first of them, although it reads the last one last.
   */
  lemma RepeatedGitComponent()
    ensures GitIndex(["", "r.git", "b", "r.git", "hooks"], 5) == 1
  {
    var parts := ["", "r.git", "b", "r.git", "hooks"];
    assert EndsWith(parts[3], ".git") && !EndsWith(parts[4], ".git");
    assert parts[1] == "r.git";
  }

  /** The two directories the installer works on. */
  datatype Layout = Layout(hookspath: string, gitpath: string)

  /**
   * The detection in `main`: the working directory's components, the
   * `.git` component at a position above 0, and a first `hooks` component
   * after it; `hookspath` and `gitpath` are the components up to each.
   */
  function Detect(cwd: string): (r: Result<Layout, InstallerError>)
    ensures var parts := Split(cwd, '/');
            var gi := GitIndex(parts, |parts|);
            r.Ok? <==> gi > 0 && "hooks" in parts && gi < IndexOf(parts, "hooks")
    ensures r.Err? ==> r.error == InstallerError("Repository not detected")
  {
    var parts := Split(cwd, '/');
    var gi := GitIndex(parts, |parts|);
    if gi > 0 && "hooks" in parts && gi < IndexOf(parts, "hooks") then
      var hi := IndexOf(parts, "hooks");
      Ok(Layout(Join(parts[..hi + 1], '/'), Join(parts[..gi + 1], '/')))
    else Err(InstallerError("Repository not detected"))
  }

  /**
   * A detected layout nests as the installer expects: the git directory
   * ends in ".git" and lies strictly inside the path of `hooks`, which
   * ends in "/hooks" and holds the working directory.
   */
  lemma DetectNests(cwd: string)
    requires Detect(cwd).Ok?
    ensures var l := Detect(cwd).value;
            && EndsWith(l.gitpath, ".git")
            && EndsWith(l.hookspath, "/hooks")
            && StartsWith(l.hookspath, l.gitpath + "/")
            && StartsWith(cwd, l.hookspath)
  {
    var parts, gi, hi := DetectedParts(cwd);
    var l := Detect(cwd).value;
    NestedJoins(parts, gi, hi);
  }

  /** The components behind a detected layout, and the positions of `.git` and `hooks` among them. */
  lemma {:induction false} DetectedParts(cwd: string) returns (parts: seq<string>, gi: nat, hi: nat)
    requires Detect(cwd).Ok?
    ensures Join(parts, '/') == cwd
    ensures 1 <= gi < hi < |parts| && EndsWith(parts[gi], ".git") && parts[hi] == "hooks"
    ensures Detect(cwd).value == Layout(Join(parts[..hi + 1], '/'), Join(parts[..gi + 1], '/'))
  {
    parts := Split(cwd, '/');
    gi := GitIndex(parts, |parts|);
    hi := IndexOf(parts, "hooks");
  }

  /** The joins of the components up to `.git`, up to `hooks` and of all of them nest. */
  lemma {:induction false} NestedJoins(parts: seq<string>, gi: nat, hi: nat)
    requires 1 <= gi < hi < |parts| && EndsWith(parts[gi], ".git") && parts[hi] == "hooks"
    ensures var gitpath := Join(parts[..gi + 1], '/');
            var hookspath := Join(parts[..hi + 1], '/');
            && EndsWith(gitpath, ".git")
            && EndsWith(hookspath, "/hooks")
            && StartsWith(hookspath, gitpath + "/")
            && StartsWith(Join(parts, '/'), hookspath)
  {
    JoinEndsWithLast(parts, gi + 1, ".git");
    HooksPathEnds(parts, hi);
    JoinPrefix(parts, gi + 1, hi + 1);
    JoinHolds(parts, hi + 1);
  }

  lemma {:induction false} HooksPathEnds(parts: seq<string>, hi: nat)
    requires 1 <= hi < |parts| && parts[hi] == "hooks"
    ensures EndsWith(Join(parts[..hi + 1], '/'), "/hooks")
  {
    JoinLast(parts, hi + 1);
    assert Join(parts[..hi], '/') + "/" + "hooks" == Join(parts[..hi], '/') + "/hooks";
    EndsWithAppend(Join(parts[..hi], '/'), "/hooks", "/hooks");
  }

  /** The join of all the components starts with the join of the first `n`. */
  lemma {:induction false} JoinHolds(parts: seq<string>, n: nat)
    requires 1 <= n <= |parts|
    ensures StartsWith(Join(parts, '/'), Join(parts[..n], '/'))
  {
    if n < |parts| {
      JoinPrefix(parts, n, |parts|);
      assert parts[..|parts|] == parts;
      StartsWithShorter(Join(parts, '/'), Join(parts[..n], '/'));
    } else {
      assert parts[..n] == parts;
    }
  }

  lemma StartsWithShorter(s: string, p: string)
    requires StartsWith(s, p + "/")
    ensures StartsWith(s, p)
  {
    assert s[..|p|] == s[..|p + "/"|][..|p|];
  }

  /** The join of the first `n` components ends as component `n - 1` does. */
  lemma {:induction false} JoinEndsWithLast(parts: seq<string>, n: nat, suffix: string)
    requires 2 <= n <= |parts| && EndsWith(parts[n - 1], suffix)
    ensures EndsWith(Join(parts[..n], '/'), suffix)
  {
    JoinLast(parts, n);
    EndsWithAppend(Join(parts[..n - 1], '/') + "/", parts[n - 1], suffix);
  }

  /** The join of the first `n` components is that of the first `n - 1`, a separator, and component `n - 1`. */
  lemma {:induction false} JoinLast(parts: seq<string>, n: nat)
    requires 2 <= n <= |parts|
    ensures Join(parts[..n], '/') == Join(parts[..n - 1], '/') + "/" + parts[n - 1]
  {
    assert parts[..n] == parts[..n - 1] + [parts[n - 1]];
    JoinAppend(parts[..n - 1], [parts[n - 1]], '/');
  }

  /** Joining a longer prefix of the components extends the join of a shorter one, past a separator. */
  lemma {:induction false} JoinPrefix(parts: seq<string>, m: nat, n: nat)
    requires 1 <= m < n <= |parts|
    ensures StartsWith(Join(parts[..n], '/'), Join(parts[..m], '/') + "/")
  {
    assert parts[..n] == parts[..m] + parts[m..n];
    JoinAppend(parts[..m], parts[m..n], '/');
  }

  lemma EndsWithAppend(a: string, b: string, suffix: string)
    requires EndsWith(b, suffix)
    ensures EndsWith(a + b, suffix)
  {
    assert (a + b)[|a + b| - |suffix|..] == b[|b| - |suffix|..];
  }

  /** The script a hook link points at, in the installer's directory. */
  function Script(cwd: string, name: string): string {
    cwd + "/" + name
  }

  /** Where the hook link named `name` goes. */
  function Link(hookspath: string, name: string): string {
    hookspath + "/" + name
  }

  /**
   * `install_executables`, given the names that already exist
   * (`os.path.lexists`): the links made, link path to target, and the
   * outcome. The update link is checked and made first, so a clash on the
   * post-receive link leaves it made.
   */
  function InstallExecutables(cwd: string, hookspath: string, present: set<string>): (r: (map<string, string>, Outcome<InstallerError>))
    ensures Link(hookspath, "update") in present ==> r.1 == Fail(InstallerError("update link already exists."))
    ensures Link(hookspath, "update") !in present && Link(hookspath, "post-receive") in present
            ==> r.1 == Fail(InstallerError("post-receive link already exists."))
    ensures r.1 == Pass <==> Link(hookspath, "update") !in present && Link(hookspath, "post-receive") !in present
    ensures forall l :: l in r.0 ==> l !in present
    ensures r.1 == Pass ==> r.0 == map[Link(hookspath, "update") := Script(cwd, "update.py"),
                                       Link(hookspath, "post-receive") := Script(cwd, "post-receive.py")]
  {
    var update := Link(hookspath, "update");
    var postReceive := Link(hookspath, "post-receive");
    if update in present then (map[], Fail(InstallerError("update link already exists.")))
    else
      var links := map[update := Script(cwd, "update.py")];
      if postReceive in present then (links, Fail(InstallerError("post-receive link already exists.")))
      else (links[postReceive := Script(cwd, "post-receive.py")], Pass)
  }

  /** A completed `install_executables` makes two distinct links, both in the hooks directory. */
  lemma TwoLinks(cwd: string, hookspath: string, present: set<string>)
    requires InstallExecutables(cwd, hookspath, present).1 == Pass
    ensures var links := InstallExecutables(cwd, hookspath, present).0;
            |links| == 2 && forall l :: l in links ==> StartsWith(l, hookspath + "/")
  {
    var update := Link(hookspath, "update");
    var postReceive := Link(hookspath, "post-receive");
    assert update[|hookspath| + 1..] == "update";
    assert postReceive[|hookspath| + 1..] == "post-receive";
    var links := InstallExecutables(cwd, hookspath, present).0;
    assert links.Keys == {update, postReceive};
    assert update[..|hookspath| + 1] == hookspath + "/";
    assert postReceive[..|hookspath| + 1] == hookspath + "/";
  }

  /** The catalogue `install_language` looks for, for one item of `messages`. */
  function Source(cwd: string, item: string): string {
    cwd + "/messages/" + item + "/" + item + ".po"
  }

  /** The directory the catalogue of `item` goes to. */
  function DestPath(gitpath: string, item: string): string {
    gitpath + "/locale/" + item + "/LC_MESSAGES"
  }

  /** The catalogue file `msgfmt` compiles there. */
  function DestFile(gitpath: string, item: string): string {
    DestPath(gitpath, item) + "/" + item + ".po"
  }

  /**
   * The copies `install_language` makes, in listing order: for each item
   * whose catalogue is a file, the source and the destination file.
   */
  function Copies(cwd: string, gitpath: string, items: seq<string>, files: set<string>): (r: seq<(string, string)>)
    ensures |r| <= |items|
    ensures forall k :: 0 <= k < |r| ==> r[k].0 in files
    ensures forall k :: 0 <= k < |r| ==> exists i :: 0 <= i < |items| && r[k] == (Source(cwd, items[i]), DestFile(gitpath, items[i]))
    ensures forall i :: 0 <= i < |items| && Source(cwd, items[i]) in files
                        ==> (Source(cwd, items[i]), DestFile(gitpath, items[i])) in r
  {
    if items == [] then []
    else
      var init := items[..|items| - 1];
      var item := items[|items| - 1];
      var r := Copies(cwd, gitpath, init, files);
      assert forall i :: 0 <= i < |init| ==> init[i] == items[i];
      if Source(cwd, item) in files then r + [(Source(cwd, item), DestFile(gitpath, item))] else r
  }

  /** Where `install_config` copies the configuration, and where the hooks read it. */
  function InstalledConfig(gitpath: string): string {
    gitpath + "/hooks_config/bridge.cfg"
  }

  /** The file `print_final_message(cwd)` asks to review, as `main` calls it: the working directory taken for the git directory. */
  function NoticeAsWritten(cwd: string): (path: string)
    ensures path == InstalledConfig(cwd)
  {
    cwd + "/hooks_config/bridge.cfg"
  }

  /** The file the final message asks to review, from the git directory as the function's parameter names it. */
  function Notice(l: Layout): (path: string)
    ensures path == InstalledConfig(l.gitpath)
  {
    l.gitpath + "/hooks_config/bridge.cfg"
  }

  /**
   * As `main` calls it, the final message never names the configuration
   * just installed: the working directory is strictly longer than the git
   * directory it lies in.
   */
  lemma NoticeAsWrittenMissesConfig(cwd: string)
    requires Detect(cwd).Ok?
    ensures NoticeAsWritten(cwd) != InstalledConfig(Detect(cwd).value.gitpath)
  {
    DetectNests(cwd);
    var l := Detect(cwd).value;
    assert |cwd| > |l.gitpath|;
  }

  /** What a completed installation did: the links, the catalogue copies, the configuration copy and the final notice. */
  datatype Installation = Installation(layout: Layout, links: map<string, string>, copies: seq<(string, string)>,
                                       config: (string, string), notice: string)

  /**
   * `main`: detection, then the links (a clash stops the installer with
   * the links made so far), the catalogues, the configuration and the
   * final message, in that order.
   */
  function Main(cwd: string, present: set<string>, files: set<string>, items: seq<string>)
    : (r: (map<string, string>, Result<Installation, InstallerError>))
    ensures Detect(cwd).Err? ==> r == (map[], Err(InstallerError("Repository not detected")))
    ensures r.1.Ok? ==>
              && Detect(cwd) == Ok(r.1.value.layout)
              && r.0 == r.1.value.links && |r.0| == 2
              && r.1.value.config == (cwd + "/hooks_config", r.1.value.layout.gitpath + "/hooks_config")
              && r.1.value.notice == InstalledConfig(r.1.value.layout.gitpath)
    ensures Detect(cwd).Ok? ==>
              var linked := InstallExecutables(cwd, Detect(cwd).value.hookspath, present);
              && r.0 == linked.0
              && (r.1.Ok? <==> linked.1 == Pass)
              && (r.1.Err? ==> linked.1 == Fail(r.1.error))
    ensures r.1.Ok? ==> r.1.value.copies == Copies(cwd, r.1.value.layout.gitpath, items, files)
    ensures r.1.Err? ==> r.1.error.value in {"Repository not detected", "update link already exists.", "post-receive link already exists."}
  {
    var detected := Detect(cwd);
    if detected.Err? then (map[], Err(detected.error))
    else
      var l := detected.value;
      var linked := InstallExecutables(cwd, l.hookspath, present);
      if linked.1.Fail? then (linked.0, Err(linked.1.error))
      else
        TwoLinks(cwd, l.hookspath, present);
        var copies := Copies(cwd, l.gitpath, items, files);
        (linked.0, Ok(Installation(l, linked.0, copies, (cwd + "/hooks_config", l.gitpath + "/hooks_config"), Notice(l))))
  }
}
