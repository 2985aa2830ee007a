/**
 * The loops of install.py as they run, proved to compute what the
 * functions of `Install` define.
 */
module InstallScript {
  import opened Strings
  import I = Install

  /** The detection loop of `main`: `git_index` overwritten by each component ending in ".git". */
  method FindGitIndex(pathlist: seq<string>) returns (gitIndex: nat)
    ensures gitIndex == I.GitIndex(pathlist, |pathlist|)
    ensures gitIndex == 0 || (gitIndex < |pathlist| && EndsWith(pathlist[gitIndex], ".git"))
  {
    gitIndex := 0;
    for i := 0 to |pathlist|
      invariant gitIndex == I.GitIndex(pathlist, i)
    {
      var x := pathlist[i];
      if EndsWith(x, ".git") {
        gitIndex := I.IndexOf(pathlist, x);
      }
    }
  }

  /**
   * `install_language`'s loop over the items of `messages`: the catalogue
   * of each item that has one is copied to the item's locale directory.
   */
  method InstallLanguage(cwd: string, gitpath: string, items: seq<string>, files: set<string>) returns (copies: seq<(string, string)>)
    ensures copies == I.Copies(cwd, gitpath, items, files)
    ensures forall k :: 0 <= k < |copies| ==> copies[k].0 in files
  {
    copies := [];
    for i := 0 to |items|
      invariant copies == I.Copies(cwd, gitpath, items[..i], files)
    {
      var item := items[i];
      var originalFile := cwd + "/messages/" + item + "/" + item + ".po";
      var destPath := gitpath + "/locale/" + item + "/LC_MESSAGES";
      var destFile := destPath + "/" + item + ".po";
      assert items[..i + 1][..i] == items[..i];
      if originalFile in files {
        copies := copies + [(originalFile, destFile)];
      }
    }
    assert items[..|items|] == items;
  }
}
