/**
 * HooksConfig.py: the checks made on the configuration file when it is
 * loaded, and the list of Git branches kept in sync with ClearCase. The
 * file is given already parsed, as option values by section.
 */
module HooksConfig {
  import opened Results
  import opened Strings

  /** A parsed configuration file: the options of each section. */
  type Config = map<string, map<string, string>>

  /** ConfigException, by message kind. */
  datatype ConfigError =
    | MissingSection(section: string)
    | MissingField(field: string, section: string)
    | FolderNotExists(path: string)
    | FileNotExists(path: string)

  predicate HasOption(c: Config, section: string, option: string) {
    section in c && option in c[section]
  }

  /** The value of an option that is present. */
  function Get(c: Config, section: string, option: string): string
    requires HasOption(c, section, option)
  {
    c[section][option]
  }

  /**
   * `_validate_config`, given the directories and files that exist: the
   * checks run in a fixed order and the first one that fails is reported.
   * A check on a path runs only when the option naming it is present.
   */
  function ValidateConfig(c: Config, dirs: set<string>, files: set<string>): (r: Outcome<ConfigError>)
    ensures r == Fail(MissingSection("cc_view")) <==> "cc_view" !in c
    ensures r == Fail(MissingSection("cc_config")) <==> "cc_view" in c && "cc_config" !in c
    ensures r == Fail(MissingField("path", "cc_view"))
            <==> "cc_view" in c && "cc_config" in c && !HasOption(c, "cc_view", "path")
    ensures r.Fail? && r.error.FolderNotExists?
            <==> "cc_config" in c && HasOption(c, "cc_view", "path") && Get(c, "cc_view", "path") !in dirs
    ensures r.Fail? && r.error.FolderNotExists? ==> r.error.path == Get(c, "cc_view", "path")
    ensures r == Fail(MissingField("cleartool_path", "cc_config"))
            <==> "cc_config" in c && HasOption(c, "cc_view", "path") && Get(c, "cc_view", "path") in dirs
                 && !HasOption(c, "cc_config", "cleartool_path")
    ensures r.Fail? && r.error.FileNotExists?
            <==> HasOption(c, "cc_view", "path") && Get(c, "cc_view", "path") in dirs
                 && HasOption(c, "cc_config", "cleartool_path") && Get(c, "cc_config", "cleartool_path") !in files
    ensures r.Fail? && r.error.FileNotExists? ==> r.error.path == Get(c, "cc_config", "cleartool_path")
    ensures r == Fail(MissingField("cc_pusher_user", "cc_config"))
            <==> HasOption(c, "cc_view", "path") && Get(c, "cc_view", "path") in dirs
                 && HasOption(c, "cc_config", "cleartool_path") && Get(c, "cc_config", "cleartool_path") in files
                 && !HasOption(c, "cc_config", "cc_pusher_user")
    ensures r == Pass
            <==> HasOption(c, "cc_view", "path") && Get(c, "cc_view", "path") in dirs
                 && HasOption(c, "cc_config", "cleartool_path") && Get(c, "cc_config", "cleartool_path") in files
                 && HasOption(c, "cc_config", "cc_pusher_user")
  {
    if "cc_view" !in c then Fail(MissingSection("cc_view"))
    else if "cc_config" !in c then Fail(MissingSection("cc_config"))
    else if !HasOption(c, "cc_view", "path") then Fail(MissingField("path", "cc_view"))
    else if Get(c, "cc_view", "path") !in dirs then Fail(FolderNotExists(Get(c, "cc_view", "path")))
    else if !HasOption(c, "cc_config", "cleartool_path") then Fail(MissingField("cleartool_path", "cc_config"))
    else if Get(c, "cc_config", "cleartool_path") !in files then Fail(FileNotExists(Get(c, "cc_config", "cleartool_path")))
    else if !HasOption(c, "cc_config", "cc_pusher_user") then Fail(MissingField("cc_pusher_user", "cc_config"))
    else Pass
  }

  /** The `git_config` section plays no part in validation: dropping it changes nothing. */
  lemma GitConfigNotRequired(c: Config, dirs: set<string>, files: set<string>)
    ensures ValidateConfig(c - {"git_config"}, dirs, files) == ValidateConfig(c, dirs, files)
  {
    var d := c - {"git_config"};
    assert "cc_view" in d <==> "cc_view" in c;
    assert "cc_config" in d <==> "cc_config" in c;
    assert "cc_view" in c ==> d["cc_view"] == c["cc_view"];
    assert "cc_config" in c ==> d["cc_config"] == c["cc_config"];
  }

  /** Each piece stripped of surrounding whitespace, in order. */
  function StripEach(pieces: seq<string>): (r: seq<string>)
    ensures |r| == |pieces|
    ensures forall i :: 0 <= i < |pieces| ==> r[i] == Strip(pieces[i])
  {
    if pieces == [] then [] else [Strip(pieces[0])] + StripEach(pieces[1..])
  }

  /**
   * `get_sync_branches`: `["master"]` when the option is absent, otherwise
   * its comma-separated pieces, each stripped; empty pieces are kept.
   */
  function GetSyncBranches(c: Config): (branches: seq<string>)
    ensures !HasOption(c, "git_config", "sync_branches") ==> branches == ["master"]
    ensures HasOption(c, "git_config", "sync_branches")
            ==> var pieces := Split(Get(c, "git_config", "sync_branches"), ',');
                |branches| == |pieces| && forall i :: 0 <= i < |pieces| ==> branches[i] == Strip(pieces[i])
  {
    if !HasOption(c, "git_config", "sync_branches") then ["master"]
    else StripEach(Split(Get(c, "git_config", "sync_branches"), ','))
  }

  /** Stripping a string without whitespace leaves it as it is. */
  lemma StripPlain(s: string)
    requires NoneIn(s, Whitespace)
    ensures Strip(s) == s
  {
  }

  /**
   * Branch names without whitespace or commas, written comma-separated,
   * read back as the same list.
   */
  lemma SyncBranchesOfList(c: Config, names: seq<string>)
    requires |names| >= 1
    requires forall i :: 0 <= i < |names| ==> NoneIn(names[i], Whitespace) && ',' !in names[i]
    requires HasOption(c, "git_config", "sync_branches")
    requires Get(c, "git_config", "sync_branches") == Join(names, ',')
    ensures GetSyncBranches(c) == names
  {
    SplitOfJoin(names, ',');
    StripEachPlain(names);
  }

  /** Stripping each of names without whitespace gives the names back. */
  lemma {:induction false} StripEachPlain(names: seq<string>)
    requires forall i :: 0 <= i < |names| ==> NoneIn(names[i], Whitespace)
    ensures StripEach(names) == names
  {
    if names != [] {
      StripPlain(names[0]);
      assert forall i :: 0 <= i < |names| - 1 ==> names[1..][i] == names[i + 1];
      StripEachPlain(names[1..]);
      assert names == [names[0]] + names[1..];
    }
  }
}
