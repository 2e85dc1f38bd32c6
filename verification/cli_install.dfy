/** The `install` command of the command-line tool (cli/src/install.rs).
    With `--hub` the request is handed to Unity Hub as an argument list;
    otherwise the editor is installed, then the requested modules (which
    ends with the bee workaround), or else the bee workaround alone. As in
    the `install-modules` command, the outcomes of the library calls and of
    running Unity Hub are parameters. */
module CliInstall {
  import opened Wrappers
  import opened CliInstallModules

  /** A flag followed by its value when a value is given, else nothing. */
  function ValueFlag(flag: string, value: Option<string>): (args: seq<string>)
    ensures value.Some? ==> args == [flag, value.value]
    ensures value.None? ==> args == []
  {
    if value.Some? then [flag, value.value] else []
  }

  /** A flag when it is switched on, else nothing. */
  function Switch(flag: string, on: bool): (args: seq<string>)
    ensures on ==> args == [flag]
    ensures !on ==> args == []
  {
    if on then [flag] else []
  }

  /** The modules' flags when modules are given, else nothing. */
  function OptionalModuleFlags(modules: Option<seq<string>>): (args: seq<string>)
    ensures args == ModuleFlags(if modules.Some? then modules.value else [])
  {
    if modules.Some? then ModuleFlags(modules.value) else []
  }

  /** The Unity Hub arguments of `install` (install.rs:32-50): the version,
      the changeset's flag, the modules' flags, the child-module flag and
      the architecture's flag, in that order. */
  function HubArgs(version: string, changeset: Option<string>, modules: Option<seq<string>>,
                   includeChildModules: bool, architecture: Option<string>): seq<string>
  {
    ["install", "--version", version]
    + ValueFlag("--changeset", changeset)
    + OptionalModuleFlags(modules)
    + Switch("--childModules", includeChildModules)
    + ValueFlag("--architecture", architecture)
  }

  /** The Hub arguments open with the version, then the changeset when
      one is given. */
  lemma HubArgsHead(version: string, changeset: Option<string>, modules: Option<seq<string>>,
                    includeChildModules: bool, architecture: Option<string>)
    ensures var args := HubArgs(version, changeset, modules, includeChildModules, architecture);
            && |args| >= 3
            && args[..3] == ["install", "--version", version]
            && (changeset.Some? ==> |args| >= 5 && args[3] == "--changeset" && args[4] == changeset.value)
  {
    var head := ["install", "--version", version] + ValueFlag("--changeset", changeset);
    var rest := OptionalModuleFlags(modules) + Switch("--childModules", includeChildModules)
                + ValueFlag("--architecture", architecture);
    var args := HubArgs(version, changeset, modules, includeChildModules, architecture);
    assert args == head + rest;
  }

  /** After them, each module follows its own `--module` flag, in order. */
  lemma HubArgsModule(version: string, changeset: Option<string>, modules: Option<seq<string>>,
                      includeChildModules: bool, architecture: Option<string>, i: nat)
    requires modules.Some? && i < |modules.value|
    ensures var args := HubArgs(version, changeset, modules, includeChildModules, architecture);
            var m := 3 + (if changeset.Some? then 2 else 0);
            && m + 2 * i + 1 < |args|
            && args[m + 2 * i] == "--module" && args[m + 2 * i + 1] == modules.value[i]
  {
    var flags := ModuleFlags(modules.value);
    var head := ["install", "--version", version] + ValueFlag("--changeset", changeset);
    var rest := Switch("--childModules", includeChildModules) + ValueFlag("--architecture", architecture);
    var args := HubArgs(version, changeset, modules, includeChildModules, architecture);
    assert args == head + (flags + rest);
    ModuleFlagsAt(modules.value, i);
  }

  /** The back of the Hub arguments: `--childModules` right after the
      modules when child modules are included, and the architecture last
      when one is given; nothing follows. */
  lemma HubArgsBack(version: string, changeset: Option<string>, modules: Option<seq<string>>,
                    includeChildModules: bool, architecture: Option<string>)
    ensures var args := HubArgs(version, changeset, modules, includeChildModules, architecture);
            var ms := if modules.Some? then modules.value else [];
            var c := 3 + (if changeset.Some? then 2 else 0) + 2 * |ms|;
            var a := c + (if includeChildModules then 1 else 0);
            && |args| == a + (if architecture.Some? then 2 else 0)
            && (includeChildModules ==> args[c] == "--childModules")
            && (architecture.Some? ==> args[a] == "--architecture" && args[a + 1] == architecture.value)
  {
    var front := ["install", "--version", version] + ValueFlag("--changeset", changeset) + OptionalModuleFlags(modules);
    var children := Switch("--childModules", includeChildModules);
    var arch := ValueFlag("--architecture", architecture);
    var args := HubArgs(version, changeset, modules, includeChildModules, architecture);
    assert args == front + (children + arch);
    assert args[|front|..] == children + arch;
  }

  /** The calls of `install_editor` (install.rs:60-68): the editor, then
      the modules' calls when modules are given, else the bee workaround. */
  function EditorPlan(version: string, modules: Option<seq<string>>, architecture: Option<string>,
                      includeChildren: bool): seq<LibCall>
  {
    [InstallEditorCall(version, architecture)]
    + (if modules.Some? then ModulesPlan(version, modules.value, architecture, includeChildren)
       else [BeeWorkaround(version, architecture)])
  }

  /** The editor is installed first and the bee workaround applied last,
      whether or not modules are given; the modules are installed in
      between exactly when they are given. */
  lemma EditorPlanOrder(version: string, modules: Option<seq<string>>, architecture: Option<string>,
                        includeChildren: bool)
    ensures var plan := EditorPlan(version, modules, architecture, includeChildren);
            && plan[0] == InstallEditorCall(version, architecture)
            && plan[|plan| - 1] == BeeWorkaround(version, architecture)
            && (modules.Some? <==> |plan| == 3)
            && (modules.Some? ==> plan[1] == InstallModulesCall(version, SplitIds(modules.value), architecture, includeChildren))
            && (forall i :: 0 <= i < |plan| - 1 ==> !plan[i].BeeWorkaround?)
  {
  }

  /** `install_editor(version, modules, arch, include_children)`
      (install.rs:60-68): `outcome` gives the outcome of each library call. */
  method InstallEditor(version: string, modules: Option<seq<string>>, architecture: Option<string>,
                       includeChildren: bool, outcome: LibCall -> Result<()>)
    returns (r: Result<int>, calls: seq<LibCall>)
    ensures Performed(EditorPlan(version, modules, architecture, includeChildren), outcome, calls, r)
  {
    ghost var plan := EditorPlan(version, modules, architecture, includeChildren);
    var editor := InstallEditorCall(version, architecture);
    calls := [editor];
    if outcome(editor).IsFailure() {
      return outcome(editor).PropagateFailure(), calls;
    }
    if modules.Some? {
      var installed, made := CliInstallModules.InstallModules(version, modules.value, architecture, includeChildren, outcome);
      calls := calls + made;
      assert calls[|calls| - 1] == made[|made| - 1];
      assert forall i :: 1 <= i < |calls| ==> calls[i] == made[i - 1];
      assert plan[1..] == ModulesPlan(version, modules.value, architecture, includeChildren);
      assert calls == plan[..|calls|];
      r := installed;
    } else {
      var bee := BeeWorkaround(version, architecture);
      calls := calls + [bee];
      if outcome(bee).IsFailure() {
        return outcome(bee).PropagateFailure(), calls;
      }
      r := Ok(0);
    }
  }

  /** The successive pushes of `execute` (install.rs:32-50). */
  method BuildHubArgs(version: string, changeset: Option<string>, modules: Option<seq<string>>,
                      includeChildModules: bool, architecture: Option<string>)
    returns (args: seq<string>)
    ensures args == HubArgs(version, changeset, modules, includeChildModules, architecture)
  {
    args := ["install", "--version", version];
    if changeset.Some? {
      args := args + ["--changeset"];
      args := args + [changeset.value];
    }
    assert args == ["install", "--version", version] + ValueFlag("--changeset", changeset);
    ghost var head := args;
    if modules.Some? {
      var ms := modules.value;
      for k := 0 to |ms|
        invariant args == head + ModuleFlags(ms[..k])
      {
        assert ms[..k + 1][..k] == ms[..k];
        args := args + ["--module"];
        args := args + [ms[k]];
      }
      assert ms[..|ms|] == ms;
    }
    assert args == head + OptionalModuleFlags(modules);
    ghost var front := args;
    if includeChildModules {
      args := args + ["--childModules"];
    }
    assert args == front + Switch("--childModules", includeChildModules);
    ghost var middle := args;
    if architecture.Some? {
      args := args + ["--architecture"];
      args := args + [architecture.value];
    }
    assert args == middle + ValueFlag("--architecture", architecture);
  }

  /** `execute` (install.rs:29-58): child modules are included when either
      `--cm` or `--child-modules` is given. With `hub`, the argument list is
      built by successive pushes and handed to Unity Hub, and no library
      call is made; otherwise `install_editor` runs, and the changeset is
      not used. */
  method Execute(version: string, changeset: Option<string>, modules: Option<seq<string>>,
                 cm: bool, childModules: bool, architecture: Option<string>, hub: bool,
                 hubStatus: seq<string> -> Result<Option<int>>, outcome: LibCall -> Result<()>)
    returns (r: Result<int>, hubCall: Option<seq<string>>, calls: seq<LibCall>)
    ensures hub ==> var args := HubArgs(version, changeset, modules, cm || childModules, architecture);
                    hubCall == Some(args) && calls == [] && r == HubExit(hubStatus(args))
    ensures !hub ==> hubCall == None && Performed(EditorPlan(version, modules, architecture, cm || childModules), outcome, calls, r)
  {
    var includeChildModules := cm || childModules;
    if hub {
      var args := BuildHubArgs(version, changeset, modules, includeChildModules, architecture);
      hubCall := Some(args);
      calls := [];
      r := HubExit(hubStatus(args));
    } else {
      hubCall := None;
      r, calls := InstallEditor(version, modules, architecture, includeChildModules, outcome);
    }
  }
}
