/** The `install-modules` command of the command-line tool
    (cli/src/install_modules.rs). With `--hub` the request is handed to Unity
    Hub as an argument list; otherwise the module ids are split on spaces and
    passed to the library's module install, followed by the bee workaround.
    The library operations are the subject of their own modules; here their
    outcomes are parameters, and the model records which are called, in
    order. Running Unity Hub is a parameter too: it gives the process's exit
    code, or none when the process was ended by a signal. */
module CliInstallModules {
  import opened Wrappers
  import opened Text

  /** The library operations the command-line tool calls. */
  datatype LibCall =
    | InstallEditorCall(version: string, architecture: Option<string>)
    | InstallModulesCall(version: string, ids: seq<string>, architecture: Option<string>, includeChildren: bool)
    | BeeWorkaround(version: string, architecture: Option<string>)

  /** The message of `Option::unwrap()` on `None`. */
  const UnwrapNone := "called `Option::unwrap()` on a `None` value"

  /** `calls` is what running `plan` step by step did: a prefix of the
      plan, every call but the last succeeded, and the outcome is `Ok(0)`
      exactly when the whole plan ran and its last call succeeded, else the
      failure of the last call made. */
  predicate Performed(plan: seq<LibCall>, outcome: LibCall -> Result<()>, calls: seq<LibCall>, r: Result<int>)
  {
    && 1 <= |calls| <= |plan|
    && calls == plan[..|calls|]
    && (forall i :: 0 <= i < |calls| - 1 ==> outcome(calls[i]).Ok?)
    && (r.Ok? <==> calls == plan && outcome(calls[|calls| - 1]).Ok?)
    && (r.Ok? ==> r.value == 0)
    && (!r.Ok? ==> outcome(calls[|calls| - 1]).IsFailure() && r == outcome(calls[|calls| - 1]).PropagateFailure())
  }

  /** The module ids of the arguments: each argument split on single
      spaces, the pieces appended in argument order (install_modules.rs:47-50). */
  function SplitIds(modules: seq<string>): (ids: seq<string>)
    ensures |ids| >= |modules|
    decreases |modules|
  {
    if modules == [] then []
    else SplitIds(modules[..|modules| - 1]) + Split(modules[|modules| - 1], ' ')
  }

  /** The ids of two argument lists one after the other are the ids of
      each, one after the other. */
  lemma {:induction false} SplitIdsConcat(a: seq<string>, b: seq<string>)
    ensures SplitIds(a + b) == SplitIds(a) + SplitIds(b)
    decreases |b|
  {
    if b == [] {
      assert a + b == a;
    } else {
      var front := b[..|b| - 1];
      assert (a + b)[..|a + b| - 1] == a + front;
      SplitIdsConcat(a, front);
    }
  }

  /** Each argument contributes its pieces in one block, at its place in
      the order, and joining that block with single spaces gives the
      argument back. */
  lemma ArgumentPieces(before: seq<string>, arg: string, after: seq<string>)
    ensures SplitIds(before + [arg] + after) == SplitIds(before) + Split(arg, ' ') + SplitIds(after)
    ensures Join(Split(arg, ' '), ' ') == arg
  {
    SplitIdsConcat(before + [arg], after);
    SplitIdsConcat(before, [arg]);
    assert [arg][..0] == [];
    JoinSplit(arg, ' ');
  }

  /** No id holds a space. */
  lemma {:induction false} IdsHoldNoSpace(modules: seq<string>)
    ensures forall k :: 0 <= k < |SplitIds(modules)| ==> Free(SplitIds(modules)[k], ' ')
    decreases |modules|
  {
    if modules != [] {
      var front := modules[..|modules| - 1];
      IdsHoldNoSpace(front);
      SplitPiecesFree(modules[|modules| - 1], ' ');
      var ids := SplitIds(modules);
      var left := SplitIds(front);
      forall k | 0 <= k < |ids| ensures Free(ids[k], ' ') {
        if k >= |left| {
          assert ids[k] == Split(modules[|modules| - 1], ' ')[k - |left|];
        } else {
          assert ids[k] == left[k];
        }
      }
    }
  }

  /** Arguments without spaces are the ids themselves. */
  lemma {:induction false} SpaceFreeArguments(modules: seq<string>)
    requires forall k :: 0 <= k < |modules| ==> Free(modules[k], ' ')
    ensures SplitIds(modules) == modules
    decreases |modules|
  {
    if modules != [] {
      var last := modules[|modules| - 1];
      SpaceFreeArguments(modules[..|modules| - 1]);
      SplitJoin([last], ' ');
      assert Join([last], ' ') == last;
      assert modules[..|modules| - 1] + [last] == modules;
    }
  }

  /** Two spaces in a row give an empty id between the words. */
  lemma DoubleSpace(a: string, b: string)
    requires Free(a, ' ') && Free(b, ' ')
    ensures Split(a + "  " + b, ' ') == [a, "", b]
  {
    var pieces := [a, "", b];
    forall k | 0 <= k < |pieces| ensures Free(pieces[k], ' ') {
    }
    SplitJoin(pieces, ' ');
    assert Join(pieces[2..], ' ') == b;
    assert Join(pieces[1..], ' ') == "" + [' '] + b;
    assert Join(pieces, ' ') == a + "  " + b;
  }

  /** The loop of `install_modules` (install_modules.rs:47-50). */
  method ModulesInArgs(modules: seq<string>) returns (ids: seq<string>)
    ensures ids == SplitIds(modules)
  {
    ids := [];
    for k := 0 to |modules|
      invariant ids == SplitIds(modules[..k])
    {
      assert modules[..k + 1][..k] == modules[..k];
      ids := ids + Split(modules[k], ' ');
    }
    assert modules[..|modules|] == modules;
  }

  /** A `--module` flag before each module, in order. */
  function ModuleFlags(modules: seq<string>): (args: seq<string>)
    ensures |args| == 2 * |modules|
    decreases |modules|
  {
    if modules == [] then []
    else ModuleFlags(modules[..|modules| - 1]) + ["--module", modules[|modules| - 1]]
  }

  /** The `i`-th module sits right after its own `--module` flag. */
  lemma {:induction false} ModuleFlagsAt(modules: seq<string>, i: nat)
    requires i < |modules|
    ensures ModuleFlags(modules)[2 * i] == "--module" && ModuleFlags(modules)[2 * i + 1] == modules[i]
    decreases |modules|
  {
    var front := modules[..|modules| - 1];
    if i < |front| {
      ModuleFlagsAt(front, i);
      assert front[i] == modules[i];
    }
  }

  /** The Unity Hub arguments of `install-modules` (install_modules.rs:29-36). */
  function HubArgs(version: string, modules: seq<string>, includeChildren: bool): seq<string>
  {
    ["install-modules", "--version", version] + ModuleFlags(modules)
    + (if includeChildren then ["--childModules"] else [])
  }

  /** The Hub is asked to install `version`'s modules, and `--childModules`
      comes last when child modules are included. */
  lemma HubArgsLayout(version: string, modules: seq<string>, includeChildren: bool)
    ensures var args := HubArgs(version, modules, includeChildren);
            && args[..3] == ["install-modules", "--version", version]
            && |args| == 3 + 2 * |modules| + (if includeChildren then 1 else 0)
            && (includeChildren ==> args[|args| - 1] == "--childModules")
  {
  }

  /** In between, each module follows its own `--module` flag, in order. */
  lemma HubArgsModule(version: string, modules: seq<string>, includeChildren: bool, i: nat)
    requires i < |modules|
    ensures var args := HubArgs(version, modules, includeChildren);
            args[3 + 2 * i] == "--module" && args[4 + 2 * i] == modules[i]
  {
    ModuleFlagsAt(modules, i);
  }

  /** Every flag word is `--module` or one of the modules. */
  lemma FlagWords(modules: seq<string>, w: string)
    requires w in ModuleFlags(modules)
    ensures w == "--module" || w in modules
  {
    var flags := ModuleFlags(modules);
    var k :| 0 <= k < |flags| && flags[k] == w;
    ModuleFlagsAt(modules, k / 2);
    assert k == 2 * (k / 2) || k == 2 * (k / 2) + 1;
  }

  /** Unless the version or a module is itself called so, `--childModules` is passed
      exactly when child modules are included, and `--architecture` never
      is: the architecture is not passed on. */
  lemma HubArgsFlags(version: string, modules: seq<string>, includeChildren: bool)
    requires "--childModules" !in modules && "--architecture" !in modules
    requires version != "--childModules" && version != "--architecture"
    ensures includeChildren <==> "--childModules" in HubArgs(version, modules, includeChildren)
    ensures "--architecture" !in HubArgs(version, modules, includeChildren)
  {
    var head: seq<string> := ["install-modules", "--version", version];
    var tail: seq<string> := if includeChildren then ["--childModules"] else [];
    var flags := ModuleFlags(modules);
    if "--childModules" in flags { FlagWords(modules, "--childModules"); }
    if "--architecture" in flags { FlagWords(modules, "--architecture"); }
    assert HubArgs(version, modules, includeChildren) == head + flags + tail;
  }

  /** What running Unity Hub gives `execute`: its exit code, or a panic
      when there is none (install_modules.rs:37-40). */
  function HubExit(status: Result<Option<int>>): (r: Result<int>)
    ensures r.Ok? <==> status.Ok? && status.value.Some?
    ensures r.Ok? ==> r.value == status.value.value
    ensures status.Err? ==> r == Err(status.error)
  {
    match status
    case Ok(code) => if code.Some? then Ok(code.value) else Panic(UnwrapNone)
    case Err(error) => Err(error)
    case Panic(reason) => Panic(reason)
  }

  /** The calls of `install_modules` (install_modules.rs:46-54): the module
      install with the split ids, then the bee workaround. */
  function ModulesPlan(version: string, modules: seq<string>, architecture: Option<string>, includeChildren: bool)
    : seq<LibCall>
  {
    [InstallModulesCall(version, SplitIds(modules), architecture, includeChildren), BeeWorkaround(version, architecture)]
  }

  /** `install_modules(version, modules, arch, include_children)`
      (install_modules.rs:46-54): `outcome` gives the outcome of each library
      call. */
  method InstallModules(version: string, modules: seq<string>, architecture: Option<string>, includeChildren: bool,
                        outcome: LibCall -> Result<()>)
    returns (r: Result<int>, calls: seq<LibCall>)
    ensures Performed(ModulesPlan(version, modules, architecture, includeChildren), outcome, calls, r)
  {
    var ids := ModulesInArgs(modules);
    var install := InstallModulesCall(version, ids, architecture, includeChildren);
    calls := [install];
    if outcome(install).IsFailure() {
      return outcome(install).PropagateFailure(), calls;
    }
    var bee := BeeWorkaround(version, architecture);
    calls := calls + [bee];
    if outcome(bee).IsFailure() {
      return outcome(bee).PropagateFailure(), calls;
    }
    r := Ok(0);
  }

  /** `execute` (install_modules.rs:26-44): child modules are included when
      either `--cm` or `--child-modules` is given. With `hub`, the argument
      list is built by successive pushes and handed to Unity Hub, and no
      library call is made; otherwise `install_modules` runs. */
  method Execute(version: string, modules: seq<string>, cm: bool, childModules: bool,
                 architecture: Option<string>, hub: bool,
                 hubStatus: seq<string> -> Result<Option<int>>, outcome: LibCall -> Result<()>)
    returns (r: Result<int>, hubCall: Option<seq<string>>, calls: seq<LibCall>)
    ensures hub ==> var args := HubArgs(version, modules, cm || childModules);
                    hubCall == Some(args) && calls == [] && r == HubExit(hubStatus(args))
    ensures !hub ==> hubCall == None && Performed(ModulesPlan(version, modules, architecture, cm || childModules), outcome, calls, r)
  {
    var includeChildren := cm || childModules;
    if hub {
      var args := ["install-modules", "--version", version];
      for k := 0 to |modules|
        invariant args == ["install-modules", "--version", version] + ModuleFlags(modules[..k])
      {
        assert modules[..k + 1][..k] == modules[..k];
        args := args + ["--module"];
        args := args + [modules[k]];
      }
      assert modules[..|modules|] == modules;
      if includeChildren {
        args := args + ["--childModules"];
      } else {
        assert args == args + [];
      }
      hubCall := Some(args);
      calls := [];
      r := HubExit(hubStatus(args));
    } else {
      hubCall := None;
      r, calls := InstallModules(version, modules, architecture, includeChildren, outcome);
    }
  }
}
