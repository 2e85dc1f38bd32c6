/** Choosing, locating and installing editors (lib/src/editors/mod.rs).
    The editor listing, the catalog reply, the install root and the free
    space are inputs; the file-system work done under the install lock is
    recorded as a sequence of steps whose outcomes are inputs too. */
module Editors {
  import opened Wrappers
  import opened Text
  import opened Paths
  import opened Catalog
  import opened EditorsInfo
  import opened LiveApi
  import opened ModulesInfo

  const NoRelease := "Couldn't find release"
  const NoDownload := "Couldn't find any download for release"
  const NoDownloadForArch := "Couldn't find any download for specified arch"
  const NotEnoughSpace := "Not enough free disk space"
  const UnwrapErr := "called `Result::unwrap()` on an `Err` value"

  function EditorArch(e: EditorInfo): SystemArch
  {
    e.arch
  }

  /** The architecture of a catalog download, as `SystemArch::from` reads it. */
  function DownloadArch(d: ReleaseDownload): SystemArch
  {
    FromApiArch(d.architecture)
  }

  /** `list_installed_version` (mod.rs:97-107): the installed editors of
      one version, in listing order. */
  function InstalledVersion(editors: seq<EditorInfo>, version: string): (r: seq<EditorInfo>)
    ensures |r| <= |editors|
    decreases |editors|
  {
    if editors == [] then []
    else
      var last := editors[|editors| - 1];
      var rest := InstalledVersion(editors[..|editors| - 1], version);
      if last.version == version then rest + [last] else rest
  }

  /** The filter keeps exactly the editors of that version. */
  lemma {:induction false} InstalledVersionExact(editors: seq<EditorInfo>, version: string)
    ensures forall e :: e in InstalledVersion(editors, version) <==> e in editors && e.version == version
    decreases |editors|
  {
    if editors != [] {
      var init := editors[..|editors| - 1];
      InstalledVersionExact(init, version);
      assert editors == init + [editors[|editors| - 1]];
    }
  }

  /** The filter keeps the listing's order: filtering two listings one
      after the other is filtering their concatenation. */
  lemma {:induction false} InstalledVersionAppend(a: seq<EditorInfo>, b: seq<EditorInfo>, version: string)
    ensures InstalledVersion(a + b, version) == InstalledVersion(a, version) + InstalledVersion(b, version)
    decreases |b|
  {
    if b == [] {
      assert a + b == a;
    } else {
      var b', last := b[..|b| - 1], b[|b| - 1];
      var ab := a + b;
      InstalledVersionAppend(a, b', version);
      assert ab[..|ab| - 1] == a + b' && ab[|ab| - 1] == last;
      var rest := InstalledVersion(a, version) + InstalledVersion(b', version);
      var tail := if last.version == version then [last] else [];
      assert InstalledVersion(ab, version) == InstalledVersion(a + b', version) + tail;
      assert InstalledVersion(b, version) == InstalledVersion(b', version) + tail;
      assert rest + tail == InstalledVersion(a, version) + (InstalledVersion(b', version) + tail);
    }
  }

  /** `get_installed_editor_info` (mod.rs:116-123): the first installed
      editor of the architecture. */
  function InstalledOfArch(installed: seq<EditorInfo>, arch: SystemArch): (r: Option<EditorInfo>)
    ensures r.None? <==> forall j :: 0 <= j < |installed| ==> installed[j].arch != arch
    ensures r.Some? ==> r.value in installed && r.value.arch == arch
    decreases |installed|
  {
    if installed == [] then None
    else if installed[0].arch == arch then Some(installed[0])
    else InstalledOfArch(installed[1..], arch)
  }

  /** The editor found is the first one of that architecture. */
  lemma {:induction false} InstalledOfArchFirst(installed: seq<EditorInfo>, arch: SystemArch, i: nat)
    requires i < |installed| && installed[i].arch == arch
    requires forall j :: 0 <= j < i ==> installed[j].arch != arch
    ensures InstalledOfArch(installed, arch) == Some(installed[i])
    decreases i
  {
    if i > 0 {
      InstalledOfArchFirst(installed[1..], arch, i - 1);
    }
  }

  /** The position the "last of the preferred architecture, else the first"
      loops of mod.rs:29-36 and 136-141 settle on. */
  function PreferredIndex<T>(items: seq<T>, archOf: T -> SystemArch, preferred: SystemArch): (i: Option<nat>)
    ensures i.None? <==> items == []
    ensures i.Some? ==> i.value < |items|
    ensures i.Some? && archOf(items[i.value]) == preferred ==>
              forall j :: i.value < j < |items| ==> archOf(items[j]) != preferred
    ensures i.Some? && archOf(items[i.value]) != preferred ==>
              i.value == 0 && forall j :: 0 <= j < |items| ==> archOf(items[j]) != preferred
    decreases |items|
  {
    if items == [] then None
    else if archOf(items[|items| - 1]) == preferred then Some(|items| - 1)
    else if |items| == 1 then Some(0)
    else
      var i := PreferredIndex(items[..|items| - 1], archOf, preferred);
      assert forall j :: 0 <= j < |items| - 1 ==> items[..|items| - 1][j] == items[j];
      i
  }

  function PreferredOf<T>(items: seq<T>, archOf: T -> SystemArch, preferred: SystemArch): Option<T>
  {
    var i := PreferredIndex(items, archOf, preferred);
    if i.Some? then Some(items[i.value]) else None
  }

  /** The loop of mod.rs:29-36 (and 136-141): an item replaces the one
      picked so far when nothing is picked yet or it has the preferred
      architecture. */
  method PickPreferred<T>(items: seq<T>, archOf: T -> SystemArch, preferred: SystemArch) returns (picked: Option<T>)
    ensures picked == PreferredOf(items, archOf, preferred)
  {
    picked := None;
    for k := 0 to |items|
      invariant picked == PreferredOf(items[..k], archOf, preferred)
    {
      assert items[..k + 1][..k] == items[..k];
      if picked.None? || archOf(items[k]) == preferred {
        picked := Some(items[k]);
      }
    }
    assert items[..|items|] == items;
  }

  /** The architecture `install_editor` prefers (mod.rs:13-16): the one
      asked for, else the machine's. */
  function PreferableArch(architecture: Option<string>, systemArch: SystemArch): SystemArch
  {
    if architecture.Some? then ArchFromString(architecture.value) else systemArch
  }

  /** The directory an editor is installed in (mod.rs:55-58): the bare
      version while no editor of that version is installed, otherwise the
      version followed by the architecture in parentheses. */
  function VersionDirectory(version: string, installed: seq<EditorInfo>, arch: SystemArch): (name: string)
    ensures StartsWith(name, version)
    ensures name == version <==> installed == []
  {
    if installed == [] then version else version + " (" + ArchToString(arch) + ")"
  }

  /** Next to an installed editor, the two architectures of a version get
      different directories. */
  lemma VersionDirectoriesDistinct(version: string, installed: seq<EditorInfo>, a: SystemArch, b: SystemArch)
    requires installed != [] && a != b
    ensures VersionDirectory(version, installed, a) != VersionDirectory(version, installed, b)
  {
    assert |ArchToString(a)| != |ArchToString(b)|;
  }

  /** The space an editor download needs (mod.rs:61-64): its installed size
      plus its download size, in bytes. */
  function RequiredSpace(d: ReleaseDownload): Result<nat>
  {
    var installedSize := SizeBytes(d.installedSize);
    var downloadSize := SizeBytes(d.downloadSize);
    if installedSize.IsFailure() then installedSize.PropagateFailure()
    else if downloadSize.IsFailure() then downloadSize.PropagateFailure()
    else Ok(installedSize.value + downloadSize.value)
  }

  /** What is to be installed, and where. */
  datatype Target = Target(download: ReleaseDownload, editorPath: Path)

  /** The checks `install_editor` makes before taking the install lock
      (mod.rs:13-69). `editors` is the listing of installed editors,
      `release` the catalog reply, `installRoot` the install path and
      `available` the free space there. `Ok(None)`: already installed. */
  function Prepare(version: string, architecture: Option<string>, systemArch: SystemArch,
                   editors: Result<seq<EditorInfo>>, release: Result<Option<Release>>,
                   installRoot: Result<Path>, available: Result<nat>): (d: Result<Option<Target>>)
  {
    var preferable := PreferableArch(architecture, systemArch);
    if editors.IsFailure() then editors.PropagateFailure()
    else
      var installed := InstalledVersion(editors.value, version);
      if InstalledOfArch(installed, preferable).Some? then Ok(None)
      else if release.IsFailure() then release.PropagateFailure()
      else if release.value.None? then Err(NoRelease)
      else
        var chosen := PreferredOf(release.value.value.downloads, DownloadArch, preferable);
        if chosen.None? then Err(NoDownload)
        else
          var arch := DownloadArch(chosen.value);
          if architecture.Some? && ArchFromString(architecture.value) != arch then Err(NoDownloadForArch)
          else if InstalledOfArch(installed, arch).Some? then Ok(None)
          else if installRoot.IsFailure() then installRoot.PropagateFailure()
          else
            var required := RequiredSpace(chosen.value);
            if required.IsFailure() then required.PropagateFailure()
            else if available.IsFailure() then Panic(UnwrapErr)
            else if available.value < required.value then Err(NotEnoughSpace)
            else Ok(Some(Target(chosen.value, Child(installRoot.value, VersionDirectory(version, installed, arch)))))
  }

  /** What each outcome of `Prepare` implies: an error whenever the
      listing fails; "already installed" only when an editor of the
      version has the preferred architecture or that of the download
      chosen; and an install target only once every check has passed, in
      the directory `VersionDirectory` names below the install root. */
  lemma PrepareOutcomes(version: string, architecture: Option<string>, systemArch: SystemArch,
                        editors: Result<seq<EditorInfo>>, release: Result<Option<Release>>,
                        installRoot: Result<Path>, available: Result<nat>)
    ensures var d := Prepare(version, architecture, systemArch, editors, release, installRoot, available);
            editors.IsFailure() ==> d.IsFailure()
    ensures var d := Prepare(version, architecture, systemArch, editors, release, installRoot, available);
            d == Ok(None) ==>
              && editors.Ok?
              && var installed := InstalledVersion(editors.value, version);
                 || InstalledOfArch(installed, PreferableArch(architecture, systemArch)).Some?
                 || (&& release.Ok? && release.value.Some?
                     && var chosen := PreferredOf(release.value.value.downloads, DownloadArch,
                                                  PreferableArch(architecture, systemArch));
                        chosen.Some? && InstalledOfArch(installed, DownloadArch(chosen.value)).Some?)
    ensures var d := Prepare(version, architecture, systemArch, editors, release, installRoot, available);
            d.Ok? && d.value.Some? ==>
              && editors.Ok? && release.Ok? && release.value.Some? && installRoot.Ok? && available.Ok?
              && var t := d.value.value;
                 var installed := InstalledVersion(editors.value, version);
                 var arch := DownloadArch(t.download);
                 && t.download in release.value.value.downloads
                 && InstalledOfArch(installed, PreferableArch(architecture, systemArch)).None?
                 && InstalledOfArch(installed, arch).None?
                 && (architecture.Some? ==> ArchFromString(architecture.value) == arch)
                 && RequiredSpace(t.download).Ok? && RequiredSpace(t.download).value <= available.value
                 && t.editorPath == Child(installRoot.value, VersionDirectory(version, installed, arch))
  {
  }

  /** With an architecture named, the download chosen has another one
      exactly when the release has no download of the named architecture:
      the named one is preferred, so a download of it is always chosen
      when there is one. */
  lemma ExplicitArchMismatch(downloads: seq<ReleaseDownload>, name: string, systemArch: SystemArch)
    requires downloads != []
    ensures var chosen := PreferredOf(downloads, DownloadArch, PreferableArch(Some(name), systemArch));
            chosen.Some?
            && (DownloadArch(chosen.value) != ArchFromString(name)
                <==> forall j :: 0 <= j < |downloads| ==> DownloadArch(downloads[j]) != ArchFromString(name))
  {
  }

  /** With no architecture named, an editor of the machine's architecture
      already installed makes the install a no-op. */
  lemma InstalledPreferredIsNoop(version: string, systemArch: SystemArch, editors: seq<EditorInfo>,
                                 release: Result<Option<Release>>, installRoot: Result<Path>,
                                 available: Result<nat>, i: nat)
    requires i < |editors| && editors[i].version == version && editors[i].arch == systemArch
    ensures Prepare(version, None, systemArch, Ok(editors), release, installRoot, available) == Ok(None)
  {
    InstalledVersionExact(editors, version);
    assert editors[i] in InstalledVersion(editors, version);
  }

  /** The file-system steps of the locked part of `install_editor`. */
  datatype EditorStep =
    | TakeLock(editorPath: Path)
    | InstallArchive(url: string, id: string, editorPath: Path, fileType: FileType,
                     renameFrom: string, renameTo: string)
    | WriteModules(editorPath: Path, modules: seq<ModuleInfo>)
    | WriteInfo(editorPath: Path, info: StoredInfo)
    | ReleaseLock(editorPath: Path)

  /** The archive goes to `{UNITY_PATH}`, and the platform's move path for
      the editor, if any, is moved onto the editor's path (mod.rs:74-76). */
  function ArchiveStep(t: Target, version: string, movePath: Path -> Option<string>): EditorStep
  {
    var p := t.editorPath;
    InstallArchive(t.download.url, version, p, t.download.fileType,
                   if movePath(p).Some? then movePath(p).value else "", ToString(p))
  }

  /** The records of the download's module tree, as `convert_api_modules`
      builds them (mod.rs:78): the flattened tree, or, for a size in an
      unknown unit, the `unimplemented!()` panic of the size conversion,
      reached inside `convert_api_modules` before its `unwrap`. */
  function ModuleRecords(d: ReleaseDownload): (r: Result<seq<ModuleInfo>>)
    ensures r.Ok? <==> TreeKnown(d.modules)
    ensures r.Ok? ==> r.value == Flatten(d.modules)
    ensures !r.Ok? ==> r == Panic(NotImplemented)
  {
    if TreeKnown(d.modules) then Ok(Flatten(d.modules)) else Panic(NotImplemented)
  }

  /** The steps that install the editor once the lock is held and it is
      still missing (mod.rs:74-89): install the archive, then write
      `modules.json` and `wrum.json`. */
  function InstallPlan(t: Target, version: string, movePath: Path -> Option<string>,
                       records: Result<seq<ModuleInfo>>): (plan: seq<EditorStep>)
    ensures |plan| == 3 && plan[0] == ArchiveStep(t, version, movePath)
  {
    var p := t.editorPath;
    [ArchiveStep(t, version, movePath),
     WriteModules(p, if records.Ok? then records.value else []),
     WriteInfo(p, StoredInfo(version, DownloadArch(t.download)))]
  }

  /** The steps taken under the lock when they all succeed (mod.rs:71-92):
      take the lock; unless the editor turned up meanwhile, install it;
      release the lock. */
  function LockedPlan(t: Target, version: string, installs: bool, movePath: Path -> Option<string>): (plan: seq<EditorStep>)
    ensures |plan| == (if installs then 5 else 2)
    ensures plan[0] == TakeLock(t.editorPath) && plan[|plan| - 1] == ReleaseLock(t.editorPath)
    ensures forall i :: 0 <= i < |plan| - 1 ==> !plan[i].ReleaseLock?
  {
    var p := t.editorPath;
    [TakeLock(p)] + (if installs then InstallPlan(t, version, movePath, ModuleRecords(t.download)) else []) + [ReleaseLock(p)]
  }

  /** The install steps of mod.rs:74-89, run until the first failure.
      `records` are the module records, built between the first two steps;
      when building them panics, the install stops there. */
  method InstallUnderLock(t: Target, version: string, movePath: Path -> Option<string>,
                          records: Result<seq<ModuleInfo>>, outcome: EditorStep -> Result<()>)
    returns (r: Result<()>, steps: seq<EditorStep>)
    ensures var plan := InstallPlan(t, version, movePath, records);
            && 1 <= |steps| <= 3 && steps == plan[..|steps|]
            && (forall i :: 0 <= i < |steps| - 1 ==> outcome(steps[i]).Ok?)
            && (r.Ok? <==> steps == plan && outcome(plan[2]).Ok? && records.Ok?)
            && (outcome(plan[0]).Ok? && records.IsFailure() ==> steps == plan[..1] && r == records.PropagateFailure())
  {
    ghost var plan := InstallPlan(t, version, movePath, records);
    var editorPath := t.editorPath;
    var install := ArchiveStep(t, version, movePath);
    steps := [install];
    if outcome(install).IsFailure() {
      return outcome(install).PropagateFailure(), steps;
    }
    if records.IsFailure() {
      return records.PropagateFailure(), steps;
    }
    var writeModules := WriteModules(editorPath, records.value);
    steps := steps + [writeModules];
    if outcome(writeModules).IsFailure() {
      assert steps == plan[..2];
      return outcome(writeModules).PropagateFailure(), steps;
    }
    var writeInfo := WriteInfo(editorPath, StoredInfo(version, DownloadArch(t.download)));
    steps := steps + [writeInfo];
    assert steps == plan;
    if outcome(writeInfo).IsFailure() {
      return outcome(writeInfo).PropagateFailure(), steps;
    }
    r := Ok(());
  }

  /** The part of `install_editor` done under the install lock
      (mod.rs:71-94): `editorsAgain` is the listing taken once the lock is
      held, `movePath` the platform's move path for an editor path, and
      `outcome(step)` the outcome of each step. The steps taken are those of
      the plan up to the first failure; the lock is released only once
      everything before it succeeded. */
  method InstallLocked(t: Target, version: string, editorsAgain: Result<seq<EditorInfo>>,
                       movePath: Path -> Option<string>, outcome: EditorStep -> Result<()>)
    returns (r: Result<int>, steps: seq<EditorStep>)
    ensures var installs := editorsAgain.Ok?
                            && InstalledOfArch(InstalledVersion(editorsAgain.value, version), DownloadArch(t.download)).None?;
            var plan := LockedPlan(t, version, installs, movePath);
            && 1 <= |steps| <= |plan| && steps == plan[..|steps|]
            && (forall i :: 0 <= i < |steps| - 1 ==> outcome(steps[i]).Ok?)
            && (r.Ok? <==> steps == plan && outcome(plan[|plan| - 1]).Ok?)
            && (r.Ok? ==> r.value == 0)
            && (editorsAgain.IsFailure() ==> steps == [plan[0]] && r.IsFailure())
            && (installs && outcome(plan[0]).Ok? && outcome(plan[1]).Ok? && !TreeKnown(t.download.modules) ==>
                  steps == plan[..2] && r == Panic(NotImplemented))
  {
    var editorPath := t.editorPath;
    ghost var installs := editorsAgain.Ok?
                          && InstalledOfArch(InstalledVersion(editorsAgain.value, version), DownloadArch(t.download)).None?;
    ghost var plan := LockedPlan(t, version, installs, movePath);
    var lock := TakeLock(editorPath);
    steps := [lock];
    if outcome(lock).IsFailure() {
      return outcome(lock).PropagateFailure(), steps;
    }
    if editorsAgain.IsFailure() {
      return editorsAgain.PropagateFailure(), steps;
    }
    if InstalledOfArch(InstalledVersion(editorsAgain.value, version), DownloadArch(t.download)).None? {
      var records := ModuleRecords(t.download);
      ghost var middle := InstallPlan(t, version, movePath, records);
      assert plan == [lock] + middle + [ReleaseLock(editorPath)];
      var installed, made := InstallUnderLock(t, version, movePath, records, outcome);
      steps := steps + made;
      assert forall i :: 1 <= i < |steps| ==> steps[i] == made[i - 1];
      assert steps == plan[..|steps|];
      if installed.IsFailure() {
        return installed.PropagateFailure(), steps;
      }
    } else {
      assert plan == [lock, ReleaseLock(editorPath)];
    }
    var unlock := ReleaseLock(editorPath);
    steps := steps + [unlock];
    assert steps == plan;
    if outcome(unlock).IsFailure() {
      return outcome(unlock).PropagateFailure(), steps;
    }
    return Ok(0), steps;
  }

  /** The checks of `install_editor` before the lock (mod.rs:12-70), one
      after the other: the outcome is `Prepare`'s. */
  method PrepareInstall(version: string, architecture: Option<string>, systemArch: SystemArch,
                        editors: Result<seq<EditorInfo>>, release: Result<Option<Release>>,
                        installRoot: Result<Path>, available: Result<nat>)
    returns (d: Result<Option<Target>>)
    ensures d == Prepare(version, architecture, systemArch, editors, release, installRoot, available)
  {
    var preferable := PreferableArch(architecture, systemArch);
    if editors.IsFailure() {
      return editors.PropagateFailure();
    }
    var installed := InstalledVersion(editors.value, version);
    if InstalledOfArch(installed, preferable).Some? {
      return Ok(None);
    }
    if release.IsFailure() {
      return release.PropagateFailure();
    }
    if release.value.None? {
      return Err(NoRelease);
    }
    var download := PickPreferred(release.value.value.downloads, DownloadArch, preferable);
    if download.None? {
      return Err(NoDownload);
    }
    var arch := DownloadArch(download.value);
    if architecture.Some? && ArchFromString(architecture.value) != arch {
      return Err(NoDownloadForArch);
    }
    if InstalledOfArch(installed, arch).Some? {
      return Ok(None);
    }
    var versionPath := VersionDirectory(version, installed, arch);
    if installRoot.IsFailure() {
      return installRoot.PropagateFailure();
    }
    var required := RequiredSpace(download.value);
    if required.IsFailure() {
      return required.PropagateFailure();
    }
    if available.IsFailure() {
      return Panic(UnwrapErr);
    }
    if available.value < required.value {
      return Err(NotEnoughSpace);
    }
    return Ok(Some(Target(download.value, Child(installRoot.value, versionPath))));
  }

  /** `install_editor(version, architecture)` (mod.rs:12-95): the checks
      of `Prepare`, then, when something is to be installed, the locked
      part. Returns the result and the steps taken under the lock. */
  method InstallEditor(version: string, architecture: Option<string>, systemArch: SystemArch,
                       editors: Result<seq<EditorInfo>>, release: Result<Option<Release>>,
                       installRoot: Result<Path>, available: Result<nat>,
                       editorsAgain: Result<seq<EditorInfo>>, movePath: Path -> Option<string>,
                       outcome: EditorStep -> Result<()>)
    returns (r: Result<int>, steps: seq<EditorStep>)
    ensures var d := Prepare(version, architecture, systemArch, editors, release, installRoot, available);
            && (d.IsFailure() ==> r == d.PropagateFailure() && steps == [])
            && (d == Ok(None) ==> r == Ok(0) && steps == [])
            && (d.Ok? && d.value.Some? ==>
                  var t := d.value.value;
                  var installs := editorsAgain.Ok?
                                  && InstalledOfArch(InstalledVersion(editorsAgain.value, version), DownloadArch(t.download)).None?;
                  var plan := LockedPlan(t, version, installs, movePath);
                  && 1 <= |steps| <= |plan| && steps == plan[..|steps|]
                  && (r.Ok? <==> steps == plan && outcome(plan[|plan| - 1]).Ok?))
  {
    steps := [];
    var d := PrepareInstall(version, architecture, systemArch, editors, release, installRoot, available);
    if d.IsFailure() {
      return d.PropagateFailure(), steps;
    }
    if d.value.None? {
      return Ok(0), steps;
    }
    r, steps := InstallLocked(d.value.value, version, editorsAgain, movePath, outcome);
  }

  /** `get_installed_editor_path(version, arch)` (mod.rs:125-145). With an
      architecture named: the path of the first editor of that version and
      architecture. Without: the last one of the machine's architecture,
      else the first of that version. */
  method InstalledEditorPath(version: string, arch: Option<string>, systemArch: SystemArch,
                             editors: Result<seq<EditorInfo>>) returns (r: Result<Option<Path>>)
    ensures editors.IsFailure() ==> r == editors.PropagateFailure()
    ensures editors.Ok? && arch.Some? ==>
              var found := InstalledOfArch(InstalledVersion(editors.value, version), ArchFromString(arch.value));
              r == Ok(if found.Some? then Some(found.value.path) else None)
    ensures editors.Ok? && arch.None? ==>
              var picked := PreferredOf(InstalledVersion(editors.value, version), EditorArch, systemArch);
              r == Ok(if picked.Some? then Some(picked.value.path) else None)
  {
    if editors.IsFailure() {
      return editors.PropagateFailure();
    }
    var installed := InstalledVersion(editors.value, version);
    if arch.Some? {
      var found := InstalledOfArch(installed, ArchFromString(arch.value));
      return Ok(if found.Some? then Some(found.value.path) else None);
    }
    var picked := PickPreferred(installed, EditorArch, systemArch);
    return Ok(if picked.Some? then Some(picked.value.path) else None);
  }
}
