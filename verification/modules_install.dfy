/** The rest of lib/src/modules/mod.rs: reading the module map of an
    installed editor (with its fallback that rebuilds `modules.json` from
    the release catalog), and `install_modules`, which resolves the
    requested ids, checks the free disk space and installs and marks each
    resolved module. File-system effects are values: the state of
    `modules.json` goes in and comes out, and what the I/O calls answer is
    given as parameters. */
module ModulesInstall {
  import opened Wrappers
  import opened Catalog
  import opened Paths
  import opened EditorsInfo
  import opened LiveApi
  import opened ModulesInfo
  import opened Modules
  import opened Text
  import Install

  const NoEditorFound := "No editor found"
  const NoEditorMetadata := "Couldn't read editor metadata for installed editor"
  const NoReleaseInfo := "Couldn't retrieve release info for installed editor"
  const NoDownloadForArch := "Couldn't locate download for installed editor architecture"
  const EditorNotFound := "Editor not found"
  const NotEnoughSpace := "Not enough free disk space"

  /** The fold of `read_modules_info` (mod.rs:101-104): each record is
      inserted under its id, so a later record with the same id replaces
      an earlier one. */
  function FoldById(s: seq<ModuleInfo>): (m: ModuleMap)
    ensures m.Keys == Ids(s)
    ensures forall k :: k in m ==> m[k].id == k && m[k] in s
    decreases |s|
  {
    if s == [] then map[] else FoldById(s[..|s| - 1])[s[|s| - 1].id := s[|s| - 1]]
  }

  /** The last record with a given id is the one the fold keeps. */
  lemma {:induction false} FoldByIdLastWins(s: seq<ModuleInfo>, i: nat)
    requires i < |s| && forall j :: i < j < |s| ==> s[j].id != s[i].id
    ensures s[i].id in FoldById(s) && FoldById(s)[s[i].id] == s[i]
    decreases |s|
  {
    if i < |s| - 1 {
      assert s[..|s| - 1][i] == s[i];
      FoldByIdLastWins(s[..|s| - 1], i);
    }
  }

  /** Writing the values of a map keyed by id and folding them back gives
      the map again, in whatever order `HashMap::values` lists them
      (mod.rs:47 then mod.rs:101-104). */
  lemma ListingFoldsBack(m: ModuleMap, s: seq<ModuleInfo>)
    requires forall k :: k in m ==> m[k].id == k && m[k] in s
    requires forall i :: 0 <= i < |s| ==> s[i].id in m && s[i] == m[s[i].id]
    ensures FoldById(s) == m
  {
    var f := FoldById(s);
    forall k | k in m
      ensures k in f
    {
      var i :| 0 <= i < |s| && s[i] == m[k];
      IdsMember(s, i);
    }
    forall k | k in f
      ensures k in m && f[k] == m[k]
    {
      var i :| 0 <= i < |s| && s[i] == f[k];
    }
  }

  /** The state of `<editor>/modules.json`: absent or not a valid record
      list, or a stored listing, kept here as the map it folds to (by
      `ListingFoldsBack` the listing's order does not matter). */
  datatype ModulesFile = Unusable | Listed(records: ModuleMap)

  /** The first release download whose architecture reads as `arch`
      (the `find_map` of mod.rs:129-142). */
  function FindDownload(downloads: seq<ReleaseDownload>, arch: SystemArch): (r: Option<ReleaseDownload>)
    ensures r.None? <==> forall j :: 0 <= j < |downloads| ==> FromApiArch(downloads[j].architecture) != arch
    ensures r.Some? ==> r.value in downloads && FromApiArch(r.value.architecture) == arch
    decreases |downloads|
  {
    if downloads == [] then None
    else if FromApiArch(downloads[0].architecture) == arch then Some(downloads[0])
    else FindDownload(downloads[1..], arch)
  }

  /** The download found is the first one of that architecture. */
  lemma {:induction false} FindDownloadFirst(downloads: seq<ReleaseDownload>, arch: SystemArch, i: nat)
    requires i < |downloads| && FromApiArch(downloads[i].architecture) == arch
    requires forall j :: 0 <= j < i ==> FromApiArch(downloads[j].architecture) != arch
    ensures FindDownload(downloads, arch) == Some(downloads[i])
    decreases i
  {
    if i > 0 {
      FindDownloadFirst(downloads[1..], arch, i - 1);
    }
  }

  /** `rebuild_modules_metadata` (mod.rs:120-146): the editor's identity,
      the catalog's release for its version and architecture, the first
      download of that architecture, its module tree flattened and written
      to `modules.json`. `editorInfo` is what `read_editor_info` returns for
      the editor, `release` what `get_version_info` returns, and
      `writeResult` what writing `modules.json` returns. */
  function Rebuild(editorInfo: Result<Option<EditorInfo>>, release: Result<Option<Release>>, writeResult: Result<()>)
    : (r: Result<ModuleMap>)
    ensures r.Ok? ==>
              && editorInfo.Ok? && editorInfo.value.Some? && release.Ok? && release.value.Some?
              && var d := FindDownload(release.value.value.downloads, editorInfo.value.value.arch);
                 && d.Some? && TreeKnown(d.value.modules) && writeResult.Ok?
                 && r.value == FoldById(Flatten(d.value.modules))
  {
    if editorInfo.IsFailure() then editorInfo.PropagateFailure()
    else if editorInfo.value.None? then Err(NoEditorMetadata)
    else if release.IsFailure() then release.PropagateFailure()
    else if release.value.None? then Err(NoReleaseInfo)
    else
      match FindDownload(release.value.value.downloads, editorInfo.value.value.arch)
      case None => Err(NoDownloadForArch)
      case Some(d) =>
        if !TreeKnown(d.modules) then Panic(NotImplemented)
        else if writeResult.IsFailure() then writeResult.PropagateFailure()
        else Ok(FoldById(Flatten(d.modules)))
  }

  /** Each missing piece of the rebuild fails with its own message, and a
      failed write fails the rebuild. */
  lemma RebuildErrors(editorInfo: Result<Option<EditorInfo>>, release: Result<Option<Release>>, writeResult: Result<()>)
    ensures editorInfo == Ok(None) ==>
              Rebuild(editorInfo, release, writeResult) == Err(NoEditorMetadata)
    ensures editorInfo.Ok? && editorInfo.value.Some? && release == Ok(None) ==>
              Rebuild(editorInfo, release, writeResult) == Err(NoReleaseInfo)
    ensures editorInfo.Ok? && editorInfo.value.Some? && release.Ok? && release.value.Some? &&
            FindDownload(release.value.value.downloads, editorInfo.value.value.arch).None? ==>
              Rebuild(editorInfo, release, writeResult) == Err(NoDownloadForArch)
  {
  }

  /** A failure to read the editor's identity or to write the file fails
      the rebuild. */
  lemma RebuildFailures(editorInfo: Result<Option<EditorInfo>>, release: Result<Option<Release>>, writeResult: Result<()>)
    ensures editorInfo.IsFailure() || release.IsFailure() || writeResult.IsFailure() ==>
              Rebuild(editorInfo, release, writeResult).IsFailure()
  {
  }

  /** `read_modules_info(path)` (mod.rs:85-105): no editor executable is an
      error; a usable `modules.json` is folded by id; otherwise the metadata
      is rebuilt. `executableExists` says whether the executable is on
      disk. Returns the map and the file afterwards. */
  function ReadModules(executableExists: bool, file: ModulesFile, editorInfo: Result<Option<EditorInfo>>,
                       release: Result<Option<Release>>, writeResult: Result<()>)
    : (out: (Result<ModuleMap>, ModulesFile))
    ensures !executableExists ==> out == (Err(NoEditorFound), file)
    ensures executableExists && file.Listed? ==> out == (Ok(file.records), file)
    ensures executableExists && file.Unusable? ==> out.0 == Rebuild(editorInfo, release, writeResult)
    ensures out.0.Ok? ==> out.1 == Listed(out.0.value)
    ensures !out.0.Ok? ==> out.1 == file
  {
    if !executableExists then (Err(NoEditorFound), file)
    else if file.Listed? then (Ok(file.records), file)
    else
      var r := Rebuild(editorInfo, release, writeResult);
      if r.Ok? then (r, Listed(r.value)) else (r, file)
  }

  /** A map that was read once is read again unchanged: after a rebuild the
      file holds what was returned. */
  lemma ReadAgain(executableExists: bool, file: ModulesFile, editorInfo: Result<Option<EditorInfo>>,
                  release: Result<Option<Release>>, writeResult: Result<()>,
                  editorInfo2: Result<Option<EditorInfo>>, release2: Result<Option<Release>>, writeResult2: Result<()>)
    requires ReadModules(executableExists, file, editorInfo, release, writeResult).0.Ok?
    ensures var (r, f) := ReadModules(executableExists, file, editorInfo, release, writeResult);
            ReadModules(executableExists, f, editorInfo2, release2, writeResult2) == (r, f)
  {
  }

  /** Records `from` up to `to` of `s` are the block that resolving the
      request `id` appended: each is a descendant-or-self of `id` or climbs,
      through the modules it syncs with, to an ancestor-or-self of `id`
      (only the latter without children), and an unselected `id` is listed
      by the end of it. */
  ghost predicate RequestBlock(info: ModuleMap, rank: map<string, nat>, s: seq<ModuleInfo>, from: nat, to: nat,
                               id: string, includeChildren: bool)
    requires Ranked(info, rank)
  {
    && from <= to <= |s|
    && UnderOrBelow(info, rank, s[..to], from, id)
    && (!includeChildren ==> UnderAncestor(info, rank, s[..to], from, id))
    && (id in info && !info[id].selected ==> id in Ids(s[..to]))
  }

  lemma RequestBlockKept(info: ModuleMap, rank: map<string, nat>, s: seq<ModuleInfo>, t: seq<ModuleInfo>, from: nat,
                         to: nat, id: string, includeChildren: bool)
    requires Ranked(info, rank) && |s| <= |t| && t[..|s|] == s
    requires RequestBlock(info, rank, s, from, to, id, includeChildren)
    ensures RequestBlock(info, rank, t, from, to, id, includeChildren)
  {
    assert t[..to] == s[..to];
  }

  /** The loop over the requested ids in `install_modules` (mod.rs:15-17),
      each resolved into the same list with the same `include_children`.
      The list is made of one block per request, in the order of the
      requests (`marks` gives where each block starts); no id occurs twice
      when no request meets the hazard. */
  method ResolveRequests(requests: seq<string>, info: ModuleMap, includeChildren: bool, ghost rank: map<string, nat>)
    returns (list: seq<ModuleInfo>, ghost marks: seq<nat>)
    requires Ranked(info, rank)
    ensures FromMapUnselected(info, list, 0)
    ensures ParentsFirst(info, list)
    ensures forall j :: 0 <= j < |requests| && requests[j] in info && !info[requests[j]].selected ==>
              requests[j] in Ids(list)
    ensures (forall j :: 0 <= j < |requests| ==> requests[j] !in info) ==> list == []
    ensures (forall j :: 0 <= j < |requests| ==> !Hazard(info, rank, [], requests[j])) ==> NoDuplicates(list)
    ensures |marks| == |requests| + 1 && marks[0] == 0 && marks[|requests|] == |list|
    ensures forall j :: 0 <= j < |requests| ==>
              RequestBlock(info, rank, list, marks[j], marks[j + 1], requests[j], includeChildren)
  {
    list := [];
    marks := [0];
    var k := 0;
    while k < |requests|
      invariant k <= |requests|
      invariant FromMapUnselected(info, list, 0)
      invariant ParentsFirst(info, list)
      invariant forall j :: 0 <= j < k && requests[j] in info && !info[requests[j]].selected ==>
                  requests[j] in Ids(list)
      invariant (forall j :: 0 <= j < k ==> requests[j] !in info) ==> list == []
      invariant (forall j :: 0 <= j < k ==> !Hazard(info, rank, [], requests[j])) ==> NoDuplicates(list)
      invariant |marks| == k + 1 && marks[0] == 0 && marks[k] == |list|
      invariant forall j :: 0 <= j < k ==>
                  RequestBlock(info, rank, list, marks[j], marks[j + 1], requests[j], includeChildren)
    {
      ghost var before := list;
      HazardAntitone(info, rank, list, requests[k]);
      list := PushModuleToInstall(requests[k], info, list, includeChildren, rank);
      FromMapUnselectedConcat(info, before, list, 0);
      IdsPrefix(before, list);
      forall j | 0 <= j < k
        ensures RequestBlock(info, rank, list, marks[j], marks[j + 1], requests[j], includeChildren)
      {
        RequestBlockKept(info, rank, before, list, marks[j], marks[j + 1], requests[j], includeChildren);
      }
      assert list[..|list|] == list;
      assert RequestBlock(info, rank, list, |before|, |list|, requests[k], includeChildren);
      marks := marks + [|list|];
      k := k + 1;
    }
  }

  /** The space `install_modules` requires (mod.rs:23-31): the installed
      plus download size of every resolved module whose `sync` is
      non-empty. Modules with an empty `sync` are skipped. */
  function SyncedSpace(list: seq<ModuleInfo>): nat
    decreases |list|
  {
    if list == [] then 0
    else
      var m := list[|list| - 1];
      SyncedSpace(list[..|list| - 1]) + (if m.sync == "" then 0 else m.installedSize + m.downloadSize)
  }

  lemma {:induction false} SyncedSpaceConcat(a: seq<ModuleInfo>, b: seq<ModuleInfo>)
    ensures SyncedSpace(a + b) == SyncedSpace(a) + SyncedSpace(b)
    decreases |b|
  {
    if b == [] {
      assert a + b == a;
    } else {
      assert (a + b)[..|a + b| - 1] == a + b[..|b| - 1];
      SyncedSpaceConcat(a, b[..|b| - 1]);
    }
  }

  /** A list without any module that syncs with a parent requires no
      space at all, so the free-space check passes whatever the sizes. */
  lemma {:induction false} UnsyncedRequireNothing(list: seq<ModuleInfo>)
    requires forall i :: 0 <= i < |list| ==> list[i].sync == ""
    ensures SyncedSpace(list) == 0
    decreases |list|
  {
    if list != [] {
      UnsyncedRequireNothing(list[..|list| - 1]);
    }
  }

  /** The loop that sums the required space. */
  method RequiredDiskSpace(list: seq<ModuleInfo>) returns (required: nat)
    ensures required == SyncedSpace(list)
  {
    required := 0;
    var k := 0;
    while k < |list|
      invariant k <= |list| && required == SyncedSpace(list[..k])
    {
      assert list[..k + 1][..k] == list[..k];
      if list[k].sync != "" {
        required := required + list[k].installedSize + list[k].downloadSize;
      }
      k := k + 1;
    }
    assert list[..k] == list;
  }

  /** The map after the records of `list` are marked selected, one after
      the other; ids that are not keys are passed over. */
  function MarkSelected(records: ModuleMap, list: seq<ModuleInfo>): ModuleMap
    decreases |list|
  {
    if list == [] then records
    else
      var before := MarkSelected(records, list[..|list| - 1]);
      var x := list[|list| - 1].id;
      if x in before then before[x := before[x].(selected := true)] else before
  }

  /** Marking changes exactly the listed records, and only their
      `selected` flag. */
  lemma {:induction false} MarkSelectedEffect(records: ModuleMap, list: seq<ModuleInfo>)
    ensures MarkSelected(records, list).Keys == records.Keys
    ensures forall k :: k in records ==>
              MarkSelected(records, list)[k] == if k in Ids(list) then records[k].(selected := true) else records[k]
    decreases |list|
  {
    if list != [] {
      MarkSelectedEffect(records, list[..|list| - 1]);
    }
  }

  /** The arguments of one `install::install` call (mod.rs:38, 43-45): the
      module's destination, `/Applications` when it has none. */
  datatype InstallCall = InstallCall(url: string, id: string, moduleType: FileType, destination: string,
                                     renameFrom: string, renameTo: string)

  function CallFor(m: ModuleInfo): InstallCall
  {
    InstallCall(m.url, m.id, m.moduleType, if m.destination.Some? then m.destination.value else "/Applications",
                m.renameFrom, m.renameTo)
  }

  /** The calls `install::install` makes for module `m` of the editor at
      `editorPath`, once `file` is downloaded. */
  function ModulePlan(m: ModuleInfo, editorPath: Path, file: Path): seq<Install.Call>
  {
    var c := CallFor(m);
    Install.InstallPlan(editorPath, c.moduleType, c.destination, c.renameFrom, c.renameTo, file)
  }

  /** A module without a destination is unpacked into `/Applications`,
      whatever the editor's path. */
  lemma UnpackDefault(m: ModuleInfo, editorPath: Path, file: Path)
    requires m.destination.None?
    ensures ModulePlan(m, editorPath, file)[0] == Install.UnpackArchive(m.moduleType, file, "/Applications")
  {
    var target := "/Applications";
    assert Free(target, Install.PLACEHOLDER[0]);
    FirstCharAbsent(target, Install.PLACEHOLDER);
    Install.InEditorPathPlain(ToString(editorPath), target);
  }

  /** A module whose destination starts with the editor placeholder is
      unpacked below the editor. */
  lemma UnpackInEditor(m: ModuleInfo, rest: string, editorPath: Path, file: Path)
    requires m.destination == Some(Install.PLACEHOLDER + rest) && !Contains(rest, Install.PLACEHOLDER)
    ensures ModulePlan(m, editorPath, file)[0] == Install.UnpackArchive(m.moduleType, file, ToString(editorPath) + rest)
  {
    Install.InEditorPathLeading(ToString(editorPath), rest);
  }

  /** `x` is listed in `s` and not selected in `records`: it still needs
      installing. */
  predicate Pending(records: ModuleMap, s: seq<ModuleInfo>, x: string)
  {
    x in Ids(s) && x in records && !records[x].selected
  }

  /** What the install loop keeps about the file once the resolved
      modules `done` are handled: they are all keys, and the file holds the
      map with them marked. */
  predicate FileProgress(records: ModuleMap, done: seq<ModuleInfo>, file: ModulesFile)
  {
    && Ids(done) <= records.Keys
    && file == Listed(MarkSelected(records, done))
    && file.records.Keys == records.Keys
  }

  /** What the install loop keeps about the installs: they are distinct,
      taken from `list`, free of install errors, and are exactly the
      modules of `done` that were pending. */
  ghost predicate InstallsProgress(records: ModuleMap, list: seq<ModuleInfo>, done: seq<ModuleInfo>,
                                   installs: seq<ModuleInfo>, installErrors: map<string, string>)
  {
    && (forall i :: 0 <= i < |installs| ==> installs[i] in list)
    && NoDuplicates(installs)
    && (forall x :: x in Ids(installs) <==> Pending(records, done, x))
    && (forall i :: 0 <= i < |installs| ==> installs[i].id !in installErrors)
  }

  /** Marking the next module, whether it was selected or not. */
  lemma FileStep(records: ModuleMap, done: seq<ModuleInfo>, m: ModuleInfo, file: ModulesFile)
    requires FileProgress(records, done, file) && m.id in file.records
    ensures FileProgress(records, done + [m], Listed(file.records[m.id := file.records[m.id].(selected := true)]))
  {
    MarkSelectedAppend(records, done, m);
    MarkSelectedEffect(records, done);
    IdsAppend(done, m);
  }

  /** A module pending in the re-read map is installed. */
  lemma InstallStep(records: ModuleMap, list: seq<ModuleInfo>, done: seq<ModuleInfo>, m: ModuleInfo, file: ModulesFile,
                    installs: seq<ModuleInfo>, installErrors: map<string, string>)
    requires FileProgress(records, done, file) && InstallsProgress(records, list, done, installs, installErrors)
    requires m in list && m.id in file.records && !file.records[m.id].selected && m.id !in installErrors
    ensures InstallsProgress(records, list, done + [m], installs + [m], installErrors)
  {
    MarkSelectedEffect(records, done);
    PendingAppend(records, done, m);
    assert !Pending(records, done, m.id);
    NoDuplicatesAppend(installs, m);
    IdsAppend(installs, m);
  }

  lemma PendingAppend(records: ModuleMap, done: seq<ModuleInfo>, m: ModuleInfo)
    ensures forall x :: Pending(records, done + [m], x) <==>
              Pending(records, done, x) || (x == m.id && x in records && !records[x].selected)
  {
    IdsAppend(done, m);
  }

  /** A module already selected in the re-read map is passed over. */
  lemma SkipSelected(records: ModuleMap, list: seq<ModuleInfo>, done: seq<ModuleInfo>, m: ModuleInfo, file: ModulesFile,
                     installs: seq<ModuleInfo>, installErrors: map<string, string>)
    requires FileProgress(records, done, file) && InstallsProgress(records, list, done, installs, installErrors)
    requires m.id in file.records && file.records[m.id].selected
    ensures InstallsProgress(records, list, done + [m], installs, installErrors)
  {
    MarkSelectedEffect(records, done);
    PendingAppend(records, done, m);
  }

  lemma MarkSelectedAppend(records: ModuleMap, done: seq<ModuleInfo>, m: ModuleInfo)
    ensures var before := MarkSelected(records, done);
            MarkSelected(records, done + [m])
              == if m.id in before then before[m.id := before[m.id].(selected := true)] else before
  {
    assert (done + [m])[..|done|] == done;
  }

  lemma MarkingSelectedKeepsMap(records: ModuleMap, x: string)
    requires x in records && records[x].selected
    ensures records[x := records[x].(selected := true)] == records
  {
    assert records[x].(selected := true) == records[x];
  }

  /** A pass of the install loop that succeeded keeps what the loop keeps,
      whether it installed the module or passed over it. */
  lemma LoopStep(records: ModuleMap, list: seq<ModuleInfo>, k: nat, m: ModuleInfo, file: ModulesFile, next: ModulesFile, installs: seq<ModuleInfo>, installs': seq<ModuleInfo>,
                 installErrors: map<string, string>, writeErrors: map<string, string>)
    requires k < |list| && m == list[k]
    requires FileProgress(records, list[..k], file) && InstallsProgress(records, list, list[..k], installs, installErrors)
    requires forall i :: 0 <= i < |installs| ==> installs[i].id !in writeErrors
    requires m.id in file.records
    requires file.records[m.id].selected ==> next == file && installs' == installs
    requires !file.records[m.id].selected ==>
               && next == Listed(file.records[m.id := file.records[m.id].(selected := true)])
               && installs' == installs + [m] && m.id !in installErrors && m.id !in writeErrors
    ensures FileProgress(records, list[..k + 1], next)
    ensures InstallsProgress(records, list, list[..k + 1], installs', installErrors)
    ensures forall i :: 0 <= i < |installs'| ==> installs'[i].id !in writeErrors
  {
    var done := list[..k];
    assert list[..k + 1] == done + [m];
    if file.records[m.id].selected {
      SkipSelected(records, list, done, m, file, installs, installErrors);
      MarkingSelectedKeepsMap(file.records, m.id);
    } else {
      InstallStep(records, list, done, m, file, installs, installErrors);
    }
    FileStep(records, done, m, file);
  }

  /** A pass of the install loop that failed leaves the installs made so
      far distinct and from `list`, and a failed write of the module just
      installed is the error returned. */
  lemma Stopped(records: ModuleMap, list: seq<ModuleInfo>, k: nat, m: ModuleInfo, file: ModulesFile,
                installs: seq<ModuleInfo>, installs': seq<ModuleInfo>, installErrors: map<string, string>,
                writeErrors: map<string, string>, step: Result<()>, installed: bool)
    requires k < |list| && m == list[k]
    requires FileProgress(records, list[..k], file) && InstallsProgress(records, list, list[..k], installs, installErrors)
    requires forall i :: 0 <= i < |installs| ==> installs[i].id !in writeErrors
    requires installed ==> m.id in file.records && !file.records[m.id].selected && m.id !in installErrors
    requires installed ==> installs' == installs + [m] && (m.id in writeErrors ==> step == Err(writeErrors[m.id]))
    requires !installed ==> installs' == installs
    ensures forall i :: 0 <= i < |installs'| ==> installs'[i] in list
    ensures NoDuplicates(installs')
    ensures |installs'| > 0 && installs'[|installs'| - 1].id in writeErrors ==>
              step == Err(writeErrors[installs'[|installs'| - 1].id])
  {
    if installed {
      InstallStep(records, list, list[..k], m, file, installs, installErrors);
    }
  }

  /** One pass of the install loop (mod.rs:40-49) for the resolved module
      `m`, on the map `records` read again from `modules.json`: a module
      that is not a key is the indexing panic; a selected one is passed
      over; otherwise it is installed (failing with `installErrors[id]`
      when `id` is a key of it), marked selected, and the whole map written
      back (failing with `writeErrors[id]` when `id` is a key of it, which
      leaves the file as it was). Returns the outcome, the file afterwards
      and whether the install was made. */
  method InstallOne(m: ModuleInfo, records: ModuleMap, installErrors: map<string, string>,
                    writeErrors: map<string, string>)
    returns (r: Result<()>, file: ModulesFile, installed: bool)
    ensures m.id !in records ==> r == Panic("no entry found for key") && file == Listed(records) && !installed
    ensures m.id in records && records[m.id].selected ==> r == Ok(()) && file == Listed(records) && !installed
    ensures m.id in records && !records[m.id].selected ==>
              && installed == (m.id !in installErrors)
              && (m.id in installErrors ==> r == Err(installErrors[m.id]) && file == Listed(records))
              && (installed && m.id in writeErrors ==> r == Err(writeErrors[m.id]) && file == Listed(records))
              && (installed && m.id !in writeErrors ==>
                    r == Ok(()) && file == Listed(records[m.id := records[m.id].(selected := true)]))
  {
    file, installed := Listed(records), false;
    if m.id !in records {
      return Panic("no entry found for key"), file, installed;
    }
    r := Ok(());
    if !records[m.id].selected {
      if m.id in installErrors {
        return Err(installErrors[m.id]), file, installed;
      }
      installed := true;
      if m.id in writeErrors {
        return Err(writeErrors[m.id]), file, installed;
      }
      file := Listed(records[m.id := records[m.id].(selected := true)]);
    }
  }

  /** The loop of `install_modules` (mod.rs:37-50). For each resolved
      module the map is read again from `modules.json`, which holds a
      listing at this point, so `read_modules_info` returns the map last
      written (`ReadAgain`), and the module is handled by `InstallOne`.
      Returns the outcome, the file afterwards, the installs made, in
      order, and how many resolved modules were handled before the loop
      ended. */
  method InstallEach(list: seq<ModuleInfo>, records: ModuleMap, installErrors: map<string, string>,
                     writeErrors: map<string, string>)
    returns (r: Result<()>, file: ModulesFile, installs: seq<ModuleInfo>, ghost handled: nat)
    ensures handled <= |list| && file == Listed(MarkSelected(records, list[..handled]))
    ensures r.Ok? ==> handled == |list|
    ensures r.Ok? ==> Ids(list) <= records.Keys
    ensures r.Ok? ==> file == Listed(MarkSelected(records, list))
    ensures forall i :: 0 <= i < |installs| ==> installs[i] in list
    ensures NoDuplicates(installs)
    ensures r.Ok? ==> forall x :: x in Ids(installs) <==> Pending(records, list, x)
    ensures r.Ok? ==> forall i :: 0 <= i < |installs| ==> installs[i].id !in installErrors && installs[i].id !in writeErrors
    ensures r.Err? ==> file.Listed? && file.records.Keys == records.Keys
    ensures r.Err? && |installs| > 0 && installs[|installs| - 1].id in writeErrors ==>
              r == Err(writeErrors[installs[|installs| - 1].id])
  {
    file := Listed(records);
    installs := [];
    var k := 0;
    assert list[..0] == [];
    while k < |list|
      invariant k <= |list|
      invariant FileProgress(records, list[..k], file)
      invariant InstallsProgress(records, list, list[..k], installs, installErrors)
      invariant forall i :: 0 <= i < |installs| ==> installs[i].id !in writeErrors
    {
      var m := list[k];
      var step, next, installed := InstallOne(m, file.records, installErrors, writeErrors);
      if step.IsFailure() {
        ghost var before := installs;
        if installed {
          installs := installs + [m];
        }
        Stopped(records, list, k, m, file, before, installs, installErrors, writeErrors, step, installed);
        return step, file, installs, k;
      }
      ghost var before := installs;
      if installed {
        installs := installs + [m];
      }
      LoopStep(records, list, k, m, file, next, before, installs, installErrors, writeErrors);
      file := next;
      k := k + 1;
    }
    assert list[..k] == list;
    r, handled := Ok(()), k;
  }

  /** `install_modules` once the editor's module map `info` is read
      (mod.rs:13-52): the requested ids are resolved; an empty list is done;
      too little free space (`available`) is an error before any install;
      otherwise each resolved module is installed and marked
      (`InstallEach`). Returns the outcome, `modules.json` afterwards (it
      holds `info` before), the modules installed in order, and the
      resolved list. */
  method InstallResolved(requests: seq<string>, includeChildren: bool, info: ModuleMap, available: nat,
                         installErrors: map<string, string>, writeErrors: map<string, string>, ghost rank: map<string, nat>)
    returns (r: Result<()>, fileAfter: ModulesFile, installs: seq<ModuleInfo>, ghost resolved: seq<ModuleInfo>)
    requires Ranked(info, rank)
    ensures FromMapUnselected(info, resolved, 0) && ParentsFirst(info, resolved)
    ensures (forall j :: 0 <= j < |requests| ==> !Hazard(info, rank, [], requests[j])) ==> NoDuplicates(resolved)
    ensures forall j :: 0 <= j < |requests| && requests[j] in info && !info[requests[j]].selected ==>
              requests[j] in Ids(resolved)
    ensures resolved == [] ==> r == Ok(()) && fileAfter == Listed(info) && installs == []
    ensures resolved != [] && available < SyncedSpace(resolved) ==>
              r == Err(NotEnoughSpace) && fileAfter == Listed(info) && installs == []
    ensures r.Ok? ==> fileAfter == Listed(MarkSelected(info, resolved))
    ensures r.Ok? ==> forall j :: 0 <= j < |requests| && requests[j] in info ==>
                        requests[j] in fileAfter.records && fileAfter.records[requests[j]].selected
    ensures r.Ok? ==> NoDuplicates(installs) && forall x :: x in Ids(installs) <==> Pending(info, resolved, x)
  {
    installs := [];
    fileAfter := Listed(info);
    var list;
    ghost var marks;
    list, marks := ResolveRequests(requests, info, includeChildren, rank);
    resolved := list;
    if list == [] {
      return Ok(()), fileAfter, installs, resolved;
    }
    var required := RequiredDiskSpace(list);
    if available < required {
      return Err(NotEnoughSpace), fileAfter, installs, resolved;
    }
    ghost var handled;
    r, fileAfter, installs, handled := InstallEach(list, info, installErrors, writeErrors);
    if r.Ok? {
      MarkSelectedEffect(info, list);
    }
  }

  /** `install_modules(version, modules, arch, include_children)`
      (mod.rs:10-55). `editorPath` is what `get_installed_editor_path`
      returns; `executableExists`, `file`, `editorInfo`, `release` and
      `writeResult` describe that editor as in `ReadModules`; `available`
      is the free space on its disk, `installErrors` the ids whose
      installation fails and `writeErrors` those whose write of
      `modules.json` after the install fails, each with the error. The map read must be a ranked
      forest (see `Ranked`): the resolver indexes it unchecked and recurses
      along parents and submodules. Returns the outcome, `modules.json`
      afterwards, the modules installed in order, and the resolved list. */
  method InstallModules(requests: seq<string>, includeChildren: bool, editorPath: Result<Option<Path>>,
                        executableExists: bool, file: ModulesFile, editorInfo: Result<Option<EditorInfo>>,
                        release: Result<Option<Release>>, writeResult: Result<()>, available: nat,
                        installErrors: map<string, string>, writeErrors: map<string, string>, ghost rank: map<string, nat>)
    returns (r: Result<()>, fileAfter: ModulesFile, installs: seq<ModuleInfo>, ghost resolved: seq<ModuleInfo>)
    requires var read := ReadModules(executableExists, file, editorInfo, release, writeResult).0;
             read.Ok? ==> Ranked(read.value, rank)
    ensures editorPath.IsFailure() ==> r.IsFailure() && fileAfter == file && installs == []
    ensures editorPath == Ok(None) ==> r == Err(EditorNotFound) && fileAfter == file && installs == []
    ensures var read := ReadModules(executableExists, file, editorInfo, release, writeResult);
            editorPath.Ok? && editorPath.value.Some? && !read.0.Ok? ==>
              r.IsFailure() && fileAfter == file && installs == []
    ensures var read := ReadModules(executableExists, file, editorInfo, release, writeResult);
            r.Ok? && editorPath.Ok? && editorPath.value.Some? ==>
              && read.0.Ok?
              && fileAfter == Listed(MarkSelected(read.0.value, resolved))
              && FromMapUnselected(read.0.value, resolved, 0)
              && forall j :: 0 <= j < |requests| && requests[j] in read.0.value ==>
                   requests[j] in fileAfter.records && fileAfter.records[requests[j]].selected
  {
    resolved := [];
    installs := [];
    fileAfter := file;
    if editorPath.IsFailure() {
      return editorPath.PropagateFailure(), fileAfter, installs, resolved;
    }
    if editorPath.value.None? {
      return Err(EditorNotFound), fileAfter, installs, resolved;
    }
    var read := ReadModules(executableExists, file, editorInfo, release, writeResult);
    if read.0.IsFailure() {
      return read.0.PropagateFailure(), fileAfter, installs, resolved;
    }
    r, fileAfter, installs, resolved := InstallResolved(requests, includeChildren, read.0.value, available,
                                                        installErrors, writeErrors, rank);
    if resolved == [] {
      MarkSelectedEffect(read.0.value, resolved);
    }
  }
}
