# wrum — a verified model of the install engine

wrum installs Unity editors and their modules from the command line, with
Unity Hub as an optional back end. This project models the part of wrum that
decides what to install and where it goes, and proves properties of that model
in Dafny:

- **Choosing an editor.** `install_editor` picks a release download: the last
  one of the preferred architecture, else the first. It then runs its
  idempotency, architecture and disk-space checks and picks the version
  directory. The install itself runs under a per-editor lock. The listing of
  installed editors, the identity cache `wrum.json`, and the lookup of an
  installed editor's path are modelled too.
- **Modules.**
  - The catalog's three-level module tree is flattened into `modules.json`
    records. Each record names its parent, and a module that is required and
    hidden syncs with its parent and folds its size into it.
  - The dependency resolver `push_module_to_install` puts parents first,
    skips selected modules, and pulls in synced children.
  - The disk-space sum, and the install-and-mark loop of `install_modules`.
- **Installing one archive.**
  - The ranged download: the `PartialRangeIter` state machine, which yields
    byte ranges as in section 2.1 of RFC 7233, accepts 200 or 206 per
    section 4.1, and picks the file name and resume offset.
  - The unpack dispatch, where the file extension overrides the declared
    format.
  - The `Editor/Data/PlaybackEngines` destination adjustment for tar.xz.
  - tar and cpio entry dispatch, the `pkg.tmp/Payload` lookup, and DMG
    selection.
  - Recursive tree copy and move, the `{UNITY_PATH}` substitution, the
    install-lock file names, and the secondary install path setting.
- **License sessions.** The lock table of `lock_license` and
  `release_license`.
- **Small parsers.** The project-version line parser, the catalog enum
  conversions, and the command-line tool's `install` and `install-modules`
  commands, both the module-id splitting and the Unity Hub argument lists.

Everything the code does through the operating system, the network or a
library is a parameter of the model:
- file contents and existence, directory listings, free space;
- catalog and HTTP replies, decoded archive entry lists;
- the outcome of each effect.

Operations that run step by step are methods. They return the effects they
performed, and their contracts tie those effects to a plan function: the
steps are a prefix of the plan, every step but the last succeeded, and the
outcome is that of the last step. Pure logic is functions with lemmas.
Objects the source updates in place are classes: the download range
iterator and the license directory.

Files:
- `wrappers.dfy`: Option and Result. A Result is `Ok`, `Err(message)`, or
  `Panic(reason)` for an `unwrap`, `unimplemented!` or overflow panic.
- `text.dfy`, `paths.dfy`: the string and `PathBuf` operations the code uses.
- `catalog.dfy`: the catalog types.
- `live_api.dfy`, `editors_info.dfy`, `editors.dfy`: the catalog, the
  editor-identity cache, and editor selection and installation.
- `modules_info.dfy`, `modules_resolver.dfy`, `modules_install.dfy`: module
  records, the resolver, and `read_modules_info` and `install_modules`.
- `install.dfy`, `download.dfy`, `unpack.dfy`, `extract.dfy`,
  `file_tree.dfy`: one archive's install.
- `license.dfy`, `projects.dfy`: license sessions and the project version.
- `cli_install.dfy`, `cli_install_modules.dfy`: the command-line commands.

## Model

| member | source | states |
|---|---|---|
| Projects.VersionFilePath | lib/src/projects/mod.rs:8-10 | The version file is `ProjectSettings/ProjectVersion.txt` below the project directory. |
| Projects.ScanEnd | lib/src/projects/mod.rs:16-20 | The scan stops at the first unreadable line or the first line starting with `m_EditorVersion: `, else at the end. Every line before that point is readable and does not start with the key. |
| Projects.ProjectEditorVersion | lib/src/projects/mod.rs:7-22 | A missing version file gives "Path doesn't contain a valid project". A failure to open it propagates. A version returned is what follows the key on some line that starts with the key. |
| Projects.FirstKeyLineWins | lib/src/projects/mod.rs:16-19 | The first line starting with the key gives the version. Earlier lines that only contain the key further on are skipped, and later lines are ignored. |
| Projects.UnreadableLineStops | lib/src/projects/mod.rs:16 | A line that cannot be read ends the scan: "Couldn't detect editor version", even when a key line follows it. |
| Projects.NoKeyLine | lib/src/projects/mod.rs:21 | Without a key line the result is "Couldn't detect editor version". |
| LiveApi.CategoryName | lib/src/live_api/mod.rs:29-41 | Exactly the unknown categories map to the empty name. |
| LiveApi.CategoryNamesDistinct | lib/src/live_api/mod.rs:29-41 | Distinct known categories have distinct display names. |
| LiveApi.ToApiArch | lib/src/live_api/mod.rs:49-56 | An installer architecture never becomes an unknown catalog architecture. |
| LiveApi.FromApiArch | lib/src/live_api/mod.rs:58-66 | Only the catalog's ARM64 reads as ARM64; every other architecture, unknown ones included, reads as x86_64. |
| LiveApi.ApiArchRoundTrip | lib/src/live_api/mod.rs:49-66 | Converting an architecture to the catalog's and back gives it again. |
| LiveApi.VersionQuery | lib/src/live_api/mod.rs:85-91 | The release query asks for the exact version, one result, the one platform, and the requested architectures in order. |
| LiveApi.GetVersionInfo | lib/src/live_api/mod.rs:93-100 | A failed request propagates. A reply without data gives "Couldn't retrieve version info". Otherwise the result is the first edge's release, or none when there are no edges. |
| EditorsInfo.ArchFromString | lib/src/editors/info.rs:14-22 | The result is ARM64 exactly for "arm64"; any other string reads as x86_64. |
| EditorsInfo.ArchToString | lib/src/editors/info.rs:24-31 | An architecture is written as "x86_64" or "arm64". |
| EditorsInfo.ArchStringRoundTrip | lib/src/editors/info.rs:14-31 | Writing an architecture out and reading it back gives it again. |
| EditorsInfo.StringArchRoundTrip | lib/src/editors/info.rs:14-31 | Reading a string and writing it back gives the string exactly when it is one of the two names. |
| EditorsInfo.ReadEditorInfo | lib/src/editors/info.rs:43-78 | No executable gives none and writes nothing. A cached `wrum.json` gives its version and architecture, with both paths taken from the arguments. A malformed cache is an error. A found identity always leaves the cache holding its version and architecture. |
| EditorsInfo.WriteEditorInfo | lib/src/editors/info.rs:80-87 | Writing succeeds exactly when the file write does. On success the cache holds the identity's version and architecture; on failure it is unchanged. |
| EditorsInfo.WriteThenRead | lib/src/editors/info.rs:43-87 | Writing an identity and then reading it gives back its version and architecture, with the reader's paths. |
| EditorsInfo.ProbeThenRead | lib/src/editors/info.rs:57-75 | Without a cache, the version is the executable's trimmed output. A later read of the cache this writes returns the same identity. |
| ModulesInfo.SizeBytes | lib/src/modules/info.rs:24-34 | A size converts exactly when its unit is byte, kilobyte, megabyte or gigabyte. Bytes are kept as they are and gigabytes are multiplied by 1024³. Any other unit is the `unimplemented!` panic. |
| ModulesInfo.UnitsScaleBy1024 | lib/src/modules/info.rs:27-30 | Each unit is 1024 of the unit below it. |
| ModulesInfo.SizeUnitBytes | lib/src/modules/info.rs:15-22 | A size already stored as a value is that value. |
| ModulesInfo.FromDownloadSize | lib/src/live_api/mod.rs:43-47 | Wrapping a catalog size keeps its byte count. |
| ModulesInfo.FromDownload | lib/src/modules/info.rs:80-127 | The conversion fails exactly when a size has an unknown unit. Otherwise: id, url, type, destination and flags are copied, and visible is the negation of hidden. The record is unselected, with empty sync and parent. The rename names come from `extracted_path_rename` when present, else they stay empty. The EULA fields come from the first EULA entry, if any. |
| ModulesInfo.SameModuleHashesAlike | lib/src/modules/info.rs:129-141 | Record equality depends only on the id and is an equivalence; equal records hash alike. |
| ModulesInfo.ConvertApiModules | lib/src/modules/info.rs:143-183 | The nested loops build exactly the flat list `Flatten`; a size in an unknown unit is the `unimplemented!` panic of the size conversion. |
| ModulesInfo.ConvertRoot | lib/src/modules/info.rs:145-181 | One root's pass pushes its level-1 blocks, then the root forced visible. |
| ModulesInfo.ConvertLevel1 | lib/src/modules/info.rs:150-177 | One level-1 pass pushes its children, then itself with the folded sizes added. |
| ModulesInfo.AttachToParent | lib/src/modules/info.rs:172-175 | Every record names its parent. A required, invisible record syncs with its parent, and sync stays empty otherwise. |
| ModulesInfoProps.FlattenSyncRule | lib/src/modules/info.rs:155-176 | In the flat list, `sync` names the parent exactly for required, invisible records and is empty otherwise. |
| ModulesInfoProps.FlattenParentsFollow | lib/src/modules/info.rs:145-181 | Every record with a parent is followed later in the list by its parent's record: level 2 before level 1, level 1 before the root. |
| ModulesInfoProps.RootRecordShape | lib/src/modules/info.rs:146-180 | A root has no parent and no sync, is forced visible, keeps its own sizes, and ends its block. |
| ModulesInfoProps.FoldedSumsAreRecordSums | lib/src/modules/info.rs:157-167 | The sizes accumulated in the loop are the sums over the emitted child records that are folded into the parent. |
| ModulesInfoProps.Level1Rollup | lib/src/modules/info.rs:153-176 | A level-1 record follows its children, names the root as parent, and has its own sizes plus those of its folded children. |
| Modules.PushModuleToInstall | lib/src/modules/mod.rs:57-83 | An unknown id, or one already listed, leaves the list unchanged. The old list is kept as a prefix, and every added record is the map's own unselected record. Upper bound: every added module is a descendant-or-self of the requested one, or climbs through the modules it syncs with to an ancestor-or-self of it. Without children only the latter holds. When the parent needs no resolving, only descendants-or-self are added. Parents come before their children. There are no duplicates unless the hazard holds; in the duplicate case the id is listed twice. Lower bound: an unselected id ends up listed, and so does every qualifying unselected submodule. Outside the hazard, so does every unselected module reached by a chain of qualifying submodule links whose modules were not listed before, selected ones on the way included. |
| Modules.ResolveParent | lib/src/modules/mod.rs:66-70 | The recursion on an unselected parent (without children) lists the parent and keeps the invariants. Everything it adds climbs through sync links above the module. It adds neither the module nor anything below it unless the hazard holds. |
| Modules.PushChild | lib/src/modules/mod.rs:76-81 | A qualifying submodule is resolved with the same `include_children`. Everything added is a descendant-or-self of it. Afterwards an unselected qualifying submodule is listed, and, when it was not listed before, so is everything reached from it. |
| Modules.PushSubmodules | lib/src/modules/mod.rs:75-82 | After the loop, every unselected submodule that qualifies (children included, or it syncs with the module) is listed. When nothing below the module was listed before the loop, every unselected module reached by a chain of qualifying submodule links is listed too. |
| Modules.ParentNotReadded | lib/src/modules/mod.rs:68-72 | Unless the hazard holds, resolving the parent lists neither the module nor anything below it, and the parent is free of the hazard too. |
| Modules.HazardAntitone | lib/src/modules/mod.rs:61-69 | A request that meets the hazard on a longer list meets it on the empty list, because the hazard needs the module and its parents to be unlisted. |
| ModulesInstall.FoldById | lib/src/modules/mod.rs:101-104 | The keys of the fold are exactly the ids of the list, and each value is a record of the list stored under its own id. |
| ModulesInstall.FoldByIdLastWins | lib/src/modules/mod.rs:101-104 | Of several records with one id, the last is kept. |
| ModulesInstall.ListingFoldsBack | lib/src/modules/mod.rs:101-104 | Folding any listing of a map's values, in any order, gives the map back. |
| ModulesInstall.FindDownload | lib/src/modules/mod.rs:129-142 | There is no result exactly when no download has the architecture. A result is a download of that architecture. |
| ModulesInstall.FindDownloadFirst | lib/src/modules/mod.rs:129-142 | The download found is the first of that architecture. |
| ModulesInstall.Rebuild | lib/src/modules/mod.rs:120-146 | A rebuild succeeds only when every piece is present and the write succeeds. Its map is the fold of the flattened tree of the first download of the editor's architecture. |
| ModulesInstall.RebuildErrors | lib/src/modules/mod.rs:121-142 | A missing editor identity, release or download of the architecture each fails with its own message. |
| ModulesInstall.RebuildFailures | lib/src/modules/mod.rs:120-146 | A failed identity read, catalog request or write fails the rebuild. |
| ModulesInstall.ReadModules | lib/src/modules/mod.rs:85-105 | No executable gives "No editor found". A usable `modules.json` is its folded map. An unusable one is rebuilt. After a success the file holds the returned map; after a failure the file is unchanged. |
| ModulesInstall.ReadAgain | lib/src/modules/mod.rs:85-105 | Reading again after a successful read returns the same map and writes nothing. |
| ModulesInstall.ResolveRequests | lib/src/modules/mod.rs:15-17 | The requests resolve into a list of the map's own unselected records, with parents first. Every unselected requested key is listed. Requests that are all unknown give an empty list. When no request meets the hazard on the empty list, no id occurs twice, however many requests there are. The list is one block per request, in request order. Each block holds only that request's descendants-or-self and modules that climb through sync links to its ancestors-or-self, and lists an unselected request by its end. |
| ModulesInstall.RequiredDiskSpace | lib/src/modules/mod.rs:23-31 | The loop sums the installed and download sizes of the resolved modules whose `sync` is non-empty. |
| ModulesInstall.SyncedSpaceConcat | lib/src/modules/mod.rs:23-31 | The required space of a concatenation is the sum of the parts'. |
| ModulesInstall.UnsyncedRequireNothing | lib/src/modules/mod.rs:25-27 | A list with no synced module requires no space at all, so the free-space check always passes for it. |
| ModulesInstall.MarkSelectedEffect | lib/src/modules/mod.rs:42-47 | Marking keeps the keys and sets `selected` on exactly the listed records. Nothing else changes. |
| ModulesInstall.UnpackDefault | lib/src/modules/mod.rs:38 | A module without a destination is unpacked into `/Applications`. |
| ModulesInstall.UnpackInEditor | lib/src/modules/mod.rs:38-45 | A destination starting with `{UNITY_PATH}` is unpacked below the editor's path. |
| ModulesInstall.InstallOne | lib/src/modules/mod.rs:41-47 | For one resolved module and the map read again: a module that is not a key panics with the indexing message. A selected module is passed over: the result is Ok, nothing is installed and the file is unchanged. An unselected module with an install error fails with that error, and the file is unchanged. Otherwise it is installed; a write error then fails with that error and leaves the file unchanged, and without one the file holds the map with exactly that module marked selected. |
| ModulesInstall.InstallEach | lib/src/modules/mod.rs:37-50 | On success every resolved id was a key, and the file holds the map with the resolved modules marked selected. The installs are distinct, come from the list, and are exactly the modules still unselected on re-reading; none of them failed. Whatever the outcome, the file holds the map with the first handled modules marked, all of them on success. A failed write of `modules.json` after an install ends the loop with that write's error, and the file keeps only the earlier marks. A failure keeps the file's keys. |
| ModulesInstall.InstallResolved | lib/src/modules/mod.rs:13-52 | The resolved list has no duplicates when no request meets the hazard. An empty resolution is done at once. Too little space is "Not enough free disk space", before any install or write. On success the file holds the map with the resolved modules marked, every requested key is selected, and the installs are exactly the pending resolved modules, each once. |
| ModulesInstall.InstallModules | lib/src/modules/mod.rs:10-55 | A failed editor lookup or read, or no editor ("Editor not found"), installs and writes nothing. On success `modules.json` is the read map with the resolved modules marked, and every requested key is selected. |
| Install.InEditorPathPlain | lib/src/install/mod.rs:90-92 | A path without `{UNITY_PATH}` is left as it is. |
| Install.InEditorPathLeading | lib/src/install/mod.rs:90-92 | A path starting with `{UNITY_PATH}` is placed below the editor's path. |
| Install.LockFileNames | lib/src/install/mod.rs:17-18 | Lock files are hidden, end in `.lock`, and distinct ids never share one. |
| Install.GetInstallLock | lib/src/install/mod.rs:15-22 | The lock file is `<editor>/.<id>.lock`. Afterwards the lock file, the editor directory and every ancestor of it below the root exist, as `create_dir_all` then the create-or-reuse of the lock leave them. Everything that existed still exists, and the only paths that appear are the lock file and the editor directory and its ancestors. When all of them already exist, nothing changes. |
| Install.InstallOrder | lib/src/install/mod.rs:37-47 | The archive is unpacked first into the substituted destination and removed last. Files are moved in between exactly when both rename names are non-empty. |
| Install.InstallArchive | lib/src/install/mod.rs:35-50 | A failed download propagates with no further call. Otherwise the calls are a prefix of the install order, each call before the last succeeded, and success means all ran. The file is removed only when everything before it succeeded. |
| Install.SecondaryInstallPath | lib/src/install/mod.rs:73-88 | A missing config file is created holding `""` and gives none. A JSON value that is not a string is an error. A path returned is never empty. A read writes nothing. |
| Install.SetSecondaryInstallPath | lib/src/install/mod.rs:60-71 | With `check_path`, a missing directory is refused before anything is written. Otherwise success equals the write's success, and the file then holds the encoded path. |
| Install.SetThenGet | lib/src/install/mod.rs:52-88 | After a successful set, the install path is the path set, or the default for the empty path. Reading it writes nothing. |
| Install.FirstReadCreatesEmpty | lib/src/install/mod.rs:52-79 | The first read creates the empty setting. Every later read finds no secondary path, gives the default, and writes nothing. |
| Download.PartialRangeIter.New | lib/src/install/download.rs:23-28 | A zero buffer size is refused with its message; otherwise the iterator starts at the given bounds. |
| Download.PartialRangeIter.Next | lib/src/install/download.rs:33-44 | Nothing is yielded exactly when start is past end, and then the state is unchanged. Otherwise the item begins at the old start, `start` becomes its `bytes`, and the remaining sequence of ranges loses its head. |
| Download.RangesCover | lib/src/install/download.rs:33-44 | The ranges are non-empty, at most the buffer size, and contiguous. Together they cover start to end exactly, and `bytes` is one past each range's last byte. |
| Download.FileNameFor | lib/src/install/download.rs:58-62 | The name is the last `/`-piece of the URL path, or the module id when that piece is empty. |
| Download.ContentLength | lib/src/install/download.rs:55-56 | A missing header, a value `to_str` refuses (a byte that is neither a tab nor visible ASCII), and a value that is not a 64-bit decimal are each their own error. |
| Download.ContentLengthOfDecimal | lib/src/install/download.rs:55-56 | Any 64-bit length written in decimal is read back. |
| Download.FetchRanges | lib/src/install/download.rs:78-87 | The ranges requested are a prefix of the iterator's, and each but the last was answered 200 or 206. The loop succeeds exactly when all were requested and accepted. |
| Download.Download | lib/src/install/download.rs:47-89 | A failed HEAD request or a bad Content-Length propagates, and nothing is requested. A Content-Length of 0 is the `length - 1` underflow panic. Otherwise the ranges from the resume offset to the last byte are requested up to the first status other than 200 or 206, which is "Unexpected server response". Success yields `<editor>/downloads/<file name>`. |
| Unpack.ExtensionTable | lib/src/install/unpack.rs:26-37 | An extension selects a format exactly when it is that format's extension. |
| Unpack.ExtensionOverrides | lib/src/install/unpack.rs:24-39 | A recognised extension, in any letter case, overrides the declared format; an unrecognised one keeps it. |
| Unpack.DeclaredWithoutDot | lib/src/install/unpack.rs:25 | A file name without a dot keeps the declared format. |
| Unpack.Dispatch | lib/src/install/unpack.rs:41-55 | Dispatch gives a routine, or the `unimplemented!` panic. |
| Unpack.DispatchFormats | lib/src/install/unpack.rs:41-55 | Each handled format goes to its own routine. TEXT, EXE, LZMA, LZ4, MD, PDF and unknown formats panic. |
| Unpack.DeepestEnginesDeepest | lib/src/install/unpack.rs:132-134 | The prefix found ends with `Editor/Data/PlaybackEngines`, and no longer prefix does. |
| Unpack.AdjustXzDestination | lib/src/install/unpack.rs:129-138 | The popping loop ends at the destination with the deepest `Editor/Data/PlaybackEngines` and everything after it removed, or the destination unchanged. |
| Unpack.EnginesInText | lib/src/install/unpack.rs:131 | Components holding the three names make the path text contain `Editor/Data/PlaybackEngines`. |
| Unpack.EnginesRootShape | lib/src/install/unpack.rs:129-138 | For a destination the loop can handle, the adjustment happens exactly when the text contains the three names. It removes their deepest occurrence and everything after it. |
| Unpack.EnginesInsideComponent | lib/src/install/unpack.rs:131-134 | A destination such as `/MyEditor/Data/PlaybackEngines` passes the text test, but no prefix ends with the three components, so the loop would not end. |
| Unpack.UnpackTarXz | lib/src/install/unpack.rs:127-141 | A decompression error comes before anything else. Otherwise the entries are unpacked, in order, below the adjusted destination. |
| Unpack.PayloadOfFirstPkgTmp | lib/src/install/unpack.rs:204-215 | Readable entries that are not `pkg.tmp` directories are passed over. The first `pkg.tmp` directory gives `<dir>/Payload`. |
| Unpack.FindPayloadFile | lib/src/install/unpack.rs:204-215 | The loop returns the payload path, the first unreadable entry's error, or "Couldn't find payload file". |
| Unpack.UnpackPkg | lib/src/install/unpack.rs:155-162 | The xar error, the payload lookup error and the decompression error each stop the unpack in turn. Otherwise the payload's cpio entries are unpacked. |
| Unpack.DmgPatternNeverMatches | lib/src/install/unpack.rs:108-113 | The pattern `/visual\s?studio.*\.app$/i` matches no path, so the application is copied straight into the destination. |
| Unpack.UnpackDmg | lib/src/install/unpack.rs:99-119 | Only the first `.app` entry is copied, into the destination itself, and the loop then ends. An unreadable entry before it is an error. No `.app` at all is success with no copy. |
| Extract.TarEntriesInOrder | lib/src/install/unpack.rs:143-153 | Entries are unpacked in archive order, each at the destination joined with its path. The run succeeds exactly when every entry could be read and unpacked. |
| Extract.UnpackTar | lib/src/install/unpack.rs:143-153 | An archive that cannot be opened propagates its error. Otherwise the loop carries out the tar plan up to the first failure. |
| Extract.CpioFileTypes | lib/src/install/unpack.rs:175-182 | A directory entry makes a directory. A symbolic link links to its payload as UTF-8, and a payload that is not UTF-8 is an error. A regular file is written with its mode. The directory test comes first and is a bit test, so block devices and sockets also make directories. |
| Extract.UnpackCpio | lib/src/install/unpack.rs:170-186 | The loop carries out the cpio plan, entry by entry, up to the first failure. |
| Extract.PoRemovesAfterCopy | lib/src/install/unpack.rs:81-90 | The original is removed only after it was copied into the destination under its own name. Success means it was removed. A path without a file name panics after the directory is made. |
| FileTree.CopyIntoFresh | lib/src/install/unpack.rs:67-77 | Copying entries whose names the target does not hold appends them unchanged, in order. |
| FileTree.CopyReproduces | lib/src/install/unpack.rs:65-79 | Copying a tree to an empty target reproduces it exactly: directories, links and files. |
| FileTree.CopyFiles | lib/src/install/unpack.rs:65-79 | The recursive copy yields exactly the outcome and the target of `CopyTo`. |
| FileTree.MoveFiles | lib/src/install/unpack.rs:60-64 | A failed copy returns its error with the source in place and the target as the partial copy left it. A failed removal returns its error with the source in place and the target fully copied. Otherwise the result is `Ok`, the source is gone and the target is the copy's result. When the source is itself an entry of the target, as in the macOS move of `<editor>/Unity` into `<editor>`, that entry is gone from the target too. |
| FileTree.NestedMoveMerges | lib/src/install/unpack.rs:60-64 | For the nested move of a directory whose entry names are new to its parent: the copy succeeds and appends the entries to the parent, and after the move the parent holds exactly its other entries and the moved directory's entries, with no entry of the moved directory's name. |
| Editors.InstalledVersionExact | lib/src/editors/mod.rs:97-107 | The filter keeps exactly the listed editors of that version. |
| Editors.InstalledVersionAppend | lib/src/editors/mod.rs:97-107 | The filter keeps listing order, since it distributes over concatenation. |
| Editors.InstalledOfArch | lib/src/editors/mod.rs:116-123 | There is no result exactly when no editor has the architecture. A result is a listed editor of it. |
| Editors.InstalledOfArchFirst | lib/src/editors/mod.rs:116-123 | The editor found is the first of that architecture. |
| Editors.PreferredIndex | lib/src/editors/mod.rs:29-36 | An empty list gives none. Otherwise the result is the last item of the preferred architecture, else the first item when none has it. |
| Editors.PickPreferred | lib/src/editors/mod.rs:29-36 | The loop ends with the item `PreferredIndex` designates. |
| Editors.VersionDirectory | lib/src/editors/mod.rs:55-58 | The directory starts with the version, and is the bare version exactly when none of that version is installed. |
| Editors.VersionDirectoriesDistinct | lib/src/editors/mod.rs:55-58 | Next to an installed editor, the two architectures of a version get different directories. |
| Editors.PrepareOutcomes | lib/src/editors/mod.rs:12-69 | A failed listing is an error. "Already installed" only when an editor of the version has the preferred architecture, or that of the chosen download. An install target only when every check passed: the download is from the release, neither architecture is installed, an explicit architecture equals the download's, and there is enough free space for the installed plus download size. The target lies in the version directory below the install root. |
| Editors.ExplicitArchMismatch | lib/src/editors/mod.rs:29-48 | With an architecture named, the chosen download has another architecture exactly when the release has no download of the named one. |
| Editors.InstalledPreferredIsNoop | lib/src/editors/mod.rs:18-22 | An installed editor of the version with the machine's architecture makes `install_editor` return 0 without further work. |
| Editors.ModuleRecords | lib/src/editors/mod.rs:78-79 | Building the module records succeeds exactly when every size unit in the tree is known, and then gives the flattened tree; otherwise it is the `unimplemented!` panic of the size conversion (info.rs:31), raised inside `convert_api_modules` before the `unwrap`. This is the outcome `ModulesInfo.ConvertApiModules` is proved to give. |
| Editors.InstallPlan | lib/src/editors/mod.rs:74-89 | There are three steps under the lock, and the archive install comes first. |
| Editors.LockedPlan | lib/src/editors/mod.rs:71-92 | The lock is taken first and released last, and never released in between. Five steps when the editor is still missing, two otherwise. |
| Editors.InstallUnderLock | lib/src/editors/mod.rs:74-89 | The steps are a prefix of the plan, and success means all three succeeded. A record-building panic stops the run after the archive step. |
| Editors.InstallLocked | lib/src/editors/mod.rs:71-94 | The steps are a prefix of the locked plan, each before the last succeeded, and success (0) means all ran. A failed re-listing stops after taking the lock. An unknown size unit is the `unimplemented!` panic, right after the archive step. |
| Editors.PrepareInstall | lib/src/editors/mod.rs:12-69 | The checks done one after another give exactly `Prepare`'s outcome. |
| Editors.InstallEditor | lib/src/editors/mod.rs:12-95 | A failed check propagates and an installed editor gives 0, both with no locked step. Otherwise the steps are a prefix of the locked plan, and success means all of it ran. |
| Editors.InstalledEditorPath | lib/src/editors/mod.rs:125-145 | With an architecture named: the path of the first editor of the version and that architecture. Without: the last of the machine's architecture, else the first of the version, else none. |
| License.WithCommon | lib/src/license/mod.rs:56-64 | `common.lock` is created, free, when missing, and nothing else changes. |
| License.SessionLockMatches | lib/src/license/mod.rs:12 | A session file starts with the user name and is never `common.lock`. |
| License.SessionNamesDistinct | lib/src/license/mod.rs:12 | Distinct UUIDs give distinct session files. |
| License.ContendedExact | lib/src/license/mod.rs:38-40 | The scan reports contention exactly when some matching file is held. |
| License.SurvivorsExact | lib/src/license/mod.rs:38-43 | The scan deletes exactly the matching files that can be locked and keeps every other entry. |
| License.ReleaseEffect | lib/src/license/mod.rs:21-48 | After a release no matching session file is left free. Entries that do not match are untouched. |
| License.OtherSessionBlocks | lib/src/license/mod.rs:35-40 | Another session's held file makes the release report false. |
| License.RawPrefixMatches | lib/src/license/mod.rs:35 | The match is a raw string prefix. A user name that is a prefix of `common.lock`, such as the empty name, meets the common lock it holds itself and can never return a license. |
| License.TwoSessionsLocked | lib/src/license/mod.rs:8-19 | Two sessions locked in a fresh directory leave the common lock free and both session files held. |
| License.ScanOfTwo | lib/src/license/mod.rs:29-44 | Over the held common lock, a freed session file and a held one, the scan deletes only the freed file and reports contention. |
| License.FirstOfTwoReleased | lib/src/license/mod.rs:21-48 | Releasing the first of two sessions deletes its file and reports that the license is still in use. |
| License.LastSessionReleased | lib/src/license/mod.rs:21-48 | Releasing the last session deletes its file and reports the license free. |
| License.LicenseDir.LockLicense | lib/src/license/mod.rs:8-19 | Adds exactly the held session file `<username>-<uuid>.lock`, after creating `common.lock` if needed, and leaves the common lock free. |
| License.LicenseDir.ReleaseLicense | lib/src/license/mod.rs:21-48 | The result and the new table are those of the scan over the table with the common lock held and the caller's file unlocked. Afterwards the common lock is free again. |
| CliInstallModules.SplitIdsConcat | cli/src/install_modules.rs:47-50 | The ids of two argument lists in a row are the ids of each, in a row. |
| CliInstallModules.ArgumentPieces | cli/src/install_modules.rs:48-50 | Each argument contributes its space-separated pieces as one block in argument order. Joining the block with single spaces gives the argument back. |
| CliInstallModules.IdsHoldNoSpace | cli/src/install_modules.rs:49 | No id holds a space. |
| CliInstallModules.SpaceFreeArguments | cli/src/install_modules.rs:47-50 | Arguments without spaces are the ids themselves. |
| CliInstallModules.DoubleSpace | cli/src/install_modules.rs:49 | Two spaces in a row yield an empty id between the words. |
| CliInstallModules.ModulesInArgs | cli/src/install_modules.rs:47-50 | The loop appends the pieces of every argument, in order. |
| CliInstallModules.HubArgsLayout | cli/src/install_modules.rs:29-36 | The Hub arguments open with `install-modules --version <v>`, have one flag pair per module, and end with `--childModules` when children are included. |
| CliInstallModules.HubArgsModule | cli/src/install_modules.rs:30-33 | Each module follows its own `--module` flag, in order. |
| CliInstallModules.HubArgsFlags | cli/src/install_modules.rs:29-36 | `--childModules` is passed exactly when children are included, and the architecture is never passed. |
| CliInstallModules.HubExit | cli/src/install_modules.rs:37-40 | The Hub's exit code is the result. A launch error propagates, and a missing exit code is the `unwrap` panic. |
| CliInstallModules.InstallModules | cli/src/install_modules.rs:46-54 | The module install runs with the split ids, then the bee workaround. Each runs only after the previous call succeeded, and success is 0. |
| CliInstallModules.Execute | cli/src/install_modules.rs:26-44 | `--cm` or `--child-modules` includes children. With the Hub option the Hub gets its argument list and no library call is made; otherwise `install_modules` runs. |
| CliInstall.HubArgsHead | cli/src/install.rs:32-36 | The Hub arguments open with `install --version <v>`, then the changeset flag pair when a changeset is given. |
| CliInstall.HubArgsModule | cli/src/install.rs:37-42 | Each module follows its own `--module` flag, in order, right after the changeset. |
| CliInstall.HubArgsBack | cli/src/install.rs:44-50 | `--childModules` follows the modules exactly when children are included. The architecture flag pair comes last when given, and nothing else follows. |
| CliInstall.BuildHubArgs | cli/src/install.rs:32-50 | The successive pushes build exactly the argument list laid out by the three lemmas above. |
| CliInstall.EditorPlanOrder | cli/src/install.rs:60-68 | The editor is installed first and the bee workaround applied last. The modules are installed in between exactly when they are given. |
| CliInstall.InstallEditor | cli/src/install.rs:60-68 | The calls run in plan order, each only after the previous one succeeded; success is 0. |
| CliInstall.Execute | cli/src/install.rs:29-58 | With the Hub option the Hub gets its argument list and no library call is made; otherwise `install_editor` runs. |

## Left out

- The network:
  - The HTTP transfer of `download` and the GraphQL requests are not modelled. The HEAD reply, the status of each ranged GET, and the catalog replies are inputs.
  - A failing GET send and a failing chunk copy are not modelled separately from the status check.
  - `get_major_release_list` is not modelled. It is a network request, and its reply handling is the same shape as `get_version_info`'s.
- Progress printing and the "Waiting..." message are left out.
- Codecs are left out: gzip, xz, tar, zip, xar, cpio parsing, DMG attach, and serde JSON. Archives are decoded entry lists. JSON is an abstract codec for the setting file and a usable-or-not `modules.json`. `unpack_zip` and `unpack_tar_gz` are only dispatched to; their extraction is a library call.
- File-system errors:
  - Errors of `create_dir_all`, `File::open` and metadata reads are not separate steps. The creation of the unpack target is not a separate step either.
  - File contents, permissions and link targets are values, so symbolic links are never followed.
  - A failed copy leaves what was copied so far.
- FileTree.MoveFiles: a failing `remove_dir_all` is taken to have removed nothing; the files it may delete before failing are not modelled. When the source lies inside the target, the copy reads the source as it was before the copy began, which is what the source does as long as no entry of the source has the source's own name.
- Advisory locking:
  - `lock_exclusive` and `try_lock_exclusive`, blocking, and release at process exit are not modelled.
  - The install lock and the license table are abstract held/free states.
  - The `unlock` calls of `release_install_lock` and of the license functions are assumed not to fail.
  - In `install_editor` and `install_modules` an error between taking and releasing the install lock returns early through `?`. That drops the lock's `File` handle, which releases the lock at once. The model ends at the error and does not record that implicit release as a step.
- Concurrency is left out: another process changing the listing or `modules.json` between steps is only reflected through inputs such as the re-listing under the lock.
- Floating point:
  - Sizes are natural numbers of bytes, not f64 values.
  - The `as u64` casts and the percentage printed per chunk are left out.
  - ModulesInfo.SizeBytes: exact, where the source multiplies f64 values.
- ModulesInstall.RequiredDiskSpace: the sum is unbounded. The `u64` `+=` of the source would overflow only past 2^64 bytes.
- Download.Download: a Content-Length of 0 is modelled as the panic of a build with overflow checks. A release build would wrap `length - 1` to 2^64-1 instead.
- Modules.PushModuleToInstall:
  - The module map must be a ranked forest. Every parent and submodule id must be a key, and records must not form a cycle. The source indexes the map unchecked and recurses along parents.
  - The forest condition also asks that the record of every module named in a submodule list names that module as its parent. Termination alone would not need this. The proofs use it to know that a submodule's additions lie below it. The flattened catalog has not been proved to meet the condition; the map is taken as given.
  - The absence of duplicates, and the transitive lower bound, are proved only where the duplicating hazard does not arise.
  - No module id may be empty. The source takes the empty parent as "no parent" (mod.rs:68), so a module with the empty id could never be reached as a parent; a map holding the empty id is outside the model.
  - The transitive lower bound covers chains whose modules were not listed before. A chain through a module listed earlier is cut there, since the source stops at a listed module without visiting its submodules.
- ModulesInstall.InstallModules: the module map read must satisfy the same forest condition.
- Unpack.AdjustXzDestination: requires the three components to occur as whole components when their text occurs. Otherwise the source's loop never ends; `Unpack.EnginesInsideComponent` exhibits such a destination.
- License.LicenseDir.LockLicense: the random v4 UUID is a parameter and is taken to be new to the directory.
- CliInstallModules.HubArgsFlags: stated for a version and modules that are not themselves called `--childModules` or `--architecture`.
- `fs4::available_space` is an input. In `install_modules` its `unwrap` is taken to succeed. `Editors.Prepare` models the failure of the same `unwrap` in `install_editor` as the `unwrap` panic.
- The bee workaround (`lib/src/workarounds/mod.rs`) is one opaque library call with an outcome.
- Platform glue is an input: the executable path, the architecture probe, the preferable architecture, the move path, the platform, and the default and config paths. `lib/src/system_info/` is not part of this model.
- `list_installed_editors` and `list_editors_in_folder` are not modelled step by step. Their result, a listing of installed editors or an error, is an input.
- Non-hub `install` ignores the changeset, as the source does.
- The command-line tool's other commands are not part of this model: `cli/src/main.rs`, `cli/src/editors.rs`, `cli/src/install_path.rs`, `cli/src/project.rs` and `cli/src/system/`. Neither is launching Unity Hub, whose outcome is a parameter.
