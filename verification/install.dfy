/** Installing one archive and the install-path configuration
    (lib/src/install/mod.rs). The download, unpacking and moving are the
    routines of the Download, Unpack and FileTree modules; here their
    outcomes are inputs, and the model records which of them are called,
    in order. The configuration file is a value: missing, unreadable, or
    holding a text. The JSON codec is a pair of parameters. */
module Install {
  import opened Wrappers
  import opened Text
  import opened Paths
  import opened Catalog

  const PLACEHOLDER := "{UNITY_PATH}"

  /** `get_in_editor_path` (mod.rs:90-92): every `{UNITY_PATH}` in a
      catalog path becomes the editor's path. A path buffer built from a
      string keeps that string, so the result is kept as text. */
  function InEditorPath(editorPath: string, relativePath: string): string
  {
    ReplaceAll(relativePath, PLACEHOLDER, editorPath)
  }

  /** A path without the placeholder is used as it is. */
  lemma InEditorPathPlain(editorPath: string, relativePath: string)
    requires !Contains(relativePath, PLACEHOLDER)
    ensures InEditorPath(editorPath, relativePath) == relativePath
  {
    ReplaceAllAbsent(relativePath, PLACEHOLDER, editorPath);
  }

  /** A path that starts with the placeholder is placed below the editor. */
  lemma InEditorPathLeading(editorPath: string, rest: string)
    requires !Contains(rest, PLACEHOLDER)
    ensures InEditorPath(editorPath, PLACEHOLDER + rest) == editorPath + rest
  {
    ReplaceAllLeading(PLACEHOLDER, rest, editorPath);
    ReplaceAllAbsent(rest, PLACEHOLDER, editorPath);
  }

  /** The name of the lock file of an install (mod.rs:18). */
  function LockFileName(id: string): string
  {
    "." + id + ".lock"
  }

  /** Lock files are hidden, end in `.lock`, and distinct ids never share
      one. */
  lemma LockFileNames(a: string, b: string)
    ensures StartsWith(LockFileName(a), ".") && EndsWith(LockFileName(a), ".lock")
    ensures LockFileName(a) == LockFileName(b) ==> a == b
  {
    var na, nb := LockFileName(a), LockFileName(b);
    assert na[..1] == ".";
    assert na[|na| - 5..] == ".lock";
    if na == nb {
      assert |a| == |b|;
      assert a == na[1..|na| - 5] && b == nb[1..|nb| - 5];
    }
  }

  /** `p` is `q` or one of its ancestors below the root: the same start
      and a non-empty leading part of `q`'s components. */
  predicate OnTheWay(p: Path, q: Path)
  {
    p.absolute == q.absolute && 0 < |p.parts| <= |q.parts| && q.parts[..|p.parts|] == p.parts
  }

  /** What `create_dir_all(q)` makes exist: `q` and every ancestor of it
      below the root. */
  function DirsTo(q: Path): (r: set<Path>)
    ensures forall p :: p in r <==> OnTheWay(p, q)
  {
    var r := set k | 1 <= k <= |q.parts| :: Path(q.absolute, q.parts[..k]);
    assert forall p :: OnTheWay(p, q) ==> p == Path(q.absolute, q.parts[..|p.parts|]);
    r
  }

  /** The file-system part of `get_install_lock` (mod.rs:15-22): `paths`
      are the paths that exist, directories and files alike.
      `create_dir_all` makes the editor directory and its missing ancestors
      exist, then the lock file `<editor>/.<id>.lock` is created when
      missing and reused otherwise. Everything that existed still exists,
      and nothing else appears. */
  method GetInstallLock(id: string, editorPath: Path, paths: set<Path>) returns (lock: Path, after: set<Path>)
    ensures lock == Child(editorPath, LockFileName(id))
    ensures paths <= after
    ensures lock in after && forall p :: OnTheWay(p, editorPath) ==> p in after
    ensures forall p :: p in after && p !in paths ==> p == lock || OnTheWay(p, editorPath)
    ensures lock in paths && (forall p :: OnTheWay(p, editorPath) ==> p in paths) ==> after == paths
  {
    after := paths + DirsTo(editorPath);
    lock := Child(editorPath, LockFileName(id));
    if lock !in after {
      after := after + {lock};
    }
  }

  /** The routines `install` calls once the archive is downloaded. */
  datatype Call =
    | UnpackArchive(moduleType: FileType, file: Path, destination: string)
    | MoveFiles(from: string, to: string)
    | RemoveFile(file: Path)

  /** Whether `install` moves files after unpacking (mod.rs:41): both
      names must be given. */
  predicate Renames(renameFrom: string, renameTo: string)
  {
    renameFrom != "" && renameTo != ""
  }

  /** The calls of `install` after the download of `file`, in order
      (mod.rs:40-47). */
  function InstallPlan(editorPath: Path, moduleType: FileType, destination: string,
                       renameFrom: string, renameTo: string, file: Path): seq<Call>
  {
    var editor := ToString(editorPath);
    [UnpackArchive(moduleType, file, InEditorPath(editor, destination))]
    + (if Renames(renameFrom, renameTo) then [MoveFiles(InEditorPath(editor, renameFrom), InEditorPath(editor, renameTo))] else [])
    + [RemoveFile(file)]
  }

  /** The downloaded file is unpacked first and removed last; files are
      moved in between exactly when both rename names are given. */
  lemma InstallOrder(editorPath: Path, moduleType: FileType, destination: string,
                     renameFrom: string, renameTo: string, file: Path)
    ensures var plan := InstallPlan(editorPath, moduleType, destination, renameFrom, renameTo, file);
            && plan[0] == UnpackArchive(moduleType, file, InEditorPath(ToString(editorPath), destination))
            && plan[|plan| - 1] == RemoveFile(file)
            && (|plan| == 3 <==> Renames(renameFrom, renameTo))
            && (|plan| == 2 <==> !Renames(renameFrom, renameTo))
            && (forall i :: 0 <= i < |plan| - 1 ==> !plan[i].RemoveFile?)
  {
  }

  /** `install(url, id, editor_path, ...)` (mod.rs:35-50): `downloaded` is
      the outcome of the download and `outcome(call)` that of each later
      call. Returns the outcome and the calls made, in order; the file is
      removed only after every earlier call succeeded. */
  method InstallArchive(editorPath: Path, moduleType: FileType, destination: string,
                        renameFrom: string, renameTo: string,
                        downloaded: Result<Path>, outcome: Call -> Result<()>)
    returns (r: Result<()>, calls: seq<Call>)
    ensures downloaded.IsFailure() ==> r == downloaded.PropagateFailure() && calls == []
    ensures downloaded.Ok? ==>
              var plan := InstallPlan(editorPath, moduleType, destination, renameFrom, renameTo, downloaded.value);
              && 1 <= |calls| <= |plan| && calls == plan[..|calls|]
              && (forall i :: 0 <= i < |calls| - 1 ==> outcome(calls[i]).Ok?)
              && (r.Ok? <==> calls == plan && outcome(calls[|calls| - 1]).Ok?)
              && (!r.Ok? ==> r == outcome(calls[|calls| - 1]))
  {
    calls := [];
    if downloaded.IsFailure() {
      return downloaded.PropagateFailure(), calls;
    }
    var file := downloaded.value;
    var editor := ToString(editorPath);
    ghost var plan := InstallPlan(editorPath, moduleType, destination, renameFrom, renameTo, file);
    var unpack := UnpackArchive(moduleType, file, InEditorPath(editor, destination));
    calls := [unpack];
    if outcome(unpack).IsFailure() {
      return outcome(unpack), calls;
    }
    if renameFrom != "" && renameTo != "" {
      var move := MoveFiles(InEditorPath(editor, renameFrom), InEditorPath(editor, renameTo));
      calls := calls + [move];
      if outcome(move).IsFailure() {
        assert calls == plan[..2];
        return outcome(move), calls;
      }
    }
    var remove := RemoveFile(file);
    calls := calls + [remove];
    assert calls == plan;
    r := outcome(remove);
  }

  const CONFIG_FILE_NAME := "secondaryInstallPath.json"
  const NoSuchDirectory := "Error: This directory does not exist."
  const CouldNotWrite := "Couldn't write secondaryInstallPath.json."
  const CouldNotRead := "Couldn't read secondaryInstallPath.json."

  /** A JSON value: a string, or anything else. */
  datatype Json = JsonString(text: string) | OtherJson

  /** The configuration file `secondaryInstallPath.json`. */
  datatype ConfigFile = Missing | Unreadable(error: string) | Contents(text: string)

  /** The JSON codec: `encode` renders a string as JSON text and `decode`
      parses JSON text, or gives the parse error. */
  datatype Codec = Codec(encode: string -> string, decode: string -> Result<Json>)

  /** The codec reads back what it writes. */
  predicate RoundTrips(codec: Codec, s: string)
  {
    codec.decode(codec.encode(s)) == Ok(JsonString(s))
  }

  /** `get_secondary_install_path` (mod.rs:73-88). A missing file is
      created holding the empty JSON string, and there is no secondary
      path; `written` is the outcome of that write. Otherwise a JSON
      string is the path, the empty string meaning none, and any other
      JSON value is an error. Returns the outcome and the file afterwards. */
  function SecondaryInstallPath(file: ConfigFile, codec: Codec, written: Result<()>)
    : (out: (Result<Option<string>>, ConfigFile))
    ensures file.Missing? ==> out.0 == (if written.Ok? then Ok(None) else written.PropagateFailure())
    ensures file.Missing? && written.Ok? ==> out.1 == Contents(codec.encode(""))
    ensures !(file.Missing? && written.Ok?) ==> out.1 == file
    ensures file.Contents? && codec.decode(file.text) == Ok(OtherJson) ==> out.0 == Err(CouldNotRead)
    ensures out.0.Ok? && out.0.value.Some? ==> out.0.value.value != ""
  {
    match file
    case Missing =>
      if written.IsFailure() then (written.PropagateFailure(), file) else (Ok(None), Contents(codec.encode("")))
    case Unreadable(error) => (Err(error), file)
    case Contents(text) =>
      var json := codec.decode(text);
      if json.IsFailure() then (json.PropagateFailure(), file)
      else match json.value
        case JsonString(s) => (Ok(if s == "" then None else Some(s)), file)
        case OtherJson => (Err(CouldNotRead), file)
  }

  /** `set_secondary_install_path(path, check_path)` (mod.rs:60-71):
      `present` says whether `path` exists and `written` is the outcome of
      writing the file. With `checkPath`, a missing directory is refused
      before anything is written. */
  function SetSecondaryInstallPath(path: string, checkPath: bool, present: bool, file: ConfigFile, codec: Codec,
                                   written: Result<()>): (out: (Result<()>, ConfigFile))
    ensures checkPath && !present ==> out == (Err(NoSuchDirectory), file)
    ensures out.0.Ok? <==> !(checkPath && !present) && written.Ok?
    ensures out.0.Ok? ==> out.1 == Contents(codec.encode(path))
    ensures !out.0.Ok? ==> out.1 == file
  {
    if checkPath && !present then (Err(NoSuchDirectory), file)
    else if written.IsFailure() then (Err(CouldNotWrite), file)
    else (Ok(()), Contents(codec.encode(path)))
  }

  /** `get_install_path` (mod.rs:52-58): the secondary path when one is
      set, else the platform's default. */
  function InstallPath(file: ConfigFile, codec: Codec, written: Result<()>, defaultPath: string)
    : (out: (Result<string>, ConfigFile))
  {
    var secondary := SecondaryInstallPath(file, codec, written);
    if secondary.0.IsFailure() then (secondary.0.PropagateFailure(), secondary.1)
    else (Ok(if secondary.0.value.Some? then secondary.0.value.value else defaultPath), secondary.1)
  }

  /** A path set successfully is the install path from then on (the empty
      path leaves the default), and reading it writes nothing. */
  lemma SetThenGet(path: string, checkPath: bool, present: bool, file: ConfigFile, codec: Codec,
                   written: Result<()>, writtenAgain: Result<()>, defaultPath: string)
    requires RoundTrips(codec, path)
    requires SetSecondaryInstallPath(path, checkPath, present, file, codec, written).0.Ok?
    ensures var after := SetSecondaryInstallPath(path, checkPath, present, file, codec, written).1;
            && SecondaryInstallPath(after, codec, writtenAgain) == (Ok(if path == "" then None else Some(path)), after)
            && InstallPath(after, codec, writtenAgain, defaultPath)
               == (Ok(if path == "" then defaultPath else path), after)
  {
  }

  /** The first read of a missing file creates it, and every later read
      finds no secondary path there and writes nothing. */
  lemma FirstReadCreatesEmpty(codec: Codec, written: Result<()>, writtenAgain: Result<()>, defaultPath: string)
    requires RoundTrips(codec, "") && written.Ok?
    ensures var first := SecondaryInstallPath(Missing, codec, written);
            && first == (Ok(None), Contents(codec.encode("")))
            && SecondaryInstallPath(first.1, codec, writtenAgain) == first
            && InstallPath(first.1, codec, writtenAgain, defaultPath) == (Ok(defaultPath), first.1)
  {
  }
}
