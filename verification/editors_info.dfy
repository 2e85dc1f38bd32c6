/** The identity of an installed editor (lib/src/editors/info.rs): its
    architecture, and the `wrum.json` cache that records version and
    architecture next to the editor. */
module EditorsInfo {
  import opened Wrappers
  import opened Text
  import opened Paths

  datatype SystemArch = X86_64 | ARM64

  /** `From<String> for SystemArch`: anything unrecognised reads as x86_64. */
  function ArchFromString(s: string): (a: SystemArch)
    ensures a == ARM64 <==> s == "arm64"
  {
    match s
    case "x86_64" => X86_64
    case "arm64" => ARM64
    case _ => X86_64
  }

  /** `From<SystemArch> for String`. */
  function ArchToString(a: SystemArch): (s: string)
    ensures s == "x86_64" || s == "arm64"
  {
    match a
    case X86_64 => "x86_64"
    case ARM64 => "arm64"
  }

  /** An architecture survives being written out and read back. */
  lemma ArchStringRoundTrip(a: SystemArch)
    ensures ArchFromString(ArchToString(a)) == a
  {
  }

  /** Reading a string and writing the architecture back reproduces the
      string exactly when it was one of the two names. */
  lemma StringArchRoundTrip(s: string)
    ensures ArchToString(ArchFromString(s)) == s <==> (s == "x86_64" || s == "arm64")
  {
  }

  /** `EditorInfo`. Only `version` and `arch` are serialised; the two paths
      are `#[serde(skip)]` and come from the caller on every read. */
  datatype EditorInfo = EditorInfo(version: string, path: Path, executablePath: Path, arch: SystemArch)

  /** What `wrum.json` holds once deserialised. */
  datatype StoredInfo = StoredInfo(version: string, arch: SystemArch)

  /** The state of `<editor>/wrum.json`. */
  datatype InfoFile = Missing | Malformed | Stored(info: StoredInfo)

  /** What the editor process and the platform report when there is no cache:
      the decoded `--version` output (an error when the process cannot run or
      its output is not UTF-8) and the executable's architecture. */
  datatype Probe = Probe(versionOutput: Result<string>, detectedArch: Result<SystemArch>)

  /** `read_editor_info(path)`. `executablePath` is the platform's executable
      location for `path` and `executableExists` whether it is on disk;
      `writeOk` says whether writing the cache would succeed. Returns the result
      and the cache file afterwards. */
  function ReadEditorInfo(path: Path, executablePath: Path, executableExists: bool,
                          file: InfoFile, probe: Probe, writeOk: bool)
    : (out: (Result<Option<EditorInfo>>, InfoFile))
    ensures !executableExists ==> out == (Ok(None), file)
    ensures executableExists && file.Stored? ==>
              out == (Ok(Some(EditorInfo(file.info.version, path, executablePath, file.info.arch))), file)
    ensures executableExists && file.Malformed? ==> out.0.Err? && out.1 == file
    ensures out.0.Ok? && out.0.value.Some? ==>
              out.0.value.value.path == path && out.0.value.value.executablePath == executablePath
    ensures out.0.Ok? && out.0.value.Some? ==>
              out.1 == Stored(StoredInfo(out.0.value.value.version, out.0.value.value.arch))
  {
    if !executableExists then (Ok(None), file)
    else match file
      case Stored(info) => (Ok(Some(EditorInfo(info.version, path, executablePath, info.arch))), file)
      case Malformed => (Err("invalid wrum.json"), file)
      case Missing =>
        if probe.versionOutput.IsFailure() then (probe.versionOutput.PropagateFailure(), file)
        else if probe.detectedArch.IsFailure() then (probe.detectedArch.PropagateFailure(), file)
        else
          var item := EditorInfo(Trim(probe.versionOutput.value), path, executablePath, probe.detectedArch.value);
          if !writeOk then (Err("Couldn't write wrum.json"), file)
          else (Ok(Some(item)), Stored(StoredInfo(item.version, item.arch)))
  }

  /** `write_editor_info(path, info)`: the cache afterwards, and the result. */
  function WriteEditorInfo(info: EditorInfo, file: InfoFile, writeOk: bool): (out: (Result<()>, InfoFile))
    ensures writeOk <==> out.0.Ok?
    ensures out.0.Ok? ==> out.1 == Stored(StoredInfo(info.version, info.arch))
    ensures !out.0.Ok? ==> out.1 == file
  {
    if writeOk then (Ok(()), Stored(StoredInfo(info.version, info.arch)))
    else (Err("Couldn't write wrum.json"), file)
  }

  /** Writing the identity and reading it back gives its version and
      architecture; the paths come from the reader's arguments. */
  lemma WriteThenRead(info: EditorInfo, file: InfoFile, path: Path, executablePath: Path, probe: Probe, ok: bool)
    requires WriteEditorInfo(info, file, true).0.Ok?
    ensures var stored := WriteEditorInfo(info, file, true).1;
            ReadEditorInfo(path, executablePath, true, stored, probe, ok).0
              == Ok(Some(EditorInfo(info.version, path, executablePath, info.arch)))
  {
  }

  /** A freshly probed editor's version is the trimmed process output, and
      a later read of the cache that probe wrote returns the same identity. */
  lemma ProbeThenRead(path: Path, executablePath: Path, probe: Probe, probe2: Probe, ok2: bool)
    requires probe.versionOutput.Ok? && probe.detectedArch.Ok?
    ensures var (r, f) := ReadEditorInfo(path, executablePath, true, Missing, probe, true);
            r == Ok(Some(EditorInfo(Trim(probe.versionOutput.value), path, executablePath, probe.detectedArch.value)))
            && ReadEditorInfo(path, executablePath, true, f, probe2, ok2).0 == r
  {
  }
}
