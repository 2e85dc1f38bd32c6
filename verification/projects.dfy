/** The editor version a project asks for (lib/src/projects/mod.rs): the
    `m_EditorVersion: ` line of `ProjectSettings/ProjectVersion.txt`. The
    file's lines are an input; a line that cannot be read (not UTF-8, an
    I/O error) is an error value, and reading stops there. */
module Projects {
  import opened Wrappers
  import opened Text
  import opened Paths

  const VERSION_KEY := "m_EditorVersion: "
  const NotAProject := "Path doesn't contain a valid project"
  const NoVersion := "Couldn't detect editor version"

  /** Where a project keeps its version file (mod.rs:8-10). */
  function VersionFilePath(project: Path): (p: Path)
    ensures p.parts == project.parts + ["ProjectSettings", "ProjectVersion.txt"]
  {
    Child(Child(project, "ProjectSettings"), "ProjectVersion.txt")
  }

  /** Where the scan of mod.rs:16-20 stops: the first line that cannot be
      read or starts with the key, or the end. */
  function ScanEnd(lines: seq<Result<string>>): (i: nat)
    ensures i <= |lines|
    ensures forall j :: 0 <= j < i ==> lines[j].Ok? && !StartsWith(lines[j].value, VERSION_KEY)
    ensures i < |lines| ==> !lines[i].Ok? || StartsWith(lines[i].value, VERSION_KEY)
    decreases |lines|
  {
    if lines == [] || !lines[0].Ok? || StartsWith(lines[0].value, VERSION_KEY) then 0
    else
      var i := 1 + ScanEnd(lines[1..]);
      assert forall j :: 1 <= j < i ==> lines[j] == lines[1..][j - 1];
      i
  }

  /** `get_project_editor_version(path)` (mod.rs:7-22): `fileExists` says
      whether the version file exists, `openResult` is the outcome of opening
      it and `lines` its lines. The text after the 17-character key of the
      first line that starts with it. */
  function ProjectEditorVersion(fileExists: bool, openResult: Result<()>, lines: seq<Result<string>>): (r: Result<string>)
    ensures !fileExists ==> r == Err(NotAProject)
    ensures fileExists && openResult.IsFailure() ==> r == openResult.PropagateFailure()
    ensures r.Ok? ==> exists i :: 0 <= i < |lines| && lines[i].Ok? && lines[i].value == VERSION_KEY + r.value
  {
    if !fileExists then Err(NotAProject)
    else if openResult.IsFailure() then openResult.PropagateFailure()
    else
      var i := ScanEnd(lines);
      if i < |lines| && lines[i].Ok? then
        var line := lines[i].value;
        assert line == VERSION_KEY + line[17..];
        Ok(line[17..])
      else Err(NoVersion)
  }

  /** The first line that starts with the key gives the version; lines
      before it that only contain the key further on are skipped, and
      lines after it are not read. */
  lemma FirstKeyLineWins(before: seq<Result<string>>, version: string, after: seq<Result<string>>)
    requires forall j :: 0 <= j < |before| ==> before[j].Ok? && !StartsWith(before[j].value, VERSION_KEY)
    ensures ProjectEditorVersion(true, Ok(()), before + [Ok(VERSION_KEY + version)] + after) == Ok(version)
  {
    var lines := before + [Ok(VERSION_KEY + version)] + after;
    assert lines[|before|] == Ok(VERSION_KEY + version);
    assert StartsWith(VERSION_KEY + version, VERSION_KEY);
    assert (VERSION_KEY + version)[17..] == version;
  }

  /** A line that cannot be read ends the scan: a key line after it is
      never seen. */
  lemma UnreadableLineStops(before: seq<Result<string>>, error: string, after: seq<Result<string>>)
    requires forall j :: 0 <= j < |before| ==> before[j].Ok? && !StartsWith(before[j].value, VERSION_KEY)
    ensures ProjectEditorVersion(true, Ok(()), before + [Err(error)] + after) == Err(NoVersion)
  {
    var lines := before + [Err(error)] + after;
    assert lines[|before|] == Err(error);
  }

  /** Without a key line the version is not found. */
  lemma NoKeyLine(lines: seq<Result<string>>)
    requires forall j :: 0 <= j < |lines| ==> lines[j].Ok? && !StartsWith(lines[j].value, VERSION_KEY)
    ensures ProjectEditorVersion(true, Ok(()), lines) == Err(NoVersion)
  {
  }
}
