/** Choosing how a downloaded archive is unpacked and where
    (lib/src/install/unpack.rs): the extension override and dispatch of
    `unpack`, the destination adjustment of `unpack_tar_xz`, the payload
    lookup of `unpack_pkg` and the application selection of `unpack_dmg`.
    Directory listings arrive as sequences of entries, each of which may
    fail to be read. */
module Unpack {
  import opened Wrappers
  import opened Text
  import opened Paths
  import opened Catalog
  import opened Extract

  /** The format an extension selects, once lower-cased (unpack.rs:26-36). */
  function TypeOfExtension(ext: string): Option<FileType>
  {
    if ext == "txt" then Some(TEXT)
    else if ext == "gz" then Some(TAR_GZ)
    else if ext == "xz" then Some(TAR_XZ)
    else if ext == "zip" then Some(ZIP)
    else if ext == "pkg" then Some(PKG)
    else if ext == "exe" then Some(EXE)
    else if ext == "po" then Some(PO)
    else if ext == "dmg" then Some(DMG)
    else if ext == "md" then Some(MD)
    else if ext == "pdf" then Some(PDF)
    else None
  }

  /** The lower-case extension that selects a format; LZMA, LZ4 and the
      formats the catalog adds have none. */
  function ExtensionOfType(t: FileType): Option<string>
  {
    match t
    case TEXT => Some("txt")
    case TAR_GZ => Some("gz")
    case TAR_XZ => Some("xz")
    case ZIP => Some("zip")
    case PKG => Some("pkg")
    case EXE => Some("exe")
    case PO => Some("po")
    case DMG => Some("dmg")
    case MD => Some("md")
    case PDF => Some("pdf")
    case _ => None
  }

  /** The extension table is one-to-one: an extension selects a format
      exactly when it is that format's extension. */
  lemma ExtensionTable(t: FileType, ext: string)
    ensures TypeOfExtension(ext) == Some(t) <==> ExtensionOfType(t) == Some(ext)
  {
  }

  /** `Path::extension` of a whole path: that of its last component. */
  function FileExtension(p: Path): Option<string>
  {
    if FileName(p).None? then None else Extension(FileName(p).value)
  }

  /** The format `unpack` goes by (unpack.rs:24-39): the one the file's
      extension selects, compared without regard to ASCII case, else the
      declared one. */
  function EffectiveType(declared: FileType, filePath: Path): FileType
  {
    var ext := FileExtension(filePath);
    if ext.Some? && TypeOfExtension(AsciiLowercase(ext.value)).Some? then
      TypeOfExtension(AsciiLowercase(ext.value)).value
    else declared
  }

  /** A file named `stem.ext` is unpacked by the format its extension
      selects in any letter case, whatever the catalog declared; an
      extension outside the table keeps the declared format. */
  lemma ExtensionOverrides(declared: FileType, dir: Path, stem: string, ext: string)
    requires |stem| > 0 && Free(ext, '.') && stem + "." + ext != ".."
    ensures var t := TypeOfExtension(AsciiLowercase(ext));
            EffectiveType(declared, Child(dir, stem + "." + ext)) == (if t.Some? then t.value else declared)
  {
    ExtensionOf(stem, ext);
  }

  /** A file name without a dot keeps the declared format. */
  lemma DeclaredWithoutDot(declared: FileType, dir: Path, name: string)
    requires Free(name, '.')
    ensures EffectiveType(declared, Child(dir, name)) == declared
  {
    assert LastIndexOf(name, '.').None?;
  }

  /** The routines `unpack` hands an archive to. */
  datatype Unpacker = TarGzUnpacker | TarXzUnpacker | ZipUnpacker | PkgUnpacker | PoUnpacker | DmgUnpacker

  const NotImplemented := "not implemented"

  /** `unpack`'s dispatch (unpack.rs:41-55): six formats have a routine,
      every other one reaches `unimplemented!`. */
  function Dispatch(t: FileType): (r: Result<Unpacker>)
    ensures r.Ok? || r == Panic(NotImplemented)
  {
    match t
    case TAR_GZ => Ok(TarGzUnpacker)
    case TAR_XZ => Ok(TarXzUnpacker)
    case ZIP => Ok(ZipUnpacker)
    case PKG => Ok(PkgUnpacker)
    case PO => Ok(PoUnpacker)
    case DMG => Ok(DmgUnpacker)
    case _ => Panic(NotImplemented)
  }

  /** The format each routine handles. */
  function FormatOf(u: Unpacker): FileType
  {
    match u
    case TarGzUnpacker => TAR_GZ
    case TarXzUnpacker => TAR_XZ
    case ZipUnpacker => ZIP
    case PkgUnpacker => PKG
    case PoUnpacker => PO
    case DmgUnpacker => DMG
  }

  /** A format is dispatched to a routine exactly when it is the format that
      routine handles; TEXT, EXE, LZMA, LZ4, MD, PDF and unknown formats
      panic. */
  lemma DispatchFormats(t: FileType, u: Unpacker)
    ensures Dispatch(t) == Ok(u) <==> FormatOf(u) == t
    ensures Dispatch(t).Panic? <==> t in {TEXT, EXE, LZMA, LZ4, MD, PDF} || t.OtherType?
  {
  }

  /** The three components `unpack_tar_xz` looks for, and their text. */
  const ENGINES: seq<string> := ["Editor", "Data", "PlaybackEngines"]
  const ENGINES_TEXT: string := "Editor/Data/PlaybackEngines"

  predicate EndsWithEngines(parts: seq<string>)
  {
    |parts| >= 3 && parts[|parts| - 3..] == ENGINES
  }

  /** The length of the longest prefix of `parts` that ends with the three
      components, if there is one. */
  function DeepestEngines(parts: seq<string>): (k: Option<nat>)
    ensures k.Some? ==> 3 <= k.value <= |parts|
    decreases |parts|
  {
    if EndsWithEngines(parts) then Some(|parts|)
    else if |parts| == 0 then None
    else DeepestEngines(parts[..|parts| - 1])
  }

  /** `DeepestEngines` finds a prefix that ends with the three components,
      and no longer prefix does. */
  lemma {:induction false} DeepestEnginesDeepest(parts: seq<string>)
    ensures var k := DeepestEngines(parts);
            && (k.Some? ==> 3 <= k.value <= |parts| && EndsWithEngines(parts[..k.value]))
            && (forall j :: (if k.Some? then k.value else 0) < j <= |parts| ==> !EndsWithEngines(parts[..j]))
    decreases |parts|
  {
    assert parts[..|parts|] == parts;
    if !EndsWithEngines(parts) && |parts| > 0 {
      var shorter := parts[..|parts| - 1];
      DeepestEnginesDeepest(shorter);
      var k := DeepestEngines(shorter);
      var low := if k.Some? then k.value else 0;
      forall j | low < j <= |parts|
        ensures !EndsWithEngines(parts[..j])
      {
        if j < |parts| {
          assert shorter[..j] == parts[..j];
        }
      }
    }
  }

  /** What the popping loop of `unpack_tar_xz` needs in order to end: when
      the destination's text contains `Editor/Data/PlaybackEngines`, some
      prefix of its components ends with those three. The text can contain
      it without that, inside longer components (`MyEditor/...`), and
      unpack.rs:132-134 then pops forever. */
  predicate EnginesReachable(destination: Path)
  {
    Contains(ToString(destination), ENGINES_TEXT) ==> DeepestEngines(destination.parts).Some?
  }

  /** The destination `unpack_tar_xz` extracts into: with the three
      components in it, the path before their deepest occurrence;
      otherwise the destination itself. */
  function EnginesRoot(destination: Path): Path
    requires EnginesReachable(destination)
  {
    if Contains(ToString(destination), ENGINES_TEXT) then
      Path(destination.absolute, destination.parts[..DeepestEngines(destination.parts).value - 3])
    else destination
  }

  /** The adjustment of unpack.rs:129-138: pop components until the path
      ends with `Editor/Data/PlaybackEngines`, then pop those three. */
  method AdjustXzDestination(destination: Path) returns (adjusted: Path)
    requires EnginesReachable(destination)
    ensures adjusted == EnginesRoot(destination)
  {
    adjusted := destination;
    if Contains(ToString(destination), ENGINES_TEXT) {
      var parts := destination.parts;
      ghost var k := DeepestEngines(parts).value;
      assert parts[..|parts|] == parts;
      while !EndsWithParts(adjusted, ENGINES)
        invariant |adjusted.parts| <= |parts|
        invariant adjusted == Path(destination.absolute, parts[..|adjusted.parts|])
        invariant DeepestEngines(adjusted.parts) == Some(k)
        decreases |adjusted.parts|
      {
        assert parts[..|adjusted.parts|][..|adjusted.parts| - 1] == parts[..|adjusted.parts| - 1];
        adjusted := Pop(adjusted);
      }
      PopThree(adjusted);
      adjusted := Pop(Pop(Pop(adjusted)));
    }
  }

  lemma PopThree(p: Path)
    requires |p.parts| >= 3
    ensures Pop(Pop(Pop(p))) == Path(p.absolute, p.parts[..|p.parts| - 3])
  {
    assert p.parts[..|p.parts| - 1][..|p.parts| - 2][..|p.parts| - 3] == p.parts[..|p.parts| - 3];
  }

  lemma {:induction false} JoinAppend(a: seq<string>, b: seq<string>, separator: char)
    requires |a| > 0 && |b| > 0
    ensures Join(a + b, separator) == Join(a, separator) + [separator] + Join(b, separator)
    decreases |a|
  {
    if |a| > 1 {
      JoinAppend(a[1..], b, separator);
      assert (a + b)[1..] == a[1..] + b;
    } else {
      assert (a + b)[1..] == b;
    }
  }

  /** The joined text of `mid` opens the joined text of `mid + post`. */
  lemma JoinPrefix(mid: seq<string>, post: seq<string>, separator: char)
    requires |mid| > 0
    ensures var t := Join(mid + post, separator);
            |Join(mid, separator)| <= |t| && t[..|Join(mid, separator)|] == Join(mid, separator)
  {
    if post == [] {
      assert mid + post == mid;
    } else {
      JoinAppend(mid, post, separator);
    }
  }

  /** The joined text of `mid` occurs inside that of `pre + mid + post`. */
  lemma JoinMiddle(pre: seq<string>, mid: seq<string>, post: seq<string>, separator: char) returns (offset: nat)
    requires |mid| > 0
    ensures var t := Join(pre + mid + post, separator);
            offset <= |t| && StartsWith(t[offset..], Join(mid, separator))
  {
    JoinPrefix(mid, post, separator);
    if pre == [] {
      assert pre + mid + post == mid + post;
      offset := 0;
    } else {
      JoinAppend(pre, mid + post, separator);
      assert pre + mid + post == pre + (mid + post);
      offset := |Join(pre, separator)| + 1;
      var t := Join(pre + mid + post, separator);
      assert t[offset..] == Join(mid + post, separator);
    }
  }

  lemma EnginesJoined()
    ensures Join(ENGINES, '/') == ENGINES_TEXT
  {
    assert ENGINES[1..][1..] == ["PlaybackEngines"];
    assert Join(ENGINES[1..], '/') == "Data/PlaybackEngines";
  }

  /** Components that contain the three give a text that contains
      `Editor/Data/PlaybackEngines`. */
  lemma EnginesInText(destination: Path, k: nat)
    requires 3 <= k <= |destination.parts| && EndsWithEngines(destination.parts[..k])
    ensures Contains(ToString(destination), ENGINES_TEXT)
  {
    var parts := destination.parts;
    var pre, post := parts[..k - 3], parts[k..];
    assert parts[..k][k - 3..] == parts[k - 3..k];
    assert parts == pre + ENGINES + post;
    EnginesJoined();
    var offset := JoinMiddle(pre, ENGINES, post, '/');
    var s := Join(parts, '/');
    var lead := if destination.absolute then "/" else "";
    assert ToString(destination) == lead + s;
    assert (lead + s)[|lead| + offset..] == s[offset..];
    ContainsAt(ToString(destination), ENGINES_TEXT, |lead| + offset);
  }

  /** For a destination the loop can handle, the adjustment happens exactly
      when the components contain `Editor/Data/PlaybackEngines`, and it
      removes their deepest occurrence and everything after it. */
  lemma EnginesRootShape(destination: Path)
    requires EnginesReachable(destination)
    ensures Contains(ToString(destination), ENGINES_TEXT) <==> DeepestEngines(destination.parts).Some?
    ensures var root := EnginesRoot(destination);
            && root.absolute == destination.absolute
            && root.parts == destination.parts[..|root.parts|]
            && (root != destination ==>
                  && |root.parts| + 3 <= |destination.parts|
                  && destination.parts[|root.parts|..|root.parts| + 3] == ENGINES
                  && forall j :: |root.parts| + 3 < j <= |destination.parts| ==>
                       !EndsWithEngines(destination.parts[..j]))
  {
    DeepestEnginesDeepest(destination.parts);
    var k := DeepestEngines(destination.parts);
    if k.Some? {
      EnginesInText(destination, k.value);
      var parts := destination.parts;
      assert parts[..k.value][k.value - 3..] == parts[k.value - 3..k.value];
    }
  }

  /** A destination the loop cannot handle: the text contains the three
      names, but only as the tail of `MyEditor`. */
  lemma EnginesInsideComponent()
    ensures var d := Path(true, ["MyEditor", "Data", "PlaybackEngines"]);
            Contains(ToString(d), ENGINES_TEXT) && !EnginesReachable(d)
  {
    var d := Path(true, ["MyEditor", "Data", "PlaybackEngines"]);
    assert d.parts[1..] == ENGINES[1..];
    assert d.parts[0] == "My" + ENGINES[0];
    assert Join(d.parts, '/') == "My" + Join(ENGINES, '/');
    EnginesJoined();
    assert ToString(d) == "/My" + ENGINES_TEXT;
    assert ("/My" + ENGINES_TEXT)[3..] == ENGINES_TEXT;
    ContainsAt(ToString(d), ENGINES_TEXT, 3);
    DeepestEnginesDeepest(d.parts);
    assert d.parts[..3] == d.parts;
    assert d.parts[0] != ENGINES[0];
  }

  /** `unpack_tar_xz` (unpack.rs:127-141): `archive` is the decompressed
      archive's entry list, or the error of reading or decompressing it,
      which comes before the adjustment. */
  method UnpackTarXz(archive: Result<seq<Result<Path>>>, destination: Path, fails: Step -> Option<string>)
    returns (r: Result<()>, done: seq<Step>)
    requires archive.Ok? ==> EnginesReachable(destination)
    ensures archive.IsFailure() ==> r == archive.PropagateFailure() && done == []
    ensures archive.Ok? ==> (r, done) == Run(TarPlan(EnginesRoot(destination), archive.value), fails)
  {
    if archive.IsFailure() {
      return archive.PropagateFailure(), [];
    }
    var root := AdjustXzDestination(destination);
    r, done := UnpackTar(archive, root, fails);
  }

  /** The index of the first entry that cannot be read or that `wanted`
      accepts, or the number of entries when there is none. */
  function FirstStop<T>(entries: seq<Result<T>>, wanted: T -> bool): (i: nat)
    ensures i <= |entries|
    ensures forall j :: 0 <= j < i ==> entries[j].Ok? && !wanted(entries[j].value)
    ensures i < |entries| ==> entries[i].IsFailure() || wanted(entries[i].value)
    decreases |entries|
  {
    if entries == [] || entries[0].IsFailure() || wanted(entries[0].value) then 0
    else 1 + FirstStop(entries[1..], wanted)
  }

  /** A scan that passed `k` unwanted entries and stopped there stopped at
      `FirstStop`. */
  lemma StopAt<T>(entries: seq<Result<T>>, wanted: T -> bool, k: nat)
    requires k <= |entries|
    requires forall j :: 0 <= j < k ==> entries[j].Ok? && !wanted(entries[j].value)
    requires k < |entries| ==> entries[k].IsFailure() || wanted(entries[k].value)
    ensures FirstStop(entries, wanted) == k
  {
    var i := FirstStop(entries, wanted);
    if i < k {
      assert false;
    } else if k < i {
      assert false;
    }
  }

  /** A directory entry: its path, and whether it is a directory. */
  datatype DirEntry = DirEntry(path: Path, isDir: bool)

  /** A directory whose path ends with `pkg.tmp`: where a pkg's payload
      lives once the xar archive is unpacked. */
  predicate IsPayloadDir(e: DirEntry)
  {
    e.isDir && EndsWith(ToString(e.path), "pkg.tmp")
  }

  const NoPayloadFile := "Couldn't find payload file"

  /** The payload of a listing: `Payload` inside the first `pkg.tmp`
      directory; an entry that cannot be read before it is an error, and
      so is a listing without one. */
  function PayloadPath(listing: Result<seq<Result<DirEntry>>>): Result<Path>
  {
    if listing.IsFailure() then listing.PropagateFailure()
    else
      var entries := listing.value;
      var i := FirstStop(entries, IsPayloadDir);
      if i == |entries| then Err(NoPayloadFile)
      else if entries[i].IsFailure() then entries[i].PropagateFailure()
      else Ok(Child(entries[i].value.path, "Payload"))
  }

  /** Readable entries that are not `pkg.tmp` directories are passed over;
      the first `pkg.tmp` directory after them gives the payload. */
  lemma PayloadOfFirstPkgTmp(before: seq<Result<DirEntry>>, dir: DirEntry, after: seq<Result<DirEntry>>)
    requires forall j :: 0 <= j < |before| ==> before[j].Ok? && !IsPayloadDir(before[j].value)
    requires IsPayloadDir(dir)
    ensures PayloadPath(Ok(before + [Ok(dir)] + after)) == Ok(Child(dir.path, "Payload"))
  {
    var entries := before + [Ok(dir)] + after;
    StopAt(entries, IsPayloadDir, |before|);
  }

  /** `find_payload_file` (unpack.rs:204-215). */
  method FindPayloadFile(listing: Result<seq<Result<DirEntry>>>) returns (r: Result<Path>)
    ensures r == PayloadPath(listing)
  {
    if listing.IsFailure() {
      return listing.PropagateFailure();
    }
    var entries := listing.value;
    var k := 0;
    while k < |entries|
      invariant k <= |entries|
      invariant forall j :: 0 <= j < k ==> entries[j].Ok? && !IsPayloadDir(entries[j].value)
    {
      if entries[k].IsFailure() {
        StopAt(entries, IsPayloadDir, k);
        return entries[k].PropagateFailure();
      }
      var entry := entries[k].value;
      if entry.isDir && EndsWith(ToString(entry.path), "pkg.tmp") {
        StopAt(entries, IsPayloadDir, k);
        return Ok(Child(entry.path, "Payload"));
      }
      k := k + 1;
    }
    StopAt(entries, IsPayloadDir, k);
    return Err(NoPayloadFile);
  }

  /** `unpack_pkg` (unpack.rs:155-162): unpack the xar archive into a
      temporary directory (`xar` is how that went and `listing` the
      directory's contents afterwards), find the payload, decompress it
      (`payload` gives its cpio entries or the error) and unpack those. */
  method UnpackPkg(xar: Result<()>, listing: Result<seq<Result<DirEntry>>>,
                   payload: Path -> Result<seq<CpioEntry>>, destination: Path,
                   decode: seq<bv8> -> Result<string>, fails: Step -> Option<string>)
    returns (r: Result<()>, done: seq<Step>)
    ensures xar.IsFailure() ==> r == xar.PropagateFailure() && done == []
    ensures xar.Ok? && PayloadPath(listing).IsFailure() ==> r == PayloadPath(listing).PropagateFailure() && done == []
    ensures xar.Ok? && PayloadPath(listing).Ok? && payload(PayloadPath(listing).value).IsFailure() ==>
              r == payload(PayloadPath(listing).value).PropagateFailure() && done == []
    ensures xar.Ok? && PayloadPath(listing).Ok? && payload(PayloadPath(listing).value).Ok? ==>
              (r, done) == Run(CpioPlan(destination, payload(PayloadPath(listing).value).value, decode), fails)
  {
    if xar.IsFailure() {
      return xar.PropagateFailure(), [];
    }
    var payloadPath := FindPayloadFile(listing);
    if payloadPath.IsFailure() {
      return payloadPath.PropagateFailure(), [];
    }
    var entries := payload(payloadPath.value);
    if entries.IsFailure() {
      return entries.PropagateFailure(), [];
    }
    r, done := UnpackCpio(entries.value, destination, decode, fails);
  }

  /** An entry of the mounted image whose extension is `app`. */
  predicate IsApp(p: Path)
  {
    FileExtension(p) == Some("app")
  }

  /** Whether the pattern `/visual\s?studio.*\.app$/i` of unpack.rs:108
      matches `s`. Any match must match its tail `$/i`: the end of the
      text, then the two characters `/i`. */
  predicate DmgPatternMatches(s: string)
  {
    exists j :: 0 <= j <= |s| && j == |s| && StartsWith(s[j..], "/i")
  }

  /** The pattern never matches, so the application is always copied
      straight into the destination. */
  lemma DmgPatternNeverMatches(s: string)
    ensures !DmgPatternMatches(s)
  {
    forall j | 0 <= j <= |s| && j == |s|
      ensures !StartsWith(s[j..], "/i")
    {
      assert |s[j..]| == 0;
    }
  }

  /** `unpack_dmg` (unpack.rs:99-119): `mount` is the listing of the
      attached image, or the error of attaching or listing it, and
      `copyFiles(from, to)` the outcome of copying a tree. Returns the
      outcome and the copy made, if any. */
  method UnpackDmg(mount: Result<seq<Result<Path>>>, destination: Path, copyFiles: (Path, Path) -> Result<()>)
    returns (r: Result<()>, copied: Option<(Path, Path)>)
    ensures mount.IsFailure() ==> r == mount.PropagateFailure() && copied == None
    ensures mount.Ok? ==>
              var entries := mount.value;
              var i := FirstStop(entries, IsApp);
              && (i == |entries| ==> r == Ok(()) && copied == None)
              && (i < |entries| && entries[i].IsFailure() ==> r == entries[i].PropagateFailure() && copied == None)
              && (i < |entries| && entries[i].Ok? ==>
                    copied == Some((entries[i].value, destination)) && r == copyFiles(entries[i].value, destination))
  {
    copied := None;
    if mount.IsFailure() {
      return mount.PropagateFailure(), copied;
    }
    var entries := mount.value;
    var k := 0;
    while k < |entries|
      invariant k <= |entries|
      invariant forall j :: 0 <= j < k ==> entries[j].Ok? && !IsApp(entries[j].value)
    {
      if entries[k].IsFailure() {
        StopAt(entries, IsApp, k);
        return entries[k].PropagateFailure(), copied;
      }
      var path := entries[k].value;
      if FileExtension(path) == Some("app") {
        var target := destination;
        if DmgPatternMatches(ToString(path)) {
          match FileName(path) {
            case Some(name) => target := Child(destination, name);
            case None =>
          }
        }
        DmgPatternNeverMatches(ToString(path));
        copied := Some((path, target));
        StopAt(entries, IsApp, k);
        return copyFiles(path, target), copied;
      }
      k := k + 1;
    }
    StopAt(entries, IsApp, k);
    r := Ok(());
  }
}
