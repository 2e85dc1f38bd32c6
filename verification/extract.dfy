/** The file-system effects of unpacking (lib/src/install/unpack.rs), as an
    ordered list of steps. The archive codecs are not modelled: an archive
    arrives as the sequence of its entries, and whether an effect fails is
    an input. Every `?` in the source stops at the first failure, which is
    what `Run` captures. */
module Extract {
  import opened Wrappers
  import opened Paths

  /** One effect on the file system. */
  datatype Step =
    | Unpacked(at: Path)                                 // tar `Entry::unpack`
    | MadeDir(at: Path)                                  // `fs::create_dir_all`
    | Linked(target: string, at: Path)                   // `symlink(target, at)`
    | Written(at: Path, content: seq<bv8>, mode: bv32)   // `fs::write`, then `fs::set_permissions`
    | Copied(from: Path, to: Path)                       // `fs::copy`
    | Removed(at: Path)                                  // `fs::remove_file`

  /** A planned step that can be carried out: it was planned without error
      and its effect does not fail. */
  predicate Succeeds(step: Result<Step>, fails: Step -> Option<string>)
  {
    step.Ok? && fails(step.value).None?
  }

  /** The outcome of the first step that does not succeed. */
  function FailureOf(step: Result<Step>, fails: Step -> Option<string>): Result<()>
    requires !Succeeds(step, fails)
  {
    if step.IsFailure() then step.PropagateFailure() else Err(fails(step.value).value)
  }

  /** Carries out `planned` in order, up to the first step that cannot be
      planned or whose effect fails (`fails(step)` is then its error).
      Returns the outcome and the effects that took place. */
  function Run(planned: seq<Result<Step>>, fails: Step -> Option<string>): (out: (Result<()>, seq<Step>))
    ensures |out.1| <= |planned|
    ensures forall i :: 0 <= i < |out.1| ==> Succeeds(planned[i], fails) && planned[i].value == out.1[i]
    ensures |out.1| < |planned| ==>
              !Succeeds(planned[|out.1|], fails) && out.0 == FailureOf(planned[|out.1|], fails)
    ensures out.0.Ok? <==> |out.1| == |planned|
    decreases |planned|
  {
    if planned == [] then (Ok(()), [])
    else if !Succeeds(planned[0], fails) then (FailureOf(planned[0], fails), [])
    else
      var rest := Run(planned[1..], fails);
      (rest.0, [planned[0].value] + rest.1)
  }

  /** Effects that carried out a prefix of the plan and stopped at its end
      or at a failing step are what `Run` yields. */
  lemma RunFrom(planned: seq<Result<Step>>, fails: Step -> Option<string>, done: seq<Step>)
    requires |done| <= |planned|
    requires forall i :: 0 <= i < |done| ==> Succeeds(planned[i], fails) && planned[i].value == done[i]
    requires |done| < |planned| ==> !Succeeds(planned[|done|], fails)
    ensures Run(planned, fails)
         == (if |done| < |planned| then FailureOf(planned[|done|], fails) else Ok(()), done)
  {
    var out := Run(planned, fails);
    if |out.1| < |done| {
      assert false;
    } else if |done| < |out.1| {
      assert false;
    }
    assert forall i :: 0 <= i < |done| ==> out.1[i] == done[i];
    assert out.1 == done;
    if |done| == |planned| {
      assert out.0.Ok?;
      assert out.0.value == ();
    }
  }

  /** The step that unpacks one tar entry: the entry's path below the
      destination (unpack.rs:147-150). An entry that cannot be read, or whose
      path cannot be decoded, is an error. */
  function TarStep(destination: Path, entry: Result<Path>): Result<Step>
  {
    if entry.IsFailure() then entry.PropagateFailure() else Ok(Unpacked(Push(destination, entry.value)))
  }

  function TarPlan(destination: Path, entries: seq<Result<Path>>): (plan: seq<Result<Step>>)
    ensures |plan| == |entries|
    ensures forall i :: 0 <= i < |entries| ==> plan[i] == TarStep(destination, entries[i])
  {
    seq(|entries|, i requires 0 <= i < |entries| => TarStep(destination, entries[i]))
  }

  /** Entries are unpacked in archive order, each below the destination; the
      first entry that cannot be read or unpacked ends the run with its
      error. */
  lemma TarEntriesInOrder(destination: Path, entries: seq<Result<Path>>, fails: Step -> Option<string>)
    ensures var out := Run(TarPlan(destination, entries), fails);
            && (forall i :: 0 <= i < |out.1| ==>
                  entries[i].Ok? && out.1[i] == Unpacked(Push(destination, entries[i].value)))
            && (out.0.Ok? <==> forall i :: 0 <= i < |entries| ==> Succeeds(TarStep(destination, entries[i]), fails))
  {
    var out := Run(TarPlan(destination, entries), fails);
    if !out.0.Ok? {
      assert !Succeeds(TarStep(destination, entries[|out.1|]), fails);
    }
  }

  /** `unpack_tar` (unpack.rs:143-153): `entries` is the archive's entry
      list, or the error of opening it. */
  method UnpackTar(entries: Result<seq<Result<Path>>>, destination: Path, fails: Step -> Option<string>)
    returns (r: Result<()>, done: seq<Step>)
    ensures entries.IsFailure() ==> r == entries.PropagateFailure() && done == []
    ensures entries.Ok? ==> (r, done) == Run(TarPlan(destination, entries.value), fails)
  {
    done := [];
    if entries.IsFailure() {
      return entries.PropagateFailure(), done;
    }
    var list := entries.value;
    ghost var plan := TarPlan(destination, list);
    var k := 0;
    while k < |list|
      invariant k <= |list| && |done| == k
      invariant forall i :: 0 <= i < k ==> Succeeds(plan[i], fails) && plan[i].value == done[i]
    {
      var entry := list[k];
      if entry.IsFailure() {
        RunFrom(plan, fails, done);
        return entry.PropagateFailure(), done;
      }
      var step := Unpacked(Push(destination, entry.value));
      if fails(step).Some? {
        RunFrom(plan, fails, done);
        return Err(fails(step).value), done;
      }
      done := done + [step];
      k := k + 1;
    }
    RunFrom(plan, fails, done);
    r := Ok(());
  }

  /** The file-type bits of a cpio entry's mode that the dispatch tests
      (`S_IFDIR` and `S_IFLNK` of a Unix `st_mode`). */
  const DIRECTORY: bv32 := 0x4000
  const SYMBOLIC_LINK: bv32 := 0xA000
  const REGULAR_FILE: bv32 := 0x8000
  const TYPE_MASK: bv32 := 0xF000

  /** `Mode::contains`: every bit of `flag` is set in `mode`. */
  predicate HasFlag(mode: bv32, flag: bv32)
  {
    mode & flag == flag
  }

  /** A cpio entry: its name as a path, its mode and its payload. */
  datatype CpioEntry = CpioEntry(name: Path, mode: bv32, file: seq<bv8>)

  /** The step for one cpio entry (unpack.rs:172-182): the directory flag is
      tested first, then the symbolic-link flag, whose payload is the link
      target as UTF-8 (`decode` is that decoding); anything else is written
      out with the entry's mode as its permissions. */
  function CpioStep(destination: Path, entry: CpioEntry, decode: seq<bv8> -> Result<string>): Result<Step>
  {
    var at := Push(destination, entry.name);
    if HasFlag(entry.mode, DIRECTORY) then Ok(MadeDir(at))
    else if HasFlag(entry.mode, SYMBOLIC_LINK) then
      var target := decode(entry.file);
      if target.IsFailure() then target.PropagateFailure() else Ok(Linked(target.value, at))
    else Ok(Written(at, entry.file, entry.mode))
  }

  /** The dispatch on the Unix file type: a directory makes a directory, a
      symbolic link a link to its payload, a regular file a file with the
      payload and mode. Because the directory test is a bit test, a block
      device (`0x6000`) or socket (`0xC000`) entry also makes a directory. */
  lemma CpioFileTypes(destination: Path, entry: CpioEntry, decode: seq<bv8> -> Result<string>)
    ensures var step := CpioStep(destination, entry, decode);
            var at := Push(destination, entry.name);
            && (entry.mode & TYPE_MASK == DIRECTORY ==> step == Ok(MadeDir(at)))
            && (entry.mode & TYPE_MASK == SYMBOLIC_LINK && decode(entry.file).Ok? ==>
                  step == Ok(Linked(decode(entry.file).value, at)))
            && (entry.mode & TYPE_MASK == SYMBOLIC_LINK && decode(entry.file).IsFailure() ==>
                  step == decode(entry.file).PropagateFailure())
            && (entry.mode & TYPE_MASK == REGULAR_FILE ==> step == Ok(Written(at, entry.file, entry.mode)))
            && (entry.mode & TYPE_MASK == 0x6000 || entry.mode & TYPE_MASK == 0xC000 ==> step == Ok(MadeDir(at)))
  {
    var m := entry.mode;
    assert m & TYPE_MASK == DIRECTORY ==> m & DIRECTORY == DIRECTORY;
    assert m & TYPE_MASK == SYMBOLIC_LINK ==> m & DIRECTORY != DIRECTORY && m & SYMBOLIC_LINK == SYMBOLIC_LINK;
    assert m & TYPE_MASK == REGULAR_FILE ==> m & DIRECTORY != DIRECTORY && m & SYMBOLIC_LINK != SYMBOLIC_LINK;
    assert m & TYPE_MASK == 0x6000 || m & TYPE_MASK == 0xC000 ==> m & DIRECTORY == DIRECTORY;
  }

  /** The steps of a whole cpio archive, entry after entry. */
  function CpioPlan(destination: Path, entries: seq<CpioEntry>, decode: seq<bv8> -> Result<string>)
    : (plan: seq<Result<Step>>)
    ensures |plan| == |entries|
    ensures forall i :: 0 <= i < |entries| ==> plan[i] == CpioStep(destination, entries[i], decode)
  {
    seq(|entries|, i requires 0 <= i < |entries| => CpioStep(destination, entries[i], decode))
  }

  /** `unpack_cpio` (unpack.rs:170-186). */
  method UnpackCpio(entries: seq<CpioEntry>, destination: Path, decode: seq<bv8> -> Result<string>,
                    fails: Step -> Option<string>)
    returns (r: Result<()>, done: seq<Step>)
    ensures (r, done) == Run(CpioPlan(destination, entries, decode), fails)
  {
    done := [];
    ghost var plan := CpioPlan(destination, entries, decode);
    var k := 0;
    while k < |entries|
      invariant k <= |entries| && |done| == k
      invariant forall i :: 0 <= i < k ==> Succeeds(plan[i], fails) && plan[i].value == done[i]
    {
      var step := CpioStep(destination, entries[k], decode);
      if step.IsFailure() {
        RunFrom(plan, fails, done);
        return step.PropagateFailure(), done;
      }
      if fails(step.value).Some? {
        RunFrom(plan, fails, done);
        return Err(fails(step.value).value), done;
      }
      done := done + [step.value];
      k := k + 1;
    }
    RunFrom(plan, fails, done);
    r := Ok(());
  }

  const UnwrapNone := "called `Option::unwrap()` on a `None` value"

  /** The steps of `unpack_po` (unpack.rs:81-90): make the destination,
      copy the file into it under its own name, then remove the original.
      A path without a file name panics at the `unwrap`. */
  function PoPlan(filePath: Path, destination: Path): seq<Result<Step>>
  {
    var name := FileName(filePath);
    [ Ok(MadeDir(destination)),
      if name.None? then Panic(UnwrapNone) else Ok(Copied(filePath, Child(destination, name.value))),
      if name.None? then Panic(UnwrapNone) else Ok(Removed(filePath)) ]
  }

  /** The original is removed only after it was copied into the destination,
      and the copy is named after it; a run stops before the removal
      otherwise. */
  lemma PoRemovesAfterCopy(filePath: Path, destination: Path, fails: Step -> Option<string>)
    ensures var out := Run(PoPlan(filePath, destination), fails);
            && (Removed(filePath) in out.1 ==>
                  && FileName(filePath).Some?
                  && out.1 == [MadeDir(destination), Copied(filePath, Child(destination, FileName(filePath).value)),
                               Removed(filePath)])
            && (out.0.Ok? <==> Removed(filePath) in out.1)
            && (FileName(filePath).None? && fails(MadeDir(destination)).None? ==> out == (Panic(UnwrapNone), [MadeDir(destination)]))
  {
    var plan := PoPlan(filePath, destination);
    var out := Run(plan, fails);
    if Removed(filePath) in out.1 {
      var i :| 0 <= i < |out.1| && out.1[i] == Removed(filePath);
      assert i == 2;
    }
    if out.0.Ok? {
      assert out.1[2] == Removed(filePath);
    }
    if FileName(filePath).None? && fails(MadeDir(destination)).None? {
      RunFrom(plan, fails, [MadeDir(destination)]);
    }
  }
}
