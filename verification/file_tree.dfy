/** `copy_files` and `move_files` of lib/src/install/unpack.rs:60-79 over
    an abstract directory tree. A directory lists its entries in the order
    `read_dir` yields them; an entry is a regular file, a symbolic link or a
    directory. Only the name clashes the copy can meet are modelled as
    failures; other I/O errors are not. */
module FileTree {
  import opened Wrappers

  datatype Node =
    | File(content: seq<bv8>)
    | Link(target: string)
    | Dir(entries: seq<Entry>)

  datatype Entry = Entry(name: string, node: Node)

  /** `EEXIST` and `EISDIR` as `io::Error` renders them. */
  const AlreadyExists := "File exists (os error 17)"
  const IsADirectory := "Is a directory (os error 21)"

  predicate Absent(entries: seq<Entry>, name: string)
  {
    forall i :: 0 <= i < |entries| ==> entries[i].name != name
  }

  /** A directory as a file system holds it: no name twice, at any depth. */
  predicate WellFormed(entries: seq<Entry>)
    decreases entries
  {
    entries == []
    || (&& Absent(entries[1..], entries[0].name)
        && (entries[0].node.Dir? ==> WellFormed(entries[0].node.entries))
        && WellFormed(entries[1..]))
  }

  /** The position of the entry called `name`, or the number of entries. */
  function IndexOf(entries: seq<Entry>, name: string): (i: nat)
    ensures i <= |entries|
    ensures i < |entries| ==> entries[i].name == name
    ensures Absent(entries[..i], name)
    decreases |entries|
  {
    if entries == [] || entries[0].name == name then 0
    else
      var i := 1 + IndexOf(entries[1..], name);
      assert entries[..i] == [entries[0]] + entries[1..][..i - 1];
      i
  }

  /** `node` under `name`: it takes the place of the entry of that name, or
      is added after the others. */
  function Place(entries: seq<Entry>, name: string, node: Node): seq<Entry>
  {
    var i := IndexOf(entries, name);
    if i < |entries| then entries[i := Entry(name, node)] else entries + [Entry(name, node)]
  }

  /** `copy_files(from, to)` where `to` is what the target path holds, if
      anything (unpack.rs:65-79). `create_dir_all(to)` fails on anything but
      a directory and makes an empty one when nothing is there; then the
      entries are copied into it. Returns the outcome and what the target
      path holds afterwards. */
  function CopyTo(from: seq<Entry>, to: Option<Node>): (Result<()>, Option<Node>)
    decreases from, 1
  {
    if to.Some? && !to.value.Dir? then (Err(AlreadyExists), to)
    else
      var copied := CopyInto(from, if to.Some? then to.value.entries else []);
      (copied.0, Some(Dir(copied.1)))
  }

  /** The loop of `copy_files` (unpack.rs:67-77) over the entries `src`,
      into a directory whose entries are `dst`: a directory is copied
      recursively, a link is re-created with its target (and fails if the
      name is taken), a file is copied (over a file of that name, but not
      over a directory). The first failure ends the copy, leaving what was
      copied so far. */
  function CopyInto(src: seq<Entry>, dst: seq<Entry>): (Result<()>, seq<Entry>)
    decreases src, 0
  {
    if src == [] then (Ok(()), dst)
    else
      var e := src[0];
      var i := IndexOf(dst, e.name);
      match e.node
      case Dir(children) =>
        var inner := CopyTo(children, if i < |dst| then Some(dst[i].node) else None);
        var placed := if inner.1.Some? then Place(dst, e.name, inner.1.value) else dst;
        if inner.0.IsFailure() then (inner.0, placed) else CopyInto(src[1..], placed)
      case Link(target) =>
        if i < |dst| then (Err(AlreadyExists), dst) else CopyInto(src[1..], dst + [Entry(e.name, Link(target))])
      case File(content) =>
        if i < |dst| && dst[i].node.Dir? then (Err(IsADirectory), dst)
        else CopyInto(src[1..], Place(dst, e.name, File(content)))
  }

  /** Copying entries whose names the target does not hold yet appends
      them, unchanged and in order. */
  lemma {:induction false} CopyIntoFresh(src: seq<Entry>, dst: seq<Entry>)
    requires WellFormed(src)
    requires forall i :: 0 <= i < |src| ==> Absent(dst, src[i].name)
    ensures CopyInto(src, dst) == (Ok(()), dst + src)
    decreases src
  {
    if src != [] {
      var e := src[0];
      assert IndexOf(dst, e.name) == |dst|;
      var placed := dst + [e];
      forall i | 0 <= i < |src[1..]|
        ensures Absent(placed, src[1..][i].name)
      {
        assert src[1..][i] == src[i + 1];
        assert Absent(src[1..], e.name);
      }
      assert Place(dst, e.name, e.node) == placed;
      match e.node {
        case Dir(children) =>
          CopyIntoFresh(children, []);
          assert [] + children == children;
          assert CopyTo(children, None) == (Ok(()), Some(e.node));
        case Link(_) =>
        case File(_) =>
      }
      assert CopyInto(src, dst) == CopyInto(src[1..], placed);
      CopyIntoFresh(src[1..], placed);
      assert placed + src[1..] == dst + src;
    } else {
      assert dst + src == dst;
    }
  }

  /** Copying a directory to a path that holds nothing reproduces it:
      same names, same order, same files, links and subdirectories. */
  lemma CopyReproduces(from: seq<Entry>)
    requires WellFormed(from)
    ensures CopyTo(from, None) == (Ok(()), Some(Dir(from)))
  {
    CopyIntoFresh(from, []);
    assert [] + from == from;
  }

  /** `copy_files` (unpack.rs:65-79): make the target directory, then copy
      each entry in turn. */
  method CopyFiles(from: seq<Entry>, to: Option<Node>) returns (r: Result<()>, after: Option<Node>)
    ensures (r, after) == CopyTo(from, to)
    decreases from, 1
  {
    if to.Some? && !to.value.Dir? {
      return Err(AlreadyExists), to;
    }
    var out := if to.Some? then to.value.entries else [];
    ghost var start := out;
    var k := 0;
    while k < |from|
      invariant k <= |from|
      invariant CopyInto(from, start) == CopyInto(from[k..], out)
    {
      assert from[k..][0] == from[k] && from[k..][1..] == from[k + 1..];
      var e := from[k];
      var i := IndexOf(out, e.name);
      match e.node {
        case Dir(children) =>
          var inner, node := CopyFiles(children, if i < |out| then Some(out[i].node) else None);
          if node.Some? {
            out := Place(out, e.name, node.value);
          }
          if inner.IsFailure() {
            return inner, Some(Dir(out));
          }
        case Link(target) =>
          if i < |out| {
            return Err(AlreadyExists), Some(Dir(out));
          }
          out := out + [Entry(e.name, Link(target))];
        case File(content) =>
          if i < |out| && out[i].node.Dir? {
            return Err(IsADirectory), Some(Dir(out));
          }
          out := Place(out, e.name, File(content));
      }
      k := k + 1;
    }
    return Ok(()), Some(Dir(out));
  }

  /** `entries` without the entry called `name`. */
  function Without(entries: seq<Entry>, name: string): (r: seq<Entry>)
    ensures Absent(r, name)
    ensures forall e :: e in r <==> e in entries && e.name != name
    decreases |entries|
  {
    if entries == [] then []
    else (if entries[0].name == name then [] else [entries[0]]) + Without(entries[1..], name)
  }

  lemma {:induction false} WithoutConcat(a: seq<Entry>, b: seq<Entry>, name: string)
    ensures Without(a + b, name) == Without(a, name) + Without(b, name)
    decreases |a|
  {
    if a == [] {
      assert a + b == b;
    } else {
      assert (a + b)[0] == a[0] && (a + b)[1..] == a[1..] + b;
      WithoutConcat(a[1..], b, name);
    }
  }

  lemma {:induction false} WithoutAbsent(entries: seq<Entry>, name: string)
    requires Absent(entries, name)
    ensures Without(entries, name) == entries
    decreases |entries|
  {
    if entries != [] {
      WithoutAbsent(entries[1..], name);
      assert [entries[0]] + entries[1..] == entries;
    }
  }

  /** `move_files` (unpack.rs:60-64): copy, then `remove_dir_all` the
      source, whose outcome is `removal`; a failing removal is taken to
      remove nothing. `to` is what the target path holds. When the source is
      itself the entry `inside` of that target directory (the editor move
      of `<editor>/Unity` onto `<editor>`), the copy reads the source as it
      was before the copy began, and removing the source takes that entry
      out of the target. Returns the outcome, the source afterwards (gone
      once moved) and what the target path holds. */
  method MoveFiles(from: seq<Entry>, to: Option<Node>, inside: Option<string>, removal: Result<()>)
    returns (r: Result<()>, source: Option<seq<Entry>>, target: Option<Node>)
    requires inside.Some? ==> to.Some? && to.value.Dir? && Entry(inside.value, Dir(from)) in to.value.entries
    ensures var (copied, after) := CopyTo(from, to);
            && (copied.IsFailure() ==> r == copied && source == Some(from) && target == after)
            && (copied.Ok? && removal.IsFailure() ==> r == removal && source == Some(from) && target == after)
            && (copied.Ok? && removal.Ok? ==>
                  && r == Ok(()) && source.None? && after.Some? && after.value.Dir?
                  && target == Some(Dir(if inside.Some? then Without(after.value.entries, inside.value)
                                        else after.value.entries)))
  {
    r, target := CopyFiles(from, to);
    if r.IsFailure() {
      return r, Some(from), target;
    }
    if removal.IsFailure() {
      return removal, Some(from), target;
    }
    r, source := Ok(()), None;
    if inside.Some? {
      target := Some(Dir(Without(target.value.entries, inside.value)));
    }
  }

  /** The editor move of `<editor>/Unity` onto `<editor>`: when the names
      inside `Unity` are new to the editor directory and none of them is
      `Unity`, the copy succeeds, and after the removal the editor directory
      holds its other entries followed by those of `Unity`, and no `Unity`
      entry. */
  lemma NestedMoveMerges(es: seq<Entry>, name: string, from: seq<Entry>)
    requires Entry(name, Dir(from)) in es
    requires WellFormed(from) && Absent(from, name)
    requires forall i :: 0 <= i < |from| ==> Absent(es, from[i].name)
    ensures CopyTo(from, Some(Dir(es))) == (Ok(()), Some(Dir(es + from)))
    ensures Without(es + from, name) == Without(es, name) + from
    ensures Absent(Without(es, name) + from, name)
    ensures forall e :: e in Without(es, name) + from <==> (e in es && e.name != name) || e in from
  {
    CopyIntoFresh(from, es);
    WithoutConcat(es, from, name);
    WithoutAbsent(from, name);
  }
}
