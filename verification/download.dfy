/** Resumable chunked download of one module archive
    (lib/src/install/download.rs). The transfer itself is not modelled:
    the HEAD reply and the status of each ranged GET are inputs, and the
    model records which byte ranges are requested, in order. */
module Download {
  import opened Wrappers
  import opened Text
  import opened Paths

  /** Bytes asked for per request: 10 MiB. */
  const CHUNK_SIZE: nat := 10485760

  function Min(a: nat, b: nat): nat
  {
    if a <= b then a else b
  }

  /** One item of the range iterator: the inclusive byte range `first` to
      `last`, and `bytes`, the offset reached once it is received. */
  datatype RangeItem = RangeItem(first: nat, last: nat, bytes: nat)

  /** The `Range` header value of an item, a single byte range as in
      section 2.1 of RFC 7233. */
  function RangeHeader(item: RangeItem): (h: string)
    ensures StartsWith(h, "bytes=")
  {
    "bytes=" + Decimal(item.first) + "-" + Decimal(item.last)
  }

  /** The items the iterator yields from `start` to `end` (inclusive), in
      order: each takes `bufferSize` bytes, or what is left. */
  function Ranges(start: nat, end: nat, bufferSize: nat): seq<RangeItem>
    requires bufferSize > 0
    decreases if start > end then 0 else end + 1 - start
  {
    if start > end then []
    else
      var next := start + Min(bufferSize, end - start + 1);
      [RangeItem(start, next - 1, next)] + Ranges(next, end, bufferSize)
  }

  /** The ranges are non-empty and at most `bufferSize` long, each ends
      where the next begins, and together they cover `start` to `end`
      exactly; `bytes` is one past the range's last byte. */
  lemma {:induction false} RangesCover(start: nat, end: nat, bufferSize: nat)
    requires bufferSize > 0
    ensures var rs := Ranges(start, end, bufferSize);
            && (rs == [] <==> start > end)
            && (rs != [] ==> rs[0].first == start && rs[|rs| - 1].last == end)
            && (forall i :: 0 <= i < |rs| ==>
                  rs[i].first <= rs[i].last && rs[i].last - rs[i].first + 1 <= bufferSize
                  && rs[i].bytes == rs[i].last + 1)
            && (forall i :: 0 <= i < |rs| - 1 ==> rs[i + 1].first == rs[i].last + 1)
    decreases if start > end then 0 else end + 1 - start
  {
    if start <= end {
      var next := start + Min(bufferSize, end - start + 1);
      RangesCover(next, end, bufferSize);
      var rs := Ranges(start, end, bufferSize);
      var rest := Ranges(next, end, bufferSize);
      assert rs == [RangeItem(start, next - 1, next)] + rest;
      forall i | 0 <= i < |rs| - 1
        ensures rs[i + 1].first == rs[i].last + 1
      {
        if i > 0 {
          assert rs[i] == rest[i - 1] && rs[i + 1] == rest[i];
        }
      }
    }
  }

  /** `PartialRangeIter`: the next range starts at `start`; the iteration
      ends once `start` passes `end`. */
  class PartialRangeIter {
    var start: nat
    var end: nat
    var bufferSize: nat

    /** The items still to come. */
    function Remaining(): seq<RangeItem>
      reads this
      requires bufferSize > 0
    {
      Ranges(start, end, bufferSize)
    }

    constructor (start: nat, end: nat, bufferSize: nat)
      ensures this.start == start && this.end == end && this.bufferSize == bufferSize
    {
      this.start := start;
      this.end := end;
      this.bufferSize := bufferSize;
    }

    /** `PartialRangeIter::new`: a buffer size of zero is refused. */
    static method New(start: nat, end: nat, bufferSize: nat) returns (r: Result<PartialRangeIter>)
      ensures r.Ok? <==> bufferSize > 0
      ensures r.Err? ==> r.error == "invalid buffer_size, give a value greater than zero."
      ensures r.Ok? ==> fresh(r.value) && r.value.start == start && r.value.end == end
                        && r.value.bufferSize == bufferSize
    {
      if bufferSize == 0 {
        return Err("invalid buffer_size, give a value greater than zero.");
      }
      var it := new PartialRangeIter(start, end, bufferSize);
      return Ok(it);
    }

    /** `Iterator::next`: nothing once `start` is past `end`; otherwise the
        next range, and `start` moves past it. */
    method Next() returns (item: Option<RangeItem>)
      requires bufferSize > 0
      modifies this
      ensures end == old(end) && bufferSize == old(bufferSize)
      ensures item.None? <==> old(start) > end
      ensures item.None? ==> start == old(start)
      ensures item.Some? ==> [item.value] + Remaining() == old(Remaining())
      ensures item.Some? ==> item.value.first == old(start) && start == item.value.bytes
    {
      if start > end {
        return None;
      }
      var prevStart := start;
      start := start + Min(bufferSize, end - start + 1);
      item := Some(RangeItem(prevStart, start - 1, start));
    }
  }

  /** The last `/`-separated piece of a string: separator-free, at the
      end of the string, and preceded by a separator unless it is the
      whole string. */
  lemma {:induction false} LastPieceShape(pieces: seq<string>, separator: char)
    requires |pieces| >= 1
    ensures var s := Join(pieces, separator);
            var last := pieces[|pieces| - 1];
            |last| <= |s| && s[|s| - |last|..] == last
            && (|pieces| > 1 ==> |last| < |s| && s[|s| - |last| - 1] == separator)
    decreases |pieces|
  {
    if |pieces| > 1 {
      LastPieceShape(pieces[1..], separator);
      var s := Join(pieces, separator);
      var t := Join(pieces[1..], separator);
      assert s == pieces[0] + [separator] + t;
      assert s[|s| - |t|..] == t;
      assert s[|s| - |t| - 1] == separator;
    }
  }

  /** The file name of a download (download.rs:58-62): the last
      `/`-separated piece of the URL's path, or the module id when that
      piece is empty. */
  function FileNameFor(urlPath: string, moduleId: string): (name: string)
    ensures (urlPath == [] || urlPath[|urlPath| - 1] == '/') ==> name == moduleId
    ensures !(urlPath == [] || urlPath[|urlPath| - 1] == '/') ==>
              && name != [] && Free(name, '/') && |name| <= |urlPath|
              && urlPath[|urlPath| - |name|..] == name
              && (|name| < |urlPath| ==> urlPath[|urlPath| - |name| - 1] == '/')
  {
    var pieces := Split(urlPath, '/');
    var last := pieces[|pieces| - 1];
    JoinSplit(urlPath, '/');
    SplitPiecesFree(urlPath, '/');
    LastPieceShape(pieces, '/');
    if last == [] then moduleId else last
  }

  /** The HEAD reply: the `Content-Length` header, if present, and the
      path of the final URL after redirects. */
  datatype HeadReply = HeadReply(contentLength: Option<string>, urlPath: string)

  const NoContentLength := "response doesn't include the content length"
  const BadContentLength := "invalid Content-Length header"
  const HeaderNotText := "failed to convert header to a str"
  const UnexpectedResponse := "Unexpected server response"

  /** A header byte `HeaderValue::to_str` accepts: a tab or visible ASCII. */
  predicate VisibleAscii(c: char)
  {
    c == '\t' || (' ' <= c && c <= '~')
  }

  /** A header value `HeaderValue::to_str` turns into text. */
  predicate HeaderText(v: string)
  {
    forall i :: 0 <= i < |v| ==> VisibleAscii(v[i])
  }

  /** The content length the HEAD reply announces (download.rs:55-56): a
      missing header, one that `to_str` refuses, and one that is not a
      64-bit decimal are each an error of their own. */
  function ContentLength(reply: HeadReply): (r: Result<nat>)
    ensures reply.contentLength.None? ==> r == Err(NoContentLength)
    ensures reply.contentLength.Some? && !HeaderText(reply.contentLength.value) ==> r == Err(HeaderNotText)
    ensures reply.contentLength.Some? && HeaderText(reply.contentLength.value) && ParseU64(reply.contentLength.value).None? ==>
              r == Err(BadContentLength)
    ensures r.Ok? ==> r.value < U64_LIMIT
  {
    if reply.contentLength.None? then Err(NoContentLength)
    else if !HeaderText(reply.contentLength.value) then Err(HeaderNotText)
    else match ParseU64(reply.contentLength.value)
      case None => Err(BadContentLength)
      case Some(n) => Ok(n)
  }

  /** A length written out in decimal is read back. */
  lemma ContentLengthOfDecimal(n: nat, urlPath: string)
    requires n < U64_LIMIT
    ensures ContentLength(HeadReply(Some(Decimal(n)), urlPath)) == Ok(n)
  {
    ParseDecimal(n);
    DecimalDigits(n);
  }

  /** The byte to resume from (download.rs:66-76): the length of the file
      already there, or 0 for a new file. */
  function StartByte(existingLength: Option<nat>): nat
  {
    if existingLength.Some? then existingLength.value else 0
  }

  /** The statuses that accept a chunk: 200 OK and 206 Partial Content
      (section 4.1 of RFC 7233). */
  predicate StatusOk(status: nat)
  {
    status == 200 || status == 206
  }

  /** Where the archive is written: `<editor>/downloads/<file name>`. */
  function OutputPath(editorPath: Path, fileName: string): Path
  {
    Child(Child(editorPath, "downloads"), fileName)
  }

  /** The loop of `download` (download.rs:78-87): one ranged GET per item
      of the range iterator from `startByte` to `end`, stopping at the first
      status other than 200 or 206. Returns whether every chunk was
      accepted, and the ranges requested, in order. */
  method FetchRanges(startByte: nat, end: nat, status: nat -> nat) returns (ok: bool, requested: seq<RangeItem>)
    ensures var rs := Ranges(startByte, end, CHUNK_SIZE);
            && |requested| <= |rs| && requested == rs[..|requested|]
            && (forall i :: 0 <= i < |requested| - 1 ==> StatusOk(status(requested[i].first)))
            && (ok <==> requested == rs && forall i :: 0 <= i < |rs| ==> StatusOk(status(rs[i].first)))
            && (!ok ==> |requested| > 0 && !StatusOk(status(requested[|requested| - 1].first)))
  {
    ghost var rs := Ranges(startByte, end, CHUNK_SIZE);
    requested := [];
    var created := PartialRangeIter.New(startByte, end, CHUNK_SIZE);
    var ranges := created.value;
    while true
      invariant ranges.bufferSize == CHUNK_SIZE
      invariant requested + ranges.Remaining() == rs
      invariant forall i :: 0 <= i < |requested| ==> StatusOk(status(requested[i].first))
      decreases |ranges.Remaining()|
    {
      ghost var before := ranges.Remaining();
      var item := ranges.Next();
      if item.None? {
        assert before == [];
        break;
      }
      ghost var after := ranges.Remaining();
      ShiftOne(requested, item.value, after, before);
      requested := requested + [item.value];
      if !StatusOk(status(item.value.first)) {
        assert requested == rs[..|requested|];
        assert requested[|requested| - 1] == item.value;
        assert requested == rs ==> !StatusOk(status(rs[|requested| - 1].first));
        return false, requested;
      }
    }
    assert requested + [] == requested;
    return true, requested;
  }

  lemma ShiftOne<T>(done: seq<T>, x: T, rest: seq<T>, left: seq<T>)
    requires [x] + rest == left
    ensures (done + [x]) + rest == done + left
  {
  }

  /** `download(url, module_id, editor_path)`. `head` is the HEAD reply,
      `existingLength` the length of the output file when it already
      exists, and `status(first)` the status of the ranged GET whose range
      begins at `first`. Returns the outcome and the ranges requested, in
      order. A Content-Length of 0 makes `length - 1` underflow
      (download.rs:78), the panic of a build with overflow checks. */
  method Download(moduleId: string, editorPath: Path, head: Result<HeadReply>, existingLength: Option<nat>,
                  status: nat -> nat)
    returns (r: Result<Path>, requested: seq<RangeItem>)
    ensures head.IsFailure() ==> r.IsFailure() && requested == []
    ensures head.Ok? && ContentLength(head.value).IsFailure() ==>
              r == ContentLength(head.value).PropagateFailure() && requested == []
    ensures head.Ok? && ContentLength(head.value) == Ok(0) ==> r.Panic? && requested == []
    ensures head.Ok? && ContentLength(head.value).Ok? && ContentLength(head.value).value > 0 ==>
              var rs := Ranges(StartByte(existingLength), ContentLength(head.value).value - 1, CHUNK_SIZE);
              && |requested| <= |rs| && requested == rs[..|requested|]
              && (r.Ok? <==> requested == rs && forall i :: 0 <= i < |rs| ==> StatusOk(status(rs[i].first)))
              && (!r.Ok? ==> r == Err(UnexpectedResponse))
    ensures r.Ok? ==> r.value == OutputPath(editorPath, FileNameFor(head.value.urlPath, moduleId))
  {
    requested := [];
    if head.IsFailure() {
      return head.PropagateFailure(), requested;
    }
    var length := ContentLength(head.value);
    if length.IsFailure() {
      return length.PropagateFailure(), requested;
    }
    if length.value == 0 {
      return Panic("attempt to subtract with overflow"), requested;
    }
    var outputFilePath := OutputPath(editorPath, FileNameFor(head.value.urlPath, moduleId));
    var ok;
    ok, requested := FetchRanges(StartByte(existingLength), length.value - 1, status);
    if !ok {
      return Err(UnexpectedResponse), requested;
    }
    return Ok(outputFilePath), requested;
  }
}
