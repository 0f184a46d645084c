/**
 * `range_requests_response` of the analyzer web app: the `Range` header parser, the clamping
 * to the file, the response headers and the two chunked readers. The file is a byte sequence
 * read from a position; an exception while parsing becomes a 500 response.
 */
module RangeStreaming {
  import opened Wrappers
  import opened Numbers
  import opened Strings

  newtype byte = b: int | 0 <= b < 256

  /** Size of the pieces both readers ask for. */
  const CHUNK_SIZE: int := 8192

  const HTTP_OK: int := 200
  const HTTP_PARTIAL_CONTENT: int := 206
  const HTTP_INTERNAL_ERROR: int := 500

  /** A parsed and clamped range; `contentLength` is not clamped at zero. */
  datatype RangeSpec = RangeSpec(start: int, end: int, contentLength: int)

  /**
   * `bytes=` removed wherever it occurs, the rest split at '-', the first two parts read as
   * integers; an empty first part is 0 and an empty second part the last byte. Then start is
   * raised to 0 and end lowered to the last byte. `None` when there is no '-' or a part is
   * not an integer: the exceptions that make the endpoint fail.
   */
  function ParseRange(header: string, fileSize: nat): (r: Option<RangeSpec>)
    ensures r.Some? ==> 0 <= r.value.start && r.value.end <= fileSize - 1
    ensures r.Some? ==> r.value.contentLength == r.value.end - r.value.start + 1
  {
    RangeOfParts(Split(ReplaceAll(header, "bytes=", ""), '-'), fileSize)
  }

  /** An empty part takes its default, any other part must read as an integer. */
  function Bound(part: string, default: int): Option<int> {
    if part == [] then Some(default) else ParseInt(part)
  }

  function RangeOfParts(parts: seq<string>, fileSize: nat): (r: Option<RangeSpec>)
    ensures r.Some? ==> 0 <= r.value.start && r.value.end <= fileSize - 1
    ensures r.Some? ==> r.value.contentLength == r.value.end - r.value.start + 1
  {
    if |parts| < 2 then None
    else
      var s := Bound(parts[0], 0);
      var e := Bound(parts[1], fileSize - 1);
      if s.None? || e.None? then None else Some(Clamp(s.value, e.value, fileSize))
  }

  /** Start raised to 0, end lowered to the last byte, and the length between them. */
  function Clamp(start: int, end: int, fileSize: nat): (r: RangeSpec)
    ensures 0 <= r.start && r.end <= fileSize - 1
    ensures r.contentLength == r.end - r.start + 1
  {
    var s := Max(0, start);
    var e := Min(end, fileSize - 1);
    RangeSpec(s, e, e - s + 1)
  }

  /** The header value `bytes=<first>-<second>`. */
  function RangeValue(first: string, second: string): string {
    "bytes=" + first + "-" + second
  }

  /** With digit-only parts, the text after `bytes=` splits into exactly those two parts. */
  lemma RangeParts(first: string, second: string)
    requires forall i :: 0 <= i < |first| ==> IsDigit(first[i])
    requires forall i :: 0 <= i < |second| ==> IsDigit(second[i])
    ensures Split(ReplaceAll(RangeValue(first, second), "bytes=", ""), '-') == [first, second]
  {
    var rest := first + ['-'] + second;
    assert RangeValue(first, second) == "bytes=" + rest;
    ReplaceAllFront("bytes=", rest, "");
    forall i | 0 <= i < |rest|
      ensures rest[i] != 'b'
    {
      if i < |first| {
        assert IsDigit(first[i]);
      } else if i > |first| {
        assert IsDigit(second[i - |first| - 1]);
      }
    }
    ReplaceAllAbsent(rest, "bytes=", "");
    assert ReplaceAll("bytes=" + rest, "bytes=", "") == rest;
    assert '-' !in first by {
      forall i | 0 <= i < |first| ensures first[i] != '-' { assert IsDigit(first[i]); }
    }
    assert '-' !in second by {
      forall i | 0 <= i < |second| ensures second[i] != '-' { assert IsDigit(second[i]); }
    }
    SplitAt(first, '-', second);
    SplitWhole(second, '-');
  }

  lemma ParseOfDigits(first: string, second: string, fileSize: nat)
    requires forall i :: 0 <= i < |first| ==> IsDigit(first[i])
    requires forall i :: 0 <= i < |second| ==> IsDigit(second[i])
    ensures ParseRange(RangeValue(first, second), fileSize) == RangeOfParts([first, second], fileSize)
  {
    RangeParts(first, second);
  }

  /** `bytes=a-b` selects a through b, the end lowered to the last byte. */
  lemma ExplicitRange(first: string, second: string, fileSize: nat)
    requires IsDigits(first) && IsDigits(second)
    ensures ParseRange(RangeValue(first, second), fileSize)
         == Some(Clamp(DecimalValue(first), DecimalValue(second), fileSize))
  {
    ParseOfDigits(first, second, fileSize);
    ParseIntOfDigits(first);
    ParseIntOfDigits(second);
  }

  /** `bytes=a-` runs to the last byte. */
  lemma OpenEndedRange(first: string, fileSize: nat)
    requires IsDigits(first)
    ensures ParseRange(RangeValue(first, ""), fileSize)
         == Some(Clamp(DecimalValue(first), fileSize - 1, fileSize))
  {
    ParseOfDigits(first, "", fileSize);
    ParseIntOfDigits(first);
  }

  /**
   * `bytes=-n` is read as bytes 0 through n (clamped), not as the last n bytes that
   * section 2.1 of RFC 7233 defines for this suffix form.
   */
  lemma SuffixFormReadFromStart(second: string, fileSize: nat)
    requires IsDigits(second)
    ensures ParseRange(RangeValue("", second), fileSize)
         == Some(Clamp(0, DecimalValue(second), fileSize))
  {
    ParseOfDigits("", second, fileSize);
    ParseIntOfDigits(second);
  }

  /** `bytes=-` is the whole file. */
  lemma BareDashIsWholeFile(fileSize: nat)
    ensures ParseRange(RangeValue("", ""), fileSize) == Some(RangeSpec(0, fileSize - 1, fileSize))
  {
    ParseOfDigits("", "", fileSize);
  }

  /** A header without '-' fails. */
  lemma NoDashFails(header: string, fileSize: nat)
    requires '-' !in ReplaceAll(header, "bytes=", "")
    ensures ParseRange(header, fileSize) == None
  {
    SplitWhole(ReplaceAll(header, "bytes=", ""), '-');
  }

  /** `f"bytes {start}-{end}/{file_size}"`. */
  function ContentRange(r: RangeSpec, fileSize: nat): (h: string)
    ensures StartsWith(h, "bytes ") && '/' in h && '-' in h
  {
    "bytes " + IntToDecimal(r.start) + "-" + IntToDecimal(r.end) + "/" + NatToDecimal(fileSize)
  }

  // ---------------------------------------------------------------- readers

  /** `f.read(n)` at position `pos`: at most n bytes, fewer at the end of the file. */
  function Read(file: seq<byte>, pos: nat, n: nat): (chunk: seq<byte>)
    ensures |chunk| <= n
    ensures pos < |file| && n > 0 ==> chunk != []
    ensures pos + |chunk| <= |file| || chunk == []
    ensures chunk != [] ==> chunk == file[pos..pos + |chunk|]
    ensures |chunk| < n ==> chunk == [] || pos + |chunk| == |file|
  {
    if pos >= |file| then [] else file[pos..Min(|file|, pos + n)]
  }

  function Concat(chunks: seq<seq<byte>>): seq<byte> {
    if chunks == [] then [] else Concat(chunks[..|chunks| - 1]) + chunks[|chunks| - 1]
  }

  /** The bytes a ranged read from `start` of `count` bytes can deliver. */
  function Window(file: seq<byte>, start: nat, count: int): (w: seq<byte>)
    ensures |w| <= Max(0, count)
  {
    if start >= |file| || count <= 0 then [] else file[start..Min(|file|, start + count)]
  }

  lemma ConcatSnoc(chunks: seq<seq<byte>>, c: seq<byte>)
    ensures Concat(chunks + [c]) == Concat(chunks) + c
  {
    assert (chunks + [c])[..|chunks|] == chunks;
  }

  /** A read at the end of the bytes sent so far extends them by exactly what it returned. */
  lemma WindowGrows(file: seq<byte>, start: nat, pos: nat, chunk: seq<byte>, sent: seq<byte>)
    requires start <= pos && pos + |chunk| <= |file| && chunk == file[pos..pos + |chunk|]
    requires sent == file[start..pos]
    ensures sent + chunk == file[start..pos + |chunk|]
  {
  }

  /** Every piece holds 1 to 8192 bytes, and only the last may be short. */
  predicate ChunksFit(chunks: seq<seq<byte>>) {
    (forall j :: 0 <= j < |chunks| ==> 1 <= |chunks[j]| <= CHUNK_SIZE) &&
    (forall j :: 0 <= j < |chunks| - 1 ==> |chunks[j]| == CHUNK_SIZE)
  }

  /**
   * The ranged `iter_file`: seek to `start`, then read pieces of at most 8192 bytes until
   * `contentLength` bytes were sent or a read comes back empty.
   */
  method StreamRange(file: seq<byte>, start: nat, contentLength: int) returns (chunks: seq<seq<byte>>)
    ensures ChunksFit(chunks)
    ensures Concat(chunks) == Window(file, start, contentLength)
  {
    chunks := [];
    var pos := start;
    var remaining := contentLength;
    while remaining > 0
      invariant ChunksFit(chunks)
      invariant pos - start == contentLength - remaining
      invariant chunks == [] ==> pos == start
      invariant chunks != [] ==> start < pos && remaining >= 0
      invariant chunks != [] ==> pos <= |file| && Concat(chunks) == file[start..pos]
      invariant chunks != [] && |chunks[|chunks| - 1]| < CHUNK_SIZE ==> pos == |file| || remaining <= 0
      decreases remaining
    {
      var chunkSize := Min(CHUNK_SIZE, remaining);
      var chunk := Read(file, pos, chunkSize);
      if chunk == [] {
        break;
      }
      ConcatSnoc(chunks, chunk);
      WindowGrows(file, start, pos, chunk, Concat(chunks));
      remaining := remaining - |chunk|;
      pos := pos + |chunk|;
      chunks := chunks + [chunk];
    }
  }

  /** The whole-file generator: read pieces of 8192 bytes from the start until a read is empty. */
  method StreamWhole(file: seq<byte>) returns (chunks: seq<seq<byte>>)
    ensures ChunksFit(chunks)
    ensures Concat(chunks) == file
  {
    chunks := [];
    var pos := 0;
    var chunk := Read(file, pos, CHUNK_SIZE);
    while chunk != []
      invariant ChunksFit(chunks)
      invariant pos <= |file| && Concat(chunks) == file[..pos]
      invariant chunk == Read(file, pos, CHUNK_SIZE)
      invariant chunks != [] && |chunks[|chunks| - 1]| < CHUNK_SIZE ==> pos == |file|
      decreases |file| - pos
    {
      ConcatSnoc(chunks, chunk);
      chunks := chunks + [chunk];
      pos := pos + |chunk|;
      chunk := Read(file, pos, CHUNK_SIZE);
    }
  }

  // ---------------------------------------------------------------- the response

  /** A byte range of a file of `fileSize` bytes, as the parser hands it to the reader. */
  lemma RangeBodySize(file: seq<byte>, r: RangeSpec)
    requires 0 <= r.start && r.end <= |file| - 1 && r.contentLength == r.end - r.start + 1
    ensures |Window(file, r.start, r.contentLength)| == Max(0, r.contentLength)
    ensures r.contentLength > 0 ==> Window(file, r.start, r.contentLength) == file[r.start..r.end + 1]
  {
  }

  /** A start after the end announces a length of zero or less and sends nothing. */
  lemma InvertedRangeIsEmpty(file: seq<byte>, r: RangeSpec)
    requires 0 <= r.start && r.end <= |file| - 1 && r.contentLength == r.end - r.start + 1
    requires r.start > r.end
    ensures r.contentLength <= 0 && Window(file, r.start, r.contentLength) == []
  {
  }

  datatype Response = Response(status: int, headers: seq<(string, string)>, body: seq<seq<byte>>)

  function RangeHeaders(r: RangeSpec, fileSize: nat): seq<(string, string)> {
    [("content-range", ContentRange(r, fileSize)),
     ("accept-ranges", "bytes"),
     ("content-length", IntToDecimal(r.contentLength))]
  }

  function WholeHeaders(fileSize: nat): seq<(string, string)> {
    [("content-length", NatToDecimal(fileSize)), ("accept-ranges", "bytes")]
  }

  /** A `Range` header counts only when it is present and not empty. */
  predicate IsRanged(rangeHeader: Option<string>) {
    rangeHeader.Some? && rangeHeader.value != []
  }

  /**
   * `range_requests_response`: 206 with the selected bytes for a non-empty `Range` header,
   * 200 with the whole file without one, and the 500 of an unhandled exception when the
   * header does not parse.
   */
  method RangeRequestsResponse(file: seq<byte>, rangeHeader: Option<string>) returns (res: Result<Response, int>)
    ensures res.Err? <==> IsRanged(rangeHeader) && ParseRange(rangeHeader.value, |file|).None?
    ensures res.Err? ==> res.error == HTTP_INTERNAL_ERROR
    ensures res.Ok? ==> ChunksFit(res.value.body)
    ensures !IsRanged(rangeHeader) ==>
              res.Ok? && res.value.status == HTTP_OK && res.value.headers == WholeHeaders(|file|)
              && Concat(res.value.body) == file
    ensures IsRanged(rangeHeader) && res.Ok? ==>
              var r := ParseRange(rangeHeader.value, |file|).value;
              res.value.status == HTTP_PARTIAL_CONTENT && res.value.headers == RangeHeaders(r, |file|)
              && Concat(res.value.body) == Window(file, r.start, r.contentLength)
  {
    if IsRanged(rangeHeader) {
      var parsed := ParseRange(rangeHeader.value, |file|);
      if parsed.None? {
        return Err(HTTP_INTERNAL_ERROR);
      }
      var r := parsed.value;
      var body := StreamRange(file, r.start, r.contentLength);
      res := Ok(Response(HTTP_PARTIAL_CONTENT, RangeHeaders(r, |file|), body));
    } else {
      var body := StreamWhole(file);
      res := Ok(Response(HTTP_OK, WholeHeaders(|file|), body));
    }
  }

  /** The body of a ranged answer is as long as its `content-length` header says, when that is positive. */
  lemma RangedBodyMatchesLength(file: seq<byte>, header: string)
    requires ParseRange(header, |file|).Some?
    ensures var r := ParseRange(header, |file|).value;
            |Window(file, r.start, r.contentLength)| == Max(0, r.contentLength)
  {
    RangeBodySize(file, ParseRange(header, |file|).value);
  }
}
