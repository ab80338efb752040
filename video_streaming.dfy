/**
 * The `/:videoId/stream` route: a single-range subset of HTTP byte-range
 * requests (sections 2.1, 4.1, 4.2 and 4.4 of RFC 7233), served from one
 * media file whatever the video identifier is.
 *
 * `Resolve` is the pure decision from (file present, Range header, file size)
 * to an outcome; `ReplyFor` and `BodyFor` say what is written for each
 * outcome; `StreamVideo` is the handler itself, step by step, copying the
 * requested bytes into the response body.
 */
module VideoStreaming {
  import opened Common

  newtype byte = x: int | 0 <= x < 256

  /** The handler always serves this file from the media directory. */
  const SampleVideoFileName: string := "sample.mp4"
  const BytesPrefix: string := "bytes="
  /** Span added to the start of an open-ended range. */
  const ChunkSize: int := 1_000_000

  datatype Outcome =
    | FileNotFound
    | MissingHeader
    | BadPrefix
      /** 416: a bound that is a number reaches the file size. */
    | Unsatisfiable(start: Num, end: Num, size: nat)
      /** 206 with both bounds inside the file (possibly `last < first`). */
    | Partial(first: nat, last: nat)
      /** Neither bound test fires because a bound is NaN; the 206 head is still written. */
    | NotANumber(start: Num, end: Num)

  /**
   * The destructuring `const [startString, endString] = text.split('-')`:
   * the first piece, and the second piece or `undefined` when there is no '-'.
   */
  function RangeTokens(text: string): (string, Option<string>)
  {
    var parts := Split(text, '-');
    (parts[0], if |parts| > 1 then Some(parts[1]) else None)
  }

  /** An empty or missing end token is falsy: the range is open-ended. */
  predicate OpenEnded(endToken: Option<string>)
  {
    endToken == None || endToken == Some("")
  }

  /** `Math.min(startByte + chunkSize, videoFileSize - 1)`. */
  function OpenEndedEnd(start: Num, size: nat): (e: Num)
    ensures start.Int? ==> e.Int? && e.v <= size - 1 && e.v <= start.v + ChunkSize
    ensures start.Int? ==> e.v == size - 1 || e.v == start.v + ChunkSize
    ensures start.NaN? ==> e.NaN?
  {
    MinNum(AddNum(start, ChunkSize), size - 1)
  }

  /** The bound test and the 206 case, once both bounds are known. */
  function Classify(start: Num, end: Num, size: nat): (r: Outcome)
    requires start.Int? ==> start.v >= 0
    requires end.Int? && !AtLeast(start, size) ==> end.v >= 0
  {
    if AtLeast(start, size) || AtLeast(end, size) then Unsatisfiable(start, end, size)
    else if start.Int? && end.Int? then Partial(start.v, end.v)
    else NotANumber(start, end)
  }

  /** The end bound the handler computes from the end token. */
  function EndByte(endToken: Option<string>, start: Num, size: nat): (e: Num)
  {
    if OpenEnded(endToken) then OpenEndedEnd(start, size) else ParseNumber(endToken.value)
  }

  /**
   * The handler's decision, in its order: the file check, the header
   * presence check, the prefix check, then the parse and the bound test.
   */
  function Resolve(fileExists: bool, rangeHeader: Option<string>, size: nat): (r: Outcome)
    ensures r == FileNotFound <==> !fileExists
    ensures r == MissingHeader <==> fileExists && (rangeHeader == None || rangeHeader == Some(""))
    ensures r == BadPrefix <==>
              fileExists && rangeHeader.Some? && rangeHeader.value != "" && !StartsWith(rangeHeader.value, BytesPrefix)
    ensures r.Unsatisfiable? ==> r.size == size && (AtLeast(r.start, size) || AtLeast(r.end, size))
    ensures r.Partial? ==> r.first < size && r.last < size
    ensures r.NotANumber? ==> (r.start.NaN? || r.end.NaN?) && !AtLeast(r.start, size) && !AtLeast(r.end, size)
  {
    if !fileExists then FileNotFound
    else if rangeHeader == None || rangeHeader == Some("") then MissingHeader
    else if !StartsWith(rangeHeader.value, BytesPrefix) then BadPrefix
    else
      var (startToken, endToken) := RangeTokens(rangeHeader.value[|BytesPrefix|..]);
      var start := ParseNumber(startToken);
      Classify(start, EndByte(endToken, start, size), size)
  }

  // ---------------------------------------------------------------------------
  // What is written

  datatype Reply =
    | JsonError(status: nat, error: string)
    | PlainText(status: nat, text: string)
      /** The `writeHead(206, ...)` head; the body is piped separately. */
    | PartialContent(contentRange: string, acceptRanges: string, contentLength: Num, contentType: string)

  function StatusOf(reply: Reply): nat
  {
    match reply
    case JsonError(status, _) => status
    case PlainText(status, _) => status
    case PartialContent(_, _, _, _) => 206
  }

  /** `<start>-<end>/<size>`, as both the Content-Range header and the 416 text print it. */
  function BoundsText(start: Num, end: Num, size: nat): string
  {
    NumToString(start) + "-" + NumToString(end) + "/" + NatToString(size)
  }

  function ContentRange(start: Num, end: Num, size: nat): string
  {
    "bytes " + BoundsText(start, end, size)
  }

  const NotSatisfiablePrefix: string := "Request range not satisfiable: "

  /** The plain-text body of the 416 reply. */
  function NotSatisfiableText(start: Num, end: Num, size: nat): string
  {
    NotSatisfiablePrefix + BoundsText(start, end, size)
  }

  /** `endByte - startByte + 1`, NaN if either bound is. */
  function ContentLength(start: Num, end: Num): (n: Num)
    ensures n.Int? <==> start.Int? && end.Int?
  {
    if start.Int? && end.Int? then Int(end.v - start.v + 1) else NaN
  }

  /** The reply the handler writes for an outcome on a file of `size` bytes. */
  function ReplyFor(outcome: Outcome, size: nat): (r: Reply)
    ensures StatusOf(r) == 404 <==> outcome == FileNotFound
    ensures StatusOf(r) == 400 <==> outcome == MissingHeader || outcome == BadPrefix
    ensures StatusOf(r) == 416 <==> outcome.Unsatisfiable?
    ensures StatusOf(r) == 206 <==> outcome.Partial? || outcome.NotANumber?
    ensures r.PartialContent? ==> r.acceptRanges == "bytes" && r.contentType == "video/mp4"
    ensures outcome == FileNotFound ==> r == JsonError(404, "Video file not found on server")
    ensures outcome == MissingHeader ==> r == PlainText(400, "Range header is required")
    ensures outcome == BadPrefix ==> r == PlainText(400, "Invalid Range header format")
    ensures outcome.Unsatisfiable? ==>
              r == PlainText(416, NotSatisfiableText(outcome.start, outcome.end, outcome.size))
  {
    match outcome
    case FileNotFound => JsonError(404, "Video file not found on server")
    case MissingHeader => PlainText(400, "Range header is required")
    case BadPrefix => PlainText(400, "Invalid Range header format")
    case Unsatisfiable(start, end, total) =>
      PlainText(416, NotSatisfiableText(start, end, total))
    case Partial(start, end) =>
      PartialContent(ContentRange(Int(start), Int(end), size), "bytes", ContentLength(Int(start), Int(end)), "video/mp4")
    case NotANumber(start, end) =>
      PartialContent(ContentRange(start, end, size), "bytes", ContentLength(start, end), "video/mp4")
  }

  /** The body the handler pipes: bytes `first..last` inclusive of the file. */
  function BodyFor(outcome: Outcome, file: seq<byte>): (body: seq<byte>)
    requires outcome.Partial? ==> outcome.first < |file| && outcome.last < |file|
    ensures outcome.Partial? && outcome.first <= outcome.last ==>
              |body| == outcome.last - outcome.first + 1
              && forall i :: 0 <= i < |body| ==> body[i] == file[outcome.first + i]
    ensures !(outcome.Partial? && outcome.first <= outcome.last) ==> body == []
  {
    if outcome.Partial? && outcome.first <= outcome.last then file[outcome.first..outcome.last + 1] else []
  }

  /**
   * The handler: the same checks as `Resolve` in the same order, early
   * returns for the error replies, then the 206 head and a bounded copy of
   * the requested bytes into the response body.
   */
  method StreamVideo(fileExists: bool, file: seq<byte>, rangeHeader: Option<string>) returns (reply: Reply, body: array<byte>)
    ensures fresh(body)
    ensures reply == ReplyFor(Resolve(fileExists, rangeHeader, |file|), |file|)
    ensures body[..] == BodyFor(Resolve(fileExists, rangeHeader, |file|), file)
  {
    body := new byte[0];
    if !fileExists {
      reply := JsonError(404, "Video file not found on server");
      return;
    }
    if rangeHeader == None || rangeHeader == Some("") {
      reply := PlainText(400, "Range header is required");
      return;
    }
    var size := |file|;
    var header := rangeHeader.value;
    if !StartsWith(header, BytesPrefix) {
      reply := PlainText(400, "Invalid Range header format");
      return;
    }
    var (startToken, endToken) := RangeTokens(header[|BytesPrefix|..]);
    var startByte := ParseNumber(startToken);
    var endByte: Num;
    if !OpenEnded(endToken) {
      endByte := ParseNumber(endToken.value);
    } else {
      endByte := MinNum(AddNum(startByte, ChunkSize), size - 1);
    }
    ghost var outcome := Classify(startByte, endByte, size);
    assert Resolve(fileExists, rangeHeader, size) == outcome;
    if AtLeast(startByte, size) || AtLeast(endByte, size) {
      reply := PlainText(416, NotSatisfiableText(startByte, endByte, size));
      return;
    }
    reply := PartialContent(ContentRange(startByte, endByte, size), "bytes", ContentLength(startByte, endByte), "video/mp4");
    if startByte.Int? && endByte.Int? && startByte.v <= endByte.v {
      body := CopyRange(file, startByte.v, endByte.v);
    }
  }

  /** The piped read stream: bytes `first..last` inclusive, copied one by one. */
  method CopyRange(file: seq<byte>, first: nat, last: nat) returns (body: array<byte>)
    requires first <= last < |file|
    ensures fresh(body)
    ensures body[..] == file[first..last + 1]
  {
    body := new byte[last - first + 1];
    var i := 0;
    while i < body.Length
      invariant 0 <= i <= body.Length
      invariant forall k :: 0 <= k < i ==> body[k] == file[first + k]
    {
      body[i] := file[first + i];
      i := i + 1;
    }
  }

  // ---------------------------------------------------------------------------
  // Requests a client writes, and what the handler makes of them

  /** `bytes=<first>-<last>`, or `bytes=<first>-` when `last` is omitted. */
  function RangeRequest(first: nat, last: Option<nat>): string
  {
    BytesPrefix + NatToString(first) + "-" + (if last.Some? then NatToString(last.value) else "")
  }

  /** Past the prefix, only the two tokens matter. */
  lemma ResolveAfterPrefix(text: string, size: nat)
    ensures var (startToken, endToken) := RangeTokens(text);
            var start := ParseNumber(startToken);
            Resolve(true, Some(BytesPrefix + text), size) == Classify(start, EndByte(endToken, start, size), size)
  {
    var h := BytesPrefix + text;
    assert h[..|BytesPrefix|] == BytesPrefix;
    assert h[|BytesPrefix|..] == text;
  }

  lemma TwoTokens(a: string, b: string)
    requires '-' !in a && '-' !in b
    ensures RangeTokens(a + "-" + b) == (a, Some(b))
  {
    SplitAt(a, b, '-');
    SplitWhole(b, '-');
  }

  lemma RequestText(first: nat, last: Option<nat>)
    ensures RangeRequest(first, last)
            == BytesPrefix + (NatToString(first) + "-" + (if last.Some? then NatToString(last.value) else ""))
  {
  }

  /** A closed range is used as written: 206 when both ends are inside the file, else 416. */
  lemma {:induction false} ResolveClosedRange(first: nat, last: nat, size: nat)
    ensures Resolve(true, Some(RangeRequest(first, Some(last))), size)
            == if first < size && last < size then Partial(first, last)
               else Unsatisfiable(Int(first), Int(last), size)
  {
    var a, b := NatToString(first), NatToString(last);
    RequestText(first, Some(last));
    DigitsExclude(a, '-');
    DigitsExclude(b, '-');
    TwoTokens(a, b);
    ResolveAfterPrefix(a + "-" + b, size);
    NatToStringRoundTrip(first);
    NatToStringRoundTrip(last);
  }

  /** An open-ended range ends at `min(first + 1_000_000, size - 1)`. */
  lemma {:induction false} ResolveOpenRange(first: nat, size: nat)
    ensures Resolve(true, Some(RangeRequest(first, None)), size)
            == var last := if first + ChunkSize <= size - 1 then first + ChunkSize else size - 1;
               if first < size then Partial(first, last) else Unsatisfiable(Int(first), Int(last), size)
  {
    var a := NatToString(first);
    RequestText(first, None);
    DigitsExclude(a, '-');
    TwoTokens(a, "");
    ResolveAfterPrefix(a + "-" + "", size);
    NatToStringRoundTrip(first);
  }

  /**
   * Whatever the header, a 206 for an open-ended range never reaches past the
   * last byte of the file and never spans more than 1,000,001 bytes.
   */
  lemma OpenRangeCapped(header: string, size: nat)
    requires StartsWith(header, BytesPrefix)
    requires OpenEnded(RangeTokens(header[|BytesPrefix|..]).1)
    requires Resolve(true, Some(header), size).Partial?
    ensures var r := Resolve(true, Some(header), size);
            && r.first <= r.last < size
            && r.last - r.first + 1 <= ChunkSize + 1
            && (r.last == size - 1 || r.last == r.first + ChunkSize)
  {
  }

  /** Without a '-' the end token is undefined, which is the open-ended case. */
  lemma NoDashIsOpenEnded(first: nat, size: nat)
    ensures Resolve(true, Some(BytesPrefix + NatToString(first)), size)
            == Resolve(true, Some(RangeRequest(first, None)), size)
  {
    var a := NatToString(first);
    DigitsExclude(a, '-');
    SplitWhole(a, '-');
    ResolveAfterPrefix(a, size);
    ResolveOpenRange(first, size);
    NatToStringRoundTrip(first);
  }

  /** `Number("")` is 0, so a suffix form `bytes=-N` is read as `bytes=0-N`. */
  lemma EmptyStartIsZero(last: nat, size: nat)
    ensures Resolve(true, Some(BytesPrefix + "-" + NatToString(last)), size)
            == Resolve(true, Some(RangeRequest(0, Some(last))), size)
  {
    var b := NatToString(last);
    assert BytesPrefix + "-" + b == BytesPrefix + ("" + "-" + b);
    DigitsExclude(b, '-');
    TwoTokens("", b);
    ResolveAfterPrefix("" + "-" + b, size);
    ResolveClosedRange(0, last, size);
    NatToStringRoundTrip(last);
  }

  /** Only the first two '-'-separated pieces are read. */
  lemma ExtraPiecesIgnored(a: string, b: string, rest: string, size: nat)
    requires '-' !in a && '-' !in b
    ensures Resolve(true, Some(BytesPrefix + a + "-" + b + "-" + rest), size)
            == Resolve(true, Some(BytesPrefix + a + "-" + b), size)
  {
    assert BytesPrefix + a + "-" + b + "-" + rest == BytesPrefix + (a + "-" + (b + "-" + rest));
    assert BytesPrefix + a + "-" + b == BytesPrefix + (a + "-" + b);
    SplitAt(a, b + "-" + rest, '-');
    SplitAt(b, rest, '-');
    TwoTokens(a, b);
    ResolveAfterPrefix(a + "-" + (b + "-" + rest), size);
    ResolveAfterPrefix(a + "-" + b, size);
  }

  /**
   * A non-numeric start token is never rejected as such: it is NaN, which
   * fails the `>=` test, so the outcome depends on the end bound alone.
   */
  lemma NonNumericStart(a: string, last: nat, size: nat)
    requires '-' !in a && !IsDigits(a)
    ensures Resolve(true, Some(BytesPrefix + a + "-" + NatToString(last)), size)
            == if last >= size then Unsatisfiable(NaN, Int(last), size) else NotANumber(NaN, Int(last))
  {
    var b := NatToString(last);
    assert BytesPrefix + a + "-" + b == BytesPrefix + (a + "-" + b);
    DigitsExclude(b, '-');
    TwoTokens(a, b);
    ResolveAfterPrefix(a + "-" + b, size);
    NatToStringRoundTrip(last);
  }

  /** An inverted range inside the file is served: a 206 head with an empty body. */
  lemma InvertedRangeServed(first: nat, last: nat, file: seq<byte>)
    requires last < first < |file|
    ensures var r := Resolve(true, Some(RangeRequest(first, Some(last))), |file|);
            && r == Partial(first, last)
            && StatusOf(ReplyFor(r, |file|)) == 206
            && ReplyFor(r, |file|).contentLength == Int(last - first + 1)
            && BodyFor(r, file) == []
  {
    ResolveClosedRange(first, last, |file|);
  }

  // ---------------------------------------------------------------------------
  // The Content-Range header and the 416 text as a client reads them

  /** Reads `<first>-<last>/<size>` back into its three numbers. */
  function ParseBounds(text: string): Option<(nat, nat, nat)>
  {
    var pieces := Split(text, '/');
    if |pieces| != 2 then None
    else
      var bounds := Split(pieces[0], '-');
      if |bounds| != 2 || bounds[0] == "" || bounds[1] == "" || pieces[1] == "" then None
      else
        match (ParseNumber(bounds[0]), ParseNumber(bounds[1]), ParseNumber(pieces[1]))
        case (Int(a), Int(b), Int(c)) => Some((a, b, c))
        case _ => None
  }

  /** Reads a `bytes <first>-<last>/<size>` header. */
  function ParseContentRange(header: string): Option<(nat, nat, nat)>
  {
    if StartsWith(header, "bytes ") then ParseBounds(header[|"bytes "|..]) else None
  }

  /** Reads the numbers back from a 416 text. */
  function ParseNotSatisfiable(text: string): Option<(nat, nat, nat)>
  {
    if StartsWith(text, NotSatisfiablePrefix) then ParseBounds(text[|NotSatisfiablePrefix|..]) else None
  }

  lemma AfterPrefix(prefix: string, rest: string)
    ensures StartsWith(prefix + rest, prefix) && (prefix + rest)[|prefix|..] == rest
  {
    assert (prefix + rest)[..|prefix|] == prefix;
  }

  /** The printed bounds of numbers read back as those numbers. */
  lemma {:induction false} BoundsRoundTrip(first: nat, last: nat, size: nat)
    ensures ParseBounds(BoundsText(Int(first), Int(last), size)) == Some((first, last, size))
  {
    var a, b, c := NatToString(first), NatToString(last), NatToString(size);
    assert BoundsText(Int(first), Int(last), size) == a + "-" + b + "/" + c;
    DigitsExclude(a, '/');
    DigitsExclude(b, '/');
    DigitsExclude(a, '-');
    DigitsExclude(b, '-');
    DigitsExclude(c, '/');
    var ab := a + "-" + b;
    assert '/' !in ab;
    SplitAt(ab, c, '/');
    SplitWhole(c, '/');
    assert Split(ab + "/" + c, '/') == [ab, c];
    SplitAt(a, b, '-');
    SplitWhole(b, '-');
    assert Split(ab, '-') == [a, b];
    NatToStringRoundTrip(first);
    NatToStringRoundTrip(last);
    NatToStringRoundTrip(size);
  }

  /** A client reads the Content-Range of a 206 back as the range and the file size. */
  lemma ContentRangeRoundTrip(first: nat, last: nat, size: nat)
    ensures ParseContentRange(ContentRange(Int(first), Int(last), size)) == Some((first, last, size))
  {
    AfterPrefix("bytes ", BoundsText(Int(first), Int(last), size));
    BoundsRoundTrip(first, last, size);
  }

  /**
   * The 416 text for bounds that are numbers reads back as the refused
   * range and the file size.
   */
  lemma NotSatisfiableRoundTrip(first: nat, last: nat, size: nat)
    ensures var reply := ReplyFor(Unsatisfiable(Int(first), Int(last), size), size);
            && reply == PlainText(416, NotSatisfiableText(Int(first), Int(last), size))
            && ParseNotSatisfiable(reply.text) == Some((first, last, size))
  {
    AfterPrefix(NotSatisfiablePrefix, BoundsText(Int(first), Int(last), size));
    BoundsRoundTrip(first, last, size);
  }

  /**
   * The 206 head for a resolved range names that range and the file size, and
   * its Content-Length is the number of bytes piped when the range is not inverted.
   */
  lemma PartialReplyDescribesBody(first: nat, last: nat, file: seq<byte>)
    requires first < |file| && last < |file|
    ensures var reply := ReplyFor(Partial(first, last), |file|);
            && reply.PartialContent?
            && ParseContentRange(reply.contentRange) == Some((first, last, |file|))
            && reply.contentLength == Int(last - first + 1)
            && (first <= last ==> reply.contentLength == Int(|BodyFor(Partial(first, last), file)|))
  {
    ContentRangeRoundTrip(first, last, |file|);
  }

  /** Asking for the last byte of a 500-byte file returns that byte. */
  lemma LastByteExample()
    ensures Resolve(true, Some("bytes=499-499"), 500) == Partial(499, 499)
  {
    ResolveClosedRange(499, 499, 500);
    assert NatToString(499) == "499";
    assert RangeRequest(499, Some(499)) == "bytes=499-499";
  }

  /** A range starting at the file size is refused with 416. */
  lemma PastEndExample()
    ensures Resolve(true, Some("bytes=500-500"), 500) == Unsatisfiable(Int(500), Int(500), 500)
  {
    ResolveClosedRange(500, 500, 500);
    assert NatToString(500) == "500";
    assert RangeRequest(500, Some(500)) == "bytes=500-500";
  }

  /** An open range runs to the end of the file. */
  lemma OpenRangeExample()
    ensures Resolve(true, Some("bytes=0-"), 500) == Partial(0, 499)
  {
    ResolveOpenRange(0, 500);
    assert NatToString(0) == "0";
    assert RangeRequest(0, None) == "bytes=0-";
  }
}
