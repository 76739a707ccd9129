/** From the writes of a request handler to the body that the HTTP client hands over (tornado/web.py,
    tornado/simple_httpclient.py). The head of the response is a value; the body is bytes. */
module ResponseBody {
  import opened Bytes
  import opened ReadSpec
  import opened ChunkedFraming

  datatype Method = Get | Head | OtherMethod
  datatype Coding = Chunked | OtherCoding

  /** What the client needs of the status line and the headers. */
  datatype Header = Header(code: nat, contentLength: Option<nat>, transferEncoding: Option<Coding>)

  // ----- the server -----

  /** Either chunks, closed by the last chunk once the response has ended, or everything at once after its length. */
  ghost predicate FramedAs(h: Header, chunking: bool, blocks: seq<Bytes>, ended: bool, body: Bytes, written: Bytes) {
    if h.transferEncoding == Some(Chunked) then
      chunking && h.contentLength.None? && body == Chunks(blocks) + if ended then LAST_CHUNK else []
    else
      !chunking && h.transferEncoding.None? && ended && h.contentLength == Some(|written|) && body == written
  }

  lemma FirstFlush(code: nat, chunk: Bytes, footers: bool, written: Bytes)
    ensures FramedAs(Header(code, None, Some(Chunked)), true, [] + [chunk], footers,
                     [] + (Chunk(chunk) + if footers then LAST_CHUNK else []), written)
    ensures FramedAs(Header(code, Some(|written|), None), false, [] + [chunk], true, [] + written, written)
  {
    hide Chunk;
    ChunksSnoc([], chunk);
  }

  lemma NextFlush(h: Header, chunking: bool, blocks: seq<Bytes>, body: Bytes, written: Bytes, chunk: Bytes,
                  footers: bool)
    requires FramedAs(h, chunking, blocks, false, body, written)
    ensures chunking && FramedAs(h, chunking, blocks + [chunk], footers,
                                 body + (Chunk(chunk) + if footers then LAST_CHUNK else []), written)
  {
    hide Chunk;
    ChunksSnoc(blocks, chunk);
  }

  class RequestHandler {
    const verb: Method
    const http11: bool
    var statusCode: nat
    var contentLength: Option<nat>
    var transferEncoding: Option<Coding>
    var writeBuffer: seq<Bytes>
    var headersWritten: bool
    var finished: bool
    /** `_chunking` of the `ChunkedTransferEncoding` transform. */
    var chunking: bool
    /** What was given to the connection: heads, and bytes after them. */
    var heads: seq<Header>
    var body: Bytes

    ghost var written: Bytes        // the concatenation of all writes
    ghost var blocks: seq<Bytes>    // what each flush sent
    ghost var ended: bool           // the last flush was that of finish
    ghost var plain: bool           // framing was left to the framework, and no body was dropped for an ETag

    ghost predicate Buffers()
      reads `headersWritten, `heads, `body, `blocks, `written, `writeBuffer, `ended
    {
      && (headersWritten <==> |heads| == 1) && (!headersWritten ==> heads == [] && body == [] && blocks == [] && !ended)
      && written == Flatten(blocks) + Flatten(writeBuffer)
      && (ended ==> writeBuffer == []) && (verb == Head ==> body == [])
    }

    /** The body sent so far is framed as its head says. */
    ghost predicate Framed()
      reads `headersWritten, `heads, `body, `blocks, `written, `ended, `plain, `chunking
    {
      plain && http11 && verb != Head && |heads| == 1 && heads[0].code != 304 ==>
        FramedAs(heads[0], chunking, blocks, ended, body, written)
    }

    ghost predicate Headers()
      reads `headersWritten, `plain, `contentLength, `transferEncoding, `chunking
    {
      !headersWritten && plain ==> contentLength.None? && transferEncoding.None? && chunking == http11
    }

    /** `finish` has set the length of a body that is sent at once. */
    ghost predicate LengthSet()
      reads `headersWritten, `plain, `contentLength, `transferEncoding, `chunking, `written
    {
      !headersWritten && (plain ==> transferEncoding.None? && chunking == http11 && contentLength == Some(|written|))
    }

    ghost predicate Valid()
      reads this
    {
      Buffers() && Framed() && Headers() && (ended <==> finished)
    }

    constructor (verb: Method, http11: bool)
      ensures Valid() && !finished && !headersWritten && plain && written == [] && body == []
      ensures this.verb == verb && this.http11 == http11
    {
      this.verb, this.http11 := verb, http11;
      statusCode, contentLength, transferEncoding := 200, None, None;
      writeBuffer, headersWritten, finished, chunking := [], false, false, http11;
      heads, body := [], [];
      written, blocks, ended, plain := [], [], false, true;
    }

    method SetStatus(code: nat)
      requires Valid()
      modifies `statusCode
      ensures Valid()
    {
      statusCode := code;
    }

    /** `set_header` of a framing header by the application. */
    method SetFraming(length: Option<nat>, coding: Option<Coding>)
      requires Valid()
      modifies `contentLength, `transferEncoding, `plain
      ensures Valid() && contentLength == length && transferEncoding == coding
    {
      contentLength, transferEncoding := length, coding;
      if !headersWritten {
        plain := false;
      }
    }

    /** `write` */
    method Write(chunk: Bytes) returns (raised: bool)
      requires Valid()
      modifies `writeBuffer, `written
      ensures Valid() && raised == old(finished)
      ensures if raised then written == old(written) && writeBuffer == old(writeBuffer)
              else written == old(written) + chunk && writeBuffer == old(writeBuffer) + [chunk]
    {
      if finished {
        return true;
      }
      FlattenSnoc(writeBuffer, chunk);
      assert Flatten(blocks) + (Flatten(writeBuffer) + chunk) == written + chunk;
      writeBuffer := writeBuffer + [chunk];
      written := written + chunk;
      return false;
    }

    /** `flush` */
    method Flush()
      requires Valid() && !finished
      modifies this
      ensures Valid() && !finished && written == old(written) && plain == old(plain)
      ensures writeBuffer == [] && headersWritten && (old(headersWritten) ==> heads == old(heads))
    {
      FlushOutput(false);
    }

    /** `flush(include_footers)`, for `flush` and for `finish`. */
    method FlushOutput(footers: bool)
      requires Buffers() && Framed() && !ended && !finished
      requires Headers() || (footers && LengthSet())
      modifies this
      ensures Buffers() && Framed() && Headers() && ended == footers && !finished
      ensures written == old(written) && plain == old(plain)
      ensures writeBuffer == [] && headersWritten && (old(headersWritten) ==> heads == old(heads))
      ensures statusCode == old(statusCode)
      ensures !old(headersWritten) ==>
                |heads| == 1 && heads[0].code == statusCode
                && (statusCode == 304 && old(writeBuffer) == [] ==> body == [])
    {
      hide Chunks, Chunk, Flatten, FramedAs;
      var chunk := Flatten(writeBuffer);
      ghost var sent := chunk;
      FlattenSnoc(blocks, chunk);
      FlattenNothing();
      assert [] + chunk == chunk && Flatten(blocks) + chunk + [] == Flatten(blocks) + chunk;
      writeBuffer := [];
      if !headersWritten {
        headersWritten := true;
        chunk := TransformFirstChunk(chunk, footers);
        heads := heads + [Header(statusCode, contentLength, transferEncoding)];
        FirstFlush(statusCode, sent, footers, written);
      } else {
        chunk := TransformChunk(chunk, footers);
        if plain && http11 && verb != Head && heads[0].code != 304 {
          NextFlush(heads[0], chunking, blocks, body, written, sent, footers);
        }
      }
      blocks, ended := blocks + [sent], footers;
      if verb == Head {
        return;
      }
      body := body + chunk;
    }

    /** `ChunkedTransferEncoding.transform_first_chunk` */
    method TransformFirstChunk(chunk: Bytes, finishing: bool) returns (r: Bytes)
      modifies `chunking, `transferEncoding
      ensures var chunks := old(chunking) && statusCode != 304 && contentLength.None? && old(transferEncoding).None?;
              && r == (if chunks then Chunk(chunk) + (if finishing then LAST_CHUNK else []) else chunk)
              && transferEncoding == (if chunks then Some(Chunked) else old(transferEncoding))
              && chunking == (old(chunking) && (statusCode == 304 || chunks))
    {
      hide Chunk;
      r := chunk;
      if chunking && statusCode != 304 {
        if contentLength.Some? || transferEncoding.Some? {
          chunking := false;
        } else {
          transferEncoding := Some(Chunked);
          r := TransformChunk(chunk, finishing);
        }
      }
    }

    /** `ChunkedTransferEncoding.transform_chunk` */
    method TransformChunk(block: Bytes, finishing: bool) returns (r: Bytes)
      ensures r == if chunking then Chunk(block) + (if finishing then LAST_CHUNK else []) else block
    {
      r := block;
      if chunking {
        if block != [] {
          r := Hex(|block|) + CRLF + block + CRLF;
        }
        if finishing {
          r := r + LAST_CHUNK;
        }
      }
    }

    /** The body that matched the client's ETag is not sent. */
    method Drop()
      requires Buffers() && Headers() && !headersWritten && !ended
      modifies `writeBuffer, `written, `plain
      ensures Buffers() && Headers() && Framed() && !plain && writeBuffer == []
    {
      writeBuffer, written, plain := [], [], false;
    }

    /** `finish`; `hasEtag` says that the application set an ETag, `matches` that the client already has this body. A
        304 must not have a body. */
    method Finish(chunk: Option<Bytes>, hasEtag: bool, matches: bool) returns (raised: bool)
      requires Valid()
      modifies this
      ensures Valid() && (old(finished) ==> raised) && (!raised ==> finished && |heads| == 1)
      ensures old(headersWritten) ==> heads == old(heads)
      ensures !raised && plain ==> written == old(written) + if chunk.Some? then chunk.value else []
      ensures !matches ==> plain == old(plain)
      ensures !raised && !old(headersWritten) && heads[0].code == 304 ==> body == []
    {
      hide Framed;
      if finished {
        return true;
      }
      assert written == written + [];
      if chunk.Some? {
        var _ := Write(chunk.value);
      }
      if !headersWritten {
        if statusCode == 200 && verb != OtherMethod && !hasEtag && matches {
          Drop();
          statusCode := 304;
        }
        if statusCode == 304 {
          if writeBuffer != [] {
            return true;
          }
          contentLength := None;
        } else if contentLength.None? {
          contentLength := Some(TotalLength(writeBuffer));
          TotalIsLength(writeBuffer);
        }
      }
      FlushOutput(true);
      finished := true;
      return false;
    }
  }

  // ----- the client -----

  datatype Expected = Nothing | ChunkLength | ChunkData(length: nat) | Body(length: nat) | UntilClose

  /** What the response is, by its head, for the bytes after the head. */
  function ClientBody(h: Header, toHead: bool, s: Bytes): Decoded {
    if toHead || h.code == 304 then Done([], s)
    else if h.code == 204 then
      if h.transferEncoding.Some? || (h.contentLength.Some? && h.contentLength.value != 0) then Refused else Done([], s)
    else if h.transferEncoding == Some(Chunked) then Decode(s)
    else if h.contentLength.Some? then
      if h.contentLength.value <= |s| then Done(s[..h.contentLength.value], s[h.contentLength.value..]) else Incomplete
    else Incomplete
  }

  /** What is still to be made of the bytes to come. */
  function Pending(e: Expected, chunks: seq<Bytes>, s: Bytes): Decoded {
    match e
    case ChunkLength => After(Flatten(chunks), Decode(s))
    case ChunkData(length) => After(Flatten(chunks), DecodeData(length, s))
    case Body(length) => if length <= |s| then Done(s[..length], s[length..]) else Incomplete
    case _ => Incomplete
  }

  /** The part of `_HTTPConnection` that reads a response. */
  class HTTPConnection {
    const toHead: bool
    var chunks: seq<Bytes>
    var expected: Expected
    var body: Option<Bytes>
    var failed: bool

    constructor (toHead: bool)
      ensures this.toHead == toHead && chunks == [] && expected.Nothing? && body.None? && !failed
    {
      this.toHead := toHead;
      chunks, expected, body, failed := [], Nothing, None, false;
    }

    /** What the connection has made of the bytes so far, followed by these. */
    ghost function Result(s: Bytes): Decoded
      reads this
    {
      if failed then Refused else if body.Some? then Done(body.value, s) else Pending(expected, chunks, s)
    }

    /** `_on_headers`, for a response other than 1xx */
    method OnHeaders(h: Header)
      requires expected.Nothing? && body.None? && !failed && chunks == [] && h.code >= 200
      modifies `expected, `body, `failed
      ensures (body.Some? || failed) <==> expected.Nothing?
      ensures forall s :: Result(s) == ClientBody(h, toHead, s)
    {
      hide Decode;
      if toHead || h.code == 304 {
        OnBody([]);
        return;
      }
      if h.code == 204 {
        if h.transferEncoding.Some? || (h.contentLength.Some? && h.contentLength.value != 0) {
          failed := true;
          return;
        }
        OnBody([]);
        return;
      }
      if h.transferEncoding == Some(Chunked) {
        expected := ChunkLength;
        forall s ensures After(Flatten(chunks), Decode(s)) == Decode(s) {
          AfterNothing(Decode(s));
        }
      } else if h.contentLength.Some? {
        expected := Body(h.contentLength.value);
      } else {
        expected := UntilClose;
      }
    }

    /** `_on_body`, without redirects */
    method OnBody(data: Bytes)
      requires !failed && body.None?
      modifies `expected, `body
      ensures expected.Nothing? && body == Some(data)
    {
      expected, body := Nothing, Some(data);
    }

    /** `_on_chunk_length` */
    method OnChunkLength(data: Bytes)
      requires expected.ChunkLength? && !failed && body.None?
      modifies `expected, `body, `failed
      ensures match ParseHex(Strip(data))
              case None => failed && expected.Nothing? && body.None?
              case Some(n) => !failed && if n == 0 then expected.Nothing? && body == Some(Flatten(chunks))
                                         else expected == ChunkData(n) && body.None?
    {
      var length := ParseHex(Strip(data));
      if length.None? {
        failed, expected := true, Nothing;
      } else if length.value == 0 {
        OnBody(Flatten(chunks));
      } else {
        expected := ChunkData(length.value);
      }
    }

    /** `_on_chunk_data` */
    method OnChunkData(data: Bytes)
      requires expected.ChunkData? && |data| == expected.length + 2 && !failed && body.None?
      modifies `expected, `chunks, `failed
      ensures if data[|data| - 2..] == CRLF then !failed && expected.ChunkLength?
              && chunks == old(chunks) + [data[..|data| - 2]]
              else failed && expected.Nothing? && chunks == old(chunks)
    {
      if data[|data| - 2..] != CRLF {
        failed, expected := true, Nothing;
        return;
      }
      chunks := chunks + [data[..|data| - 2]];
      expected := ChunkLength;
    }

    /** The stream answers the outstanding read from the bytes at hand, if it can. Whatever arrives later is dealt
        with as if it had been at hand. */
    method Step(available: Bytes) returns (left: Bytes, again: bool)
      requires !failed && body.None? && !expected.Nothing?
      modifies `expected, `chunks, `body, `failed
      ensures forall more :: Result(left + more) == old(Result(available + more))
      ensures (failed || body.Some?) <==> expected.Nothing?
      ensures |left| <= |available|
      ensures if again then |left| < |available| || expected.Nothing? else Result(left).Incomplete?
    {
      hide Pending, Next;
      PendingBlocked(expected, chunks, available);
      if expected.UntilClose? || Take(Reading(expected), available).None? {
        return available, false;
      }
      var n := Take(Reading(expected), available).value;
      var data := available[..n];
      left, again := available[n..], true;
      forall more
        ensures Pending(expected, chunks, available + more) == Next(expected, chunks, data, left + more)
      {
        TakeMore(Reading(expected), available, more);
        PendingNext(expected, chunks, available + more, n);
        assert (available + more)[..n] == data && (available + more)[n..] == left + more;
      }
      TakeSome(expected, available);
      Answer(data);
    }

    /** The callback of the outstanding read. */
    method Answer(data: Bytes)
      requires !failed && body.None? && !expected.Nothing? && !expected.UntilClose?
      requires expected.ChunkData? ==> |data| == expected.length + 2
      modifies `expected, `chunks, `body, `failed
      ensures (failed || body.Some?) <==> expected.Nothing?
      ensures forall rest :: Result(rest) == Next(old(expected), old(chunks), data, rest)
      ensures old(expected).Body? ==> expected.Nothing?
    {
      match expected
      case ChunkLength => OnChunkLength(data);
      case ChunkData(_) => OnChunkData(data);
      case Body(_) => OnBody(data);
    }

    /** Everything that has arrived is read as far as possible. What comes of it and of whatever arrives later is
        what would have come of all of it at once. */
    method Receive(available: Bytes) returns (left: Bytes)
      requires !failed && body.None? && !expected.Nothing?
      modifies `expected, `chunks, `body, `failed
      ensures forall more :: Result(left + more) == old(Result(available + more))
      ensures (failed || body.Some?) <==> expected.Nothing?
      ensures expected.Nothing? || Result(left).Incomplete?
      ensures match old(Result(available))
              case Done(b, rest) => body == Some(b) && left == rest
              case Refused => failed
              case Incomplete => !failed && body.None?
    {
      hide Pending;
      left := available;
      var again := true;
      while again && !expected.Nothing?
        invariant forall more :: Result(left + more) == old(Result(available + more))
        invariant (failed || body.Some?) <==> expected.Nothing?
        invariant again || Result(left).Incomplete?
        decreases again, |left|, !expected.Nothing?
      {
        left, again := Step(left);
      }
      assert left + [] == left && available + [] == available;
    }

    /** The body arrives in pieces, cut anywhere: the result is that of all of it at once. */
    method ReceiveAll(pieces: seq<Bytes>) returns (left: Bytes)
      requires !failed && body.None? && !expected.Nothing?
      modifies `expected, `chunks, `body, `failed
      ensures match old(Result(Flatten(pieces)))
              case Done(b, rest) => body == Some(b) && left == rest
              case Refused => failed
              case Incomplete => !failed && body.None?
    {
      hide Pending, Flatten;
      // The stream answers a read of no bytes at once.
      left := Receive([]);
      assert pieces[..0] == [] && pieces[..|pieces|] == pieces;
      FlattenNothing();
      for n := 0 to |pieces|
        invariant forall more :: Result(left + more) == old(Result(Flatten(pieces[..n]) + more))
        invariant (failed || body.Some?) <==> expected.Nothing?
        invariant expected.Nothing? || Result(left).Incomplete?
      {
        assert pieces[..n + 1] == pieces[..n] + [pieces[n]];
        FlattenSnoc(pieces[..n], pieces[n]);
        var before, piece := left, pieces[n];
        assert forall more: Bytes :: before + (piece + more) == (before + piece) + more;
        assert forall more: Bytes ::
            Flatten(pieces[..n]) + (piece + more) == (Flatten(pieces[..n]) + piece) + more;
        if expected.Nothing? {
          left := left + piece;
        } else {
          left := Receive(left + piece);
        }
      }
      assert left + [] == left && Flatten(pieces) + [] == Flatten(pieces);
    }
  }

  /** The read that is outstanding. */
  function Reading(e: Expected): Request {
    match e
    case ChunkLength => ReadUntil(CRLF)
    case ChunkData(length) => ReadBytes(length + 2)
    case Body(length) => ReadBytes(length)
    case _ => ReadBytes(0)
  }

  /** What becomes of the rest when the outstanding read is answered. */
  function Next(e: Expected, chunks: seq<Bytes>, data: Bytes, rest: Bytes): Decoded {
    match e
    case ChunkLength =>
      (match ParseHex(Strip(data))
       case None => Refused
       case Some(length) =>
         if length == 0 then Done(Flatten(chunks), rest) else Pending(ChunkData(length), chunks, rest))
    case ChunkData(_) =>
      if |data| < 2 || data[|data| - 2..] != CRLF then Refused
      else Pending(ChunkLength, chunks + [data[..|data| - 2]], rest)
    case Body(_) => Done(data, rest)
    case _ => Incomplete
  }

  lemma PendingBlocked(e: Expected, chunks: seq<Bytes>, s: Bytes)
    requires !e.Nothing?
    ensures e.UntilClose? || Take(Reading(e), s).None? ==> Pending(e, chunks, s).Incomplete?
  {
    hide Decode, DecodeData, Find, Flatten;
    match e {
      case ChunkLength => DecodeLine(s);
      case ChunkData(length) => DecodeDataCases(length, s);
      case _ =>
    }
  }

  lemma PendingNext(e: Expected, chunks: seq<Bytes>, s: Bytes, n: nat)
    requires !e.Nothing? && !e.UntilClose? && Take(Reading(e), s) == Some(n)
    ensures Pending(e, chunks, s) == Next(e, chunks, s[..n], s[n..])
  {
    hide Decode, DecodeData, Find, Flatten;
    match e {
      case ChunkLength =>
        DecodeLine(s);
        AfterCases(Flatten(chunks), s[n..]);
      case ChunkData(length) =>
        DecodeDataCases(length, s);
        FlattenSnoc(chunks, s[..n][..length]);
        AfterAfter(Flatten(chunks), s[..n][..length], Decode(s[n..]));
      case Body(_) =>
    }
  }

  /** Each answer takes something, except for an empty body. */
  lemma TakeSome(e: Expected, s: Bytes)
    requires !e.Nothing? && !e.UntilClose? && Take(Reading(e), s).Some?
    ensures var n := Take(Reading(e), s).value;
            n <= |s| && (n > 0 || e.Body?) && (e.ChunkData? ==> n == e.length + 2)
  {
    hide Find;
    if e.ChunkLength? {
      DecodeLine(s);
    }
  }

  lemma AfterNothing(d: Decoded)
    ensures After([], d) == d
  {
    if d.Done? {
      assert [] + d.body == d.body;
    }
  }

  lemma AfterCases(done: Bytes, rest: Bytes)
    ensures After(done, Done([], rest)) == Done(done, rest) && After(done, Refused) == Refused
  {
    assert done + [] == done;
  }

  /** Decoding starts with a line, which is the answer to the read that is outstanding. */
  lemma DecodeLine(s: Bytes)
    ensures match Take(ReadUntil(CRLF), s)
            case None => Decode(s) == Incomplete
            case Some(n) =>
              match ParseHex(Strip(s[..n]))
              case None => Decode(s) == Refused
              case Some(length) =>
                n > 0 && Decode(s) == if length == 0 then Done([], s[n..]) else DecodeData(length, s[n..])
  {
    hide DecodeData, ParseHex, Strip;
    FindFromIsFirst(CRLF, s, 0);
  }

  lemma DecodeDataCases(length: nat, s: Bytes)
    ensures match Take(ReadBytes(length + 2), s)
            case None => DecodeData(length, s) == Incomplete
            case Some(n) =>
              n == length + 2 && s[..n][..length] == s[..length]
              && DecodeData(length, s) ==
                 if s[..n][length..] != CRLF then Refused else After(s[..n][..length], Decode(s[n..]))
  {
    hide Decode;
    if length + 2 <= |s| {
      assert s[..length + 2][length..] == s[length..length + 2];
    }
  }

  /** Whatever the handler wrote and however it flushed, the client gets exactly that: the head goes out once, and
      what follows it is the concatenation of all writes. */
  lemma BodyArrives(h: RequestHandler, after: Bytes)
    requires h.Valid() && h.finished && h.plain && h.http11 && h.verb != Head
    requires |h.heads| == 1 && h.heads[0].code != 304 && h.heads[0].code != 204
    ensures ClientBody(h.heads[0], false, h.body + after).Done?
    ensures ClientBody(h.heads[0], false, h.body + after).body == h.written
  {
    hide Decode, Flatten, Chunks;
    if h.heads[0].transferEncoding == Some(Chunked) {
      DecodeChunks(h.blocks, after);
      assert h.body + after == Chunks(h.blocks) + (LAST_CHUNK + after);
      FlattenNothing();
      assert Flatten(h.blocks) + [] == Flatten(h.blocks);
    } else {
      assert (h.body + after)[..|h.written|] == h.written;
    }
  }

  /** The answer to HEAD has no body, whatever was written, and takes nothing of what follows it. */
  lemma HeadHasNoBody(h: RequestHandler, after: Bytes)
    requires h.Valid() && h.verb == Head && |h.heads| == 1
    ensures ClientBody(h.heads[0], true, h.body + after) == Done([], after)
  {
    assert [] + after == after;
  }

  /** A 304 is read as one without a body: nothing of what follows is taken if none was sent. */
  lemma NotModifiedHasNoBody(h: RequestHandler, after: Bytes)
    requires |h.heads| == 1 && h.heads[0].code == 304
    ensures ClientBody(h.heads[0], false, h.body + after) == Done([], h.body + after)
    ensures h.body == [] ==> ClientBody(h.heads[0], false, h.body + after) == Done([], after)
  {
    assert [] + after == after;
  }

  /** A 204 is accepted exactly if nothing was written and it was sent at once; in chunks, even none, it is refused. */
  lemma NoContent(h: RequestHandler, after: Bytes)
    requires h.Valid() && h.finished && h.plain && h.http11 && h.verb != Head
    requires |h.heads| == 1 && h.heads[0].code == 204
    ensures ClientBody(h.heads[0], false, h.body + after) ==
              if h.written == [] && h.heads[0].transferEncoding.None? then Done([], after) else Refused
  {
    hide Chunks, Decode;
    assert [] + after == after;
  }

  /** The two together, with the bytes arriving in any pieces. */
  method EndToEnd(h: RequestHandler, after: Bytes, pieces: seq<Bytes>) returns (body: Bytes)
    requires h.Valid() && h.finished && h.plain && h.http11 && h.verb != Head
    requires |h.heads| == 1 && h.heads[0].code >= 200 && h.heads[0].code != 304 && h.heads[0].code != 204
    requires Flatten(pieces) == h.body + after
    ensures body == h.written
  {
    hide Decode, ClientBody;
    BodyArrives(h, after);
    var c := new HTTPConnection(false);
    c.OnHeaders(h.heads[0]);
    assert c.Result(h.body + after) == ClientBody(h.heads[0], false, h.body + after);
    if !c.expected.Nothing? {
      var _ := c.ReceiveAll(pieces);
    }
    body := c.body.value;
  }

  function TotalLength(parts: seq<Bytes>): nat {
    if parts == [] then 0 else |parts[0]| + TotalLength(parts[1..])
  }

  lemma {:induction false} TotalIsLength(parts: seq<Bytes>)
    ensures TotalLength(parts) == |Flatten(parts)|
  {
    if parts != [] {
      TotalIsLength(parts[1..]);
    }
  }

  lemma FlattenNothing()
    ensures Flatten<bv8>([]) == []
  {
  }
}
