/** Chunked framing (section 3.6.1 of RFC 2616), as tornado/web.py writes it and tornado/simple_httpclient.py reads
    it. */
module ChunkedFraming {
  import opened Bytes

  const CR := Byte(13)
  const LF := Byte(10)
  const CRLF := [CR, LF]
  const LAST_CHUNK: Bytes := [Byte(48)] + CRLF + CRLF

  // ----- hexadecimal numbers -----

  function HexDigit(d: nat): bv8
    requires d < 16
  {
    if d < 10 then Byte(48 + d) else Byte(87 + d)
  }

  /** `"%x" % n` */
  function Hex(n: nat): (s: Bytes)
    ensures s != []
  {
    if n < 16 then [HexDigit(n)] else Hex(n / 16) + [HexDigit(n % 16)]
  }

  function HexValue(b: bv8): Option<nat> {
    var v := b as nat;
    if 48 <= v <= 57 then Some(v - 48)
    else if 65 <= v <= 70 then Some(v - 55)
    else if 97 <= v <= 102 then Some(v - 87)
    else None
  }

  /** `int(s, 16)` of digits; anything else is a ValueError. */
  function ParseHex(s: Bytes): Option<nat> {
    if s == [] then None
    else
      match HexValue(s[|s| - 1])
      case None => None
      case Some(d) =>
        if |s| == 1 then Some(d)
        else match ParseHex(s[..|s| - 1])
             case None => None
             case Some(n) => Some(16 * n + d)
  }

  lemma HexDigitValue(d: nat)
    requires d < 16
    ensures HexValue(HexDigit(d)) == Some(d) && !IsSpace(HexDigit(d)) && HexDigit(d) != CR
  {
    ByteValue(if d < 10 then 48 + d else 87 + d);
    ByteValue(13);
  }

  /** Reading a number gives back what was written, and no digit is white space. */
  lemma {:induction false} HexRoundTrip(n: nat)
    ensures ParseHex(Hex(n)) == Some(n) && forall b :: b in Hex(n) ==> !IsSpace(b) && b != CR
  {
    hide HexDigit, HexValue, IsSpace;
    if n < 16 {
      HexDigitValue(n);
    } else {
      HexRoundTrip(n / 16);
      HexDigitValue(n % 16);
      assert Hex(n)[..|Hex(n)| - 1] == Hex(n / 16);
    }
  }

  /** A hexadecimal digit of either case, as a character. */
  lemma HexDigits(b: bv8)
    ensures HexValue(b) ==
              match b as char
              case '0' => Some(0) case '1' => Some(1) case '2' => Some(2) case '3' => Some(3) case '4' => Some(4)
              case '5' => Some(5) case '6' => Some(6) case '7' => Some(7) case '8' => Some(8) case '9' => Some(9)
              case 'a' => Some(10) case 'b' => Some(11) case 'c' => Some(12) case 'd' => Some(13)
              case 'e' => Some(14) case 'f' => Some(15)
              case 'A' => Some(10) case 'B' => Some(11) case 'C' => Some(12) case 'D' => Some(13)
              case 'E' => Some(14) case 'F' => Some(15)
              case _ => None
  {
  }

  /** Numbers may be written in either case, and with leading zeros. */
  lemma {:induction false} ParseHexAnyCase(s: Bytes, t: Bytes)
    requires |s| == |t| && forall i :: 0 <= i < |s| ==> HexValue(s[i]) == HexValue(t[i])
    ensures ParseHex(s) == ParseHex(t)
    ensures ParseHex(s).Some? ==> ParseHex([Byte(48)] + s) == ParseHex(s)
    decreases |s|
  {
    hide HexValue;
    if s != [] {
      var last := |s| - 1;
      ParseHexAnyCase(s[..last], t[..last]);
      assert ([Byte(48)] + s)[..|s|] == [Byte(48)] + s[..last];
      ZeroDigit();
    }
  }

  lemma ZeroDigit()
    ensures ParseHex([Byte(48)]) == Some(0)
  {
    ByteValue(48);
  }

  predicate IsSpace(b: bv8) {
    var v := b as nat;
    v == 32 || 9 <= v <= 13
  }

  function StripLeft(s: Bytes): Bytes {
    if s != [] && IsSpace(s[0]) then StripLeft(s[1..]) else s
  }

  function StripRight(s: Bytes): Bytes {
    if s != [] && IsSpace(s[|s| - 1]) then StripRight(s[..|s| - 1]) else s
  }

  function Strip(s: Bytes): Bytes {
    StripRight(StripLeft(s))
  }

  lemma StripLine(s: Bytes)
    requires s != [] && forall b :: b in s ==> !IsSpace(b)
    ensures Strip(s + CRLF) == s
  {
    hide IsSpace;
    SpaceBytes();
    var t := s + CRLF;
    assert t[0] == s[0] && s[0] in s && s[|s| - 1] in s;
    assert StripLeft(t) == t;
    assert t[|t| - 1] == LF && t[..|t| - 1] == s + [CR];
    assert StripRight(t) == StripRight(s + [CR]);
    assert (s + [CR])[..|s|] == s;
    assert StripRight(s + [CR]) == StripRight(s);
  }

  lemma SpaceBytes()
    ensures IsSpace(CR) && IsSpace(LF) && CR != LF
  {
    ByteValue(13);
    ByteValue(10);
  }

  // ----- writing -----

  /** `transform_chunk`: an empty block is left out, since an empty chunk ends the body. */
  function Chunk(block: Bytes): Bytes {
    if block == [] then [] else Hex(|block|) + CRLF + block + CRLF
  }

  function Chunks(blocks: seq<Bytes>): Bytes {
    if blocks == [] then [] else Chunk(blocks[0]) + Chunks(blocks[1..])
  }

  lemma {:induction false} ChunksSnoc(blocks: seq<Bytes>, block: Bytes)
    ensures Chunks(blocks + [block]) == Chunks(blocks) + Chunk(block)
  {
    hide Chunk;
    if blocks == [] {
      assert [block][1..] == [] && blocks + [block] == [block];
    } else {
      assert (blocks + [block])[1..] == blocks[1..] + [block];
      ChunksSnoc(blocks[1..], block);
    }
  }

  // ----- reading -----

  datatype Decoded = Incomplete | Refused | Done(body: Bytes, rest: Bytes)

  /** What a reader of chunks makes of the bytes after the head: a line with a length, then that many bytes and the
      end of a line, until the length is zero. */
  function Decode(s: Bytes): Decoded
    decreases |s|
  {
    match Find(CRLF, s)
    case None => Incomplete
    case Some(at) =>
      FindFromIsFirst(CRLF, s, 0);
      match ParseHex(Strip(s[..at + 2]))
      case None => Refused
      case Some(length) =>
        if length == 0 then Done([], s[at + 2..]) else DecodeData(length, s[at + 2..])
  }

  function DecodeData(length: nat, s: Bytes): Decoded
    decreases |s|
  {
    if |s| < length + 2 then Incomplete
    else if s[length..length + 2] != CRLF then Refused
    else After(s[..length], Decode(s[length + 2..]))
  }

  /** The result when this much was decoded before. */
  function After(done: Bytes, d: Decoded): Decoded {
    if d.Done? then Done(done + d.body, d.rest) else d
  }

  lemma AfterAfter(a: Bytes, b: Bytes, d: Decoded)
    ensures After(a, After(b, d)) == After(a + b, d)
  {
    if d.Done? {
      assert a + (b + d.body) == (a + b) + d.body;
    }
  }

  lemma LineFound(line: Bytes, after: Bytes)
    requires forall b :: b in line ==> b != CR
    ensures Find(CRLF, line + CRLF + after) == Some(|line|)
    ensures (line + CRLF + after)[..|line| + 2] == line + CRLF
    ensures (line + CRLF + after)[|line| + 2..] == after
  {
    var s := line + CRLF + after;
    assert s[|line|..|line| + 2] == CRLF;
    forall j: nat | j < |line|
      ensures !OccursAt(CRLF, s, j)
    {
      OccursMeans(CRLF, s, j, 0);
      assert s[j] == line[j] && line[j] in line;
    }
    FindUnique(CRLF, s, |line|);
  }

  /** The line with a length is read back. */
  lemma LengthLine(n: nat, after: Bytes)
    ensures var s := Hex(n) + CRLF + after;
            Find(CRLF, s) == Some(|Hex(n)|) && ParseHex(Strip(s[..|Hex(n)| + 2])) == Some(n)
            && s[|Hex(n)| + 2..] == after
  {
    hide IsSpace, Strip, ParseHex, Find;
    HexRoundTrip(n);
    LineFound(Hex(n), after);
    StripLine(Hex(n));
  }

  lemma DecodeChunk(block: Bytes, after: Bytes)
    requires block != []
    ensures Decode(Chunk(block) + after) == After(block, Decode(after))
  {
    hide Strip, ParseHex, Find, Hex;
    var tail := block + CRLF + after;
    var s := Hex(|block|) + CRLF + tail;
    assert Chunk(block) + after == s;
    LengthLine(|block|, tail);
    assert tail[|block|..|block| + 2] == CRLF && tail[..|block|] == block && tail[|block| + 2..] == after;
  }

  lemma DecodeLast(after: Bytes)
    ensures Decode(LAST_CHUNK + after) == Done([], CRLF + after)
  {
    hide Strip, ParseHex, Find;
    assert Hex(0) == [Byte(48)];
    assert LAST_CHUNK + after == Hex(0) + CRLF + (CRLF + after);
    LengthLine(0, CRLF + after);
  }

  /** The reader recovers exactly what was written in blocks, whatever follows the body. */
  lemma {:induction false} DecodeChunks(blocks: seq<Bytes>, after: Bytes)
    ensures Decode(Chunks(blocks) + (LAST_CHUNK + after)) == Done(Flatten(blocks), CRLF + after)
  {
    hide Decode, Chunk;
    var last := LAST_CHUNK + after;
    if blocks == [] {
      assert Chunks(blocks) + last == last;
      DecodeLast(after);
    } else {
      var more := Chunks(blocks[1..]) + last;
      assert Chunks(blocks) + last == Chunk(blocks[0]) + more;
      DecodeChunks(blocks[1..], after);
      if blocks[0] == [] {
        EmptyChunk();
        assert [] + more == more && [] + Flatten(blocks[1..]) == Flatten(blocks[1..]);
      } else {
        DecodeChunk(blocks[0], more);
      }
    }
  }

  lemma EmptyChunk()
    ensures Chunk([]) == []
  {
  }
}
