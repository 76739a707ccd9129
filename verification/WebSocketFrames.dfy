/** Frames on the wire and the assembly of messages from frames (`WebSocketProtocol13` in tornado/websocket.py;
    sections 5.2 to 5.5 of RFC 6455). */
module WebSocketFrames {
  import opened Bytes

  datatype Frame = Frame(fin: bool, opcode: bv8, data: Bytes)

  const MAX_LENGTH: nat := 0x1_0000_0000_0000_0000

  predicate IsControl(opcode: bv8) {
    opcode & 0x8 != 0
  }

  /** What the header can hold. */
  predicate Packable(f: Frame) {
    f.opcode < 16 && |f.data| < MAX_LENGTH
  }

  /** What a peer accepts: control frames are short. */
  predicate Sendable(f: Frame) {
    Packable(f) && (IsControl(f.opcode) ==> |f.data| < 126)
  }

  // ----- numbers and masks -----

  /** `struct.pack` with "!": the last `size` digits to the base 256. */
  function BigEndian(n: nat, size: nat): (b: Bytes)
    ensures |b| == size
  {
    if size == 0 then [] else BigEndian(n / 256, size - 1) + [Byte(n % 256)]
  }

  function Number(b: Bytes): nat {
    if b == [] then 0 else 256 * Number(b[..|b| - 1]) + b[|b| - 1] as nat
  }

  function Power256(size: nat): nat {
    if size == 0 then 1 else 256 * Power256(size - 1)
  }

  lemma {:induction false} NumberOfBigEndian(n: nat, size: nat)
    requires n < Power256(size)
    ensures Number(BigEndian(n, size)) == n
  {
    hide Byte;
    if size > 0 {
      NumberOfBigEndian(n / 256, size - 1);
      ByteValue(n % 256);
      assert BigEndian(n, size)[..size - 1] == BigEndian(n / 256, size - 1);
    }
  }

  function Masked(mask: Bytes, data: Bytes): (r: Bytes)
    requires |mask| == 4
    ensures |r| == |data|
  {
    seq(|data|, i requires 0 <= i < |data| => data[i] ^ mask[i % 4])
  }

  /** Masking twice gives the data back. */
  lemma MaskedTwice(mask: Bytes, data: Bytes)
    requires |mask| == 4
    ensures Masked(mask, Masked(mask, data)) == data
  {
    var once := Masked(mask, data);
    forall i | 0 <= i < |data|
      ensures Masked(mask, once)[i] == data[i]
    {
      assert once[i] == data[i] ^ mask[i % 4];
    }
  }

  /** `_apply_mask` */
  method ApplyMask(mask: Bytes, data: Bytes) returns (r: Bytes)
    requires |mask| == 4
    ensures r == Masked(mask, data)
  {
    var unmasked := new bv8[|data|](i requires 0 <= i < |data| => data[i]);
    for i := 0 to |data|
      invariant unmasked[..] == Masked(mask, data)[..i] + data[i..]
    {
      unmasked[i] := unmasked[i] ^ mask[i % 4];
    }
    return unmasked[..];
  }

  // ----- one frame -----

  function LengthField(n: nat): Bytes
    requires n < MAX_LENGTH
  {
    if n < 126 then [] else if n <= 0xFFFF then BigEndian(n, 2) else BigEndian(n, 8)
  }

  function ShortLength(n: nat): (l: bv8)
    ensures l < 128
  {
    if n < 126 then Byte(n) else if n <= 0xFFFF then 126 else 127
  }

  function FirstByte(f: Frame): bv8 {
    if f.fin then 0x80 | f.opcode else f.opcode
  }

  function SecondByte(n: nat, masked: bool): bv8 {
    if masked then 0x80 | ShortLength(n) else ShortLength(n)
  }

  function Payload(f: Frame, mask: Option<Bytes>): Bytes
    requires mask.Some? ==> |mask.value| == 4
  {
    if mask.Some? then mask.value + Masked(mask.value, f.data) else f.data
  }

  /** What `_write_frame` writes, with the mask that it drew, if any. */
  function WriteFrame(f: Frame, mask: Option<Bytes>): Bytes
    requires Packable(f) && (mask.Some? ==> |mask.value| == 4)
  {
    [FirstByte(f)] + [SecondByte(|f.data|, mask.Some?)] + LengthField(|f.data|) + Payload(f, mask)
  }

  datatype Reading = Short | Refused | Complete(frame: Frame, rest: Bytes)

  /** The first two bytes of a frame that is not refused outright. */
  predicate Acceptable(header: bv8, length: bv8) {
    header & 0x70 == 0 && !(IsControl(header & 0xf) && length & 0x7f >= 126)
  }

  function LengthSize(length: bv8): nat {
    if length & 0x7f < 126 then 0 else if length & 0x7f == 126 then 2 else 8
  }

  function KeySize(length: bv8): nat {
    if length & 0x80 != 0 then 4 else 0
  }

  /** The payload length, from everything before the key. */
  function Length(s: Bytes): nat
    requires |s| >= 2 && |s| >= 2 + LengthSize(s[1])
  {
    if LengthSize(s[1]) == 0 then (s[1] & 0x7f) as nat else Number(s[2..2 + LengthSize(s[1])])
  }

  /** The frame at the front of a byte string. */
  function ReadFrame(s: Bytes): Reading {
    if |s| < 2 then Short
    else if !Acceptable(s[0], s[1]) then Refused
    else
      var lengthEnd := 2 + LengthSize(s[1]);
      var keyEnd := lengthEnd + KeySize(s[1]);
      if |s| < keyEnd || |s| < keyEnd + Length(s) then Short
      else
        var payload := s[keyEnd..keyEnd + Length(s)];
        var data := if KeySize(s[1]) == 4 then Masked(s[lengthEnd..keyEnd], payload) else payload;
        Complete(Frame(s[0] & 0x80 != 0, s[0] & 0xf, data), s[keyEnd + Length(s)..])
  }

  lemma HeaderBits(opcode: bv8, length: bv8)
    requires opcode < 16 && length < 128
    ensures (0x80 | opcode) & 0xf == opcode && (0x80 | opcode) & 0x70 == 0 && (0x80 | opcode) & 0x80 != 0
    ensures opcode & 0xf == opcode && opcode & 0x70 == 0 && opcode & 0x80 == 0
    ensures (0x80 | length) & 0x7f == length && (0x80 | length) & 0x80 != 0
    ensures length & 0x7f == length && length & 0x80 == 0
  {
  }

  lemma LengthRoundTrip(n: nat)
    requires n < MAX_LENGTH
    ensures var l := ShortLength(n);
            (l < 126 <==> n < 126) && (l == 126 <==> 126 <= n <= 0xFFFF)
            && (n < 126 ==> l as nat == n && LengthField(n) == [])
            && (n >= 126 ==> Number(LengthField(n)) == n && |LengthField(n)| == if l == 126 then 2 else 8)
  {
    hide Number, BigEndian, Byte;
    Powers();
    if n < 126 {
      ByteValue(n);
    } else if n <= 0xFFFF {
      NumberOfBigEndian(n, 2);
    } else {
      NumberOfBigEndian(n, 8);
    }
  }

  lemma Powers()
    ensures Power256(2) == 0x1_0000 && Power256(8) == MAX_LENGTH
  {
    assert Power256(4) == 0x1_0000_0000;
  }

  /** How the first two bytes that are written are read. */
  lemma HeaderReads(f: Frame, masked: bool)
    requires Sendable(f)
    ensures var b0, b1 := FirstByte(f), SecondByte(|f.data|, masked);
            && Acceptable(b0, b1) && b0 & 0xf == f.opcode && (b0 & 0x80 != 0 <==> f.fin)
            && LengthSize(b1) == |LengthField(|f.data|)| && KeySize(b1) == (if masked then 4 else 0)
            && (LengthSize(b1) == 0 ==> (b1 & 0x7f) as nat == |f.data|)
            && (LengthSize(b1) != 0 ==> Number(LengthField(|f.data|)) == |f.data|)
  {
    hide Number, LengthField, ShortLength;
    HeaderBits(f.opcode, ShortLength(|f.data|));
    LengthRoundTrip(|f.data|);
  }

  /** Reading what was written gives the frame back, for every length and whether masked or not. */
  lemma FrameRoundTrip(f: Frame, mask: Option<Bytes>, rest: Bytes)
    requires Sendable(f) && (mask.Some? ==> |mask.value| == 4)
    ensures ReadFrame(WriteFrame(f, mask) + rest) == Complete(f, rest)
  {
    hide Masked, Number, LengthField, ShortLength, Acceptable, LengthSize, KeySize, IsControl, WriteFrame, ReadFrame;
    hide FirstByte, SecondByte;
    var s := WriteFrame(f, mask) + rest;
    HeaderReads(f, mask.Some?);
    Laid(f, mask, rest);
    assert Length(s) == |f.data|;
    ReadWhole(s);
    if mask.Some? {
      MaskedTwice(mask.value, f.data);
    }
  }

  /** Where the parts of a written frame are. */
  lemma Laid(f: Frame, mask: Option<Bytes>, rest: Bytes)
    requires Sendable(f) && (mask.Some? ==> |mask.value| == 4)
    ensures var s, n := WriteFrame(f, mask) + rest, |f.data|;
            var lengthEnd := 2 + |LengthField(n)|;
            var keyEnd := lengthEnd + if mask.Some? then 4 else 0;
            && |s| == keyEnd + n + |rest|
            && s[0] == FirstByte(f) && s[1] == SecondByte(n, mask.Some?)
            && s[2..lengthEnd] == LengthField(n) && (mask.Some? ==> s[lengthEnd..keyEnd] == mask.value)
            && s[keyEnd..keyEnd + n] == (if mask.Some? then Masked(mask.value, f.data) else f.data)
            && s[keyEnd + n..] == rest
  {
    hide LengthField, IsControl, Payload, FirstByte, SecondByte, Masked;
    WireLayout(FirstByte(f), SecondByte(|f.data|, mask.Some?), LengthField(|f.data|), Payload(f, mask), rest);
    PayloadLaid(f, mask, rest);
    var p := Payload(f, mask) + rest;
    var s := WriteFrame(f, mask) + rest;
    var lengthEnd := 2 + |LengthField(|f.data|)|;
    var k := if mask.Some? then 4 else 0;
    SliceOfTail(s, lengthEnd, p, 0, k);
    SliceOfTail(s, lengthEnd, p, k, k + |f.data|);
  }

  lemma PayloadLaid(f: Frame, mask: Option<Bytes>, rest: Bytes)
    requires mask.Some? ==> |mask.value| == 4
    ensures var p, k, n := Payload(f, mask) + rest, if mask.Some? then 4 else 0, |f.data|;
            && |p| == k + n + |rest| && (mask.Some? ==> p[..k] == mask.value)
            && p[k..k + n] == (if mask.Some? then Masked(mask.value, f.data) else f.data) && p[k + n..] == rest
  {
    hide Masked;
  }

  lemma ReadWhole(s: Bytes)
    requires |s| >= 2 && Acceptable(s[0], s[1]) && |s| >= 2 + LengthSize(s[1]) + KeySize(s[1])
    requires |s| >= 2 + LengthSize(s[1]) + KeySize(s[1]) + Length(s)
    ensures var lengthEnd := 2 + LengthSize(s[1]);
            var keyEnd := lengthEnd + KeySize(s[1]);
            var payload := s[keyEnd..keyEnd + Length(s)];
            ReadFrame(s) == Complete(
              Frame(s[0] & 0x80 != 0, s[0] & 0xf,
                    if KeySize(s[1]) == 4 then Masked(s[lengthEnd..keyEnd], payload) else payload),
              s[keyEnd + Length(s)..])
  {
  }

  lemma WireLayout(b0: bv8, b1: bv8, length: Bytes, payload: Bytes, rest: Bytes)
    ensures var s := [b0] + [b1] + length + payload + rest;
            s[0] == b0 && s[1] == b1 && s[2..2 + |length|] == length && s[2 + |length|..] == payload + rest
  {
  }

  /** A frame is read off the front whatever follows it. */
  lemma ReadFramePrefix(s: Bytes, more: Bytes)
    requires ReadFrame(s).Complete?
    ensures ReadFrame(s + more) == Complete(ReadFrame(s).frame, ReadFrame(s).rest + more)
  {
    hide Number, Masked, Acceptable, LengthSize, KeySize;
    var lengthEnd := 2 + LengthSize(s[1]);
    var keyEnd := lengthEnd + KeySize(s[1]);
    SlicePrefix(s, more, 2, lengthEnd);
    SlicePrefix(s, more, lengthEnd, keyEnd);
    SlicePrefix(s, more, keyEnd, keyEnd + Length(s));
    assert (s + more)[0] == s[0] && (s + more)[1] == s[1];
    assert Length(s + more) == Length(s);
  }

  lemma SlicePrefix(s: Bytes, more: Bytes, i: nat, j: nat)
    requires i <= j <= |s|
    ensures (s + more)[i..j] == s[i..j] && (s + more)[j..] == s[j..] + more
  {
  }

  datatype Wire = Wire(frame: Frame, mask: Option<Bytes>)

  ghost predicate AllPackable(sent: seq<Wire>) {
    forall w :: w in sent ==> Packable(w.frame) && (w.mask.Some? ==> |w.mask.value| == 4)
  }

  ghost predicate AllSendable(sent: seq<Wire>) {
    AllPackable(sent) && forall w :: w in sent ==> Sendable(w.frame)
  }

  ghost function Written(sent: seq<Wire>): Bytes
    requires AllPackable(sent)
  {
    if sent == [] then [] else WriteFrame(sent[0].frame, sent[0].mask) + Written(sent[1..])
  }

  lemma {:induction false} WrittenSnoc(sent: seq<Wire>, w: Wire)
    requires AllPackable(sent) && Packable(w.frame) && (w.mask.Some? ==> |w.mask.value| == 4)
    ensures AllPackable(sent + [w]) && Written(sent + [w]) == Written(sent) + WriteFrame(w.frame, w.mask)
  {
    hide WriteFrame;
    if sent == [] {
      assert [w][1..] == [] && sent + [w] == [w];
    } else {
      assert (sent + [w])[1..] == sent[1..] + [w];
      WrittenSnoc(sent[1..], w);
    }
  }

  /** How many of the frames close the connection. */
  function Closes(sent: seq<Wire>): nat {
    if sent == [] then 0 else (if sent[0].frame.opcode == 0x8 then 1 else 0) + Closes(sent[1..])
  }

  lemma {:induction false} ClosesSnoc(sent: seq<Wire>, w: Wire)
    ensures Closes(sent + [w]) == Closes(sent) + if w.frame.opcode == 0x8 then 1 else 0
  {
    if sent == [] {
      assert [w][1..] == [] && sent + [w] == [w];
    } else {
      assert (sent + [w])[1..] == sent[1..] + [w];
      ClosesSnoc(sent[1..], w);
    }
  }

  function FramesOf(sent: seq<Wire>): seq<Frame> {
    if sent == [] then [] else [sent[0].frame] + FramesOf(sent[1..])
  }

  /** Each of the byte strings is exactly one frame. */
  ghost predicate Cut(raw: seq<Bytes>, frames: seq<Frame>) {
    |raw| == |frames| && forall i :: 0 <= i < |raw| ==> ReadFrame(raw[i]) == Complete(frames[i], [])
  }

  /** There is one way to cut what was written into frames: the frames that were written. */
  lemma CutIsUnique(raw: seq<Bytes>, frames: seq<Frame>, sent: seq<Wire>)
    requires AllSendable(sent) && Cut(raw, frames) && Flatten(raw) == Written(sent)
    ensures frames == FramesOf(sent)
  {
    hide ReadFrame, WriteFrame, Written, Flatten;
    ShortIsShort([]);
    assert Flatten(raw) + [] == Flatten(raw);
    CutLeavesNothing(raw, frames, [], sent);
  }

  /** The frames that the beginning of what was written can be cut into are the first that were written, and the
      rest is what was written of the others. */
  lemma {:induction false} CutIsPrefix(raw: seq<Bytes>, frames: seq<Frame>, rest: Bytes, sent: seq<Wire>)
    requires AllSendable(sent) && Cut(raw, frames) && Flatten(raw) + rest == Written(sent)
    ensures |raw| <= |sent| && frames <= FramesOf(sent) && |FramesOf(sent)| == |sent|
    ensures AllSendable(sent[|raw|..]) && rest == Written(sent[|raw|..])
    decreases |sent|
  {
    hide ReadFrame, WriteFrame;
    FramesAreLong(raw, frames);
    FramesOfEach(sent);
    assert sent == [] ==> |Flatten(raw) + rest| == 0;
    if raw == [] {
      assert Flatten(raw) + rest == rest && sent[0..] == sent;
    } else if sent == [] {
      assert false;
    } else {
      var w := sent[0];
      assert w in sent && forall v :: v in sent[1..] ==> v in sent;
      FrameRoundTrip(w.frame, w.mask, Written(sent[1..]));
      var tail := Flatten(raw[1..]) + rest;
      assert Flatten(raw) + rest == raw[0] + tail;
      ReadFramePrefix(raw[0], tail);
      assert [] + tail == tail;
      assert ReadFrame(raw[0]) == Complete(frames[0], []);
      assert Cut(raw[1..], frames[1..]) by {
        forall i | 0 <= i < |raw[1..]| ensures ReadFrame(raw[1..][i]) == Complete(frames[1..][i], []) {
          assert raw[1..][i] == raw[i + 1] && frames[1..][i] == frames[i + 1];
        }
      }
      CutIsPrefix(raw[1..], frames[1..], rest, sent[1..]);
      assert frames == [frames[0]] + frames[1..];
      assert sent[1..][|raw[1..]|..] == sent[|raw|..];
    }
  }

  lemma {:induction false} FramesOfEach(sent: seq<Wire>)
    ensures |FramesOf(sent)| == |sent|
  {
    if sent != [] {
      FramesOfEach(sent[1..]);
    }
  }

  /** Nothing is left over but the beginning of a frame, and so nothing at all. */
  lemma CutLeavesNothing(raw: seq<Bytes>, frames: seq<Frame>, rest: Bytes, sent: seq<Wire>)
    requires AllSendable(sent) && Cut(raw, frames) && Flatten(raw) + rest == Written(sent)
    requires ReadFrame(rest) == Short
    ensures frames == FramesOf(sent) && rest == []
  {
    hide ReadFrame, WriteFrame;
    CutIsPrefix(raw, frames, rest, sent);
    var others := sent[|raw|..];
    if others != [] {
      FrameRoundTrip(others[0].frame, others[0].mask, Written(others[1..]));
      assert false;
    }
  }

  /** What was written starts with a header that is accepted. */
  lemma HeaderAcceptable(sent: seq<Wire>)
    requires AllSendable(sent) && |Written(sent)| >= 2
    ensures Acceptable(Written(sent)[0], Written(sent)[1])
  {
    hide WriteFrame, Acceptable, LengthSize, KeySize, Length, Masked;
    FrameRoundTrip(sent[0].frame, sent[0].mask, Written(sent[1..]));
  }

  lemma FramesAreLong(raw: seq<Bytes>, frames: seq<Frame>)
    requires Cut(raw, frames)
    ensures raw != [] ==> |Flatten(raw)| >= 2
  {
    hide ReadFrame;
    if raw != [] {
      assert ReadFrame(raw[0]) == Complete(frames[0], []);
      if |raw[0]| < 2 {
        ShortIsShort(raw[0]);
      }
    }
  }

  lemma ShortIsShort(s: Bytes)
    requires |s| < 2
    ensures ReadFrame(s) == Short
  {
  }

  // ----- messages -----

  datatype Message = Message(opcode: bv8, data: Bytes)

  /** What the frames so far amount to: a message under way, the messages and pongs handed over, and whether the
      peer is done, by a close frame or by breaking the rules. */
  datatype Assembly = Assembly(started: Option<Message>, messages: seq<Message>, pongs: seq<Bytes>, over: bool)

  const NO_FRAMES := Assembly(None, [], [], false)

  function Complete1(valid: Bytes -> bool, a: Assembly, opcode: bv8, data: Bytes): Assembly {
    if opcode == 0x1 then
      if valid(data) then a.(messages := a.messages + [Message(opcode, data)]) else a.(over := true)
    else if opcode == 0x2 then a.(messages := a.messages + [Message(opcode, data)])
    else if opcode == 0x9 then a
    else if opcode == 0xA then a.(pongs := a.pongs + [data])
    else a.(over := true)
  }

  function Add(valid: Bytes -> bool, a: Assembly, f: Frame): Assembly {
    if a.over then a
    else if IsControl(f.opcode) then
      if f.fin then Complete1(valid, a, f.opcode, f.data) else a.(over := true)
    else if f.opcode == 0 then
      if a.started.None? then a.(over := true)
      else
        var m := a.started.value.(data := a.started.value.data + f.data);
        if f.fin then Complete1(valid, a.(started := None), m.opcode, m.data) else a.(started := Some(m))
    else if a.started.Some? then a.(over := true)
    else if f.fin then Complete1(valid, a, f.opcode, f.data)
    else a.(started := Some(Message(f.opcode, f.data)))
  }

  function AddAll(valid: Bytes -> bool, a: Assembly, frames: seq<Frame>): Assembly
    decreases frames
  {
    if frames == [] then a else AddAll(valid, Add(valid, a, frames[0]), frames[1..])
  }

  lemma {:induction false} AddAllConcat(valid: Bytes -> bool, a: Assembly, x: seq<Frame>, y: seq<Frame>)
    ensures AddAll(valid, a, x + y) == AddAll(valid, AddAll(valid, a, x), y)
    decreases |x|
  {
    hide Add;
    if x == [] {
      assert x + y == y;
    } else {
      assert (x + y)[1..] == x[1..] + y;
      AddAllConcat(valid, Add(valid, a, x[0]), x[1..], y);
    }
  }

  lemma AddAllSnoc(valid: Bytes -> bool, a: Assembly, x: seq<Frame>, f: Frame)
    ensures AddAll(valid, a, x + [f]) == Add(valid, AddAll(valid, a, x), f)
  {
    hide Add;
    AddAllConcat(valid, a, x, [f]);
    assert [f][1..] == [];
  }

  /** Once a peer is done, it stays so. */
  lemma OverStays(valid: Bytes -> bool, first: seq<Frame>, all: seq<Frame>)
    requires first <= all && !AddAll(valid, NO_FRAMES, all).over
    ensures !AddAll(valid, NO_FRAMES, first).over
  {
    hide Add;
    assert all == first + all[|first|..];
    AddAllConcat(valid, NO_FRAMES, first, all[|first|..]);
    AddAllOver(valid, AddAll(valid, NO_FRAMES, first), all[|first|..]);
  }

  lemma {:induction false} AddAllOver(valid: Bytes -> bool, a: Assembly, frames: seq<Frame>)
    ensures a.over ==> AddAll(valid, a, frames) == a
    decreases frames
  {
    if frames != [] && a.over {
      AddAllOver(valid, a, frames[1..]);
    }
  }

  /** Continuation frames; the last one is final. */
  function Continuations(parts: seq<Bytes>): seq<Frame> {
    if parts == [] then [] else [Frame(|parts| == 1, 0, parts[0])] + Continuations(parts[1..])
  }

  /** A message sent in these parts. */
  function Fragments(opcode: bv8, parts: seq<Bytes>): seq<Frame>
    requires parts != []
  {
    [Frame(|parts| == 1, opcode, parts[0])] + Continuations(parts[1..])
  }

  function DataFrames(frames: seq<Frame>): seq<Frame> {
    if frames == [] then []
    else if IsControl(frames[0].opcode) then DataFrames(frames[1..])
    else [frames[0]] + DataFrames(frames[1..])
  }

  /** The control frames among these are final pings and pongs. */
  ghost predicate OnlyPings(frames: seq<Frame>) {
    forall f :: f in frames && IsControl(f.opcode) ==> f.fin && (f.opcode == 0x9 || f.opcode == 0xA)
  }

  function PongsOf(frames: seq<Frame>): seq<Bytes> {
    if frames == [] then []
    else (if frames[0].opcode == 0xA then [frames[0].data] else []) + PongsOf(frames[1..])
  }

  lemma {:induction false} Continued(valid: Bytes -> bool, a: Assembly, frames: seq<Frame>, parts: seq<Bytes>)
    requires !a.over && OnlyPings(frames) && DataFrames(frames) == Continuations(parts)
    requires a.started.Some? <==> parts != []
    requires a.started.Some? ==> var m := a.started.value;
               m.opcode == 0x2 || (m.opcode == 0x1 && valid(m.data + Flatten(parts)))
    ensures AddAll(valid, a, frames) == Assembly(
              None,
              if a.started.None? then a.messages
              else a.messages + [a.started.value.(data := a.started.value.data + Flatten(parts))],
              a.pongs + PongsOf(frames), false)
    decreases |frames|
  {
    hide Complete1, Add, IsControl;
    if frames == [] {
      assert a.pongs + [] == a.pongs;
    } else {
      var f := frames[0];
      assert f in frames && forall g :: g in frames[1..] ==> g in frames;
      var a1 := Add(valid, a, f);
      if IsControl(f.opcode) {
        AddPing(valid, a, f);
        Continued(valid, a1, frames[1..], parts);
      } else {
        DataIsNoPong(f);
        FirstContinuation(f, DataFrames(frames[1..]), parts);
        FlattenFirst(a.started.value.data, parts);
        AddContinuation(valid, a, f, a.started.value.(data := a.started.value.data + f.data));
        Continued(valid, a1, frames[1..], parts[1..]);
      }
      PongsRegroup(a.pongs, frames);
    }
  }

  lemma PongsRegroup(before: seq<Bytes>, frames: seq<Frame>)
    requires frames != []
    ensures before + PongsOf(frames)
            == (before + if frames[0].opcode == 0xA then [frames[0].data] else []) + PongsOf(frames[1..])
    ensures frames[0].opcode != 0xA ==> before + PongsOf(frames) == before + PongsOf(frames[1..])
  {
    var first := if frames[0].opcode == 0xA then [frames[0].data] else [];
    var rest := PongsOf(frames[1..]);
    assert PongsOf(frames) == first + rest;
    assert (before + first) + rest == before + (first + rest);
    assert first == [] ==> first + rest == rest;
  }

  lemma DataIsNoPong(f: Frame)
    requires !IsControl(f.opcode)
    ensures f.opcode != 0xA && f.opcode != 0x9
  {
  }

  lemma FirstContinuation(f: Frame, more: seq<Frame>, parts: seq<Bytes>)
    requires [f] + more == Continuations(parts)
    ensures parts != [] && f == Frame(|parts| == 1, 0, parts[0]) && more == Continuations(parts[1..])
  {
    assert ([f] + more)[0] == f && ([f] + more)[1..] == more;
  }

  lemma FlattenFirst(done: Bytes, parts: seq<Bytes>)
    requires parts != []
    ensures (done + parts[0]) + Flatten(parts[1..]) == done + Flatten(parts)
    ensures |parts| == 1 ==> done + parts[0] == done + Flatten(parts)
  {
    hide Flatten;
    FlattenCons(parts);
    var rest := Flatten(parts[1..]);
    assert (done + parts[0]) + rest == done + (parts[0] + rest);
    if |parts| == 1 {
      assert parts[0] + rest == parts[0];
    }
  }

  lemma FlattenCons(parts: seq<Bytes>)
    requires parts != []
    ensures Flatten(parts) == parts[0] + Flatten(parts[1..])
    ensures |parts| == 1 ==> Flatten(parts[1..]) == []
  {
  }

  lemma AddContinuation(valid: Bytes -> bool, a: Assembly, f: Frame, m: Message)
    requires !a.over && f.opcode == 0 && a.started.Some?
    requires m == a.started.value.(data := a.started.value.data + f.data)
    requires f.fin ==> m.opcode == 0x2 || (m.opcode == 0x1 && valid(m.data))
    ensures Add(valid, a, f)
            == if f.fin then a.(started := None, messages := a.messages + [m]) else a.(started := Some(m))
  {
  }

  lemma AddPing(valid: Bytes -> bool, a: Assembly, f: Frame)
    requires !a.over && f.fin && (f.opcode == 0x9 || f.opcode == 0xA)
    ensures Add(valid, a, f) == a.(pongs := a.pongs + if f.opcode == 0xA then [f.data] else [])
  {
    assert a.pongs + [] == a.pongs;
  }

  /** However a message is cut into frames, and whatever pings and pongs come between them, exactly its payload is
      handed over, under the opcode of its first frame. */
  lemma {:induction false} Reassembly(valid: Bytes -> bool, a: Assembly, opcode: bv8, parts: seq<Bytes>,
                                      frames: seq<Frame>)
    requires !a.over && a.started.None? && parts != []
    requires opcode == 0x2 || (opcode == 0x1 && valid(Flatten(parts)))
    requires OnlyPings(frames) && DataFrames(frames) == Fragments(opcode, parts)
    ensures AddAll(valid, a, frames)
            == Assembly(None, a.messages + [Message(opcode, Flatten(parts))], a.pongs + PongsOf(frames), false)
    decreases |frames|
  {
    hide Complete1, Add, IsControl;
    var f := frames[0];
    assert f in frames && forall g :: g in frames[1..] ==> g in frames;
    var a1 := Add(valid, a, f);
    if IsControl(f.opcode) {
      AddPing(valid, a, f);
      Reassembly(valid, a1, opcode, parts, frames[1..]);
    } else {
      DataIsNoPong(f);
      assert ([f] + DataFrames(frames[1..]))[1..] == DataFrames(frames[1..]);
      assert Fragments(opcode, parts)[1..] == Continuations(parts[1..]);
      assert f == Frame(|parts| == 1, opcode, parts[0]);
      if |parts| == 1 {
        assert parts[0] + Flatten(parts[1..]) == parts[0];
      }
      AddFirst(valid, a, f);
      Continued(valid, a1, frames[1..], parts[1..]);
    }
    PongsRegroup(a.pongs, frames);
  }

  lemma AddFirst(valid: Bytes -> bool, a: Assembly, f: Frame)
    requires !a.over && a.started.None? && (f.opcode == 0x2 || f.opcode == 0x1)
    requires f.fin && f.opcode == 0x1 ==> valid(f.data)
    ensures Add(valid, a, f) ==
            if f.fin then a.(messages := a.messages + [Message(f.opcode, f.data)])
            else a.(started := Some(Message(f.opcode, f.data)))
  {
  }
}
