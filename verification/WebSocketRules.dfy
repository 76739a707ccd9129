/** What a peer's frames amount to, said by the frames: which frame ends the connection, and which messages are
    complete before it. And frames byte by byte, as the examples of section 5.7 of RFC 6455 have them. */
module WebSocketRules {
  import opened Bytes
  import opened WebSocketFrames

  /** The frames of a message that is under way: those after the last final one. */
  function UnderWay(data: seq<Frame>): seq<Frame> {
    if data == [] || data[|data| - 1].fin then []
    else UnderWay(data[..|data| - 1]) + [data[|data| - 1]]
  }

  function DataOf(frames: seq<Frame>): (r: seq<Bytes>)
    ensures |r| == |frames| && forall i :: 0 <= i < |r| ==> r[i] == frames[i].data
  {
    seq(|frames|, i requires 0 <= i < |frames| => frames[i].data)
  }

  function MessageOf(frames: seq<Frame>): Message
    requires frames != []
  {
    Message(frames[0].opcode, Flatten(DataOf(frames)))
  }

  /** One message for each final frame: all frames since the final one before, together. */
  function MessagesOf(data: seq<Frame>): seq<Message> {
    if data == [] then []
    else
      var front, last := data[..|data| - 1], data[|data| - 1];
      MessagesOf(front) + if last.fin then [MessageOf(UnderWay(front) + [last])] else []
  }

  /** A frame that ends the connection, after the frames before it. */
  predicate Ends(valid: Bytes -> bool, before: seq<Frame>, f: Frame) {
    var open := UnderWay(DataFrames(before));
    || (f.opcode == 0x8 && f.fin)                            // a close frame
    || (f.opcode >= 0x8 && !f.fin)                           // a control frame in fragments
    || f.opcode > 0xA                                        // a reserved control frame
    || (f.opcode == 0 && open == [])                         // nothing to continue
    || (1 <= f.opcode < 0x8 && open != [])                   // a new message inside another
    || (f.opcode < 0x8 && f.fin && !Good(valid, MessageOf(open + [f])))
  }

  /** A message of a kind that exists; text is UTF-8. */
  predicate Good(valid: Bytes -> bool, m: Message) {
    m.opcode == 0x2 || (m.opcode == 0x1 && valid(m.data))
  }

  ghost predicate Opcodes(frames: seq<Frame>) {
    forall f :: f in frames ==> f.opcode < 16
  }

  /** The first frame that ends the connection is number n; all frames, if there is none. */
  ghost predicate FirstEnd(valid: Bytes -> bool, frames: seq<Frame>, n: nat) {
    && n <= |frames|
    && (forall i :: 0 <= i < n ==> !Ends(valid, frames[..i], frames[i]))
    && (n < |frames| ==> Ends(valid, frames[..n], frames[n]))
  }

  lemma ControlOpcodes(opcode: bv8)
    requires opcode < 16
    ensures IsControl(opcode) <==> opcode >= 0x8
  {
  }

  lemma {:induction false} DataSnoc(frames: seq<Frame>, f: Frame)
    ensures DataFrames(frames + [f]) == DataFrames(frames) + if IsControl(f.opcode) then [] else [f]
  {
    hide IsControl;
    if frames == [] {
      assert [f][1..] == [] && frames + [f] == [f];
    } else {
      assert (frames + [f])[1..] == frames[1..] + [f];
      DataSnoc(frames[1..], f);
    }
  }

  lemma {:induction false} PongsSnoc(frames: seq<Frame>, f: Frame)
    ensures PongsOf(frames + [f]) == PongsOf(frames) + if f.opcode == 0xA then [f.data] else []
  {
    var last := if f.opcode == 0xA then [f.data] else [];
    if frames == [] {
      assert [f][1..] == [] && frames + [f] == [f] && PongsOf([]) == [];
    } else {
      assert (frames + [f])[1..] == frames[1..] + [f];
      PongsSnoc(frames[1..], f);
      var first := if frames[0].opcode == 0xA then [frames[0].data] else [];
      assert PongsOf(frames + [f]) == first + PongsOf(frames[1..] + [f]);
      assert first + (PongsOf(frames[1..]) + last) == (first + PongsOf(frames[1..])) + last;
    }
  }

  /** Up to the first frame that ends the connection: the message under way, the messages, the pongs. */
  lemma {:induction false} NotYet(valid: Bytes -> bool, frames: seq<Frame>)
    requires Opcodes(frames) && FirstEnd(valid, frames, |frames|)
    ensures var open := UnderWay(DataFrames(frames));
            AddAll(valid, NO_FRAMES, frames) ==
              Assembly(if open == [] then None else Some(MessageOf(open)), MessagesOf(DataFrames(frames)),
                       PongsOf(frames), false)
    decreases |frames|
  {
    hide Add, DataFrames, UnderWay, MessagesOf, PongsOf, MessageOf, Ends;
    if frames == [] {
      Nothing();
    } else {
      var last := |frames| - 1;
      var front, f := frames[..last], frames[last];
      assert frames == front + [f];
      assert f in frames && forall i :: 0 <= i < last ==> front[..i] == frames[..i];
      NotYet(valid, front);
      AddAllSnoc(valid, NO_FRAMES, front, f);
      DataSnoc(front, f);
      PongsSnoc(front, f);
      OneMore(valid, front, f, AddAll(valid, NO_FRAMES, front));
    }
  }

  lemma Nothing()
    ensures UnderWay(DataFrames([])) == [] && MessagesOf(DataFrames([])) == [] && PongsOf([]) == []
  {
  }

  ghost predicate Stands(a: Assembly, frames: seq<Frame>) {
    var open := UnderWay(DataFrames(frames));
    && a.started == (if open == [] then None else Some(MessageOf(open)))
    && a.messages == MessagesOf(DataFrames(frames)) && a.pongs == PongsOf(frames) && !a.over
  }

  /** One more data frame at the end. */
  lemma DataFrameSnoc(data: seq<Frame>, f: Frame)
    ensures UnderWay(data + [f]) == if f.fin then [] else UnderWay(data) + [f]
    ensures MessagesOf(data + [f]) == MessagesOf(data) + if f.fin then [MessageOf(UnderWay(data) + [f])] else []
  {
    hide MessageOf;
    assert (data + [f])[..|data|] == data;
  }

  lemma MessageSnoc(open: seq<Frame>, f: Frame)
    ensures MessageOf(open + [f]) ==
              if open == [] then Message(f.opcode, f.data)
              else Message(MessageOf(open).opcode, MessageOf(open).data + f.data)
  {
    assert DataOf(open + [f]) == DataOf(open) + [f.data];
    FlattenSnoc(DataOf(open), f.data);
    if open == [] {
      assert DataOf([]) == [] && [] + f.data == f.data;
    }
  }

  lemma EndsControl(valid: Bytes -> bool, front: seq<Frame>, f: Frame)
    requires f.opcode < 16 && IsControl(f.opcode)
    ensures Ends(valid, front, f) <==> !f.fin || (f.opcode != 0x9 && f.opcode != 0xA)
  {
    hide DataFrames, UnderWay, Good, MessageOf;
  }

  lemma EndsData(valid: Bytes -> bool, front: seq<Frame>, f: Frame)
    requires f.opcode < 16 && !IsControl(f.opcode)
    ensures var open := UnderWay(DataFrames(front));
            Ends(valid, front, f) <==>
              (f.opcode == 0 && open == []) || (f.opcode != 0 && open != [])
              || (f.fin && !Good(valid, MessageOf(open + [f])))
  {
    hide DataFrames, UnderWay, Good, MessageOf;
  }

  lemma OneControl(valid: Bytes -> bool, front: seq<Frame>, f: Frame, a: Assembly)
    requires f.opcode < 16 && IsControl(f.opcode) && Stands(a, front)
    ensures Add(valid, a, f).over <==> Ends(valid, front, f)
    ensures !Ends(valid, front, f) ==> Stands(Add(valid, a, f), front + [f])
    ensures Ends(valid, front, f) ==> var b := Add(valid, a, f); b.messages == a.messages && b.pongs == a.pongs
  {
    EndsControl(valid, front, f);
    DataSnoc(front, f);
    PongsSnoc(front, f);
    hide DataFrames, UnderWay, MessagesOf, MessageOf, PongsOf, IsControl, Ends;
    var data := DataFrames(front);
    assert data + [] == data && PongsOf(front) + [] == PongsOf(front);
  }

  lemma OneData(valid: Bytes -> bool, front: seq<Frame>, f: Frame, a: Assembly)
    requires f.opcode < 16 && !IsControl(f.opcode) && Stands(a, front)
    ensures Add(valid, a, f).over <==> Ends(valid, front, f)
    ensures !Ends(valid, front, f) ==> Stands(Add(valid, a, f), front + [f])
    ensures Ends(valid, front, f) ==> var b := Add(valid, a, f); b.messages == a.messages && b.pongs == a.pongs
  {
    EndsData(valid, front, f);
    DataSnoc(front, f);
    PongsSnoc(front, f);
    DataIsNoPong(f);
    ControlCloses(f);
    AllData(front);
    UnderWayIn(DataFrames(front));
    if UnderWay(DataFrames(front)) != [] {
      var g := UnderWay(DataFrames(front))[0];
      assert g in UnderWay(DataFrames(front));
      DataIsNoPong(g);
      ControlCloses(g);
    }
    OpcodeOfFirst(UnderWay(DataFrames(front)));
    hide DataFrames, UnderWay, MessagesOf, MessageOf, PongsOf, IsControl, Ends;
    var data := DataFrames(front);
    DataFrameSnoc(data, f);
    MessageSnoc(UnderWay(data), f);
    assert PongsOf(front) + [] == PongsOf(front);
    assert MessagesOf(data) + [] == MessagesOf(data);
  }

  lemma {:induction false} AllData(frames: seq<Frame>)
    ensures forall f :: f in DataFrames(frames) ==> !IsControl(f.opcode)
  {
    hide IsControl;
    if frames != [] {
      AllData(frames[1..]);
    }
  }

  lemma {:induction false} UnderWayIn(data: seq<Frame>)
    ensures forall f :: f in UnderWay(data) ==> f in data
  {
    if data != [] {
      UnderWayIn(data[..|data| - 1]);
    }
  }

  lemma OpcodeOfFirst(open: seq<Frame>)
    ensures open != [] ==> MessageOf(open).opcode == open[0].opcode
  {
  }

  lemma ControlCloses(f: Frame)
    requires !IsControl(f.opcode)
    ensures f.opcode != 0x8
  {
  }

  lemma OneMore(valid: Bytes -> bool, front: seq<Frame>, f: Frame, a: Assembly)
    requires f.opcode < 16 && Stands(a, front)
    ensures Add(valid, a, f).over <==> Ends(valid, front, f)
    ensures !Ends(valid, front, f) ==> Stands(Add(valid, a, f), front + [f])
    ensures Ends(valid, front, f) ==> var b := Add(valid, a, f); b.messages == a.messages && b.pongs == a.pongs
  {
    hide *;
    if IsControl(f.opcode) {
      OneControl(valid, front, f, a);
    } else {
      OneData(valid, front, f, a);
    }
  }

  /** Whatever the frames are: what is handed over are the messages and pongs that are complete before the first
      frame that ends the connection, and the connection is over exactly if there is one. */
  lemma WhatFramesAmountTo(valid: Bytes -> bool, frames: seq<Frame>, n: nat)
    requires Opcodes(frames) && FirstEnd(valid, frames, n)
    ensures var a := AddAll(valid, NO_FRAMES, frames);
            && (a.over <==> n < |frames|)
            && a.messages == MessagesOf(DataFrames(frames[..n])) && a.pongs == PongsOf(frames[..n])
  {
    hide Add, AddAll, DataFrames, UnderWay, MessagesOf, PongsOf, MessageOf, Ends;
    var before := frames[..n];
    assert FirstEnd(valid, before, n) && Opcodes(before) by {
      assert forall i :: 0 <= i < n ==> before[..i] == frames[..i];
      assert forall g :: g in before ==> g in frames;
    }
    NotYet(valid, before);
    if n == |frames| {
      assert before == frames;
    } else {
      var f, after := frames[n], frames[n + 1..];
      assert f in frames;
      SplitAt(frames, n);
      hide *;
      EndsNow(valid, before, f, after);
    }
  }

  lemma SplitAt(frames: seq<Frame>, n: nat)
    requires n < |frames|
    ensures frames == frames[..n] + [frames[n]] + frames[n + 1..]
  {
  }

  lemma EndsNow(valid: Bytes -> bool, before: seq<Frame>, f: Frame, after: seq<Frame>)
    requires f.opcode < 16 && Stands(AddAll(valid, NO_FRAMES, before), before) && Ends(valid, before, f)
    ensures var a, b := AddAll(valid, NO_FRAMES, before + [f] + after), AddAll(valid, NO_FRAMES, before);
            a.over && a.messages == b.messages && a.pongs == b.pongs
  {
    hide *;
    AddAllSnoc(valid, NO_FRAMES, before, f);
    OneMore(valid, before, f, AddAll(valid, NO_FRAMES, before));
    AddAllConcat(valid, NO_FRAMES, before + [f], after);
    AddAllOver(valid, AddAll(valid, NO_FRAMES, before + [f]), after);
  }

  lemma {:induction false} SomeFirstEnd(valid: Bytes -> bool, frames: seq<Frame>) returns (n: nat)
    ensures FirstEnd(valid, frames, n)
  {
    hide Ends;
    if frames == [] {
      n := 0;
    } else {
      var last := |frames| - 1;
      var front := frames[..last];
      assert forall i :: 0 <= i <= last ==> front[..i] == frames[..i];
      n := SomeFirstEnd(valid, front);
      if n == last && !Ends(valid, front, frames[last]) {
        n := |frames|;
      }
    }
  }

  /** After a frame that ends the connection nothing is handed over any more, whatever follows. */
  lemma NothingAfter(valid: Bytes -> bool, before: seq<Frame>, f: Frame, after: seq<Frame>)
    requires Opcodes(before + [f]) && Ends(valid, before, f)
    ensures var a, b := AddAll(valid, NO_FRAMES, before + [f] + after), AddAll(valid, NO_FRAMES, before);
            a.over && a.messages == b.messages && a.pongs == b.pongs
  {
    hide Add, AddAll, DataFrames, UnderWay, MessagesOf, PongsOf, MessageOf, Ends;
    var n := SomeFirstEnd(valid, before);
    assert f == (before + [f])[|before|] && f in before + [f] && forall g :: g in before ==> g in before + [f];
    WhatFramesAmountTo(valid, before, n);
    if n == |before| {
      assert before[..n] == before;
      NotYet(valid, before);
      EndsNow(valid, before, f, after);
    } else {
      AddAllConcat(valid, NO_FRAMES, before, [f] + after);
      assert before + ([f] + after) == before + [f] + after;
      AddAllOver(valid, AddAll(valid, NO_FRAMES, before), [f] + after);
    }
  }

  lemma NothingAfterClose(valid: Bytes -> bool, before: seq<Frame>, data: Bytes, after: seq<Frame>)
    requires Opcodes(before)
    ensures var a := AddAll(valid, NO_FRAMES, before + [Frame(true, 0x8, data)] + after);
            var b := AddAll(valid, NO_FRAMES, before);
            a.over && a.messages == b.messages && a.pongs == b.pongs
  {
    hide AddAll, DataFrames, UnderWay, MessageOf;
    NothingAfter(valid, before, Frame(true, 0x8, data), after);
  }

  // ----- bytes -----

  /** Refused outright: a reserved bit, the three after the first, and a control frame with an extended length. */
  lemma RefusedHeaders(header: bv8, length: bv8)
    ensures Acceptable(header, length) <==> header / 16 % 8 == 0 && (header % 16 < 8 || length % 128 < 126)
  {
  }

  /** Numbers are written with the highest byte first. */
  lemma BigEndianBytes(n: nat)
    requires n <= 0xFFFF
    ensures BigEndian(n, 2) == [(n / 256) as bv8, (n % 256) as bv8]
  {
    assert BigEndian(n / 256, 1) == BigEndian(n / 256 / 256, 0) + [Byte(n / 256 % 256)];
  }

  const HELLO: Bytes := [0x48, 0x65, 0x6c, 0x6c, 0x6f]

  /** The examples of section 5.7: a text in one frame, not masked and masked; in two fragments; the headers of 256
      bytes and of 64 KiB. */
  lemma HelloPlain()
    ensures WriteFrame(Frame(true, 0x1, HELLO), None) == [0x81, 0x05, 0x48, 0x65, 0x6c, 0x6c, 0x6f]
    ensures WriteFrame(Frame(false, 0x1, HELLO[..3]), None) == [0x01, 0x03, 0x48, 0x65, 0x6c]
    ensures WriteFrame(Frame(true, 0x0, HELLO[3..]), None) == [0x80, 0x02, 0x6c, 0x6f]
  {
  }

  lemma HelloMasked()
    ensures WriteFrame(Frame(true, 0x1, HELLO), Some([0x37, 0xfa, 0x21, 0x3d]))
         == [0x81, 0x85, 0x37, 0xfa, 0x21, 0x3d, 0x7f, 0x9f, 0x4d, 0x51, 0x58]
  {
    assert Masked([0x37, 0xfa, 0x21, 0x3d], HELLO) == [0x7f, 0x9f, 0x4d, 0x51, 0x58];
  }

  lemma LongHeaders(data: Bytes)
    ensures |data| == 256 ==> WriteFrame(Frame(true, 0x2, data), None) == [0x82, 0x7E, 0x01, 0x00] + data
    ensures |data| == 65536 ==>
              WriteFrame(Frame(true, 0x2, data), None) == [0x82, 0x7F, 0, 0, 0, 0, 0, 1, 0, 0] + data
  {
    hide BigEndian;
    BigEndianBytes(256);
    SixtyFourK();
    var start: Bytes := [0x82];
    assert start + [0x7E] + [0x01, 0x00] + data == [0x82, 0x7E, 0x01, 0x00] + data;
    assert start + [0x7F] + [0, 0, 0, 0, 0, 1, 0, 0] + data == [0x82, 0x7F, 0, 0, 0, 0, 0, 1, 0, 0] + data;
  }

  lemma SixtyFourK()
    ensures BigEndian(65536, 8) == [0, 0, 0, 0, 0, 1, 0, 0]
  {
    assert BigEndian(0, 1) == [0] && BigEndian(0, 2) == [0, 0] && BigEndian(0, 3) == [0, 0, 0];
    assert BigEndian(0, 5) == [0, 0, 0, 0, 0];
    assert BigEndian(1, 6) == [0, 0, 0, 0, 0, 1];
    assert BigEndian(256, 7) == [0, 0, 0, 0, 0, 1, 0];
  }
}
