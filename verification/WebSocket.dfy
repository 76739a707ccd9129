/** The server side of a WebSocket connection (`WebSocketProtocol13` in tornado/websocket.py). */
module WebSockets {
  import opened Bytes
  import opened WebSocketFrames
  import opened WebSocketRules

  /** The callback of the outstanding `read_bytes`, and how much it asked for. */
  datatype Callback = OnFrameStart | OnLength16 | OnLength64 | OnMaskingKey | OnMaskedData | OnData
  datatype Read = Read(callback: Callback, count: nat)

  /** The fields that hold the header of the frame being read. */
  datatype Fields = Fields(fin: bool, opcode: bv8, masked: bool, mask: Bytes, length: nat)

  /** The fields are those of the bytes of the frame read so far, and the next read asks for the part that comes
      next. */
  ghost predicate Expects(r: Read, partial: Bytes, f: Fields) {
    if r.callback.OnFrameStart? then partial == [] && r.count == 2
    else
      && |partial| >= 2 && HeaderIs(partial, f)
      && match r.callback
         case OnLength16 => |partial| == 2 && LengthSize(partial[1]) == 2 && r.count == 2
         case OnLength64 => |partial| == 2 && LengthSize(partial[1]) == 8 && r.count == 8
         case OnMaskingKey =>
           |partial| == 2 + LengthSize(partial[1]) && f.length == Length(partial) && f.masked && r.count == 4
         case OnMaskedData =>
           |partial| == 6 + LengthSize(partial[1]) && f.length == Length(partial) && f.masked && r.count == f.length
           && f.mask == partial[2 + LengthSize(partial[1])..]
         case _ =>
           |partial| == 2 + LengthSize(partial[1]) && f.length == Length(partial) && !f.masked && r.count == f.length
  }

  ghost predicate HeaderIs(partial: Bytes, f: Fields)
    requires |partial| >= 2
  {
    && Acceptable(partial[0], partial[1])
    && f.fin == (partial[0] & 0x80 != 0) && f.opcode == partial[0] & 0xf && f.masked == (partial[1] & 0x80 != 0)
  }

  class WebSocketProtocol13 {
    const maskOutgoing: bool
    /** Whether a byte string is UTF-8. */
    const validText: Bytes -> bool
    var clientTerminated: bool
    var serverTerminated: bool
    /** Whether the timeout of a closing handshake is held. */
    var waiting: bool
    var streamClosed: bool
    var reading: Option<Read>
    var fields: Fields
    var fragmentedBuffer: Option<Bytes>
    var fragmentedOpcode: bv8
    /** What was given to the stream. */
    var output: Bytes

    ghost var written: seq<Wire>      // the frames that it is made of
    ghost var raw: seq<Bytes>         // the bytes of each frame received while the client was not done
    ghost var frames: seq<Frame>      // those frames
    ghost var partial: Bytes          // what has been read of the next one
    ghost var input: Bytes            // all that the stream has called back with
    ghost var messages: seq<Message>  // handed to on_message
    ghost var pongs: seq<Bytes>       // handed to on_pong
    ghost var abandoned: bool         // the stream has failed, or the application has given up

    ghost predicate Awaiting()
      reads `reading, `fields, `partial
    {
      reading.Some? ==> Expects(reading.value, partial, fields)
    }

    /** Nothing that was received is lost: it is the frames, and what has been read of the next one. */
    ghost predicate Accounted()
      reads `input, `raw, `partial
    {
      input == Flatten(raw) + partial
    }

    ghost predicate Output()
      reads `output, `written
    {
      AllPackable(written) && output == Written(written)
    }

    /** At most one close frame is sent. */
    ghost predicate Closing()
      reads `serverTerminated, `waiting, `written
    {
      Closes(written) <= 1 && (!serverTerminated ==> Closes(written) == 0 && !waiting)
    }

    /** Once the client is done, the connection is gone; before, it only goes if it is abandoned. */
    ghost predicate Rest()
      reads `clientTerminated, `serverTerminated, `streamClosed, `waiting, `abandoned
    {
      Lost() && (clientTerminated ==> serverTerminated && streamClosed && !waiting)
    }

    ghost predicate Lost()
      reads `clientTerminated, `streamClosed, `abandoned
    {
      streamClosed && !clientTerminated ==> abandoned
    }

    /** The client is done only by what it sent, unless the connection is abandoned. */
    ghost predicate Reason()
      reads `clientTerminated, `abandoned, `frames, `partial
    {
      clientTerminated ==>
        || abandoned || AddAll(validText, NO_FRAMES, frames).over
        || (|partial| >= 2 && !Acceptable(partial[0], partial[1]))
    }

    /** Nothing here makes the client be done, but that the connection is abandoned. */
    twostate predicate OnlyAbandoned()
      reads `clientTerminated, `abandoned
    {
      && (old(clientTerminated) ==> clientTerminated) && (old(abandoned) ==> abandoned)
      && (clientTerminated ==> old(clientTerminated) || abandoned)
    }

    ghost function Fragment(): Option<Message>
      reads `fragmentedBuffer, `fragmentedOpcode
    {
      if fragmentedBuffer.Some? then Some(Message(fragmentedOpcode, fragmentedBuffer.value)) else None
    }

    /** The messages handed over are those that the frames amount to. */
    ghost predicate Assembled()
      reads `frames, `raw, `messages, `pongs, `clientTerminated, `fragmentedBuffer, `fragmentedOpcode
    {
      Cut(raw, frames) && HandedOver() && (!clientTerminated ==> UpToDate())
    }

    ghost predicate HandedOver()
      reads `frames, `messages, `pongs
    {
      var a := AddAll(validText, NO_FRAMES, frames);
      messages == a.messages && pongs == a.pongs
    }

    ghost predicate UpToDate()
      reads `frames, `messages, `pongs, `fragmentedBuffer, `fragmentedOpcode
    {
      AddAll(validText, NO_FRAMES, frames) == Assembly(Fragment(), messages, pongs, false)
    }

    ghost predicate FragmentIsData()
      reads `fragmentedBuffer, `fragmentedOpcode
    {
      fragmentedBuffer.Some? ==> !IsControl(fragmentedOpcode)
    }

    ghost predicate Valid()
      reads this
    {
      Awaiting() && Accounted() && Output() && Closing() && Rest() && Assembled() && FragmentIsData() && Reason()
    }

    constructor (maskOutgoing: bool, validText: Bytes -> bool)
      ensures Valid() && !clientTerminated && !serverTerminated && !streamClosed && reading.None?
      ensures messages == [] && pongs == [] && written == [] && frames == [] && partial == [] && input == []
      ensures this.maskOutgoing == maskOutgoing && this.validText == validText && !abandoned
    {
      this.maskOutgoing, this.validText := maskOutgoing, validText;
      clientTerminated, serverTerminated, waiting, streamClosed := false, false, false, false;
      reading, fields := None, Fields(false, 0, false, [], 0);
      fragmentedBuffer, fragmentedOpcode, output := None, 0, [];
      written, raw, frames, partial, messages, pongs, input := [], [], [], [], [], [], [];
      abandoned := false;
    }

    // ----- writing -----

    /** `_write_frame`: the frame is packed and given to the stream, which refuses it when closed, and may close
        when it tries to send. */
    method WriteFrame(fin: bool, opcode: bv8, data: Bytes) returns (raised: bool)
      requires Output() && Packable(Frame(fin, opcode, data))
      modifies `output, `written, `streamClosed, `abandoned
      ensures Output() && raised == old(streamClosed) && (old(streamClosed) ==> streamClosed)
      ensures (old(abandoned) ==> abandoned) && (streamClosed ==> old(streamClosed) || abandoned)
      ensures raised ==> written == old(written)
      ensures !raised ==> exists mask :: written == old(written) + [Wire(Frame(fin, opcode, data), mask)]
                                         && mask.Some? == maskOutgoing
    {
      hide WebSocketFrames.WriteFrame, Written, Packable;
      var frame, mask := Pack(fin, opcode, data);
      if streamClosed {
        return true;
      }
      WrittenSnoc(written, Wire(Frame(fin, opcode, data), mask));
      output := output + frame;
      written := written + [Wire(Frame(fin, opcode, data), mask)];
      streamClosed := *;
      abandoned := abandoned || streamClosed;
      return false;
    }

    method Pack(fin: bool, opcode: bv8, data: Bytes) returns (frame: Bytes, mask: Option<Bytes>)
      requires Packable(Frame(fin, opcode, data))
      ensures mask.Some? == maskOutgoing && (mask.Some? ==> |mask.value| == 4)
      ensures frame == WebSocketFrames.WriteFrame(Frame(fin, opcode, data), mask)
    {
      hide BigEndian, Byte;
      var finbit: bv8 := if fin then 0x80 else 0;
      frame := [finbit | opcode];
      var l := |data|;
      var maskBit: bv8 := if maskOutgoing then 0x80 else 0;
      if l < 126 {
        frame := frame + [Byte(l) | maskBit];
      } else if l <= 0xFFFF {
        frame := frame + [126 | maskBit] + BigEndian(l, 2);
      } else {
        frame := frame + [127 | maskBit] + BigEndian(l, 8);
      }
      mask := None;
      if maskOutgoing {
        var a: bv8, b: bv8, c: bv8, d: bv8 := *, *, *, *;
        mask := Some([a, b, c, d]);
        var masked := ApplyMask(mask.value, data);
        frame := frame + (mask.value + masked);
      } else {
        frame := frame + data;
      }
    }

    /** `write_message`; a message on a closed stream aborts the connection. */
    method WriteMessage(message: Bytes, binary: bool)
      requires Output() && Closing() && Rest() && |message| < MAX_LENGTH
      modifies `clientTerminated, `serverTerminated, `waiting, `streamClosed, `abandoned, `output, `written
      ensures Output() && Closing() && Rest() && OnlyAbandoned()
      ensures old(streamClosed) ==> clientTerminated && written == old(written)
      ensures !old(streamClosed) ==> clientTerminated == old(clientTerminated)
      ensures !old(streamClosed) && binary ==>
                exists mask :: written == old(written) + [Wire(Frame(true, 0x2, message), mask)]
      ensures !old(streamClosed) && !binary ==>
                exists mask :: written == old(written) + [Wire(Frame(true, 0x1, message), mask)]
    {
      ghost var before := written;
      var raised := WriteFrame(true, if binary then 0x2 else 0x1, message);
      if !raised {
        ghost var f := Frame(true, if binary then 0x2 else 0x1, message);
        ghost var mask :| written == before + [Wire(f, mask)];
        ClosesSnoc(before, Wire(f, mask));
      }
      if raised {
        Abort();
      }
    }

    /** `write_ping`, which raises on a closed stream. */
    method WritePing(data: Bytes) returns (raised: bool)
      requires Output() && Closing() && Rest() && |data| < MAX_LENGTH
      modifies `streamClosed, `abandoned, `output, `written
      ensures Output() && Closing() && Rest() && raised == old(streamClosed) && OnlyAbandoned()
      ensures raised ==> written == old(written)
      ensures !raised ==> exists mask :: written == old(written) + [Wire(Frame(true, 0x9, data), mask)]
    {
      raised := WriteControl(0x9, data);
    }

    /** A ping or a pong. */
    method WriteControl(opcode: bv8, data: Bytes) returns (raised: bool)
      requires Output() && Closing() && Rest() && |data| < MAX_LENGTH && (opcode == 0x9 || opcode == 0xA)
      modifies `streamClosed, `abandoned, `output, `written
      ensures Output() && Closing() && Rest() && raised == old(streamClosed) && (old(streamClosed) ==> streamClosed)
      ensures OnlyAbandoned()
      ensures raised ==> written == old(written)
      ensures !raised ==> exists mask :: written == old(written) + [Wire(Frame(true, opcode, data), mask)]
    {
      ghost var before := written;
      raised := WriteFrame(true, opcode, data);
      if !raised {
        ghost var mask :| written == before + [Wire(Frame(true, opcode, data), mask)];
        ClosesSnoc(before, Wire(Frame(true, opcode, data), mask));
      }
    }

    // ----- closing -----

    /** `_abort` */
    method Abort()
      requires Output() && Closing()
      modifies `clientTerminated, `serverTerminated, `streamClosed, `abandoned, `waiting, `output, `written
      ensures Output() && Closing() && Rest() && clientTerminated && written == old(written)
      ensures abandoned == old(abandoned)
    {
      clientTerminated := true;
      serverTerminated := true;
      streamClosed := true;
      Close();
    }

    /** `close`: a close frame is sent the first time, unless the stream is closed; then either the connection goes
        at once, or the client gets some time to answer. */
    method Close()
      requires Output() && Closing() && Lost()
      modifies `serverTerminated, `streamClosed, `abandoned, `waiting, `output, `written
      ensures Output() && Closing() && Rest() && serverTerminated && (old(streamClosed) ==> streamClosed)
      ensures old(serverTerminated || streamClosed) ==> written == old(written)
      ensures !old(serverTerminated || streamClosed) ==>
                exists mask :: written == old(written) + [Wire(Frame(true, 0x8, []), mask)]
      ensures !clientTerminated ==> waiting
      ensures (old(abandoned) ==> abandoned) && (old(streamClosed) ==> abandoned == old(abandoned))
    {
      if !serverTerminated {
        if !streamClosed {
          ghost var before := written;
          var _ := WriteFrame(true, 0x8, []);
          ghost var mask :| written == before + [Wire(Frame(true, 0x8, []), mask)];
          ClosesSnoc(before, Wire(Frame(true, 0x8, []), mask));
        }
        serverTerminated := true;
      }
      if clientTerminated {
        if waiting {
          waiting := false;
        }
        streamClosed := true;
      } else if !waiting {
        waiting := true;
      }
    }

    /** The timeout of the closing handshake, or the close callback of the stream. */
    method Gone()
      requires Valid()
      modifies this
      ensures Valid() && clientTerminated && messages == old(messages) && pongs == old(pongs)
      ensures written == old(written)
    {
      hide Cut, AddAll;
      abandoned := true;
      Abort();
    }

    /** Code of the application: it may close the connection, write, and be told that the stream has gone. */
    method UserCode()
      requires Output() && Closing() && Rest()
      modifies `clientTerminated, `serverTerminated, `waiting, `streamClosed, `abandoned, `output, `written
      ensures Output() && Closing() && Rest() && OnlyAbandoned()
    {
      hide Output, Closing;
      var calls := Any();
      for i := 0 to calls
        invariant Output() && Closing() && Rest() && OnlyAbandoned()
      {
        var choice := Any();
        var data: Bytes := *;
        if choice == 0 {
          Close();
        } else if choice == 1 && |data| < MAX_LENGTH {
          var binary: bool := *;
          WriteMessage(data, binary);
        } else if choice == 2 && |data| < MAX_LENGTH {
          var raised := WritePing(data);
          if raised {
            return;
          }
        } else {
          streamClosed, abandoned := true, true;
        }
      }
    }

    /** A handler of the application, wrapped by `async_callback`: an exception aborts the connection. */
    method Handler()
      requires Output() && Closing() && Rest()
      modifies `clientTerminated, `serverTerminated, `waiting, `streamClosed, `abandoned, `output, `written
      ensures Output() && Closing() && Rest() && OnlyAbandoned()
    {
      UserCode();
      var raises: bool := *;
      if raises {
        abandoned := true;
        Abort();
      }
    }

    // ----- reading -----

    /** `stream.read_bytes`; a closed stream whose buffer does not hold enough raises, which every caller answers
        with `_abort`. */
    method ReadBytes(count: nat, callback: Callback)
      requires Output() && Closing() && Rest() && reading.None?
      modifies `reading, `clientTerminated, `serverTerminated, `waiting, `streamClosed, `abandoned, `output, `written
      ensures Output() && Closing() && Rest() && OnlyAbandoned()
      ensures written == old(written)
      ensures || (reading == Some(Read(callback, count)) && clientTerminated == old(clientTerminated))
              || (old(streamClosed) && reading.None? && clientTerminated)
    {
      var buffered: bool := *;
      if streamClosed && !buffered {
        Abort();
      } else {
        reading := Some(Read(callback, count));
      }
    }

    /** `_receive_frame` */
    method ReceiveFrame()
      requires Valid() && reading.None? && partial == []
      modifies `reading, `clientTerminated, `serverTerminated, `waiting, `streamClosed, `abandoned, `output, `written
      ensures Valid() && OnlyAbandoned() && written == old(written)
      ensures || (reading == Some(Read(OnFrameStart, 2)) && clientTerminated == old(clientTerminated))
              || (old(streamClosed) && reading.None? && clientTerminated)
    {
      hide Cut, AddAll;
      ReadBytes(2, OnFrameStart);
    }

    /** The stream calls back with what was asked for. */
    method Received(data: Bytes) returns (raised: bool)
      requires Valid() && reading.Some? && |data| == reading.value.count
      modifies this
      ensures Valid() && (old(clientTerminated) ==> clientTerminated)
      ensures old(messages) <= messages && old(pongs) <= pongs
      ensures old(clientTerminated) ==> messages == old(messages) && pongs == old(pongs) && written == old(written)
      ensures input == old(input) + data
      ensures !clientTerminated && !raised ==> reading.Some?
      ensures old(reading).value.count == 0 && reading.Some? ==> reading.value.count > 0
      ensures raised ==> reading.None? && abandoned
      ensures old(abandoned) ==> abandoned
    {
      hide Cut, AddAll, ReadFrame, Flatten;
      raised := false;
      var callback := reading.value.callback;
      match callback
      case OnFrameStart => HandleFrameStart(data);
      case OnLength16 => HandleLength(data);
      case OnLength64 => HandleLength(data);
      case OnMaskingKey => HandleMaskingKey(data);
      case OnMaskedData =>
        var unmasked := ApplyMask(fields.mask, data);
        ReadsMasked(partial, fields, data);
        raised := HandleFrameData(data, unmasked);
      case OnData =>
        ReadsPlain(partial, fields, data);
        raised := HandleFrameData(data, data);
    }

    /** `_on_frame_start` */
    method HandleFrameStart(data: Bytes)
      requires Valid() && reading == Some(Read(OnFrameStart, 2)) && |data| == 2
      modifies `reading, `fields, `partial, `input
      modifies `clientTerminated, `serverTerminated, `waiting, `streamClosed, `abandoned, `output, `written
      ensures Valid() && (old(clientTerminated) ==> clientTerminated) && written == old(written)
      ensures (old(abandoned) ==> abandoned) && (Acceptable(data[0], data[1]) ==> OnlyAbandoned())
      ensures !old(streamClosed) && Acceptable(data[0], data[1]) ==>
                reading.Some? && clientTerminated == old(clientTerminated)
      ensures !Acceptable(data[0], data[1]) ==> clientTerminated
      ensures input == old(input) + data && (!clientTerminated ==> reading.Some?)
    {
      hide Cut, AddAll, Expects, Output, Closing, HeaderIs, IsControl, Flatten, HandedOver, UpToDate;
      assert partial == [] by {
        NothingRead(reading.value, partial, fields);
      }
      reading, partial, input := None, data, input + data;
      var header, length := data[0], data[1];
      fields := fields.(fin := header & 0x80 != 0, opcode := header & 0xf, masked := length & 0x80 != 0);
      if header & 0x70 != 0 {
        Abort();
        return;
      }
      if IsControl(fields.opcode) && length & 0x7f >= 126 {
        Abort();
        return;
      }
      HeaderAccepted(data, fields);
      ReadLength(length);
    }

    method ReadLength(length: bv8)
      requires Valid() && reading.None? && |partial| == 2 && partial[1] == length && HeaderIs(partial, fields)
      modifies `reading, `fields
      modifies `clientTerminated, `serverTerminated, `waiting, `streamClosed, `abandoned, `output, `written
      ensures Valid() && OnlyAbandoned() && written == old(written)
      ensures !old(streamClosed) ==> reading.Some? && clientTerminated == old(clientTerminated)
      ensures !clientTerminated ==> reading.Some?
    {
      hide Cut, AddAll, Acceptable, Number, IsControl, Flatten, Output, Closing, HandedOver, UpToDate;
      if length & 0x7f < 126 {
        fields := fields.(length := (length & 0x7f) as nat);
        ReadKeyOrData();
      } else if length & 0x7f == 126 {
        ReadBytes(2, OnLength16);
      } else {
        ReadBytes(8, OnLength64);
      }
    }

    method ReadKeyOrData()
      requires Valid() && reading.None? && |partial| >= 2 && |partial| == 2 + LengthSize(partial[1])
      requires HeaderIs(partial, fields) && fields.length == Length(partial)
      modifies `reading, `clientTerminated, `serverTerminated, `waiting, `streamClosed, `abandoned, `output, `written
      ensures Valid() && OnlyAbandoned() && written == old(written)
      ensures !old(streamClosed) ==> reading.Some? && clientTerminated == old(clientTerminated)
      ensures !clientTerminated ==> reading.Some?
    {
      hide Cut, AddAll, Length, LengthSize, Acceptable, Flatten, Output, Closing, HandedOver, UpToDate;
      if fields.masked {
        ReadBytes(4, OnMaskingKey);
      } else {
        ReadBytes(fields.length, OnData);
      }
    }

    /** `_on_frame_length_16` and `_on_frame_length_64` */
    method HandleLength(data: Bytes)
      requires Valid() && (reading == Some(Read(OnLength16, 2)) || reading == Some(Read(OnLength64, 8)))
      requires |data| == reading.value.count
      modifies `reading, `fields, `partial, `input
      modifies `clientTerminated, `serverTerminated, `waiting, `streamClosed, `abandoned, `output, `written
      ensures Valid() && OnlyAbandoned() && written == old(written)
      ensures !old(streamClosed) ==> reading.Some? && clientTerminated == old(clientTerminated)
      ensures input == old(input) + data && (!clientTerminated ==> reading.Some?)
    {
      hide Cut, AddAll, Number, Acceptable, LengthSize, Flatten, Output, Closing, HandedOver, UpToDate;
      reading, input := None, input + data;
      fields := fields.(length := Number(data));
      assert (partial + data)[2..2 + LengthSize(partial[1])] == data;
      partial := partial + data;
      ReadKeyOrData();
    }

    /** `_on_masking_key` */
    method HandleMaskingKey(data: Bytes)
      requires Valid() && reading == Some(Read(OnMaskingKey, 4)) && |data| == 4
      modifies `reading, `fields, `partial, `input
      modifies `clientTerminated, `serverTerminated, `waiting, `streamClosed, `abandoned, `output, `written
      ensures Valid() && OnlyAbandoned() && written == old(written)
      ensures !old(streamClosed) ==> reading.Some? && clientTerminated == old(clientTerminated)
      ensures input == old(input) + data && (!clientTerminated ==> reading.Some?)
    {
      hide Cut, AddAll, Expects, Output, Closing, Flatten, HandedOver, UpToDate;
      KeyRead(partial, fields, data);
      reading, input := None, input + data;
      fields := fields.(mask := data);
      partial := partial + data;
      ReadBytes(fields.length, OnMaskedData);
    }

    /** `_on_frame_data`; `read` is the last part of the frame's bytes. An exception of the stream, for a ping on a
        closed connection, goes back to the stream. */
    method HandleFrameData(ghost read: Bytes, data: Bytes) returns (raised: bool)
      requires Valid() && reading.Some? && |data| < MAX_LENGTH
      requires ReadFrame(partial + read) == Complete(Frame(fields.fin, fields.opcode, data), [])
      modifies this
      ensures Valid() && (old(clientTerminated) ==> clientTerminated)
      ensures old(messages) <= messages && old(pongs) <= pongs
      ensures old(clientTerminated) ==> messages == old(messages) && pongs == old(pongs) && written == old(written)
      ensures var f, a := Frame(old(fields).fin, old(fields).opcode, data),
                          Assembly(old(Fragment()), old(messages), old(pongs), false);
              !old(clientTerminated) ==>
                && frames == old(frames) + [f] && raw == old(raw) + [old(partial) + read]
                && (Add(validText, a, f).over ==> clientTerminated)
                && (clientTerminated ==> abandoned || Add(validText, a, f).over)
                && (!f.fin && !Add(validText, a, f).over && !old(streamClosed) ==> !clientTerminated)
                && (!clientTerminated && !raised ==> reading == Some(Read(OnFrameStart, 2)))
      ensures input == old(input) + read && (reading.Some? ==> reading.value.count > 0)
      ensures raised ==> reading.None? && abandoned
      ensures old(abandoned) ==> abandoned
    {
      hide Cut, AddAll, ReadFrame, Add, Output, Closing, Expects, Acceptable, Accounted, Reason, Assembled;
      raised := AddFrame(read, data);
      if !raised && !clientTerminated {
        ReceiveFrame();
      }
    }

    /** `_on_frame_data`, up to the next read. */
    method AddFrame(ghost read: Bytes, data: Bytes) returns (raised: bool)
      requires Valid() && reading.Some? && |data| < MAX_LENGTH
      requires ReadFrame(partial + read) == Complete(Frame(fields.fin, fields.opcode, data), [])
      modifies this
      ensures Valid() && reading.None? && (old(clientTerminated) ==> clientTerminated)
      ensures old(messages) <= messages && old(pongs) <= pongs
      ensures old(clientTerminated) ==> messages == old(messages) && pongs == old(pongs) && written == old(written)
      ensures var f, a := Frame(old(fields).fin, old(fields).opcode, data),
                          Assembly(old(Fragment()), old(messages), old(pongs), false);
              !old(clientTerminated) ==>
                && frames == old(frames) + [f] && raw == old(raw) + [old(partial) + read] && partial == []
                && (Add(validText, a, f).over ==> clientTerminated)
                && (clientTerminated ==> abandoned || Add(validText, a, f).over)
                && (!f.fin && !Add(validText, a, f).over ==> !clientTerminated && streamClosed == old(streamClosed))
      ensures input == old(input) + read
      ensures raised ==> abandoned
      ensures old(abandoned) ==> abandoned
    {
      hide Cut, AddAll, ReadFrame, Complete1, Add, IsControl, Output, Closing, Expects, Acceptable, Accounted, Rest,
        FragmentIsData;
      ghost var f, m, p := Frame(fields.fin, fields.opcode, data), messages, pongs;
      ghost var a := Assembly(Fragment(), m, p, false);
      Record(read, f);
      reading := None;
      var refused, opcode, payload := Collect(data, m, p);
      Completed(validText, m, p, Fragment(), opcode, payload);
      raised := Conclude(refused, opcode, payload);
    }

    /** The second half of `_on_frame_data`: a frame that is refused aborts, a final one completes its message. */
    method Conclude(refused: bool, opcode: bv8, payload: Bytes) returns (raised: bool)
      requires Output() && Closing() && Rest()
      requires !refused && opcode == 0x9 ==> |payload| < MAX_LENGTH
      modifies `messages, `pongs, `clientTerminated, `serverTerminated, `waiting, `streamClosed, `abandoned
      modifies `output, `written
      ensures Output() && Closing() && Rest() && (old(clientTerminated) ==> clientTerminated)
      ensures old(clientTerminated) ==>
                !raised && messages == old(messages) && pongs == old(pongs) && written == old(written)
      ensures !old(clientTerminated) ==>
                var none := Assembly(None, old(messages), old(pongs), false);
                var a := if refused then none.(over := true)
                         else if fields.fin then Complete1(validText, none, opcode, payload) else none;
                && messages == a.messages && pongs == a.pongs && (a.over ==> clientTerminated)
                && (clientTerminated ==> abandoned || a.over)
      ensures !refused && !fields.fin ==>
                clientTerminated == old(clientTerminated) && streamClosed == old(streamClosed)
      ensures (old(abandoned) ==> abandoned) && (raised ==> abandoned)
    {
      hide Complete1, Output, Closing;
      raised := false;
      if refused {
        Abort();
        return;
      }
      if fields.fin {
        raised := HandleMessage(opcode, payload);
      }
    }

    /** The bytes of a frame that is complete, and the frame, unless the client is done. */
    ghost method Record(read: Bytes, f: Frame)
      requires Accounted() && Cut(raw, frames) && ReadFrame(partial + read) == Complete(f, [])
      modifies `raw, `frames, `partial, `input
      ensures Accounted() && Cut(raw, frames) && input == old(input) + read
      ensures if clientTerminated then raw == old(raw) && frames == old(frames) && old(partial) <= partial
              else raw == old(raw) + [old(partial) + read] && frames == old(frames) + [f] && partial == []
      ensures AddAll(validText, NO_FRAMES, old(frames) + [f])
              == Add(validText, AddAll(validText, NO_FRAMES, old(frames)), f)
    {
      hide Cut, AddAll, Add, ReadFrame, Flatten;
      var whole := partial + read;
      AddAllSnoc(validText, NO_FRAMES, frames, f);
      if !clientTerminated {
        CutSnoc(raw, frames, whole, f);
        FlattenSnoc(raw, whole);
        raw, frames, partial := raw + [whole], frames + [f], [];
      } else {
        partial := whole;
      }
      input := input + read;
    }

    /** The first half of `_on_frame_data`: what the frame adds to the fragments. A final frame completes the message
        that is returned. */
    method Collect(data: Bytes, ghost m: seq<Message>, ghost p: seq<Bytes>)
      returns (refused: bool, opcode: bv8, payload: Bytes)
      requires FragmentIsData() && |data| < MAX_LENGTH
      modifies `fragmentedBuffer, `fragmentedOpcode
      ensures FragmentIsData() && (!refused && opcode == 0x9 ==> |payload| < MAX_LENGTH)
      ensures var a := Assembly(old(Fragment()), m, p, false);
              Add(validText, a, Frame(fields.fin, fields.opcode, data))
              == if refused then a.(over := true)
                 else if fields.fin then Complete1(validText, a.(started := Fragment()), opcode, payload)
                 else a.(started := Fragment())
    {
      hide Complete1;
      refused, opcode, payload := false, fields.opcode, data;
      if IsControl(fields.opcode) {
        refused := !fields.fin;
      } else if fields.opcode == 0 {
        if fragmentedBuffer.None? {
          return true, opcode, payload;
        }
        fragmentedBuffer := Some(fragmentedBuffer.value + data);
        if fields.fin {
          opcode, payload := fragmentedOpcode, fragmentedBuffer.value;
          fragmentedBuffer := None;
        }
      } else if fragmentedBuffer.Some? {
        refused := true;
      } else if !fields.fin {
        fragmentedOpcode, fragmentedBuffer := fields.opcode, Some(data);
      }
    }

    /** `_handle_message` */
    method HandleMessage(opcode: bv8, data: Bytes) returns (raised: bool)
      requires Output() && Closing() && Rest() && (opcode == 0x9 ==> |data| < MAX_LENGTH)
      modifies `messages, `pongs, `clientTerminated, `serverTerminated, `waiting, `streamClosed, `abandoned
      modifies `output, `written
      ensures Output() && Closing() && Rest() && (old(clientTerminated) ==> clientTerminated)
      ensures old(clientTerminated) ==>
                !raised && messages == old(messages) && pongs == old(pongs) && written == old(written)
      ensures !old(clientTerminated) ==>
                var a := Complete1(validText, Assembly(None, old(messages), old(pongs), false), opcode, data);
                messages == a.messages && pongs == a.pongs && (a.over ==> clientTerminated)
                  && (clientTerminated ==> abandoned || a.over)
      ensures old(abandoned) ==> abandoned
      ensures raised ==> opcode == 0x9 && old(streamClosed) && !clientTerminated && abandoned
      ensures !old(clientTerminated) && opcode == 0x9 && !old(streamClosed) ==>
                exists mask :: written == old(written) + [Wire(Frame(true, 0xA, data), mask)]
      ensures !old(clientTerminated || serverTerminated || streamClosed) && opcode == 0x8 ==>
                exists mask :: written == old(written) + [Wire(Frame(true, 0x8, []), mask)]
    {
      hide Output, Closing;
      raised := false;
      if clientTerminated {
        return;
      }
      if opcode == 0x1 {
        if !validText(data) {
          Abort();
          return;
        }
        messages := messages + [Message(opcode, data)];
        Handler();
      } else if opcode == 0x2 {
        messages := messages + [Message(opcode, data)];
        Handler();
      } else if opcode == 0x8 {
        clientTerminated := true;
        Close();
      } else if opcode == 0x9 {
        raised := WriteControl(0xA, data);
      } else if opcode == 0xA {
        pongs := pongs + [data];
        Handler();
      } else {
        Abort();
      }
    }
  }

  lemma Completed(valid: Bytes -> bool, messages: seq<Message>, pongs: seq<Bytes>, started: Option<Message>,
                  opcode: bv8, data: Bytes)
    ensures var a := Complete1(valid, Assembly(started, messages, pongs, false), opcode, data);
            a == Complete1(valid, Assembly(None, messages, pongs, false), opcode, data).(started := started)
            && messages <= a.messages && pongs <= a.pongs
  {
  }

  lemma CutSnoc(raw: seq<Bytes>, frames: seq<Frame>, whole: Bytes, f: Frame)
    requires Cut(raw, frames) && ReadFrame(whole) == Complete(f, [])
    ensures Cut(raw + [whole], frames + [f])
  {
    hide ReadFrame;
  }

  lemma HeaderAccepted(data: Bytes, f: Fields)
    requires |data| == 2 && data[0] & 0x70 == 0 && !(IsControl(data[0] & 0xf) && data[1] & 0x7f >= 126)
    requires f.fin == (data[0] & 0x80 != 0) && f.opcode == data[0] & 0xf && f.masked == (data[1] & 0x80 != 0)
    ensures HeaderIs(data, f)
  {
  }

  lemma NothingRead(r: Read, partial: Bytes, f: Fields)
    requires r.callback.OnFrameStart? && Expects(r, partial, f)
    ensures partial == []
  {
  }

  lemma KeyRead(partial: Bytes, f: Fields, key: Bytes)
    requires Expects(Read(OnMaskingKey, 4), partial, f) && |key| == 4
    ensures Expects(Read(OnMaskedData, f.length), partial + key, f.(mask := key))
  {
    hide Acceptable, LengthSize, Number;
    Extended(partial, key);
    assert (partial + key)[2 + LengthSize(partial[1])..] == key;
  }

  /** The masked payload completes the frame. */
  lemma ReadsMasked(partial: Bytes, f: Fields, data: Bytes)
    requires Expects(Read(OnMaskedData, |data|), partial, f)
    ensures ReadFrame(partial + data) == Complete(Frame(f.fin, f.opcode, Masked(f.mask, data)), [])
    ensures |data| < MAX_LENGTH
  {
    hide Number, Masked, Acceptable, LengthSize;
    Extended(partial, data);
    LengthBound(partial);
    var s, lengthEnd := partial + data, 2 + LengthSize(partial[1]);
    assert s[lengthEnd..lengthEnd + 4] == partial[lengthEnd..];
    assert s[lengthEnd + 4..lengthEnd + 4 + |data|] == data && s[lengthEnd + 4 + |data|..] == [];
  }

  lemma ReadsPlain(partial: Bytes, f: Fields, data: Bytes)
    requires Expects(Read(OnData, |data|), partial, f)
    ensures ReadFrame(partial + data) == Complete(Frame(f.fin, f.opcode, data), [])
    ensures |data| < MAX_LENGTH
  {
    hide Number, Masked, Acceptable, LengthSize;
    Extended(partial, data);
    LengthBound(partial);
    var s, lengthEnd := partial + data, 2 + LengthSize(partial[1]);
    assert s[lengthEnd..lengthEnd + |data|] == data && s[lengthEnd + |data|..] == [];
  }

  lemma Extended(partial: Bytes, more: Bytes)
    requires |partial| >= 2 && |partial| >= 2 + LengthSize(partial[1])
    ensures (partial + more)[0] == partial[0] && (partial + more)[1] == partial[1]
    ensures Length(partial + more) == Length(partial)
  {
    hide Number, LengthSize;
    SlicePrefix(partial, more, 2, 2 + LengthSize(partial[1]));
  }

  lemma {:induction false} NumberBound(b: Bytes)
    ensures Number(b) < Power256(|b|)
  {
    if b != [] {
      NumberBound(b[..|b| - 1]);
      ByteBound(b[|b| - 1]);
    }
  }

  lemma ByteBound(b: bv8)
    ensures b as nat < 256
  {
  }

  lemma LengthBound(s: Bytes)
    requires |s| >= 2 && |s| >= 2 + LengthSize(s[1])
    ensures Length(s) < MAX_LENGTH
  {
    hide Number, Power256;
    Powers();
    ByteBound(s[1] & 0x7f);
    NumberBound(s[2..2 + LengthSize(s[1])]);
  }

  /** If what came in is what a peer wrote to send a message, in any number of fragments with pings and pongs in
      between, then exactly that message was handed over, once all of it has been read. */
  lemma MessageDelivered(p: WebSocketProtocol13, sent: seq<Wire>, opcode: bv8, parts: seq<Bytes>)
    requires p.Valid() && AllSendable(sent) && p.input == Written(sent) && p.partial == []
    requires OnlyPings(FramesOf(sent)) && parts != [] && DataFrames(FramesOf(sent)) == Fragments(opcode, parts)
    requires opcode == 0x2 || (opcode == 0x1 && p.validText(Flatten(parts)))
    ensures p.messages == [Message(opcode, Flatten(parts))] && p.pongs == PongsOf(FramesOf(sent))
  {
    hide AddAll, Cut, Written, FramesOf, DataFrames, Fragments, OnlyPings, PongsOf, Flatten;
    assert Flatten(p.raw) + [] == Flatten(p.raw);
    CutIsUnique(p.raw, p.frames, sent);
    Reassembly(p.validText, NO_FRAMES, opcode, parts, p.frames);
    assert [] + [Message(opcode, Flatten(parts))] == [Message(opcode, Flatten(parts))];
    assert [] + PongsOf(p.frames) == PongsOf(p.frames);
  }

  /** A frame of which a part is still to be read is not complete. */
  lemma Unfinished(r: Read, partial: Bytes, f: Fields, left: Bytes)
    requires Expects(r, partial, f) && |left| < r.count
    ensures ReadFrame(partial + left) == Short
  {
    hide Number, Masked, Acceptable, LengthSize;
    if |partial| >= 2 {
      var s := partial + left;
      assert s[0] == partial[0] && s[1] == partial[1];
      if |partial| >= 2 + LengthSize(partial[1]) {
        Extended(partial, left);
      }
    }
  }

  /** The stream answers the reads of the protocol from the bytes at hand, as long as it can. */
  method Feed(p: WebSocketProtocol13, bytes: Bytes) returns (left: Bytes, raised: bool)
    requires p.Valid() && (!p.clientTerminated ==> p.reading.Some?)
    modifies p
    ensures p.Valid() && p.input + left == old(p.input) + bytes
    ensures p.reading.None? || |left| < p.reading.value.count
    ensures !p.clientTerminated && !raised ==> p.reading.Some?
    ensures old(p.messages) <= p.messages && old(p.pongs) <= p.pongs
    ensures old(p.clientTerminated) ==> p.clientTerminated
    ensures raised ==> p.reading.None? && p.abandoned
    ensures old(p.abandoned) ==> p.abandoned
  {
    hide WebSocketProtocol13.Valid;
    left, raised := bytes, false;
    while !raised && p.reading.Some? && p.reading.value.count <= |left|
      invariant p.Valid() && p.input + left == old(p.input) + bytes
      invariant !p.clientTerminated && !raised ==> p.reading.Some?
      invariant old(p.messages) <= p.messages && old(p.pongs) <= p.pongs
      invariant old(p.clientTerminated) ==> p.clientTerminated
      invariant raised ==> p.reading.None? && p.abandoned
      invariant old(p.abandoned) ==> p.abandoned
      decreases |left|, p.reading.Some? && p.reading.value.count == 0
    {
      var count := p.reading.value.count;
      assert left == left[..count] + left[count..];
      ghost var before := p.input;
      raised := p.Received(left[..count]);
      assert p.input + left[count..] == before + left;
      left := left[count..];
    }
  }

  /** The two together: what a peer writes to send a message arrives in any pieces, and unless the stream fails or
      the application gives up, the connection stays open and exactly that message is handed over. */
  method EndToEnd(p: WebSocketProtocol13, sent: seq<Wire>, opcode: bv8, parts: seq<Bytes>, pieces: seq<Bytes>)
    requires p.Valid() && p.input == [] && !p.clientTerminated && p.reading.Some?
    requires AllSendable(sent) && Flatten(pieces) == Written(sent)
    requires OnlyPings(FramesOf(sent)) && parts != [] && DataFrames(FramesOf(sent)) == Fragments(opcode, parts)
    requires opcode == 0x2 || (opcode == 0x1 && p.validText(Flatten(parts)))
    modifies p
    ensures p.Valid()
    ensures !p.abandoned ==>
              && !p.clientTerminated && !p.streamClosed
              && p.messages == [Message(opcode, Flatten(parts))] && p.pongs == PongsOf(FramesOf(sent))
  {
    hide WebSocketProtocol13.Valid, Flatten, Written, FramesOf, DataFrames, Fragments, OnlyPings, PongsOf;
    var left := Arrive(p, pieces);
    if !p.abandoned {
      NotDone(p, left, sent, opcode, parts);
      AllRead(p, left, sent);
      MessageDelivered(p, sent, opcode, parts);
    }
  }

  /** Bytes arrive in pieces; those that no read waits for stay with the stream. */
  method Arrive(p: WebSocketProtocol13, pieces: seq<Bytes>) returns (left: Bytes)
    requires p.Valid() && p.input == [] && !p.clientTerminated && p.reading.Some?
    modifies p
    ensures p.Valid() && p.input + left == Flatten(pieces)
    ensures p.reading.None? || |left| < p.reading.value.count
    ensures !p.clientTerminated && !p.abandoned ==> p.reading.Some?
  {
    hide WebSocketProtocol13.Valid, Flatten;
    assert pieces[..0] == [] && pieces[..|pieces|] == pieces;
    FlattenNone();
    var raised;
    left, raised := Feed(p, []);
    for n := 0 to |pieces|
      invariant p.Valid() && p.input + left == Flatten(pieces[..n])
      invariant p.reading.None? || |left| < p.reading.value.count
      invariant !p.clientTerminated && !raised ==> p.reading.Some?
      invariant raised ==> p.reading.None? && p.abandoned
    {
      assert pieces[..n + 1] == pieces[..n] + [pieces[n]];
      FlattenSnoc(pieces[..n], pieces[n]);
      assert (p.input + left) + pieces[n] == p.input + (left + pieces[n]);
      if raised || p.reading.None? {
        left := left + pieces[n];
      } else {
        left, raised := Feed(p, left + pieces[n]);
      }
    }
  }

  /** A peer that keeps to the rules gives no reason to end the connection. */
  lemma NotDone(p: WebSocketProtocol13, left: Bytes, sent: seq<Wire>, opcode: bv8, parts: seq<Bytes>)
    requires p.Valid() && !p.abandoned
    requires AllSendable(sent) && p.input + left == Written(sent)
    requires OnlyPings(FramesOf(sent)) && parts != [] && DataFrames(FramesOf(sent)) == Fragments(opcode, parts)
    requires opcode == 0x2 || (opcode == 0x1 && p.validText(Flatten(parts)))
    ensures !p.clientTerminated && !p.streamClosed
  {
    hide AddAll, Cut, Written, FramesOf, DataFrames, Fragments, OnlyPings, Flatten, ReadFrame, Acceptable;
    var rest := p.partial + left;
    assert p.input + left == Flatten(p.raw) + rest;
    CutIsPrefix(p.raw, p.frames, rest, sent);
    Reassembly(p.validText, NO_FRAMES, opcode, parts, FramesOf(sent));
    OverStays(p.validText, p.frames, FramesOf(sent));
    if |p.partial| >= 2 {
      assert rest[0] == p.partial[0] && rest[1] == p.partial[1];
      HeaderAcceptable(sent[|p.raw|..]);
    }
  }

  lemma FlattenNone()
    ensures Flatten<bv8>([]) == []
  {
  }

  /** When everything has arrived and the next read waits for more, all frames have been read. */
  lemma AllRead(p: WebSocketProtocol13, left: Bytes, sent: seq<Wire>)
    requires p.Valid() && p.reading.Some? && |left| < p.reading.value.count
    requires AllSendable(sent) && p.input + left == Written(sent)
    ensures p.partial == [] && left == [] && p.input == Written(sent)
  {
    hide Cut, Written, Flatten, ReadFrame, AddAll;
    Unfinished(p.reading.value, p.partial, p.fields, left);
    assert p.input + left == Flatten(p.raw) + (p.partial + left);
    CutLeavesNothing(p.raw, p.frames, p.partial + left, sent);
  }

  /** Once a frame that ends the connection has been read, nothing is left of it. */
  lemma EndedIsGone(p: WebSocketProtocol13, n: nat)
    requires p.Valid() && Opcodes(p.frames) && n < |p.frames| && Ends(p.validText, p.frames[..n], p.frames[n])
    ensures p.clientTerminated && p.serverTerminated && p.streamClosed && !p.waiting
  {
    hide Cut, AddAll, Ends, Flatten;
    var m := SomeFirstEnd(p.validText, p.frames);
    WhatFramesAmountTo(p.validText, p.frames, m);
  }

  /** Any frames that a peer sends, in any pieces: unless the stream fails or the application gives up, exactly the
      messages and pongs before the first frame that ends the connection are handed over, and the connection is gone
      exactly if there is such a frame. */
  method Conversation(p: WebSocketProtocol13, ghost sent: seq<Wire>, ghost n: nat, pieces: seq<Bytes>)
    requires p.Valid() && p.input == [] && !p.clientTerminated && p.reading.Some?
    requires AllSendable(sent) && Flatten(pieces) == Written(sent) && FirstEnd(p.validText, FramesOf(sent), n)
    modifies p
    ensures p.Valid()
    ensures !p.abandoned ==>
              && p.messages == MessagesOf(DataFrames(FramesOf(sent)[..n]))
              && p.pongs == PongsOf(FramesOf(sent)[..n])
              && (p.clientTerminated <==> n < |sent|) && (p.streamClosed <==> n < |sent|)
              && (n < |sent| ==> !p.waiting)
  {
    hide WebSocketProtocol13.Valid, Flatten, Written, FramesOf, DataFrames, PongsOf, MessagesOf, FirstEnd;
    FramesOfEach(sent);
    var left := Arrive(p, pieces);
    if !p.abandoned {
      if p.clientTerminated {
        GoneForAReason(p, left, sent, n);
      } else {
        StillOpen(p, left, sent, n);
      }
    }
  }

  lemma GoneForAReason(p: WebSocketProtocol13, left: Bytes, sent: seq<Wire>, n: nat)
    requires p.Valid() && !p.abandoned && p.clientTerminated
    requires AllSendable(sent) && p.input + left == Written(sent) && FirstEnd(p.validText, FramesOf(sent), n)
    ensures |FramesOf(sent)| == |sent| && n < |sent| && p.streamClosed && !p.waiting
    ensures p.messages == MessagesOf(DataFrames(FramesOf(sent)[..n])) && p.pongs == PongsOf(FramesOf(sent)[..n])
  {
    hide AddAll, Cut, Written, FramesOf, DataFrames, MessagesOf, PongsOf, Flatten, ReadFrame, Acceptable, Ends;
    var rest := p.partial + left;
    assert p.input + left == Flatten(p.raw) + rest;
    CutIsPrefix(p.raw, p.frames, rest, sent);
    if |p.partial| >= 2 {
      assert rest[0] == p.partial[0] && rest[1] == p.partial[1];
      HeaderAcceptable(sent[|p.raw|..]);
    }
    var all := FramesOf(sent);
    SentOpcodes(sent);
    assert forall i :: 0 <= i <= |p.frames| ==> p.frames[..i] == all[..i];
    assert Opcodes(p.frames) by {
      assert forall f :: f in p.frames ==> f in all;
    }
    var m := SomeFirstEnd(p.validText, p.frames);
    WhatFramesAmountTo(p.validText, p.frames, m);
    assert m == n by {
      assert p.frames[m] == all[m] && p.frames[..m] == all[..m];
    }
  }

  lemma StillOpen(p: WebSocketProtocol13, left: Bytes, sent: seq<Wire>, n: nat)
    requires p.Valid() && !p.abandoned && !p.clientTerminated
    requires p.reading.Some? && |left| < p.reading.value.count
    requires AllSendable(sent) && p.input + left == Written(sent) && FirstEnd(p.validText, FramesOf(sent), n)
    ensures |FramesOf(sent)| == |sent| && n == |sent| && !p.streamClosed
    ensures p.messages == MessagesOf(DataFrames(FramesOf(sent)[..n])) && p.pongs == PongsOf(FramesOf(sent)[..n])
  {
    hide AddAll, Cut, Written, FramesOf, DataFrames, MessagesOf, PongsOf, Flatten, ReadFrame, Ends;
    assert n <= |FramesOf(sent)|;
    AllRead(p, left, sent);
    assert Flatten(p.raw) + [] == Flatten(p.raw);
    CutIsUnique(p.raw, p.frames, sent);
    SentOpcodes(sent);
    WhatFramesAmountTo(p.validText, p.frames, n);
  }

  lemma {:induction false} SentOpcodes(sent: seq<Wire>)
    requires AllSendable(sent)
    ensures Opcodes(FramesOf(sent)) && |FramesOf(sent)| == |sent|
  {
    if sent != [] {
      assert sent[0] in sent && forall w :: w in sent[1..] ==> w in sent;
      SentOpcodes(sent[1..]);
    }
  }
}
