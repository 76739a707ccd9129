/** `BaseIOStream` (tornado/iostream.py): a connected non-blocking stream over a socket that may
    return any segments and accept any part of what it is offered. */
module IOStreams {
  import opened Bytes
  import opened ReadSpec
  import opened ChunkDeques

  /** User callbacks are tokens; only the order in which they are scheduled matters here. */
  type Callback = nat

  const WRITE_CHUNK: nat := 131072

  /** An entry that this stream has put on the event loop's callback queue. `CloseStream` is the bare
      `self.close` of `_handle_events`; all others are `_run_callback` wrappers. */
  datatype Task =
    | RunRead(callback: Callback, data: Bytes)
    | RunStreaming(callback: Callback, data: Bytes)
    | RunWrite(callback: Callback)
    | RunClose(callback: Callback)
    | CloseStream

  /** One `recv`; an empty segment is end of file. */
  datatype Received = Nothing | Segment(data: Bytes) | Reset | Failed
  /** One `send`. */
  datatype Sent = Accepted(count: nat) | WouldBlock | Broken
  datatype Error = StreamClosed | SocketError | BufferFull | AlreadyReading
  datatype Mask = Mask(read: bool, write: bool)

  /** Number of `_run_callback` wrappers in a queue. */
  ghost function Wrappers(tasks: seq<Task>): nat {
    if tasks == [] then 0 else (if tasks[0].CloseStream? then 0 else 1) + Wrappers(tasks[1..])
  }

  /** Number of close callbacks in a queue. */
  ghost function Closes(tasks: seq<Task>): nat {
    if tasks == [] then 0 else (if tasks[0].RunClose? then 1 else 0) + Closes(tasks[1..])
  }

  // What the read callbacks in a queue are given, to whom, and all that read and streaming callbacks are given.

  ghost function ResultOf(t: Task): seq<Bytes> {
    if t.RunRead? then [t.data] else []
  }

  ghost function ResultsOf(tasks: seq<Task>): seq<Bytes> {
    if tasks == [] then [] else ResultOf(tasks[0]) + ResultsOf(tasks[1..])
  }

  ghost function ReaderOf(t: Task): seq<Callback> {
    if t.RunRead? then [t.callback] else []
  }

  ghost function ReadersOf(tasks: seq<Task>): seq<Callback> {
    if tasks == [] then [] else ReaderOf(tasks[0]) + ReadersOf(tasks[1..])
  }

  ghost function DataIn(t: Task): Bytes {
    if t.RunRead? || t.RunStreaming? then t.data else []
  }

  ghost function DataOf(tasks: seq<Task>): Bytes {
    if tasks == [] then [] else DataIn(tasks[0]) + DataOf(tasks[1..])
  }

  predicate IsData(t: Task) {
    t.RunRead? || t.RunStreaming?
  }

  /** The callbacks that are given data. */
  ghost function DataTasks(tasks: seq<Task>): seq<Task> {
    if tasks == [] then [] else (if IsData(tasks[0]) then [tasks[0]] else []) + DataTasks(tasks[1..])
  }

  /** The write callbacks. */
  ghost function WritersOf(tasks: seq<Task>): seq<Callback> {
    if tasks == [] then []
    else (if tasks[0].RunWrite? then [tasks[0].callback] else []) + WritersOf(tasks[1..])
  }

  lemma {:induction false} WritersSnoc(tasks: seq<Task>, t: Task)
    ensures WritersOf(tasks + [t]) == WritersOf(tasks) + if t.RunWrite? then [t.callback] else []
  {
    if tasks == [] {
      assert tasks + [t] == [t] && [t][1..] == [];
    } else {
      assert (tasks + [t])[1..] == tasks[1..] + [t];
      WritersSnoc(tasks[1..], t);
      var first := if tasks[0].RunWrite? then [tasks[0].callback] else [];
      var last := if t.RunWrite? then [t.callback] else [];
      assert first + (WritersOf(tasks[1..]) + last) == (first + WritersOf(tasks[1..])) + last;
    }
  }

  lemma {:induction false} DataTasksSnoc(tasks: seq<Task>, t: Task)
    ensures DataTasks(tasks + [t]) == DataTasks(tasks) + if IsData(t) then [t] else []
  {
    hide IsData;
    var last := if IsData(t) then [t] else [];
    if tasks == [] {
      assert tasks + [t] == [t] && [t][1..] == [] && DataTasks([]) == [];
    } else {
      assert (tasks + [t])[1..] == tasks[1..] + [t];
      DataTasksSnoc(tasks[1..], t);
      var first := if IsData(tasks[0]) then [tasks[0]] else [];
      assert DataTasks(tasks + [t]) == first + DataTasks(tasks[1..] + [t]);
      assert first + (DataTasks(tasks[1..]) + last) == (first + DataTasks(tasks[1..])) + last;
    }
  }

  /** All of these only go to this streaming callback. */
  ghost predicate AllStreaming(tasks: seq<Task>, streaming: Option<Callback>) {
    forall t :: t in tasks ==> t.RunStreaming? && streaming == Some(t.callback)
  }

  datatype Wanted = Count(count: nat) | Upto(delimiter: Bytes) | Everything

  /** The read that was issued last: its callbacks, what it asks for, and how much had been delivered, and in how many
      pieces, before it. */
  datatype Asked =
    | Nobody
    | Asked(callback: Callback, streaming: Option<Callback>, wanted: Wanted, from: nat, mark: nat)

  /** It ends with the delimiter, which does not occur in it before. */
  ghost predicate EndsFirst(delimiter: Bytes, data: Bytes) {
    && |delimiter| <= |data| && data[|data| - |delimiter|..] == delimiter
    && forall j: nat :: j < |data| - |delimiter| ==> !OccursAt(delimiter, data, j)
  }

  /** What a read up to a delimiter takes. */
  lemma TakesUpto(delimiter: Bytes, available: Bytes, n: nat)
    requires Take(ReadUntil(delimiter), available) == Some(n)
    ensures n <= |available| && EndsFirst(delimiter, available[..n])
  {
    TakeMeans(ReadUntil(delimiter), available);
    var data := available[..n];
    assert data[n - |delimiter|..] == available[n - |delimiter|..n];
    forall j: nat | j < n - |delimiter|
      ensures !OccursAt(delimiter, data, j)
    {
      assert data[j..j + |delimiter|] == available[j..j + |delimiter|];
      assert !OccursAt(delimiter, available, j);
    }
  }

  lemma SinceSnoc(handed: seq<Task>, mark: nat, delivered: Bytes, from: nat, t: Task)
    requires mark <= |handed| && from <= |delivered| && DataOf(handed[mark..]) == delivered[from..] && IsData(t)
    ensures (handed + [t])[mark..] == handed[mark..] + [t]
    ensures DataOf((handed + [t])[mark..]) == (delivered + t.data)[from..]
  {
    assert (handed + [t])[mark..] == handed[mark..] + [t];
    DataSnoc(handed[mark..], t);
    assert (delivered + t.data)[from..] == delivered[from..] + t.data;
  }

  lemma {:induction false} ResultsSnoc(tasks: seq<Task>, t: Task)
    ensures ResultsOf(tasks + [t]) == ResultsOf(tasks) + ResultOf(t)
  {
    hide ResultOf;
    if tasks == [] {
      assert tasks + [t] == [t] && [t][1..] == [];
    } else {
      assert (tasks + [t])[1..] == tasks[1..] + [t];
      ResultsSnoc(tasks[1..], t);
    }
  }

  lemma {:induction false} ReadersSnoc(tasks: seq<Task>, t: Task)
    ensures ReadersOf(tasks + [t]) == ReadersOf(tasks) + ReaderOf(t)
  {
    hide ReaderOf;
    if tasks == [] {
      assert tasks + [t] == [t] && [t][1..] == [];
    } else {
      assert (tasks + [t])[1..] == tasks[1..] + [t];
      ReadersSnoc(tasks[1..], t);
    }
  }

  lemma {:induction false} DataSnoc(tasks: seq<Task>, t: Task)
    ensures DataOf(tasks + [t]) == DataOf(tasks) + DataIn(t)
  {
    hide DataIn;
    if tasks == [] {
      assert tasks + [t] == [t] && [t][1..] == [];
    } else {
      assert (tasks + [t])[1..] == tasks[1..] + [t];
      DataSnoc(tasks[1..], t);
    }
  }

  lemma GivenSnoc(ran: seq<Task>, queue: seq<Task>, t: Task)
    ensures ResultsOf(ran + (queue + [t])) == ResultsOf(ran + queue) + if t.RunRead? then [t.data] else []
    ensures ReadersOf(ran + (queue + [t])) == ReadersOf(ran + queue) + if t.RunRead? then [t.callback] else []
    ensures DataOf(ran + (queue + [t])) ==
            DataOf(ran + queue) + if t.RunRead? || t.RunStreaming? then t.data else []
    ensures DataTasks(ran + (queue + [t])) == DataTasks(ran + queue) + if IsData(t) then [t] else []
    ensures WritersOf(ran + (queue + [t])) == WritersOf(ran + queue) + if t.RunWrite? then [t.callback] else []
  {
    hide ResultsOf, ReadersOf, DataOf, DataTasks, WritersOf;
    assert (ran + queue) + [t] == ran + (queue + [t]);
    ResultsSnoc(ran + queue, t);
    ReadersSnoc(ran + queue, t);
    DataSnoc(ran + queue, t);
    DataTasksSnoc(ran + queue, t);
    WritersSnoc(ran + queue, t);
  }

  /** What is given does not depend on what comes later in the queue. */
  lemma {:induction false} ResultsPrefix(tasks: seq<Task>, more: seq<Task>)
    ensures ResultsOf(tasks) <= ResultsOf(tasks + more) && ReadersOf(tasks) <= ReadersOf(tasks + more)
  {
    hide ResultOf, ReaderOf;
    if tasks == [] {
      assert tasks + more == more;
    } else {
      assert (tasks + more)[1..] == tasks[1..] + more;
      ResultsPrefix(tasks[1..], more);
    }
  }

  lemma {:induction false} WrappersSnoc(tasks: seq<Task>, t: Task)
    ensures Wrappers(tasks + [t]) == Wrappers(tasks) + if t.CloseStream? then 0 else 1
    ensures Closes(tasks + [t]) == Closes(tasks) + if t.RunClose? then 1 else 0
  {
    if tasks == [] {
      assert tasks + [t] == [t];
    } else {
      assert (tasks + [t])[1..] == tasks[1..] + [t];
      WrappersSnoc(tasks[1..], t);
    }
  }

  lemma FlattenFirstChunk(chunks: seq<Bytes>)
    requires chunks != []
    ensures Flatten(chunks) == chunks[0] + Flatten(chunks[1..])
  {
  }

  /** A close callback in the queue has no other callback ahead of it. */
  ghost predicate CloseAfterData(tasks: seq<Task>) {
    forall i, j :: 0 <= j < i < |tasks| && tasks[i].RunClose? ==> tasks[j].CloseStream?
  }

  lemma {:induction false} NoWrappers(tasks: seq<Task>)
    requires Wrappers(tasks) == 0
    ensures forall i :: 0 <= i < |tasks| ==> tasks[i].CloseStream?
  {
    if tasks != [] {
      NoWrappers(tasks[1..]);
    }
  }

  ghost predicate StrictlyIncreasing(s: seq<nat>) {
    forall i, j :: 0 <= i < j < |s| ==> s[i] < s[j]
  }

  class BaseIOStream {
    const maxBufferSize: nat
    const readBuffer: ChunkDeque
    const writeBuffer: ChunkDeque
    var readBufferSize: nat
    var writeBufferFrozen: bool
    var readDelimiter: Option<Bytes>
    var readBytes: Option<nat>
    var readUntilClose: bool
    var readCallback: Option<Callback>
    var streamingCallback: Option<Callback>
    var writeCallback: Option<Callback>
    var closeCallback: Option<Callback>
    var state: Option<Mask>
    var pendingCallbacks: nat
    var closed: bool
    /** This stream's entries on the event loop's queue, oldest first. */
    var queue: seq<Task>
    /** The event loop is inside one of this stream's wrappers. */
    var inCallback: bool

    // Histories.
    ghost var received: Bytes            // read from the socket
    ghost var delivered: Bytes           // handed to read and streaming callbacks
    ghost var results: seq<Bytes>        // what each completed read was given
    ghost var readers: seq<Callback>     // and the callback it was given to
    ghost var ran: seq<Task>             // what the event loop has taken off its queue
    ghost var told: seq<Callback>        // write callbacks, in the order queued
    ghost var handed: seq<Task>          // read and streaming callbacks, in the order queued
    ghost var asked: Asked               // the read issued last
    ghost var accepted: Bytes            // passed to Write
    ghost var sent: Bytes                // taken by the socket
    ghost var offered: Bytes             // the last send attempt
    ghost var requests: seq<Request>     // plain reads issued
    ghost var callers: seq<Callback>     // and their callbacks
    ghost var waiting: bool              // the last of them is not answered yet
    ghost var plain: bool                // no other kind of read, and none issued on a closed stream
    ghost var registrations: nat         // calls of SetCloseCallback
    ghost var wanted: bool               // the last of them gave a callback
    ghost var closesScheduled: seq<nat>  // the registrations whose callback was scheduled
    ghost var closesRun: nat             // how many of those the event loop has taken off its queue
    ghost var late: bool                 // a close callback was registered on a closed stream
    ghost var used: bool                 // a read or a write has been issued

    /** Bytes delivered followed by bytes buffered are the bytes read. */
    ghost predicate ReadSide()
      reads `readBufferSize, `received, `delivered, readBuffer
    {
      && readBuffer.NoEmptyChunk()
      && readBufferSize == |readBuffer.Contents()|
      && received == delivered + readBuffer.Contents()
    }

    /** Bytes sent followed by bytes buffered are the bytes accepted; a frozen buffer still starts with
        the bytes of the attempt that froze it. */
    ghost predicate WriteSide()
      reads `accepted, `sent, `writeBufferFrozen, `offered, writeBuffer
    {
      && writeBuffer.NoEmptyChunk()
      && accepted == sent + writeBuffer.Contents()
      && (writeBufferFrozen ==> writeBuffer.chunks != [] && |writeBuffer.chunks[0]| <= WRITE_CHUNK)
      && (writeBufferFrozen ==> offered == writeBuffer.chunks[0])
    }

    /** `extra` counts the increments of `_pending_callbacks` that stand for no queued wrapper. The close callbacks
        scheduled are those in the queue and those that have been taken off it, and so are the results. */
    ghost predicate Counts(extra: nat)
      reads `pendingCallbacks, `queue, `closesScheduled, `closesRun, `ran, `results, `readers, `handed, `delivered
      reads `told
    {
      && pendingCallbacks == Wrappers(queue) + extra && CloseAfterData(queue)
      && |closesScheduled| == closesRun + Closes(queue)
      && Given()
    }

    /** The results are what the read callbacks have been given, by the event loop or by what is on its queue; and
        the bytes delivered are what read and streaming callbacks have been given. */
    ghost predicate Given()
      reads `queue, `ran, `results, `readers, `handed, `delivered, `told
    {
      && results == ResultsOf(ran + queue) && readers == ReadersOf(ran + queue)
      && delivered == DataOf(ran + queue) && handed == DataTasks(ran + queue) && told == WritersOf(ran + queue)
    }

    /** Each registration of a close callback is scheduled at most once, and is not forgotten before that. */
    ghost predicate Closing()
      reads `closed, `state, `closesScheduled, `registrations, `wanted, `closeCallback
    {
      && (closed ==> state.None?)
      && (closeCallback.Some? ==> wanted)
      && (wanted && closeCallback.None? ==> registrations in closesScheduled)
      && StrictlyIncreasing(closesScheduled)
      && (forall i :: 0 <= i < |closesScheduled| ==>
            closesScheduled[i] <= registrations && (closeCallback.Some? ==> closesScheduled[i] < registrations))
    }

    /** On an open stream a read callback is held exactly while one kind of read is pending. */
    ghost predicate Modes()
      reads `closed, `readCallback, `readBytes, `readDelimiter, `readUntilClose, `streamingCallback, `plain, `waiting
      reads `callers
    {
      && (closed ==> !readUntilClose)
      && (plain && readCallback.Some? ==> callers != [] && callers[|callers| - 1] == readCallback.value)
      && (!closed ==>
        && (readCallback.None? ==> readBytes.None? && readDelimiter.None? && !readUntilClose && streamingCallback.None?)
        && (readCallback.Some? ==> readBytes.Some? || readDelimiter.Some? || readUntilClose)
        && (readDelimiter.Some? ==> readBytes.None? && !readUntilClose && streamingCallback.None?)
        && (readBytes.Some? ==> !readUntilClose)
        && (plain ==> (waiting <==> readCallback.Some?)))
    }

    /** The read callback and its streaming callback, if any, have been given all that was delivered since the read
        was issued: the streaming callback first, in any number of pieces, and the read callback last, once. */
    ghost predicate Finished()
      requires asked.Asked? && asked.mark <= |handed|
      reads `asked, `handed
    {
      var since := handed[asked.mark..];
      && since != [] && since[|since| - 1].RunRead? && since[|since| - 1].callback == asked.callback
      && AllStreaming(since[..|since| - 1], asked.streaming)
    }

    ghost predicate Since()
      reads `asked, `handed, `delivered
    {
      asked.Asked? ==>
        && asked.mark <= |handed| && asked.from <= |delivered|
        && DataOf(handed[asked.mark..]) == delivered[asked.from..]
    }

    /** What is still wanted of what was asked for. */
    ghost predicate Wanting()
      requires asked.Asked?
      reads `asked, `delivered, `readBytes, `readDelimiter, `closed
    {
      match asked.wanted
      case Count(count) => readBytes.Some? && readBytes.value + (|delivered| - asked.from) == count
      case Upto(delimiter) => readDelimiter == Some(delimiter) && (!closed ==> |delivered| == asked.from)
      case Everything => true
    }

    /** What was asked for has been delivered. */
    ghost predicate Satisfied()
      requires asked.Asked? && asked.from <= |delivered|
      reads `asked, `delivered
    {
      match asked.wanted
      case Count(count) => |delivered| - asked.from == count
      case Upto(delimiter) => EndsFirst(delimiter, delivered[asked.from..])
      case Everything => true
    }

    /** The read issued last is pending with its own callbacks, or has been answered, unless the stream was closed
        before; a read until close is answered exactly by closing. */
    ghost predicate Current()
      reads `asked, `handed, `delivered, `readCallback, `streamingCallback, `readBytes, `readUntilClose, `closed
      reads `readBufferSize, `readDelimiter
    {
      && Since() && (readCallback.Some? ==> asked.Asked?)
      && (asked.Asked? ==>
        && (readCallback.Some? ==>
              && readCallback == Some(asked.callback) && streamingCallback == asked.streaming
              && AllStreaming(handed[asked.mark..], asked.streaming)
              && Wanting())
        && (readCallback.None? && !closed ==> Finished() && Satisfied())
        && (asked.wanted.Everything? ==>
              if closed then readCallback.None? && Finished() && readBufferSize == 0
              else readCallback.Some? && readUntilClose))
    }

    /** Whatever could be completed from the buffer has a callback to give it to. */
    ghost predicate Servable()
      reads `readCallback, `readBytes, `readDelimiter, `streamingCallback, `readBufferSize
    {
      readCallback.None? ==> readBytes.None? && readDelimiter.None? && (streamingCallback.None? || readBufferSize == 0)
    }

    /** The requests answered so far. */
    ghost function Earlier(): seq<Request>
      reads `requests, `waiting
    {
      if waiting && requests != [] then requests[..|requests| - 1] else requests
    }

    /** While only plain reads are used, the results and the buffered bytes are what serving the requests
        from the one string of received bytes gives, whatever the segments were. */
    ghost predicate Refines()
      reads `plain, `waiting, `requests, `callers, `received, `results, `readers, `readBytes, `readDelimiter
      reads `readUntilClose, `streamingCallback, readBuffer
    {
      Answered(results, readers)
    }

    /** The same, once these results have been given to these callbacks. */
    ghost predicate Answered(results: seq<Bytes>, readers: seq<Callback>)
      reads `plain, `waiting, `requests, `callers, `received, `readBytes, `readDelimiter, `readUntilClose
      reads `streamingCallback, readBuffer
    {
      plain ==>
        && !readUntilClose && streamingCallback.None?
        && Serve(Earlier(), received) == (results, readBuffer.Contents())
        && |results| == |Earlier()| && |callers| == |requests| && readers == callers[..|Earlier()|]
        && (waiting ==> requests != [] && match requests[|requests| - 1]
              case ReadBytes(n) => readBytes == Some(n) && readDelimiter.None?
              case ReadUntil(d) => readDelimiter == Some(d) && readBytes.None?)
        && (!waiting ==> readBytes.None? && readDelimiter.None?)
    }

    /** A pending plain read on an open stream cannot be answered from the buffer. */
    ghost predicate Blocked()
      reads `plain, `waiting, `closed, `requests, readBuffer
    {
      plain && waiting && !closed && requests != [] ==> Take(requests[|requests| - 1], readBuffer.Contents()).None?
    }

    ghost predicate Inv(extra: nat)
      reads this, readBuffer, writeBuffer
    {
      && readBuffer != writeBuffer && ReadSide() && WriteSide() && Counts(extra) && Closing() && Modes() && Current()
      && Refines()
    }

    /** Between calls. A closed stream with a close callback left has callbacks to wait for; an open one that
        has been used is registered with the event loop or has a callback to come. */
    ghost predicate Settled()
      reads `closed, `closeCallback, `late, `inCallback, `pendingCallbacks, `used, `state
    {
      && (closed && closeCallback.Some? && !late && !inCallback ==> pendingCallbacks > 0)
      && (!closed && used && !inCallback ==> state.Some? || pendingCallbacks > 0)
    }

    ghost predicate Valid()
      reads this, readBuffer, writeBuffer
    {
      Inv(0) && Blocked() && Settled()
    }

    constructor (maxBufferSize: nat)
      ensures Valid() && fresh(readBuffer) && fresh(writeBuffer)
      ensures !closed && !used && !inCallback && !late && plain
      ensures requests == [] && results == [] && queue == [] && received == [] && accepted == [] && asked.Nobody?
      ensures told == []
    {
      this.maxBufferSize := maxBufferSize;
      readBuffer := new ChunkDeque();
      writeBuffer := new ChunkDeque();
      readBufferSize, pendingCallbacks := 0, 0;
      writeBufferFrozen, readUntilClose, closed := false, false, false;
      readDelimiter, readBytes := None, None;
      readCallback, streamingCallback, writeCallback, closeCallback := None, None, None, None;
      state := None;
      queue, requests, results, closesScheduled, readers, callers, ran := [], [], [], [], [], [], [];
      received, delivered, accepted, sent, offered := [], [], [], [], [];
      waiting, plain, late, inCallback, used := false, true, false, false, false;
      registrations, wanted, closesRun, handed, asked, told := 0, false, 0, [], Nobody, [];
      new;
      hide Serve, StrictlyIncreasing, CloseAfterData;
      assert Serve([], []) == ([], []);
    }

    /** `_run_callback`: count the callback as pending and queue its wrapper. What it is given counts as
        delivered. */
    method RunCallback(t: Task, ghost extra: nat)
      requires IsData(t) && Counts(extra)
      modifies `pendingCallbacks, `queue, `results, `readers, `handed, `delivered
      ensures Counts(extra) && pendingCallbacks == old(pendingCallbacks) + 1
      ensures queue == old(queue) + [t]
      ensures results == old(results) + if t.RunRead? then [t.data] else []
      ensures readers == old(readers) + if t.RunRead? then [t.callback] else []
      ensures delivered == old(delivered) + t.data
      ensures handed == old(handed) + [t]
    {
      hide ResultsOf, ReadersOf, DataOf, DataTasks, WritersOf;
      WrappersSnoc(queue, t);
      GivenSnoc(ran, queue, t);
      pendingCallbacks := pendingCallbacks + 1;
      queue := queue + [t];
      results := results + if t.RunRead? then [t.data] else [];
      readers := readers + if t.RunRead? then [t.callback] else [];
      delivered := delivered + t.data;
      handed := handed + [t];
    }

    /** `_run_callback` of the write callback. */
    method RunWriteCallback(callback: Callback)
      requires Counts(0)
      modifies `pendingCallbacks, `queue, `told
      ensures Counts(0) && pendingCallbacks == old(pendingCallbacks) + 1
      ensures queue == old(queue) + [RunWrite(callback)] && told == old(told) + [callback]
    {
      hide ResultsOf, ReadersOf, DataOf, DataTasks, WritersOf;
      WrappersSnoc(queue, RunWrite(callback));
      GivenSnoc(ran, queue, RunWrite(callback));
      pendingCallbacks := pendingCallbacks + 1;
      queue := queue + [RunWrite(callback)];
      told := told + [callback];
    }

    /** `_run_callback` of the close callback, which is only called with nothing pending. */
    method RunCloseCallback(callback: Callback, ghost extra: nat)
      requires Counts(extra) && pendingCallbacks == 0
      modifies `pendingCallbacks, `queue, `closesScheduled
      ensures Counts(extra) && pendingCallbacks == old(pendingCallbacks) + 1
      ensures queue == old(queue) + [RunClose(callback)]
      ensures closesScheduled == old(closesScheduled) + [registrations]
    {
      hide ResultsOf, ReadersOf, DataOf, DataTasks, WritersOf;
      WrappersSnoc(queue, RunClose(callback));
      GivenSnoc(ran, queue, RunClose(callback));
      NoWrappers(queue);
      pendingCallbacks := pendingCallbacks + 1;
      queue := queue + [RunClose(callback)];
      closesScheduled := closesScheduled + [registrations];
    }

    /** `_consume`; the bytes are in hand, to be given to a callback. */
    method Consume(loc: nat) returns (data: Bytes)
      requires ReadSide() && loc <= readBufferSize
      modifies `readBufferSize, readBuffer
      ensures InHand(data) && |data| == loc && data == old(readBuffer.Contents())[..loc]
      ensures readBuffer.Contents() == old(readBuffer.Contents())[loc..]
    {
      if loc == 0 {
        assert delivered + [] == delivered;
        return [];
      }
      readBuffer.MergePrefix(loc);
      readBufferSize := readBufferSize - loc;
      data := readBuffer.PopLeft();
      assert (delivered + data) + readBuffer.Contents() == delivered + (data + readBuffer.Contents());
    }

    /** Bytes that have been taken off the buffer and not been delivered yet come in between. */
    ghost predicate InHand(data: Bytes)
      reads `readBufferSize, `received, `delivered, readBuffer
    {
      && readBuffer.NoEmptyChunk()
      && readBufferSize == |readBuffer.Contents()|
      && received == delivered + data + readBuffer.Contents()
    }

    /** `_maybe_run_close_callback`: schedules the close callback if the stream is closed and no callback is
        pending, and then forgets it. */
    method MaybeRunCloseCallback(ghost extra: nat)
      requires Counts(extra) && Closing() && Modes() && Current()
      modifies `closeCallback, `pendingCallbacks, `queue, `closesScheduled, `readCallback, `writeCallback
      ensures Counts(extra) && Closing() && Modes() && Current()
      ensures closed && closeCallback.Some? ==> pendingCallbacks > 0
      ensures old(closed && closeCallback.Some? && pendingCallbacks == 0) ==>
                && closeCallback.None? && closesScheduled == old(closesScheduled) + [registrations]
                && queue == old(queue) + [RunClose(old(closeCallback).value)]
      ensures !old(closed && closeCallback.Some? && pendingCallbacks == 0) ==> unchanged(this)
    {
      hide Wrappers, Closes, CloseAfterData, Given, Counts, DataOf, AllStreaming, Finished, Since;
      if closed && closeCallback.Some? && pendingCallbacks == 0 {
        var cb := closeCallback.value;
        closeCallback := None;
        RunCloseCallback(cb, extra);
        readCallback, writeCallback := None, None;
      }
    }

    /** What streaming gives to its callback. */
    method GiveStreaming(data: Bytes, ghost extra: nat)
      requires InHand(data) && Counts(extra) && Giving() && streamingCallback.Some?
      requires asked.streaming == streamingCallback
      modifies `pendingCallbacks, `queue, `results, `readers, `handed, `delivered
      ensures ReadSide() && Counts(extra) && Giving() && pendingCallbacks == old(pendingCallbacks) + 1
      ensures queue == old(queue) + [RunStreaming(streamingCallback.value, data)] && delivered == old(delivered) + data
      ensures results == old(results) && readers == old(readers)
    {
      hide Counts, DataOf, Flatten, ChunkDeque.Contents, ChunkDeque.NoEmptyChunk;
      SinceSnoc(handed, asked.mark, delivered, asked.from, RunStreaming(streamingCallback.value, data));
      RunCallback(RunStreaming(streamingCallback.value, data), extra);
    }

    /** What the read callback is given, after all that was streamed. */
    method GiveRead(callback: Callback, data: Bytes, ghost extra: nat)
      requires InHand(data) && Counts(extra) && Giving() && asked.callback == callback
      modifies `pendingCallbacks, `queue, `results, `readers, `handed, `delivered
      ensures ReadSide() && Counts(extra) && asked.Asked? && Since() && Finished()
      ensures pendingCallbacks == old(pendingCallbacks) + 1
      ensures queue == old(queue) + [RunRead(callback, data)] && delivered == old(delivered) + data
      ensures results == old(results) + [data] && readers == old(readers) + [callback]
    {
      hide Counts, DataOf, Flatten, ChunkDeque.Contents, ChunkDeque.NoEmptyChunk;
      SinceSnoc(handed, asked.mark, delivered, asked.from, RunRead(callback, data));
      ghost var since := handed[asked.mark..];
      RunCallback(RunRead(callback, data), extra);
      assert handed[asked.mark..] == since + [RunRead(callback, data)];
    }

    /** So far only the streaming callback has been given anything. */
    ghost predicate Giving()
      reads `asked, `handed, `delivered
    {
      asked.Asked? && Since() && AllStreaming(handed[asked.mark..], asked.streaming)
    }

    lemma Pending()
      requires Current() && readCallback.Some?
      ensures Giving() && readCallback == Some(asked.callback) && asked.streaming == streamingCallback
    {
    }

    lemma ReadUntilCloseModes()
      requires Modes() && !closed && readUntilClose
      ensures readCallback.Some?
    {
    }

    /** The part of `close` that ends a read_until_close: everything buffered goes to its callbacks. */
    method FinishReadUntilClose(ghost extra: nat)
      requires ReadSide() && Counts(extra) && Modes() && Current() && !closed && readUntilClose
      modifies `pendingCallbacks, `queue, `readCallback, `readUntilClose, `readBufferSize, `delivered, `results
      modifies `readers, `handed, readBuffer
      ensures ReadSide() && Counts(extra) && pendingCallbacks > old(pendingCallbacks)
      ensures readBufferSize == 0 && !readUntilClose && readCallback.None?
      ensures asked.Asked? && Since() && Finished()
      ensures results == old(results) + [if old(streamingCallback.Some?) then [] else old(readBuffer.Contents())]
      ensures var buffered := old(readBuffer.Contents());
              queue == old(queue)
                + (if old(streamingCallback.Some?) && buffered != []
                   then [RunStreaming(old(streamingCallback).value, buffered)] else [])
                + [RunRead(old(readCallback).value, results[|old(results)|])]
    {
      hide Wrappers, Closes, CloseAfterData, Given, Counts, Modes, Current, Giving, Since, Finished, Flatten,
        ChunkDeque.Contents, ChunkDeque.NoEmptyChunk;
      ReadUntilCloseModes();
      Pending();
      if streamingCallback.Some? && readBufferSize > 0 {
        var data := Consume(readBufferSize);
        assert data == old(readBuffer.Contents());
        GiveStreaming(data, extra);
      }
      var callback := readCallback;
      readCallback := None;
      readUntilClose := false;
      var data := Consume(readBufferSize);
      assert old(readBuffer.Contents()) == [] <==> old(readBufferSize) == 0;
      assert data == if old(streamingCallback.Some?) then [] else old(readBuffer.Contents());
      GiveRead(callback.value, data, extra);
    }

    /** `close` */
    method Close(ghost extra: nat)
      requires ReadSide() && Counts(extra) && Closing() && Modes() && Current() && Refines()
      modifies `closeCallback, `pendingCallbacks, `queue, `closesScheduled, `readCallback, `writeCallback
      modifies `readUntilClose, `state, `closed, `readBufferSize, `delivered, `results, `readers, `handed, readBuffer
      ensures ReadSide() && Counts(extra) && Closing() && Modes() && Current() && Refines()
      ensures closed && (closeCallback.Some? ==> pendingCallbacks > 0)
      ensures pendingCallbacks >= old(pendingCallbacks) && (closeCallback.None? || closeCallback == old(closeCallback))
      ensures extra > 0 ==> closeCallback == old(closeCallback)
      ensures closesScheduled ==
              old(closesScheduled) + if closeCallback == old(closeCallback) then [] else [registrations]
      ensures extra > 0 && !old(readUntilClose) ==> readCallback == old(readCallback)
      ensures !old(readUntilClose) ==>
                readBuffer.chunks == old(readBuffer.chunks) && readBufferSize == old(readBufferSize)
                  && results == old(results)
      ensures old(readUntilClose) ==> readBufferSize == 0 && |results| == |old(results)| + 1
    {
      hide Serve, StrictlyIncreasing, Wrappers, Closes, CloseAfterData, Given, ReadSide, Refines;
      if !closed {
        Shut(extra);
      }
      MaybeRunCloseCallback(extra);
    }

    /** `close` of an open stream, up to the close callback. */
    method Shut(ghost extra: nat)
      requires !closed && ReadSide() && Counts(extra) && Closing() && Modes() && Current() && Refines()
      modifies `pendingCallbacks, `queue, `readCallback
      modifies `readUntilClose, `state, `closed, `readBufferSize, `delivered, `results, `readers, `handed, readBuffer
      ensures ReadSide() && Counts(extra) && Closing() && Modes() && Current() && Refines() && closed
      ensures pendingCallbacks >= old(pendingCallbacks)
      ensures !old(readUntilClose) ==>
                readBuffer.chunks == old(readBuffer.chunks) && readBufferSize == old(readBufferSize)
                  && results == old(results) && readCallback == old(readCallback)
      ensures old(readUntilClose) ==> readBufferSize == 0 && |results| == |old(results)| + 1
    {
      hide Serve, StrictlyIncreasing, Wrappers, Closes, CloseAfterData, Given, Counts, ReadSide;
      hide DataOf, AllStreaming, Finished, Flatten, ChunkDeque.Contents, ChunkDeque.NoEmptyChunk;
      if readUntilClose {
        FinishReadUntilClose(extra);
      }
      state := None;
      closed := true;
    }

    /** `read_from_fd` of `IOStream`: one `recv`, with any outcome. An empty segment closes the stream. */
    method ReadFromFd() returns (r: Received)
      requires !closed && ReadSide() && Counts(1) && Closing() && Modes() && Current() && Refines()
      modifies `closeCallback, `pendingCallbacks, `queue, `closesScheduled, `readCallback, `writeCallback
      modifies `readUntilClose, `state, `closed, `readBufferSize, `delivered, `results, `readers, `handed, readBuffer
      ensures ReadSide() && Counts(1) && Closing() && Modes() && Current() && Refines() && Servable()
      ensures closeCallback == old(closeCallback) && (!old(readUntilClose) ==> readCallback == old(readCallback))
      ensures closesScheduled == old(closesScheduled)
      ensures !closed ==> unchanged(this) && unchanged(readBuffer)
      ensures r.Segment? ==> !closed && r.data != []
    {
      hide Serve, StrictlyIncreasing, Wrappers, Closes, CloseAfterData, Given, ReadSide, Counts, Closing, Current,
        Refines, Flatten, ChunkDeque.Contents, ChunkDeque.NoEmptyChunk;
      r := *;
      if r == Segment([]) {
        Close(1);
        r := Nothing;
      }
    }

    /** The append in `_read_to_buffer`. */
    method AppendSegment(data: Bytes)
      requires data != [] && ReadSide() && Refines() && Current() && !closed
      modifies `readBufferSize, `received, readBuffer
      ensures ReadSide() && Refines() && Current()
      ensures received == old(received) + data && readBufferSize == old(readBufferSize) + |data|
    {
      hide Take;
      ServeMore(Earlier(), received, data);
      readBuffer.Append(data);
      readBufferSize := readBufferSize + |data|;
      received := received + data;
    }

    /** `_read_to_buffer`: the number of bytes read, None after a connection reset, or an error. */
    method ReadToBuffer() returns (n: Option<nat>, err: Option<Error>)
      requires !closed && ReadSide() && Counts(1) && Closing() && Modes() && Current() && Refines()
      modifies `closeCallback, `pendingCallbacks, `queue, `closesScheduled, `readCallback, `writeCallback
      modifies `readUntilClose, `state, `closed, `readBufferSize, `delivered, `results, `readers, `handed, `received
      modifies readBuffer
      ensures ReadSide() && Counts(1) && Closing() && Modes() && Current() && Refines() && Servable()
      ensures closeCallback == old(closeCallback) && (!old(readUntilClose) ==> readCallback == old(readCallback))
      ensures closesScheduled == old(closesScheduled)
      ensures old(received) <= received
      ensures (err.Some? || n.None?) ==> closed
      ensures !closed ==>
                readCallback == old(readCallback) && readUntilClose == old(readUntilClose) && state == old(state)
      ensures !closed ==> writeCallback == old(writeCallback)
      ensures !closed && n != Some(0) ==> old(readBufferSize) < readBufferSize < maxBufferSize
    {
      hide ReadSide, Refines, Closing, Counts, Current;
      var chunk := ReadFromFd();
      match chunk
      case Reset =>
        Close(1);
        return None, None;
      case Failed =>
        Close(1);
        return None, Some(SocketError);
      case Nothing =>
        return Some(0), None;
      case Segment(data) =>
        AppendSegment(data);
        if readBufferSize >= maxBufferSize {
          Close(1);
          return None, Some(BufferFull);
        }
        return Some(|data|), None;
    }

    /** The reading loop shared by `_try_inline_read` and `_handle_read`: read until the socket has nothing more
        to give. Meanwhile a callback is pretended to be pending, so that no close callback is scheduled. */
    method FillBuffer() returns (err: Option<Error>)
      requires ReadSide() && Counts(0) && Closing() && Modes() && Current() && Refines() && Servable()
      modifies `closeCallback, `pendingCallbacks, `queue, `closesScheduled, `readCallback, `writeCallback
      modifies `readUntilClose, `state, `closed, `readBufferSize, `delivered, `results, `readers, `handed, `received
      modifies readBuffer
      ensures ReadSide() && Counts(0) && Closing() && Modes() && Current() && Refines() && Servable()
      ensures closeCallback == old(closeCallback) && (!old(readUntilClose) ==> readCallback == old(readCallback))
      ensures closesScheduled == old(closesScheduled)
      ensures old(received) <= received
      ensures err.Some? ==> closed
      ensures !closed ==>
                readCallback == old(readCallback) && readUntilClose == old(readUntilClose) && state == old(state)
      ensures !closed ==> writeCallback == old(writeCallback)
    {
      hide Serve, Take, StrictlyIncreasing, Wrappers, Closes, CloseAfterData, Given, ReadSide, Closing, Modes,
        Current, Refines;
      err := None;
      pendingCallbacks := pendingCallbacks + 1;
      while !closed
        invariant ReadSide() && Counts(1) && Closing() && Modes() && Current() && Refines() && Servable()
        invariant closeCallback == old(closeCallback) && (!old(readUntilClose) ==> readCallback == old(readCallback))
        invariant closesScheduled == old(closesScheduled)
        invariant old(received) <= received
        invariant !closed ==>
                  readCallback == old(readCallback) && readUntilClose == old(readUntilClose) && state == old(state)
        invariant !closed ==> writeCallback == old(writeCallback)
        decreases if closed then 0 else 1 + if readBufferSize < maxBufferSize then maxBufferSize - readBufferSize else 0
      {
        var n;
        n, err := ReadToBuffer();
        if err.Some? || n == Some(0) {
          break;
        }
      }
      pendingCallbacks := pendingCallbacks - 1;
    }

    /** The search in `_read_from_buffer`: the first chunk is doubled until it holds the delimiter or everything. */
    method SearchBuffer(delimiter: Bytes) returns (loc: Option<nat>)
      requires ReadSide() && readBuffer.chunks != []
      modifies readBuffer
      ensures ReadSide() && readBuffer.Contents() == old(readBuffer.Contents())
      ensures loc == Find(delimiter, readBuffer.Contents())
      ensures loc.Some? ==> loc.value + |delimiter| <= readBufferSize
    {
      while true
        invariant ReadSide() && readBuffer.chunks != [] && readBuffer.Contents() == old(readBuffer.Contents())
        decreases |readBuffer.Contents()| - |readBuffer.chunks[0]|
      {
        var first := readBuffer.chunks[0];
        ghost var rest := Flatten(readBuffer.chunks[1..]);
        assert readBuffer.Contents() == first + rest;
        loc := Find(delimiter, first);
        FindFromIsFirst(delimiter, first, 0);
        if loc.Some? {
          FindInPrefix(delimiter, first, rest);
          return;
        }
        if |readBuffer.chunks| == 1 {
          assert rest == [];
          assert first + rest == first;
          return;
        }
        readBuffer.DoublePrefix();
      }
    }

    lemma AnswerLast(count: nat)
      requires Refines() && plain && waiting
      requires requests != [] && Take(requests[|requests| - 1], readBuffer.Contents()) == Some(count)
      ensures count <= |readBuffer.Contents()|
      ensures Serve(requests, received) ==
              (results + [readBuffer.Contents()[..count]], readBuffer.Contents()[count..])
    {
      hide Take;
      var last := requests[|requests| - 1];
      assert requests == Earlier() + [last];
      ServeSnoc(Earlier(), last, received);
      ServeOne(last, readBuffer.Contents());
    }

    /** An open stream's read until close is not completed by any amount of data. */
    lemma AskedMode()
      requires Modes() && Current() && readCallback.Some? && (readBytes.Some? || readDelimiter.Some?)
      ensures asked.Asked? && !asked.wanted.Everything? && (!closed && asked.wanted.Count? ==> readDelimiter.None?)
      ensures !closed && readDelimiter.Some? ==> asked.wanted == Upto(readDelimiter.value) && |delivered| == asked.from
      ensures !closed && readBytes.Some? ==> asked.wanted.Count?
    {
    }

    /** A completed read: `count` bytes go to the read callback, and the mode that was used is reset. */
    method Complete(count: nat, bytesMode: bool)
      requires ReadSide() && Counts(0) && Modes() && Current() && Refines()
      requires readCallback.Some? && count <= readBufferSize
      requires plain ==> waiting && requests != [] && requests[|requests| - 1].ReadBytes? == bytesMode
      requires plain ==> Take(requests[|requests| - 1], readBuffer.Contents()) == Some(count)
      requires if bytesMode then readBytes == Some(count)
               else && readDelimiter.Some?
                    && Take(Request.ReadUntil(readDelimiter.value), readBuffer.Contents()) == Some(count)
      modifies `pendingCallbacks, `queue, `readCallback, `streamingCallback, `readBytes, `readDelimiter
      modifies `readBufferSize, `delivered, `results, `readers, `handed, `waiting, readBuffer
      ensures ReadSide() && Counts(0) && Modes() && Current() && Refines()
      ensures pendingCallbacks == old(pendingCallbacks) + 1 && readCallback.None? && !waiting
      ensures results == old(results) + [old(readBuffer.Contents())[..count]]
      ensures queue == old(queue) + [RunRead(old(readCallback).value, results[|old(results)|])]
    {
      hide Finished, Since, AllStreaming, DataOf, Serve, Take, Wrappers, Closes, CloseAfterData, Given, Counts,
        Modes, Answered;
      hide Flatten, ChunkDeque.Contents, ChunkDeque.NoEmptyChunk;
      var callback := readCallback.value;
      AskedMode();
      Pending();
      if !bytesMode {
        TakesUpto(readDelimiter.value, readBuffer.Contents(), count);
      }
      hide EndsFirst;
      ghost var before := delivered;
      var data := FinishRead(count, bytesMode);
      GiveRead(callback, data, 0);
      assert (before + data)[|before|..] == data;
    }

    /** The result of a completed read is taken off the buffer, and its mode is reset. */
    method FinishRead(count: nat, bytesMode: bool) returns (data: Bytes)
      requires ReadSide() && Modes() && Refines() && readCallback.Some? && count <= readBufferSize
      requires plain ==> waiting && requests != [] && requests[|requests| - 1].ReadBytes? == bytesMode
      requires plain ==> Take(requests[|requests| - 1], readBuffer.Contents()) == Some(count)
      requires if bytesMode then readBytes.Some? else readDelimiter.Some?
      modifies `readCallback, `streamingCallback, `readBytes, `readDelimiter
      modifies `readBufferSize, `waiting, readBuffer
      ensures InHand(data) && Modes() && readCallback.None? && !waiting
      ensures Answered(results + [data], readers + [old(readCallback).value])
      ensures data == old(readBuffer.Contents())[..count]
    {
      hide Serve, Take, ReadSide, InHand, Flatten, ChunkDeque.Contents, ChunkDeque.NoEmptyChunk;
      if plain {
        AnswerLast(count);
      }
      readCallback, streamingCallback := None, None;
      if bytesMode {
        readBytes := None;
      } else {
        readDelimiter := None;
      }
      waiting := false;
      assert Modes();
      hide Modes;
      data := Consume(count);
    }

    /** The first step of `_read_from_buffer`: what is buffered, up to what the read still wants, goes to the
        streaming callback. */
    method Stream()
      requires ReadSide() && Counts(0) && Modes() && Current() && Refines()
      requires streamingCallback.Some? && readBufferSize > 0 && readCallback.Some?
      modifies `pendingCallbacks, `queue, `readBytes, `readBufferSize, `delivered, `results, `readers, `handed
      modifies readBuffer
      ensures ReadSide() && Counts(0) && Modes() && Current() && Refines()
      ensures pendingCallbacks == old(pendingCallbacks) + 1
      ensures results == old(results) && readers == old(readers)
      ensures readBytes.Some? == old(readBytes).Some?
      ensures readBytes.None? ==> readBufferSize == 0
      ensures readBytes.Some? && readBufferSize > 0 ==> readBytes == Some(0)
      ensures |queue| == |old(queue)| + 1 && queue[|old(queue)|].RunStreaming?
      ensures queue == old(queue) + [queue[|old(queue)|]] && delivered == old(delivered) + queue[|old(queue)|].data
    {
      hide Serve, Wrappers, Closes, CloseAfterData, Given;
      hide Flatten, ChunkDeque.Contents, ChunkDeque.NoEmptyChunk, Counts, DataOf;
      Pending();
      var count := readBufferSize;
      if readBytes.Some? {
        count := Min(readBytes.value, count);
        readBytes := Some(readBytes.value - count);
      }
      var data := Consume(count);
      GiveStreaming(data, 0);
    }

    /** `_read_from_buffer`: completes the pending read if the buffered bytes allow it. */
    method ReadFromBuffer() returns (done: bool)
      requires ReadSide() && Counts(0) && Modes() && Current() && Refines() && Servable()
      modifies `pendingCallbacks, `queue, `readCallback, `streamingCallback, `readBytes, `readDelimiter
      modifies `readBufferSize, `delivered, `results, `readers, `handed, `waiting, readBuffer
      ensures ReadSide() && Counts(0) && Modes() && Current() && Refines() && Blocked()
      ensures done ==> pendingCallbacks > 0
      ensures pendingCallbacks >= old(pendingCallbacks)
      ensures !done ==>
                Servable() && readCallback == old(readCallback) && waiting == old(waiting) && results == old(results)
    {
      hide Serve, Wrappers, Closes, CloseAfterData, Given, ReadSide, Counts, Find;
      if streamingCallback.Some? && readBufferSize > 0 {
        Stream();
      }
      BufferSize();
      if readBytes.Some? && readBufferSize >= readBytes.value {
        Complete(readBytes.value, true);
        return true;
      } else if readDelimiter.Some? {
        if readBuffer.chunks != [] {
          var loc := SearchBuffer(readDelimiter.value);
          if loc.Some? {
            Complete(loc.value + |readDelimiter.value|, false);
            return true;
          }
        }
      }
      return false;
    }

    lemma BufferSize()
      requires ReadSide()
      ensures readBufferSize == |readBuffer.Contents()|
      ensures readBuffer.chunks == [] ==> readBuffer.Contents() == []
      ensures readBuffer.chunks != [] ==> readBuffer.Contents() != []
    {
    }

    /** `_maybe_add_error_listener` */
    method MaybeAddErrorListener()
      requires Counts(0) && Closing() && Modes() && Current()
      modifies `closeCallback, `pendingCallbacks, `queue, `closesScheduled, `readCallback, `writeCallback, `state
      ensures Counts(0) && Closing() && Modes() && Current()
      ensures !closed ==> state.Some? || pendingCallbacks > 0
      ensures old(state).Some? ==> state == old(state)
      ensures closed && closeCallback.Some? ==> pendingCallbacks > 0
      ensures !old(closed) ==>
                readCallback == old(readCallback) && queue == old(queue) && writeCallback == old(writeCallback)
      ensures closeCallback.None? || closeCallback == old(closeCallback)
      ensures old(closesScheduled) <= closesScheduled
    {
      hide Wrappers, Closes, StrictlyIncreasing, CloseAfterData;
      if state.None? && pendingCallbacks == 0 {
        if closed {
          MaybeRunCloseCallback(0);
        } else {
          AddIoState(Mask(true, false));
        }
      }
    }

    /** `_add_io_state` */
    method AddIoState(wanted: Mask)
      requires Closing()
      modifies `state
      ensures Closing()
      ensures !closed ==> state.Some? && (wanted.read ==> state.value.read) && (wanted.write ==> state.value.write)
      ensures closed ==> state == old(state)
    {
      if closed {
        return;
      }
      if state.None? {
        state := Some(wanted);
      } else {
        state := Some(Mask(state.value.read || wanted.read, state.value.write || wanted.write));
      }
    }

    /** A read that has been issued, on any stream. */
    method Attempt() returns (err: Option<Error>)
      requires Inv(0) && Servable()
      modifies this, readBuffer
      ensures Inv(0) && Blocked()
      ensures closed && closeCallback.Some? && (!old(closed) || old(pendingCallbacks) > 0) ==> pendingCallbacks > 0
      ensures closeCallback.None? || closeCallback == old(closeCallback)
      ensures !closed ==> err.None? && (state.Some? || pendingCallbacks > 0)
      ensures ReadFrame()
    {
      hide Serve, Wrappers, Closes, CloseAfterData, Given, ReadSide, Closing, Modes, Refines, Current,
        StrictlyIncreasing, Counts, WriteSide, Take, Blocked;
      err := TryInlineRead();
    }

    /** `_try_inline_read` */
    method TryInlineRead() returns (err: Option<Error>)
      requires ReadSide() && Counts(0) && Closing() && Modes() && Current() && Refines() && Servable()
      modifies `closeCallback, `pendingCallbacks, `queue, `closesScheduled, `readCallback, `writeCallback
      modifies `readUntilClose, `state, `closed, `readBufferSize, `delivered, `results, `readers, `handed, `received
      modifies readBuffer
      modifies `streamingCallback, `readBytes, `readDelimiter, `waiting
      ensures ReadSide() && Counts(0) && Closing() && Modes() && Current() && Refines() && Blocked()
      ensures closed && closeCallback.Some? && (!old(closed) || old(pendingCallbacks) > 0) ==> pendingCallbacks > 0
      ensures closeCallback.None? || closeCallback == old(closeCallback)
      ensures !closed ==> err.None? && (state.Some? || pendingCallbacks > 0) && writeCallback == old(writeCallback)
      ensures old(received) <= received && old(closesScheduled) <= closesScheduled
    {
      hide Serve, Wrappers, Closes, CloseAfterData, Given, ReadSide, Closing, Modes, Refines, Current,
        StrictlyIncreasing, Counts, WriteSide, Take;
      hide Flatten, ChunkDeque.Contents, ChunkDeque.NoEmptyChunk;
      var done := ReadFromBuffer();
      if done {
        return None;
      }
      if closed {
        return Some(StreamClosed);
      }
      err := ReadMore();
    }

    /** The second half of `_try_inline_read`: what the socket has is read before waiting for it. */
    method ReadMore() returns (err: Option<Error>)
      requires ReadSide() && Counts(0) && Closing() && Modes() && Current() && Refines() && Servable() && !closed
      modifies `closeCallback, `pendingCallbacks, `queue, `closesScheduled, `readCallback, `writeCallback
      modifies `readUntilClose, `state, `closed, `readBufferSize, `delivered, `results, `readers, `handed, `received
      modifies readBuffer
      modifies `streamingCallback, `readBytes, `readDelimiter, `waiting
      ensures ReadSide() && Counts(0) && Closing() && Modes() && Current() && Refines() && Blocked()
      ensures closed && closeCallback.Some? ==> pendingCallbacks > 0
      ensures closeCallback.None? || closeCallback == old(closeCallback)
      ensures !closed ==> err.None? && (state.Some? || pendingCallbacks > 0) && writeCallback == old(writeCallback)
      ensures old(received) <= received && old(closesScheduled) <= closesScheduled
    {
      hide Serve, Wrappers, Closes, CloseAfterData, Given, ReadSide, Closing, Modes, Refines, Current,
        StrictlyIncreasing, Counts, WriteSide, Take;
      hide Flatten, ChunkDeque.Contents, ChunkDeque.NoEmptyChunk;
      var done;
      err, done := FillAndServe();
      if err.Some? {
        MaybeRunCloseCallback(0);
        return;
      }
      if done {
        return None;
      }
      MaybeAddErrorListener();
    }

    /** What `_try_inline_read` and `_handle_read` have in common: the reading loop, and then the pending read is
        completed if the buffer allows it. */
    method FillAndServe() returns (err: Option<Error>, done: bool)
      requires ReadSide() && Counts(0) && Closing() && Modes() && Current() && Refines() && Servable()
      modifies `closeCallback, `pendingCallbacks, `queue, `closesScheduled, `readCallback, `writeCallback
      modifies `readUntilClose, `state, `closed, `readBufferSize, `delivered, `results, `readers, `handed, `received
      modifies readBuffer
      modifies `streamingCallback, `readBytes, `readDelimiter, `waiting
      ensures ReadSide() && Counts(0) && Closing() && Modes() && Current() && Refines() && Blocked()
      ensures closeCallback == old(closeCallback) && closesScheduled == old(closesScheduled)
      ensures old(received) <= received
      ensures if err.Some? then closed else done ==> pendingCallbacks > 0
      ensures !closed ==> state == old(state) && writeCallback == old(writeCallback)
    {
      hide Serve, Wrappers, Closes, CloseAfterData, Given, ReadSide, Closing, Modes, Refines, Current,
        StrictlyIncreasing, Counts, Take;
      done := false;
      err := FillBuffer();
      if err.None? {
        done := ReadFromBuffer();
      }
    }

    lemma OpenServable()
      requires Modes() && !closed
      ensures Servable()
    {
    }

    /** What only `set_close_callback` and the event loop change: which close callback is wanted, and what has been
        run. Close callbacks that were scheduled stay so. */
    twostate predicate ClosesKept()
      reads `registrations, `wanted, `closesScheduled, `closesRun, `ran
    {
      && ran == old(ran) && registrations == old(registrations) && wanted == old(wanted) && closesRun == old(closesRun)
      && old(closesScheduled) <= closesScheduled
    }

    /** Fields that no read touches. */
    twostate predicate ReadFrame()
      reads this
    {
      && accepted == old(accepted) && sent == old(sent) && offered == old(offered)
      && writeBufferFrozen == old(writeBufferFrozen)
      && late == old(late) && inCallback == old(inCallback) && used == old(used) && ClosesKept()
      && requests == old(requests) && callers == old(callers) && plain == old(plain) && asked == old(asked)
      && old(received) <= received && WriterKept()
    }

    twostate predicate WritesKept()
      reads `closed, `writeCallback, `told, `accepted, `sent
    {
      accepted == old(accepted) && sent == old(sent) && WriterKept()
    }

    /** No write callback is scheduled, and one that an open stream holds stays. */
    twostate predicate WriterKept()
      reads `closed, `writeCallback, `told
    {
      told == old(told) && (!closed ==> writeCallback == old(writeCallback))
    }

    /** What issuing a read leaves as it is. */
    twostate predicate Issuing()
      reads this
    {
      && accepted == old(accepted) && sent == old(sent) && offered == old(offered) && received == old(received)
      && writeBufferFrozen == old(writeBufferFrozen) && late == old(late) && inCallback == old(inCallback)
      && closed == old(closed) && closeCallback == old(closeCallback) && pendingCallbacks == old(pendingCallbacks)
      && used && ClosesKept() && told == old(told) && writeCallback == old(writeCallback)
    }

    method IssueUntil(delimiter: Bytes, callback: Callback)
      requires Inv(0) && readCallback.None?
      modifies this
      ensures Inv(0) && Servable() && Issuing()
      ensures requests == old(requests) + [Request.ReadUntil(delimiter)] && plain == old(plain && !closed)
      ensures asked == Asked(callback, old(streamingCallback), Upto(delimiter), old(|delivered|), old(|handed|))
    {
      hide Servable, Serve, Wrappers, Closes, CloseAfterData, Given, ReadSide, Closing, StrictlyIncreasing, Counts,
        WriteSide, Take, Modes, Refines, Current;
      SetReadUntil(delimiter, callback);
    }

    /** `read_until` */
    method ReadUntil(delimiter: Bytes, callback: Callback) returns (err: Option<Error>)
      requires Valid()
      modifies this, readBuffer
      ensures Valid() && ReadKept()
      ensures old(readCallback).Some? ==> err == Some(AlreadyReading) && unchanged(this) && unchanged(readBuffer)
      ensures old(readCallback).None? ==>
                && requests == old(requests) + [Request.ReadUntil(delimiter)] && plain == old(plain && !closed)
                && asked == Asked(callback, old(streamingCallback), Upto(delimiter), old(|delivered|), old(|handed|))
    {
      hide Inv, Servable, Blocked, Serve, Wrappers, Closes, CloseAfterData, Given, ReadSide, Closing,
        StrictlyIncreasing, Counts, WriteSide, Take, Modes, Refines, Current;
      if readCallback.Some? {
        return Some(AlreadyReading);
      }
      IssueUntil(delimiter, callback);
      err := Attempt();
    }

    /** The fields of a read up to a delimiter. */
    method SetReadUntil(delimiter: Bytes, callback: Callback)
      requires Modes() && Current() && Refines() && readCallback.None?
      modifies `readCallback, `readDelimiter, `plain, `requests, `callers, `waiting, `used, `asked
      ensures Modes() && Current() && Refines() && Servable() && used && waiting && plain == old(plain && !closed)
      ensures requests == old(requests) + [Request.ReadUntil(delimiter)] && callers == old(callers) + [callback]
      ensures asked == Asked(callback, streamingCallback, Upto(delimiter), |delivered|, |handed|)
    {
      hide Serve, Current, Flatten, ChunkDeque.Contents, ChunkDeque.NoEmptyChunk;
      readCallback, readDelimiter, plain := Some(callback), Some(delimiter), plain && !closed;
      Issue(Request.ReadUntil(delimiter), callback);
      assert Modes() && Servable();
      hide Modes, Servable;
      assert Refines();
      hide Refines;
      Ask(callback, Upto(delimiter));
    }

    /** The fields of a read of so many bytes. */
    method SetReadBytes(count: nat, callback: Callback, streaming: Option<Callback>)
      requires Modes() && Current() && Refines() && readCallback.None?
      modifies `readCallback, `readBytes, `streamingCallback, `plain, `requests, `callers, `waiting, `used, `asked
      ensures Modes() && Current() && Refines() && Servable() && used && waiting
      ensures plain == (old(plain && !closed) && streaming.None?)
      ensures requests == old(requests) + [Request.ReadBytes(count)] && callers == old(callers) + [callback]
      ensures asked == Asked(callback, streaming, Count(count), |delivered|, |handed|)
    {
      hide Modes, Servable, Refines, Current;
      StartReadBytes(count, callback, streaming);
      Ask(callback, Count(count));
    }

    method StartReadBytes(count: nat, callback: Callback, streaming: Option<Callback>)
      requires Modes() && Refines() && readCallback.None?
      modifies `readCallback, `readBytes, `streamingCallback, `plain, `requests, `callers, `waiting, `used
      ensures Modes() && Refines() && Servable() && used && waiting
      ensures plain == (old(plain && !closed) && streaming.None?)
      ensures requests == old(requests) + [Request.ReadBytes(count)] && callers == old(callers) + [callback]
      ensures readCallback == Some(callback) && readBytes == Some(count) && streamingCallback == streaming
    {
      hide Take, Serve, Flatten, ChunkDeque.Contents, ChunkDeque.NoEmptyChunk;
      readCallback, readBytes, streamingCallback := Some(callback), Some(count), streaming;
      plain := plain && !closed && streaming.None?;
      Issue(Request.ReadBytes(count), callback);
      assert Refines() by {
        hide Modes, Servable;
      }
      hide Refines, Answered;
    }

    ghost method Ask(callback: Callback, wanted: Wanted)
      requires readCallback == Some(callback) && (wanted.Count? ==> readBytes == Some(wanted.count))
      requires wanted.Upto? ==> readDelimiter == Some(wanted.delimiter) && (!closed ==> streamingCallback.None?)
      requires wanted.Everything? ==> readUntilClose && !closed
      modifies `asked
      ensures Current() && asked == Asked(callback, streamingCallback, wanted, |delivered|, |handed|)
    {
      asked := Asked(callback, streamingCallback, wanted, |delivered|, |handed|);
    }

    ghost method Issue(request: Request, callback: Callback)
      modifies `requests, `callers, `waiting, `used
      ensures requests == old(requests) + [request] && callers == old(callers) + [callback] && waiting && used
      ensures Earlier() == old(requests)
      ensures callers[..|callers| - 1] == old(callers) == old(callers)[..|old(callers)|]
    {
      requests, callers, waiting, used := requests + [request], callers + [callback], true, true;
    }

    method IssueBytes(count: nat, callback: Callback, streaming: Option<Callback>)
      requires Inv(0) && readCallback.None?
      modifies this
      ensures Inv(0) && Servable() && Issuing()
      ensures requests == old(requests) + [Request.ReadBytes(count)]
      ensures plain == (old(plain && !closed) && streaming.None?)
      ensures asked == Asked(callback, streaming, Count(count), old(|delivered|), old(|handed|))
    {
      hide Servable, Serve, Wrappers, Closes, CloseAfterData, Given, ReadSide, Closing, StrictlyIncreasing, Counts,
        WriteSide, Take, Modes, Refines, Current;
      SetReadBytes(count, callback, streaming);
    }

    /** `read_bytes` */
    method ReadBytes(count: nat, callback: Callback, streaming: Option<Callback>) returns (err: Option<Error>)
      requires Valid()
      modifies this, readBuffer
      ensures Valid() && ReadKept()
      ensures old(readCallback).Some? ==> err == Some(AlreadyReading) && unchanged(this) && unchanged(readBuffer)
      ensures old(readCallback).None? ==>
                && requests == old(requests) + [Request.ReadBytes(count)]
                && plain == (old(plain && !closed) && streaming.None?)
                && asked == Asked(callback, streaming, Count(count), old(|delivered|), old(|handed|))
    {
      hide Inv, Servable, Blocked, Serve, Wrappers, Closes, CloseAfterData, Given, ReadSide, Closing,
        StrictlyIncreasing, Counts, WriteSide, Take, Modes, Refines, Current;
      if readCallback.Some? {
        return Some(AlreadyReading);
      }
      IssueBytes(count, callback, streaming);
      err := Attempt();
    }

    /** `read_until_close` on a closed stream: everything buffered goes to its callbacks. */
    method ReadClosed(callback: Callback, streaming: Option<Callback>)
      requires closed && ReadSide() && Counts(0) && Modes() && readCallback.None?
      modifies `pendingCallbacks, `queue, `streamingCallback, `plain, `used, `asked, `readBufferSize, `delivered
      modifies `results
      modifies `readers, `handed, readBuffer
      ensures ReadSide() && Counts(0) && Modes() && Current() && Refines() && pendingCallbacks > 0 && used && !plain
      ensures readBufferSize == 0 && streamingCallback.None?
      ensures asked == Asked(callback, streaming, Everything, old(|delivered|), old(|handed|))
    {
      hide ReadSide, Counts;
      plain, used, streamingCallback := false, true, streaming;
      asked := Asked(callback, streaming, Everything, |delivered|, |handed|);
      Drain(callback);
    }

    lemma NothingSince()
      requires asked.Asked? && asked.mark == |handed| && asked.from == |delivered|
      ensures Giving()
    {
    }

    method Drain(callback: Callback)
      requires ReadSide() && Counts(0) && asked.Asked? && asked.callback == callback
      requires asked.streaming == streamingCallback
      requires asked.mark == |handed| && asked.from == |delivered|
      modifies `pendingCallbacks, `queue, `streamingCallback, `readBufferSize, `delivered, `results, `readers, `handed
      modifies readBuffer
      ensures ReadSide() && Counts(0) && pendingCallbacks > 0 && Since() && Finished()
      ensures readBufferSize == 0 && streamingCallback.None?
      ensures var buffered := old(readBuffer.Contents());
              queue == old(queue) +
                if old(streamingCallback.Some?)
                then [RunStreaming(old(streamingCallback).value, buffered), RunRead(callback, [])]
                else [RunRead(callback, buffered)]
    {
      hide DataOf, AllStreaming, Wrappers, Closes, CloseAfterData, Given;
      NothingSince();
      hide Counts, Giving, Since, Finished, Flatten, ChunkDeque.Contents, ChunkDeque.NoEmptyChunk;
      if streamingCallback.Some? {
        var data := Consume(readBufferSize);
        assert data == old(readBuffer.Contents());
        GiveStreaming(data, 0);
      }
      var data := Consume(readBufferSize);
      assert data == if old(streamingCallback.Some?) then [] else old(readBuffer.Contents());
      GiveRead(callback, data, 0);
      streamingCallback := None;
    }

    /** `read_until_close` */
    method ReadUntilClose(callback: Callback, streaming: Option<Callback>) returns (err: Option<Error>)
      requires Valid()
      modifies this, readBuffer
      ensures Valid() && ReadKept()
      ensures old(readCallback).Some? ==> err == Some(AlreadyReading) && unchanged(this) && unchanged(readBuffer)
      ensures old(received) <= received
      ensures old(readCallback).None? && old(closed) ==> err.None? && readBufferSize == 0
      ensures old(readCallback).None? ==>
                && asked == Asked(callback, streaming, Everything, old(|delivered|), old(|handed|))
                && if closed then old(|handed|) < |handed| && Finished()
                   else readUntilClose && readCallback == Some(callback) && streamingCallback == streaming
    {
      hide Finished, Since, AllStreaming, DataOf, Servable, Serve, Wrappers, Closes, CloseAfterData, Given,
        StrictlyIncreasing, ReadSide, Closing, Counts, WriteSide, Take;
      hide Refines, Modes, Current;
      if readCallback.Some? {
        return Some(AlreadyReading);
      }
      if closed {
        ReadClosed(callback, streaming);
        UntilCloseState();
        return None;
      }
      IssueUntilClose(callback, streaming);
      err := Attempt();
      UntilCloseState();
    }

    method IssueUntilClose(callback: Callback, streaming: Option<Callback>)
      requires Inv(0) && readCallback.None? && !closed
      modifies this
      ensures Inv(0) && Servable() && Issuing()
      ensures asked == Asked(callback, streaming, Everything, old(|delivered|), old(|handed|))
    {
      hide Servable, Serve, Wrappers, Closes, CloseAfterData, Given, ReadSide, Closing, StrictlyIncreasing, Counts,
        WriteSide, Take, Modes, Refines, Current;
      SetReadUntilClose(callback, streaming);
    }

    lemma UntilCloseState()
      requires Current() && asked.Asked? && asked.wanted.Everything?
      ensures asked.mark <= |handed|
      ensures if closed then asked.mark < |handed| && Finished()
              else readUntilClose && readCallback == Some(asked.callback) && streamingCallback == asked.streaming
    {
    }

    method SetReadUntilClose(callback: Callback, streaming: Option<Callback>)
      requires Modes() && Current() && !closed && readCallback.None?
      modifies `plain, `used, `streamingCallback, `readCallback, `readUntilClose, `asked
      ensures Modes() && Current() && Refines() && Servable() && used && !plain
      ensures asked == Asked(callback, streaming, Everything, |delivered|, |handed|)
    {
      hide Current;
      plain, used := false, true;
      streamingCallback := streaming;
      readCallback := Some(callback);
      readUntilClose := true;
      Ask(callback, Everything);
    }

    /** What no read operation changes. */
    twostate predicate ReadKept()
      reads this
    {
      && accepted == old(accepted) && sent == old(sent) && offered == old(offered)
      && writeBufferFrozen == old(writeBufferFrozen)
      && late == old(late) && inCallback == old(inCallback) && ClosesKept()
      && (old(used) ==> used) && old(received) <= received && WriterKept()
    }

    /** The buffering in `write`: pieces of at most 128 KB, never an empty one. */
    method BufferWrite(data: Bytes)
      requires WriteSide() && data != []
      modifies `accepted, writeBuffer
      ensures WriteSide() && accepted == old(accepted) + data
      ensures old(writeBuffer.chunks) <= writeBuffer.chunks && writeBuffer.chunks != []
    {
      hide WriteSide;
      if |data| > WRITE_CHUNK {
        var i := 0;
        while i < |data|
          invariant 0 <= i
          invariant WriteSide() && old(writeBuffer.chunks) <= writeBuffer.chunks
          invariant accepted == old(accepted) + data[..Min(i, |data|)]
          invariant i > 0 ==> writeBuffer.chunks != []
        {
          var piece := data[i..Min(i + WRITE_CHUNK, |data|)];
          BufferPiece(piece);
          assert data[..Min(i + WRITE_CHUNK, |data|)] == data[..i] + piece;
          i := i + WRITE_CHUNK;
        }
        assert data[..|data|] == data;
      } else {
        BufferPiece(data);
      }
    }

    method BufferPiece(piece: Bytes)
      requires WriteSide() && piece != []
      modifies `accepted, writeBuffer
      ensures WriteSide() && accepted == old(accepted) + piece
      ensures old(writeBuffer.chunks) <= writeBuffer.chunks && writeBuffer.chunks != []
    {
      writeBuffer.Append(piece);
      accepted := accepted + piece;
    }

    /** `write_to_fd`: one `send`, which takes any part of what it is offered. An attempt is never empty nor
        longer than 128 KB, and after one that made no progress the same bytes are offered again. */
    method WriteToFd(data: Bytes) returns (r: Sent)
      requires 0 < |data| <= WRITE_CHUNK
      requires writeBufferFrozen ==> data == offered
      modifies `offered, `sent
      ensures offered == data
      ensures r.Accepted? ==> r.count <= |data| && sent == old(sent) + data[..r.count]
      ensures !r.Accepted? ==> sent == old(sent)
    {
      offered := data;
      assert !WouldBlock.Accepted?;
      r :| r.Accepted? ==> r.count <= |data|;
      if r.Accepted? {
        sent := sent + data[..r.count];
      }
    }

    /** One round of the loop in `_handle_write`. */
    method SendOnce() returns (r: Sent)
      requires WriteSide() && writeBuffer.chunks != []
      modifies `writeBufferFrozen, `offered, `sent, writeBuffer
      ensures WriteSide() && old(sent) <= sent
      ensures r == Accepted(0) || r.WouldBlock? ==> writeBufferFrozen
      ensures r.Accepted? && r.count > 0 ==>
                !writeBufferFrozen && |writeBuffer.Contents()| < |old(writeBuffer.Contents())|
    {
      hide Flatten, ChunkDeque.Contents, ChunkDeque.NoEmptyChunk;
      PrepareToSend();
      r := WriteToFd(writeBuffer.chunks[0]);
      match r
      case Accepted(count) =>
        if count == 0 {
          writeBufferFrozen := true;
        } else {
          writeBufferFrozen := false;
          DropSent(count);
        }
      case WouldBlock =>
        writeBufferFrozen := true;
      case Broken =>
    }

    /** What is offered next is the first chunk, which is not changed while the buffer is frozen. */
    method PrepareToSend()
      requires WriteSide() && writeBuffer.chunks != []
      modifies writeBuffer
      ensures WriteSide() && writeBuffer.chunks != [] && writeBuffer.Contents() == old(writeBuffer.Contents())
      ensures 0 < |writeBuffer.chunks[0]| <= WRITE_CHUNK && writeBuffer.chunks[0] <= writeBuffer.Contents()
    {
      hide Flatten;
      if !writeBufferFrozen {
        writeBuffer.MergePrefix(WRITE_CHUNK);
      }
      assert writeBuffer.Contents() == writeBuffer.chunks[0] + Flatten(writeBuffer.chunks[1..]) by {
        FlattenFirstChunk(writeBuffer.chunks);
      }
    }

    /** The bytes that the socket has taken leave the buffer. */
    method DropSent(count: nat)
      requires writeBuffer.NoEmptyChunk() && writeBuffer.chunks != [] && 0 < count <= |writeBuffer.Contents()|
      modifies writeBuffer
      ensures writeBuffer.NoEmptyChunk() && old(writeBuffer.Contents()[..count]) + writeBuffer.Contents()
                                            == old(writeBuffer.Contents())
    {
      hide Flatten, ChunkDeque.Contents;
      writeBuffer.MergePrefix(count);
      var _ := writeBuffer.PopLeft();
    }

    /** This write callback, if there is one, is still held while something is left to send, and has been scheduled
        otherwise; no other has been. */
    twostate predicate Told(callback: Option<Callback>)
      reads `writeCallback, `told, writeBuffer
    {
      if writeBuffer.chunks != [] then writeCallback == callback && told == old(told)
      else writeCallback.None? && told == if callback.Some? then old(told) + [callback.value] else old(told)
    }

    /** `_handle_write`: send until the socket takes no more. The write callback is scheduled only when the
        buffer is empty. */
    method HandleWrite()
      requires Inv(0)
      modifies `writeBufferFrozen, `offered, `sent, writeBuffer
      modifies `closeCallback, `pendingCallbacks, `queue, `closesScheduled, `readCallback, `writeCallback
      modifies `readUntilClose, `state, `closed, `readBufferSize, `delivered, `results, `readers, `handed, readBuffer
      modifies `told
      ensures Inv(0) && WriteFrame()
      ensures closed && closeCallback.Some? && !old(closed) ==> pendingCallbacks > 0
      ensures closeCallback.None? || closeCallback == old(closeCallback)
      ensures !closed ==>
                unchanged(`state) && readCallback == old(readCallback) && readBuffer.chunks == old(readBuffer.chunks)
      ensures !closed ==> waiting == old(waiting) && !old(closed)
      ensures !closed ==> Told(old(writeCallback))
      ensures !closed ==> writeBuffer.chunks == [] || writeBufferFrozen
      ensures pendingCallbacks >= old(pendingCallbacks)
    {
      hide Serve, Wrappers, Closes, CloseAfterData, Given, ReadSide, Closing, StrictlyIncreasing, Counts, WriteSide,
        Refines, Modes, Current;
      var broken := SendAll();
      AfterSending(broken);
    }

    /** The end of `_handle_write`, and of its loop after an error. */
    method AfterSending(broken: bool)
      requires ReadSide() && Counts(0) && Closing() && Modes() && Current() && Refines()
      modifies `closeCallback, `pendingCallbacks, `queue, `closesScheduled, `readCallback, `writeCallback
      modifies `readUntilClose, `state, `closed, `readBufferSize, `delivered, `results, `readers, `handed, readBuffer
      modifies `told
      ensures ReadSide() && Counts(0) && Closing() && Modes() && Current() && Refines()
      ensures closed && closeCallback.Some? && !old(closed) ==> pendingCallbacks > 0
      ensures closeCallback.None? || closeCallback == old(closeCallback)
      ensures old(closesScheduled) <= closesScheduled && pendingCallbacks >= old(pendingCallbacks)
      ensures !closed ==>
                unchanged(`state) && readCallback == old(readCallback) && readBuffer.chunks == old(readBuffer.chunks)
      ensures !closed ==> !broken && !old(closed)
      ensures !closed ==> Told(old(writeCallback))
    {
      hide Serve, Wrappers, Closes, CloseAfterData, Given, ReadSide, Closing, StrictlyIncreasing, Counts, Refines,
        Modes, Current;
      if broken {
        Close(0);
        return;
      }
      if writeBuffer.chunks == [] && writeCallback.Some? {
        WriteDone();
      }
    }

    /** Everything has been sent, and the write callback is to be told. */
    method WriteDone()
      requires Counts(0) && writeCallback.Some?
      modifies `writeCallback, `pendingCallbacks, `queue, `told
      ensures Counts(0) && writeCallback.None? && pendingCallbacks == old(pendingCallbacks) + 1
      ensures told == old(told) + [old(writeCallback).value]
    {
      hide Counts;
      var callback := writeCallback.value;
      writeCallback := None;
      RunWriteCallback(callback);
    }

    /** The loop of `_handle_write`; `broken` is an error of the socket. */
    method SendAll() returns (broken: bool)
      requires WriteSide()
      modifies `writeBufferFrozen, `offered, `sent, writeBuffer
      ensures WriteSide() && old(sent) <= sent
      ensures !broken ==> writeBuffer.chunks == [] || writeBufferFrozen
    {
      hide WriteSide;
      while writeBuffer.chunks != []
        invariant WriteSide() && old(sent) <= sent
        decreases |writeBuffer.Contents()|
      {
        var r := SendOnce();
        if r == Accepted(0) || r.WouldBlock? {
          return false;
        }
        if r.Broken? {
          return true;
        }
      }
      return false;
    }

    /** What writing does not change. */
    twostate predicate WriteFrame()
      reads this
    {
      && received == old(received) && requests == old(requests) && callers == old(callers) && asked == old(asked)
      && plain == old(plain)
      && late == old(late) && inCallback == old(inCallback) && ClosesKept()
      && accepted == old(accepted) && old(sent) <= sent && used == old(used)
    }

    /** `write`, up to the attempt to send. */
    method Accept(data: Bytes, callback: Option<Callback>)
      requires WriteSide()
      modifies `accepted, `used, `writeCallback, writeBuffer
      ensures WriteSide() && used && accepted == old(accepted) + data && writeCallback == callback
    {
      hide WriteSide;
      used := true;
      assert accepted + [] == accepted;
      if data != [] {
        BufferWrite(data);
      }
      writeCallback := callback;
    }

    /** `write` */
    method Write(data: Bytes, callback: Option<Callback>) returns (err: Option<Error>)
      requires Valid()
      modifies this, readBuffer, writeBuffer
      ensures Valid()
      ensures old(closed) ==>
                err == Some(StreamClosed) && unchanged(this) && unchanged(readBuffer) && unchanged(writeBuffer)
      ensures !old(closed) ==> err.None? && accepted == old(accepted) + data
      ensures !closed && writeBuffer.chunks != [] ==> state.Some? && state.value.write
      ensures !closed ==> Told(callback)
      ensures received == old(received) && requests == old(requests) && plain == old(plain)
              && inCallback == old(inCallback) && late == old(late) && ClosesKept() && asked == old(asked)
    {
      hide Serve, Wrappers, Closes, CloseAfterData, Given, ReadSide, StrictlyIncreasing, Counts, WriteSide, Refines,
        Modes, Current, Take, Closing;
      if closed {
        return Some(StreamClosed);
      }
      WriteOpen(data, callback);
      return None;
    }

    /** `write` on an open stream. */
    method WriteOpen(data: Bytes, callback: Option<Callback>)
      requires Valid() && !closed
      modifies `accepted, `used, `writeBufferFrozen, `offered, `sent, writeBuffer
      modifies `closeCallback, `pendingCallbacks, `queue, `closesScheduled, `readCallback, `writeCallback
      modifies `readUntilClose, `state, `closed, `readBufferSize, `delivered, `results, `readers, `handed, readBuffer
      modifies `told
      ensures Valid() && accepted == old(accepted) + data && old(closesScheduled) <= closesScheduled
      ensures !closed ==> Told(callback)
      ensures !closed && writeBuffer.chunks != [] ==> state.Some? && state.value.write
    {
      hide Serve, Wrappers, Closes, CloseAfterData, Given, ReadSide, StrictlyIncreasing, Counts, WriteSide, Refines,
        Modes, Current, Take, Closing;
      Accept(data, callback);
      HandleWrite();
      ListenForWrite();
    }

    /** The end of `write`. */
    method ListenForWrite()
      requires Counts(0) && Closing() && Modes() && Current()
      modifies `closeCallback, `pendingCallbacks, `queue, `closesScheduled, `readCallback, `writeCallback, `state
      ensures Counts(0) && Closing() && Modes() && Current()
      ensures !closed ==> state.Some? || pendingCallbacks > 0
      ensures !closed && writeBuffer.chunks != [] ==> state.Some? && state.value.write
      ensures closed && closeCallback.Some? ==> pendingCallbacks > 0
      ensures !closed ==> readCallback == old(readCallback) && writeCallback == old(writeCallback)
      ensures old(closesScheduled) <= closesScheduled
    {
      hide Wrappers, Closes, StrictlyIncreasing, CloseAfterData, Counts, Closing, Modes, Current;
      if writeBuffer.chunks != [] {
        AddIoState(Mask(false, true));
      }
      MaybeAddErrorListener();
    }

    /** `_handle_read` */
    method HandleRead()
      requires Valid() && !closed && state.Some?
      modifies `closeCallback, `pendingCallbacks, `queue, `closesScheduled, `readCallback, `writeCallback
      modifies `readUntilClose, `state, `closed, `readBufferSize, `delivered, `results, `readers, `handed, `received
      modifies readBuffer
      modifies `streamingCallback, `readBytes, `readDelimiter, `waiting
      ensures Valid() && ReadFrame()
      ensures !closed ==> state == old(state)
    {
      hide Serve, Wrappers, Closes, CloseAfterData, Given, ReadSide, Closing, Refines, StrictlyIncreasing, Counts,
        WriteSide, Take, Modes, Current;
      hide Flatten, ChunkDeque.Contents, ChunkDeque.NoEmptyChunk;
      ReadReady();
    }

    method ReadReady()
      requires ReadSide() && Counts(0) && Closing() && Modes() && Current() && Refines() && !closed
      modifies `closeCallback, `pendingCallbacks, `queue, `closesScheduled, `readCallback, `writeCallback
      modifies `readUntilClose, `state, `closed, `readBufferSize, `delivered, `results, `readers, `handed, `received
      modifies readBuffer
      modifies `streamingCallback, `readBytes, `readDelimiter, `waiting
      ensures ReadSide() && Counts(0) && Closing() && Modes() && Current() && Refines() && Blocked()
      ensures closed && closeCallback.Some? ==> pendingCallbacks > 0
      ensures !closed ==> state == old(state) && writeCallback == old(writeCallback)
      ensures old(received) <= received && old(closesScheduled) <= closesScheduled
    {
      hide Serve, Wrappers, Closes, CloseAfterData, Given, ReadSide, Closing, Refines, StrictlyIncreasing, Counts,
        Take, Modes, Current;
      hide Flatten, ChunkDeque.Contents, ChunkDeque.NoEmptyChunk;
      OpenServable();
      var err, done := FillAndServe();
      if err.Some? {
        Close(0);
        return;
      }
      if !done {
        MaybeRunCloseCallback(0);
      }
    }

    /** `_handle_events`: the event loop reports readiness of the socket. */
    method HandleEvents(readable: bool, writable: bool, failed: bool)
      requires Valid() && (closed || state.Some?)
      modifies this, readBuffer, writeBuffer
      ensures Valid()
      ensures plain == old(plain) && requests == old(requests) && accepted == old(accepted) && old(received) <= received
      ensures late == old(late) && inCallback == old(inCallback) && ClosesKept() && asked == old(asked)
      ensures !closed && !failed ==>
                state == Some(Mask(readCallback.Some? || writeBuffer.chunks == [], writeBuffer.chunks != []))
      ensures !closed && failed ==> queue != [] && queue[|queue| - 1].CloseStream?
      ensures !closed ==> if writable then Told(old(writeCallback)) else WriterKept()
      ensures old(sent) <= sent && (!writable ==> sent == old(sent))
    {
      hide Serve, Wrappers, Closes, CloseAfterData, Given, ReadSide, StrictlyIncreasing, WriteSide, Refines, Modes,
        Current, Take, Closing, Counts, Flatten;
      if closed {
        return;
      }
      if readable {
        HandleRead();
      }
      if closed {
        return;
      }
      if writable {
        HandleWrite();
      }
      if closed {
        return;
      }
      ListenAgain(failed);
    }

    /** The end of `_handle_events`: after an error the stream is to be closed; otherwise it is registered for
        what it waits for. */
    method ListenAgain(failed: bool)
      requires Valid() && !closed && state.Some?
      modifies `queue, `state
      ensures Valid()
      ensures !failed ==>
                state == Some(Mask(readCallback.Some? || writeBuffer.chunks == [], writeBuffer.chunks != []))
      ensures failed ==> queue != [] && queue[|queue| - 1].CloseStream?
    {
      hide Serve, Wrappers, Closes, CloseAfterData, Given, ReadSide, StrictlyIncreasing, WriteSide, Refines, Modes,
        Current, Take;
      hide Closing, Flatten;
      if failed {
        QueueClose();
        return;
      }
      var mask := Mask(readCallback.Some?, writeBuffer.chunks != []);
      if mask == Mask(false, false) {
        mask := Mask(true, false);
      }
      if state != Some(mask) {
        // The assertion in the source.
        assert state.Some?;
        SetState(mask);
      }
    }

    /** The update of the registered events. */
    method SetState(mask: Mask)
      requires Closing() && !closed
      modifies `state
      ensures Closing() && state == Some(mask)
    {
      state := Some(mask);
    }

    /** `io_loop.add_callback(self.close)` */
    method QueueClose()
      requires Counts(0)
      modifies `queue
      ensures Counts(0) && queue == old(queue) + [CloseStream]
    {
      hide ResultsOf, ReadersOf, DataOf, DataTasks, WritersOf;
      WrappersSnoc(queue, CloseStream);
      GivenSnoc(ran, queue, CloseStream);
      queue := queue + [CloseStream];
    }

    /** `set_close_callback` */
    method SetCloseCallback(callback: Option<Callback>)
      requires Valid()
      modifies `closeCallback, `registrations, `wanted, `late
      ensures Valid() && closeCallback == callback
      ensures wanted == callback.Some? && registrations == old(registrations) + 1
      ensures late == (old(late) || closed)
    {
      hide Serve, Wrappers, Closes, CloseAfterData, Given, ReadSide, Counts, WriteSide, Refines, Modes, Current, Take,
        StrictlyIncreasing, Blocked, Flatten, ChunkDeque.Contents, ChunkDeque.NoEmptyChunk;
      closeCallback := callback;
      registrations, wanted := registrations + 1, callback.Some?;
      late := late || closed;
    }

    /** The public `close`: a close callback that is held is scheduled now, or kept until nothing is pending. */
    method CloseNow()
      requires Valid()
      modifies this, readBuffer
      ensures Valid() && closed && late == old(late) && inCallback == old(inCallback) && ClosesKept()
      ensures asked == old(asked) && received == old(received) && WritesKept()
      ensures closeCallback == old(closeCallback) || registrations in closesScheduled
      ensures closeCallback.Some? ==> pendingCallbacks > 0
      ensures old(readUntilClose) ==> readBufferSize == 0 && |results| == |old(results)| + 1
    {
      hide Serve, Wrappers, Closes, CloseAfterData, Given, ReadSide, Closing, StrictlyIncreasing, Counts, WriteSide,
        Refines, Modes, Current, Take;
      Close(0);
    }

    /** The event loop takes this stream's oldest entry off its queue. For a wrapper, the user callback runs
        next: any of the operations above, and then `EndTask`. */
    method BeginTask() returns (t: Task)
      requires Valid() && queue != [] && !inCallback
      modifies this, readBuffer
      ensures Valid() && t == old(queue)[0] && late == old(late) && ran == old(ran) + [t]
      ensures asked == old(asked) && received == old(received) && WritesKept()
      ensures registrations == old(registrations) && wanted == old(wanted) && old(closesScheduled) <= closesScheduled
      ensures closesRun == old(closesRun) + if t.RunClose? then 1 else 0
      ensures t.CloseStream? ==> closed && !inCallback
      ensures !t.CloseStream? ==>
                && inCallback && queue == old(queue)[1..] && pendingCallbacks + 1 == old(pendingCallbacks)
                && closed == old(closed) && results == old(results) && requests == old(requests) && plain == old(plain)
    {
      hide Serve, ReadSide, Closing, StrictlyIncreasing, WriteSide, Refines, Modes, Current, Take, Counts;
      t := TakeTask();
      if t.CloseStream? {
        CloseNow();
      } else {
        inCallback := true;
      }
    }

    /** The oldest entry leaves the event loop's queue; a wrapper is no longer pending. */
    method TakeTask() returns (t: Task)
      requires Counts(0) && queue != []
      modifies `queue, `ran, `closesRun, `pendingCallbacks
      ensures Counts(0) && t == old(queue)[0] && queue == old(queue)[1..] && ran == old(ran) + [t]
      ensures closesRun == old(closesRun) + if t.RunClose? then 1 else 0
      ensures pendingCallbacks == old(pendingCallbacks) - if t.CloseStream? then 0 else 1
    {
      hide ResultsOf, ReadersOf, DataOf, DataTasks, WritersOf;
      t := queue[0];
      assert (ran + [t]) + queue[1..] == ran + queue;
      ran, queue := ran + [t], queue[1..];
      if t.RunClose? {
        closesRun := closesRun + 1;
      }
      if !t.CloseStream? {
        pendingCallbacks := pendingCallbacks - 1;
      }
    }

    /** The end of a wrapper; `raised` says that the user callback raised an exception. */
    method EndTask(raised: bool)
      requires Valid() && inCallback
      modifies this, readBuffer
      ensures Valid() && !inCallback && late == old(late) && ClosesKept()
      ensures asked == old(asked) && received == old(received) && WritesKept()
      ensures raised ==> closed
    {
      hide Serve, Wrappers, Closes, CloseAfterData, Given, ReadSide, Closing, StrictlyIncreasing, Counts, WriteSide,
        Refines, Modes, Current, Take;
      if raised {
        Close(0);
      } else {
        MaybeAddErrorListener();
      }
      inCallback := false;
    }
  }

  /** Segmentation independence: whatever way the sockets cut up their input, two streams on which the same
      plain reads were issued agree on every answer both have given, and the one that has read more has given
      at least the answers of the other; after the same bytes they hold the same results and the same rest. What
      the event loop has run so far gives the read callbacks just these results. */
  lemma SegmentationIndependence(a: BaseIOStream, b: BaseIOStream)
    requires a.Valid() && b.Valid() && !a.closed && !b.closed && a.plain && b.plain
    requires a.requests == b.requests && a.received <= b.received
    ensures a.results <= b.results
    ensures a.received == b.received ==> a.results == b.results && a.readBuffer.Contents() == b.readBuffer.Contents()
    ensures ResultsOf(a.ran + a.queue) <= ResultsOf(b.ran + b.queue)
    ensures ResultsOf(a.ran) <= b.results && ResultsOf(b.ran) <= b.results
    ensures a.received == b.received ==> ResultsOf(a.ran + a.queue) == ResultsOf(b.ran + b.queue)
  {
    hide *;
    ServedInFull(a);
    ServedInFull(b);
    assert b.received == a.received + b.received[|a.received|..];
    ServeMore(a.requests, a.received, b.received[|a.received|..]);
  }

  /** An open stream's results and buffer are those of serving all its requests from the received bytes, and each
      result is given to the callback of its request. */
  lemma ServedInFull(s: BaseIOStream)
    requires s.Valid() && !s.closed && s.plain
    ensures Serve(s.requests, s.received) == (s.results, s.readBuffer.Contents())
    ensures ResultsOf(s.ran + s.queue) == s.results && ReadersOf(s.ran + s.queue) <= s.callers
    ensures |ReadersOf(s.ran + s.queue)| == |s.results| && |s.callers| == |s.requests|
    ensures ResultsOf(s.ran) <= s.results && ReadersOf(s.ran) <= s.callers
  {
    hide Take, ResultsOf, ReadersOf, DataOf;
    ResultsPrefix(s.ran, s.queue);
    if s.waiting {
      var last := s.requests[|s.requests| - 1];
      assert s.requests == s.Earlier() + [last];
      ServeSnoc(s.Earlier(), last, s.received);
      ServeOne(last, s.readBuffer.Contents());
      assert s.results + [] == s.results;
    }
  }

  /** Nothing that was read is lost on the way to the callbacks of any kind of read: what they have been given, by
      the event loop or by what is on its queue, followed by what is buffered, is what came in. */
  lemma AllIsDelivered(s: BaseIOStream)
    requires s.Valid()
    ensures s.received == DataOf(s.ran + s.queue) + s.readBuffer.Contents()
  {
  }

  /** A read until close is answered by closing: what its streaming callback and then its read callback have been
      given, once each piece and in order, is all that had not been delivered before it and all that came after. */
  lemma UntilCloseGetsAll(s: BaseIOStream)
    requires s.Valid() && s.asked.Asked? && s.asked.wanted.Everything?
    ensures s.asked.mark <= |s.handed| && s.asked.from <= |s.received| && s.handed == DataTasks(s.ran + s.queue)
    ensures s.closed ==>
              && s.asked.mark < |s.handed| && s.Finished()
              && DataOf(s.handed[s.asked.mark..]) == s.received[s.asked.from..]
    ensures !s.closed ==>
              && s.readUntilClose && s.readCallback == Some(s.asked.callback)
              && s.streamingCallback == s.asked.streaming
              && AllStreaming(s.handed[s.asked.mark..], s.asked.streaming)
  {
    hide DataOf, DataTasks, Flatten;
    if s.closed {
      assert s.received == s.delivered + [] && s.delivered + [] == s.delivered;
    }
  }

  /** A read of so many bytes that has been answered, streaming or not, has given its callbacks exactly so many: those
      that follow what had been delivered before it. */
  lemma CountedGetsAll(s: BaseIOStream)
    requires s.Valid() && !s.closed && s.readCallback.None? && s.asked.Asked? && s.asked.wanted.Count?
    ensures s.asked.mark <= |s.handed| && s.Finished() && s.handed == DataTasks(s.ran + s.queue)
    ensures s.asked.from + s.asked.wanted.count <= |s.received|
    ensures DataOf(s.handed[s.asked.mark..]) == s.received[s.asked.from..][..s.asked.wanted.count]
  {
    hide DataOf, DataTasks, Flatten;
    assert s.received[s.asked.from..][..s.asked.wanted.count] == s.delivered[s.asked.from..];
  }

  /** A read up to a delimiter that has been answered has given its callback exactly the bytes that follow what had been
      delivered before it, up to the first occurrence of the delimiter. */
  lemma UptoGetsThat(s: BaseIOStream)
    requires s.Valid() && !s.closed && s.readCallback.None? && s.asked.Asked? && s.asked.wanted.Upto?
    ensures s.asked.mark <= |s.handed| && s.Finished() && s.handed == DataTasks(s.ran + s.queue)
    ensures s.asked.from <= |s.delivered| && s.delivered <= s.received
    ensures var data := DataOf(s.handed[s.asked.mark..]);
            data == s.received[s.asked.from..|s.delivered|] && EndsFirst(s.asked.wanted.delimiter, data)
  {
    hide DataOf, DataTasks, Flatten, EndsFirst;
    assert s.received[s.asked.from..|s.delivered|] == s.delivered[s.asked.from..];
  }

  /** A read until close on an open stream, and then whatever may happen to the stream until it is closed: its
      callbacks are given everything that was buffered at the call and everything that came in after it. */
  method ReadToTheEnd(s: BaseIOStream, callback: Callback, streaming: Option<Callback>, events: nat)
    requires s.Valid() && !s.closed && s.readCallback.None?
    modifies s, s.readBuffer, s.writeBuffer
    ensures s.Valid() && old(s.received) <= s.received
    ensures s.asked == Asked(callback, streaming, Everything, old(|s.delivered|), old(|s.handed|))
    ensures !s.closed ==>
              s.readUntilClose && s.readCallback == Some(callback) && s.streamingCallback == streaming
    ensures s.closed ==> old(|s.handed|) < |s.handed| && s.Finished()
    ensures s.closed ==>
              DataOf(s.handed[old(|s.handed|)..])
              == old(s.readBuffer.Contents()) + s.received[|old(s.received)|..]
  {
    hide *;
    ghost var buffered, before := s.readBuffer.Contents(), s.received;
    StillBuffered(s);
    var _ := s.ReadUntilClose(callback, streaming);
    ghost var asked := s.asked;
    for n := 0 to events
      invariant s.Valid() && before <= s.received && s.asked == asked
    {
      if !s.closed {
        Happens(s);
      }
    }
    UntilCloseGetsAll(s);
    if s.closed {
      assert s.received == before + s.received[|before|..];
      FromThere(s.received, before, asked.from, buffered);
    }
  }

  lemma StillBuffered(s: BaseIOStream)
    requires s.Valid()
    ensures |s.delivered| <= |s.received| && s.received[|s.delivered|..] == s.readBuffer.Contents()
  {
  }

  lemma FromThere(now: Bytes, before: Bytes, from: nat, buffered: Bytes)
    requires before <= now && from <= |before| && before[from..] == buffered
    ensures now[from..] == buffered + now[|before|..]
  {
  }

  /** Something happens to an open stream on which a read is pending: the event loop calls back, code writes, tries to
      read, or closes. */
  method Happens(s: BaseIOStream)
    requires s.Valid() && !s.closed && s.asked.Asked? && s.asked.wanted.Everything?
    modifies s, s.readBuffer, s.writeBuffer
    ensures s.Valid() && old(s.received) <= s.received && s.asked == old(s.asked)
  {
    hide *;
    UntilCloseGetsAll(s);
    var choice := Any();
    var data: Bytes := *;
    var callback: Option<Callback> := *;
    var yes: bool, no: bool := *, *;
    if choice == 0 && s.state.Some? {
      var failed: bool := *;
      s.HandleEvents(yes, no, failed);
    } else if choice == 1 {
      var _ := s.Write(data, callback);
    } else if choice == 2 && s.queue != [] && !s.inCallback {
      var _ := s.BeginTask();
    } else if choice == 3 && s.inCallback {
      s.EndTask(yes);
    } else if choice == 4 {
      s.SetCloseCallback(callback);
    } else if choice == 5 {
      var _ := s.ReadUntil(data, 0);
    } else if choice == 6 {
      s.CloseNow();
    }
  }

  /** A write on an open stream, and then whatever else may happen to it: as long as it is open and nothing else is
      written, the callback is held exactly until all that was accepted has been sent, and is scheduled then, once. */
  method WriteToTheEnd(s: BaseIOStream, data: Bytes, callback: Callback, events: nat)
    requires s.Valid() && !s.closed
    modifies s, s.readBuffer, s.writeBuffer
    ensures s.Valid()
    ensures !s.closed ==>
              && s.accepted == old(s.accepted) + data && s.sent <= s.accepted
              && if s.sent == s.accepted then s.told == old(s.told) + [callback]
                 else s.told == old(s.told) && s.writeCallback == Some(callback)
  {
    hide *;
    ghost var before := s.told;
    WriteOnce(s, data, callback);
    for n := 0 to events
      invariant s.Valid()
      invariant !s.closed ==> s.accepted == old(s.accepted) + data && HeldOrTold(s, callback, before)
    {
      if !s.closed {
        HappensBesides(s, callback, before);
      }
    }
    SentOrBuffered(s);
    if !s.closed {
      HeldOrToldMeans(s, callback, before);
    }
  }

  ghost predicate HeldOrTold(s: BaseIOStream, callback: Callback, before: seq<Callback>)
    reads s`sent, s`accepted, s`told, s`writeCallback
  {
    if s.sent == s.accepted then s.told == before + [callback] && s.writeCallback.None?
    else s.told == before && s.writeCallback == Some(callback)
  }

  lemma HeldOrToldMeans(s: BaseIOStream, callback: Callback, before: seq<Callback>)
    requires HeldOrTold(s, callback, before)
    ensures if s.sent == s.accepted then s.told == before + [callback]
            else s.told == before && s.writeCallback == Some(callback)
  {
  }

  lemma SentOrBuffered(s: BaseIOStream)
    requires s.Valid()
    ensures s.sent <= s.accepted && (s.sent == s.accepted <==> s.writeBuffer.chunks == [])
  {
  }

  method WriteOnce(s: BaseIOStream, data: Bytes, callback: Callback)
    requires s.Valid() && !s.closed
    modifies s, s.readBuffer, s.writeBuffer
    ensures s.Valid()
    ensures !s.closed ==> s.accepted == old(s.accepted) + data && HeldOrTold(s, callback, old(s.told))
  {
    hide BaseIOStream.Valid;
    var _ := s.Write(data, Some(callback));
    SentOrBuffered(s);
  }

  /** Anything but another write. */
  method HappensBesides(s: BaseIOStream, callback: Callback, ghost before: seq<Callback>)
    requires s.Valid() && !s.closed && HeldOrTold(s, callback, before)
    modifies s, s.readBuffer, s.writeBuffer
    ensures s.Valid()
    ensures !s.closed ==> s.accepted == old(s.accepted) && HeldOrTold(s, callback, before)
  {
    hide BaseIOStream.Valid, Flatten;
    SentOrBuffered(s);
    var choice := Any();
    var count := Any();
    var data: Bytes := *;
    var other: Option<Callback> := *;
    var yes: bool, no: bool := *, *;
    if choice == 0 && s.state.Some? {
      var failed: bool := *;
      s.HandleEvents(yes, no, failed);
    } else if choice == 1 {
      var _ := s.ReadUntil(data, count);
    } else if choice == 2 {
      var _ := s.ReadBytes(count, 0, other);
    } else if choice == 3 {
      var _ := s.ReadUntilClose(count, other);
    } else if choice == 4 && s.queue != [] && !s.inCallback {
      var _ := s.BeginTask();
    } else if choice == 5 && s.inCallback {
      s.EndTask(yes);
    } else if choice == 6 {
      s.SetCloseCallback(other);
    } else if choice == 7 {
      s.CloseNow();
    }
    SentOrBuffered(s);
  }

  /** No close callback is lost: once a closed stream has no callback left on the event loop's queue, the close
      callback registered last before it closed has been scheduled, and the event loop has run it and every other
      one that was scheduled. (A registration that another replaced while it was held is not wanted any more.) */
  lemma QuiescentCloseRan(s: BaseIOStream)
    requires s.Valid() && s.closed && !s.inCallback && !s.late
    requires forall i :: 0 <= i < |s.queue| ==> s.queue[i].CloseStream?
    ensures s.wanted ==> s.registrations in s.closesScheduled
    ensures s.closeCallback.None? && s.closesRun == |s.closesScheduled|
  {
    OnlyCloses(s.queue);
  }

  lemma {:induction false} OnlyCloses(tasks: seq<Task>)
    requires forall i :: 0 <= i < |tasks| ==> tasks[i].CloseStream?
    ensures Wrappers(tasks) == 0 && Closes(tasks) == 0
  {
    if tasks != [] {
      OnlyCloses(tasks[1..]);
    }
  }
}
