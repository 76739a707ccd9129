/** A kept-alive server connection (`HTTPConnection` in tornado/httpserver.py) on a stream that calls back through
    the event loop. */
module KeepAlive {
  import opened Bytes

  datatype Verb = GetOrHead | OtherVerb
  /** The lower-cased `Connection` header. */
  datatype ConnectionHeader = Close | KeepAlive | Other
  datatype Request = Request(connection: Option<ConnectionHeader>, http11: bool, hasLength: bool, verb: Verb)

  /** Whether the connection ends with this request. */
  function Disconnect(noKeepAlive: bool, request: Option<Request>): bool {
    if noKeepAlive || request.None? then true
    else
      var r := request.value;
      if r.http11 then r.connection == Some(Close)
      else if r.hasLength || r.verb.GetOrHead? then r.connection != Some(KeepAlive)
      else true
  }

  /** HTTP/1.1 keeps a connection unless the client asks to close it; HTTP/1.0 only if it asks to keep it and the end of
      the request could be told. */
  lemma WhenItEnds(noKeepAlive: bool, r: Request)
    ensures Disconnect(noKeepAlive, None) && Disconnect(true, Some(r))
    ensures r.http11 ==> (Disconnect(false, Some(r)) <==> r.connection == Some(Close))
    ensures !r.http11 && r.connection != Some(KeepAlive) ==> Disconnect(false, Some(r))
    ensures !r.http11 && r.connection == Some(KeepAlive) ==>
              (Disconnect(false, Some(r)) <==> !r.hasLength && r.verb == OtherVerb)
  {
  }

  datatype Reading = Nothing | Headers | Body

  class HTTPConnection {
    const noKeepAlive: bool
    // The stream: its state, whether its write callback is `_on_write_complete`, and how many runs of
    // `_on_write_complete` it has put on the event loop.
    var closed: bool
    var writing: bool
    var streamCallback: bool
    var scheduled: nat
    var reading: Reading
    // The connection.
    var request: Option<Request>
    var requestFinished: bool
    var writeCallback: bool

    ghost var handed: nat           // requests handed to the application
    ghost var finishes: nat         // calls of finish
    ghost var finishRequests: nat   // calls of _finish_request
    ghost var failed: bool          // sending has found that the connection is gone
    ghost var refused: bool         // a bad request came in
    ghost var ended: bool           // a request whose headers end the connection has been concluded
    /** Whether the application has written for the current request. */
    var wrote: bool

    /** On an open connection one request is handled at a time: every finish but the last has led to exactly one
        `_finish_request`, and while the last one is waiting, a run of `_on_write_complete` is still to come that
        will find the buffer empty; `running` is 1 inside such a run. It is closed only for a reason. */
    ghost predicate Steady(running: nat)
      reads this
    {
      && (streamCallback ==> writing)
      && (requestFinished ==> reading.Nothing?)
      && (closed ==> failed || refused || ended)
      && (!closed ==>
            && handed == finishes + (if request.Some? && !requestFinished && reading.Nothing? then 1 else 0)
            && finishes == finishRequests + (if requestFinished then 1 else 0)
            && (reading.Headers? <==> request.None?)
            && (requestFinished ==> request.Some?)
            && (reading.Headers? ==> !writing)
            && (wrote ==> request.Some? && reading.Nothing? && (writing ==> streamCallback))
            && (requestFinished ==> wrote && (writing || scheduled + running > 0)))
    }

    ghost predicate Valid()
      reads this
    {
      Steady(0)
    }

    /** The application is at work on a request. */
    predicate Active()
      reads `request, `requestFinished, `reading
    {
      request.Some? && !requestFinished && reading.Nothing?
    }

    constructor (noKeepAlive: bool)
      ensures Valid() && !closed && reading.Headers? && handed == 0 && finishes == 0 && finishRequests == 0
      ensures !failed && !refused && !ended
      ensures this.noKeepAlive == noKeepAlive
    {
      this.noKeepAlive := noKeepAlive;
      closed, writing, streamCallback, scheduled, reading := false, false, false, 0, Headers;
      request, requestFinished, writeCallback := None, false, false;
      handed, finishes, finishRequests, wrote := 0, 0, 0, false;
      failed, refused, ended := false, false, false;
    }

    // ----- the stream -----

    /** `stream.write`: the callback replaces the one before; what can be sent at once is, and when nothing is left
        the callback is scheduled. Sending may find that the connection is gone. */
    method StreamWrite(withCallback: bool)
      requires !closed
      modifies `closed, `writing, `streamCallback, `scheduled, `failed
      ensures (closed ==> failed) && (old(failed) ==> failed)
      ensures streamCallback ==> writing
      ensures withCallback ==> (writing && streamCallback) || (!writing && scheduled == old(scheduled) + 1)
      ensures scheduled >= old(scheduled)
    {
      writing, streamCallback := true, withCallback;
      Send();
    }

    method Send()
      requires streamCallback ==> writing
      modifies `closed, `writing, `streamCallback, `scheduled, `failed
      ensures streamCallback ==> writing
      ensures (closed == old(closed) || (closed && failed)) && (old(failed) ==> failed)
      ensures if writing then streamCallback == old(streamCallback) && scheduled == old(scheduled)
              else !streamCallback && scheduled == old(scheduled) + if old(streamCallback) then 1 else 0
      ensures !old(writing) ==> !writing
    {
      var sentAll: bool := *;
      if writing && sentAll {
        writing := false;
        if streamCallback {
          streamCallback := false;
          scheduled := scheduled + 1;
        }
      }
      var fails: bool := *;
      closed, failed := closed || fails, failed || fails;
    }

    /** The socket takes more data. */
    method SocketWritable()
      requires Valid() && writing
      modifies `closed, `writing, `streamCallback, `scheduled, `failed
      ensures Valid() && (old(closed) ==> closed)
    {
      Send();
    }

    // ----- the connection -----

    /** `write`. A connection that is closed takes nothing. */
    method Write(withCallback: bool, ghost running: nat)
      requires Steady(running) && Active()
      modifies `closed, `writing, `streamCallback, `scheduled, `failed, `writeCallback, `wrote
      ensures Steady(running) && Active() && (old(closed) ==> closed) && (!closed ==> wrote)
      ensures old(failed) ==> failed
      ensures scheduled >= old(scheduled)
      ensures !old(closed) ==> writeCallback == withCallback && (writing || scheduled > old(scheduled))
    {
      if !closed {
        writeCallback := withCallback;
        StreamWrite(true);
        wrote := true;
      }
    }

    /** `finish`, after a response was written. */
    method Finish(ghost running: nat)
      requires Steady(running) && Active() && (closed || wrote)
      modifies this
      ensures Steady(running) && !Active() && (old(closed) ==> closed)
      ensures handed == old(handed) && finishes == old(finishes) + 1 && scheduled == old(scheduled)
      ensures finishRequests == old(finishRequests) + if old(writing) then 0 else 1
      ensures old(writing) ==> requestFinished && writing && reading == old(reading) && request == old(request)
      ensures requestFinished == old(writing)
      ensures failed == old(failed) && refused == old(refused)
      ensures ended == (old(ended) || (!old(writing) && Disconnect(noKeepAlive, old(request))))
    {
      requestFinished := true;
      finishes := finishes + 1;
      if !writing {
        FinishRequest(running);
      }
    }

    /** Nothing but the request at hand gives a new reason to close the connection, unless sending fails. */
    twostate predicate Reasons()
      reads `failed, `refused, `ended
    {
      && (old(failed) ==> failed) && refused == old(refused) && (old(ended) ==> ended)
      && (ended ==> old(ended) || Disconnect(noKeepAlive, old(request)))
    }

    /** `_on_write_complete`. By the time it runs there may be more to write, or another request. */
    method OnWriteComplete()
      requires Steady(1)
      modifies this
      ensures Valid() && (old(closed) ==> closed) && Reasons()
      ensures !closed && !writing ==> !requestFinished && finishes == finishRequests
    {
      if writeCallback {
        writeCallback := false;
        Application(1);
      }
      if requestFinished && !writing {
        FinishRequest(1);
      }
    }

    /** `_finish_request`: only when everything has been sent. The next request is read after it, or none. */
    method FinishRequest(ghost running: nat)
      requires Steady(running + 1) && requestFinished && !writing
      modifies `closed, `reading, `request, `requestFinished, `writeCallback, `finishRequests, `wrote, `ended
      ensures Steady(running) && !requestFinished && request.None? && (old(closed) ==> closed)
      ensures finishRequests == old(finishRequests) + 1
      ensures !old(closed) && !Disconnect(noKeepAlive, old(request)) ==> !closed && reading.Headers?
      ensures Disconnect(noKeepAlive, old(request)) ==> closed
      ensures noKeepAlive ==> closed
      ensures old(request).Some? && !old(closed) && !noKeepAlive ==>
                var r := old(request).value;
                && (r.http11 && r.connection == Some(Close) ==> closed)
                && (r.http11 && r.connection != Some(Close) ==> !closed && reading.Headers?)
                && (!r.http11 && r.connection != Some(KeepAlive) ==> closed)
                && (!r.http11 && r.connection == Some(KeepAlive) ==>
                      if r.hasLength || r.verb == GetOrHead then !closed && reading.Headers? else closed)
      ensures ended == (old(ended) || Disconnect(noKeepAlive, old(request)))
    {
      finishRequests := finishRequests + 1;
      var disconnect := Disconnect(noKeepAlive, request);
      ended := ended || disconnect;
      ClearRequestState();
      if disconnect {
        CloseConnection();
        return;
      }
      // A stream that is closed may still have the next request in its buffer.
      var buffered: bool := *;
      if closed && !buffered {
        CloseConnection();
      } else {
        reading := Headers;
      }
    }

    method ClearRequestState()
      modifies `request, `requestFinished, `writeCallback, `wrote
      ensures request.None? && !requestFinished && !writeCallback && !wrote
    {
      request, requestFinished, writeCallback, wrote := None, false, false, false;
    }

    /** `close` */
    method CloseConnection()
      requires (streamCallback ==> writing) && (failed || refused || ended)
      modifies `closed, `request, `requestFinished, `writeCallback, `wrote
      ensures closed && request.None? && !requestFinished && Steady(0)
    {
      closed := true;
      ClearRequestState();
    }

    /** `_on_headers`: a bad request ends the connection; a request with a body waits for it, perhaps after a line that
        asks for it; any other is handed to the application. */
    method OnHeaders(r: Request, bad: bool, body: bool, expectsContinue: bool)
      requires Valid() && reading.Headers?
      modifies this
      ensures Valid() && (old(closed) ==> closed) && refused == (old(refused) || bad)
      ensures bad ==> closed && request.None? && handed == old(handed) && reading.Nothing?
      ensures !bad && body ==>
                && request == Some(r) && reading.Body? && handed == old(handed) && ended == old(ended)
                && (!expectsContinue ==> closed == old(closed) && writing == old(writing))
      ensures !bad && !body ==> Handed(r)
    {
      reading := Nothing;
      if bad {
        refused := true;
        CloseConnection();
        return;
      }
      request := Some(r);
      if body {
        if expectsContinue && !closed {
          StreamWrite(false);
        }
        reading := Body;
        return;
      }
      handed := handed + 1;
      Application(0);
    }

    /** This request is handed to the application, which is at work on it unless it has finished it. */
    twostate predicate Handed(r: Request)
      reads `handed, `finishes, `request, `requestFinished, `reading, `ended
    {
      && handed == old(handed) + 1
      && (finishes == old(finishes) ==> Active() && request == Some(r))
      && (ended ==> old(ended) || (finishes > old(finishes) && Disconnect(noKeepAlive, Some(r))))
    }

    /** `_on_request_body` */
    method OnRequestBody()
      requires Valid() && reading.Body?
      modifies this
      ensures Valid() && (old(closed) ==> closed) && refused == old(refused)
      ensures if old(request).Some? then Handed(old(request).value) else closed && handed == old(handed)
    {
      reading := Nothing;
      if request.None? {
        // The connection has gone, and with it the request: an AttributeError.
        return;
      }
      handed := handed + 1;
      Application(0);
    }

    /** One request is worked on, until it is finished. */
    twostate predicate Progress()
      reads `finishes, `request, `requestFinished, `reading, `ended
    {
      && old(finishes) <= finishes <= old(finishes) + 1
      && (finishes == old(finishes) ==>
            request == old(request) && requestFinished == old(requestFinished) && reading == old(reading)
              && ended == old(ended))
      && (finishes > old(finishes) ==> !Active())
      && (requestFinished ==> request == old(request))
    }

    /** What the application does at one time: it writes any number of times, and may finish what it has written. */
    method Application(ghost running: nat)
      requires Steady(running)
      modifies this
      ensures Steady(running) && (old(closed) ==> closed)
      ensures handed == old(handed) && scheduled >= old(scheduled)
      ensures old(!Active()) ==> requestFinished == old(requestFinished) && writing == old(writing)
      ensures Reasons() && Progress()
    {
      var calls: nat := Any();
      for i := 0 to calls
        invariant Steady(running) && (old(closed) ==> closed)
        invariant handed == old(handed) && scheduled >= old(scheduled)
        invariant old(!Active()) ==> !Active() && requestFinished == old(requestFinished) && writing == old(writing)
        invariant Reasons() && Progress()
      {
        var finish: bool := *;
        var withCallback: bool := *;
        if Active() {
          if finish && (closed || wrote) {
            Finish(running);
          } else {
            Write(withCallback, running);
          }
        }
      }
    }

    /** The application goes on later. */
    method Continue()
      requires Valid()
      modifies this
      ensures Valid() && (old(closed) ==> closed) && Reasons() && Progress()
    {
      Application(0);
    }

    /** The event loop runs a scheduled `_on_write_complete`, however old. */
    method RunScheduled()
      requires Valid() && scheduled > 0
      modifies this
      ensures Valid() && (old(closed) ==> closed) && Reasons()
      ensures !closed && !writing ==> !requestFinished && finishes == finishRequests
    {
      scheduled := scheduled - 1;
      OnWriteComplete();
    }

    /** `_on_connection_close` */
    method OnConnectionClose()
      requires Valid() && closed
      modifies this
      ensures Valid() && closed && request.None?
    {
      ClearRequestState();
    }
  }

  /** When nothing is left to send or to run, every finished request has been concluded exactly once. */
  lemma AtRest(c: HTTPConnection)
    requires c.Valid() && !c.closed && !c.writing && c.scheduled == 0
    ensures !c.requestFinished && c.finishes == c.finishRequests
  {
  }

  /** The next request's headers are read only when all requests handed over have been concluded, and nothing is
      left in the write buffer then. */
  lemma OneAtATime(c: HTTPConnection)
    requires c.Valid() && !c.closed
    ensures c.finishRequests <= c.handed <= c.finishRequests + 1
    ensures c.reading.Headers? ==> c.handed == c.finishRequests && !c.writing
  {
  }
}
