/** What a sequence of reads means on one plain byte string, with no chunks, sockets or callbacks. */
module ReadSpec {
  import opened Bytes

  datatype Request = ReadUntil(delimiter: Bytes) | ReadBytes(count: nat)

  /** How many bytes answer the request, or None if the bytes at hand do not answer it yet. */
  function Take(request: Request, available: Bytes): (n: Option<nat>)
    ensures n.Some? ==> n.value <= |available|
  {
    match request
    case ReadBytes(count) => if count <= |available| then Some(count) else None
    case ReadUntil(delimiter) =>
      // Nothing is looked for in an empty buffer, not even an empty delimiter.
      if available == [] then None else
      FindFromIsFirst(delimiter, available, 0);
      match Find(delimiter, available)
      case None => None
      case Some(loc) => Some(loc + |delimiter|)
  }

  /** Bytes up to and including the first delimiter, or exactly as many as were asked for. */
  lemma TakeMeans(request: Request, available: Bytes)
    ensures match (request, Take(request, available))
            case (ReadBytes(count), Some(n)) => n == count <= |available|
            case (ReadBytes(count), None) => count > |available|
            case (ReadUntil(delimiter), None) =>
              available == [] || forall j: nat :: !OccursAt(delimiter, available, j)
            case (ReadUntil(delimiter), Some(n)) =>
              && |delimiter| <= n <= |available| && available != []
              && available[n - |delimiter|..n] == delimiter
              && forall j: nat :: j < n - |delimiter| ==> !OccursAt(delimiter, available, j)
  {
    if request.ReadUntil? {
      FindFromIsFirst(request.delimiter, available, 0);
    }
  }

  /** The answers to the requests, taken in order from `input`, and what is left of it;
      the first request that cannot be answered stops everything after it. */
  function Serve(requests: seq<Request>, input: Bytes): (r: (seq<Bytes>, Bytes))
    ensures |r.0| <= |requests|
  {
    if requests == [] then ([], input) else
    match Take(requests[0], input)
    case None => ([], input)
    case Some(n) =>
      var tail := Serve(requests[1..], input[n..]);
      ([input[..n]] + tail.0, tail.1)
  }

  lemma TakeMore(request: Request, available: Bytes, more: Bytes)
    requires Take(request, available).Some?
    ensures Take(request, available + more) == Take(request, available)
  {
    if request.ReadUntil? {
      FindInPrefix(request.delimiter, available, more);
    }
  }

  lemma ServeOne(request: Request, input: Bytes)
    ensures Serve([request], input) ==
            match Take(request, input)
            case None => ([], input)
            case Some(n) => ([input[..n]], input[n..])
  {
    assert [request][1..] == [];
    if Take(request, input).Some? {
      var n := Take(request, input).value;
      assert Serve([], input[n..]) == ([], input[n..]);
      assert [input[..n]] + [] == [input[..n]];
    }
  }

  /** One more request, when all before it have been answered. */
  lemma {:induction false} ServeSnoc(requests: seq<Request>, request: Request, input: Bytes)
    requires |Serve(requests, input).0| == |requests|
    ensures var (answers, rest) := Serve(requests, input);
            var (last, left) := Serve([request], rest);
            Serve(requests + [request], input) == (answers + last, left)
  {
    if requests == [] {
      assert requests + [request] == [request];
      assert [] + Serve([request], input).0 == Serve([request], input).0;
    } else {
      var n := Take(requests[0], input).value;
      assert (requests + [request])[1..] == requests[1..] + [request];
      ServeSnoc(requests[1..], request, input[n..]);
      ServeFirst(requests, input);
      ServeFirst(requests + [request], input);
      hide Serve;
      var (answers, rest) := Serve(requests[1..], input[n..]);
      Associate([input[..n]], answers, Serve([request], rest).0);
    }
  }

  lemma ServeFirst(requests: seq<Request>, input: Bytes)
    requires requests != [] && Take(requests[0], input).Some?
    ensures var n := Take(requests[0], input).value;
            var tail := Serve(requests[1..], input[n..]);
            Serve(requests, input) == ([input[..n]] + tail.0, tail.1)
  {
  }

  lemma Associate(a: seq<Bytes>, b: seq<Bytes>, c: seq<Bytes>)
    ensures a + (b + c) == (a + b) + c
  {
  }

  /** More input never changes an answer already given. */
  lemma {:induction false} ServeMore(requests: seq<Request>, input: Bytes, more: Bytes)
    ensures Serve(requests, input).0 <= Serve(requests, input + more).0
    ensures |Serve(requests, input).0| == |requests| ==>
              Serve(requests, input + more) == (Serve(requests, input).0, Serve(requests, input).1 + more)
  {
    if requests != [] && Take(requests[0], input).Some? {
      TakeMore(requests[0], input, more);
      var n := Take(requests[0], input).value;
      assert (input + more)[n..] == input[n..] + more;
      assert (input + more)[..n] == input[..n];
      ServeMore(requests[1..], input[n..], more);
    }
  }
}
