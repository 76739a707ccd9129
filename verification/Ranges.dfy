/** Byte ranges of static files (tornado/httputil.py, tornado/web.py; section 14.35 of RFC 2616). */
module Ranges {
  import opened Bytes

  /** A `bytes` range of digits: first and last byte, or the length of a suffix when there is no first. */
  datatype Range = Range(first: Option<nat>, last: Option<nat>)

  /** `_parse_request_range`, from the numbers on. */
  function Parse(r: Range): (Option<int>, Option<int>) {
    if r.last.None? then (r.first, None)
    else if r.first.None? then
      var suffix: int := r.last.value;
      if suffix != 0 then (Some(-suffix), None) else (None, Some(0))
    else (r.first, Some(r.last.value + 1))
  }

  /** The outcome of `get`: the whole file, a part with the three numbers of its Content-Range, 416, or an error. */
  datatype Outcome = Whole(body: Bytes) | Part(body: Bytes, first: int, last: int, total: int) | Unsatisfiable | Fails

  /** What the standard asks for. A range that ends before it starts is no range and is ignored. */
  function Asked(r: Range, file: Bytes): Outcome {
    var size := |file|;
    if r.first.Some? then
      if r.last.Some? && r.last.value < r.first.value then Whole(file)
      else if r.first.value >= size then Unsatisfiable
      else Slice(file, r.first.value, if r.last.Some? then Min(r.last.value, size - 1) else size - 1)
    else if r.last.None? then Whole(file)
    else if r.last.value == 0 then Unsatisfiable
    else if r.last.value >= size then Whole(file)
    else Slice(file, size - r.last.value, size - 1)
  }

  /** A part that is everything is sent as the whole. */
  function Slice(file: Bytes, first: nat, last: int): Outcome
    requires first <= last < |file|
  {
    if first == 0 && last == |file| - 1 then Whole(file) else Part(file[first..last + 1], first, last, |file|)
  }

  // ----- what the code does -----

  /** `n or 0` */
  function OrZero(n: Option<int>): int {
    if n.Some? then n.value else 0
  }

  /** The bytes that `get_content` yields; None when it raises, for a position before the file or a length that does
      not come out. */
  function Content(file: Bytes, start: Option<int>, end: Option<int>): Option<Bytes> {
    var lo := OrZero(start);
    var at := Min(lo, |file|);
    if lo < 0 then None
    else if end.None? then Some(file[at..])
    else if lo <= end.value <= |file| then Some(file[at..end.value])
    else if end.value == lo then Some([])
    else None
  }

  const CHUNK_SIZE := 65536

  /** `get_content` */
  method GetContent(file: Bytes, start: Option<int>, end: Option<int>) returns (content: Option<Bytes>)
    ensures content == Content(file, start, end)
  {
    if start.Some? && start.value < 0 {
      return None;
    }
    var lo := OrZero(start);
    var at: nat := Min(lo, |file|);
    ghost var from := at;
    var body: Bytes := [];
    var remaining := if end.Some? then Some(end.value - lo) else None;
    while true
      invariant from <= at <= |file| && body == file[from..at]
      invariant remaining.Some? <==> end.Some?
      invariant remaining.Some? ==> remaining.value == end.value - lo - (at - from)
      invariant remaining.Some? && end.value >= lo ==> remaining.value >= 0
      decreases |file| - at
    {
      var chunkSize := CHUNK_SIZE;
      if remaining.Some? && remaining.value < chunkSize {
        chunkSize := remaining.value;
      }
      if chunkSize < 0 {
        return None;
      }
      var chunk := file[at..Min(at + chunkSize, |file|)];
      assert |chunk| == Min(at + chunkSize, |file|) - at;
      if chunk == [] {
        assert at == |file| ==> body == file[from..];
        return if remaining.None? || remaining.value == 0 then Some(body) else None;
      }
      if remaining.Some? {
        remaining := Some(remaining.value - |chunk|);
      }
      body := body + chunk;
      at := at + |chunk|;
    }
  }

  /** `get`, for a range header that was understood. */
  function Get(r: Range, file: Bytes): Outcome {
    var size := |file|;
    var (start0, end0) := Parse(r);
    if (start0.Some? && start0.value >= size) || end0 == Some(0) then Unsatisfiable
    else
      var start := if start0.Some? && start0.value < 0 then Some(start0.value + size) else start0;
      var end := if end0.Some? && end0.value > size then Some(size) else end0;
      match Content(file, start, end)
      case None => Fails
      case Some(body) =>
        var last := if end.Some? && end.value != 0 then end.value else size;
        if size != last - OrZero(start) then Part(body, OrZero(start), last - 1, size) else Whole(body)
  }

  /** What is served is what the standard asks for, and the Content-Range says which part it is, if and only if the
      range does not end before it starts and a suffix is not longer than the file. */
  lemma ServedAsAsked(r: Range, file: Bytes)
    ensures Get(r, file) == Asked(r, file)
            <==> !(r.first.Some? && r.last.Some? && r.last.value < r.first.value)
                 && !(r.first.None? && r.last.Some? && r.last.value > |file|)
  {
    assert file[0..] == file && file[..|file|] == file;
  }

  /** A suffix longer than the file is an error, where the standard asks for the whole file; a range that ends just
      before it starts is served as an empty part. */
  lemma Refuted()
    ensures Get(Range(None, Some(2)), [7]) == Fails && Asked(Range(None, Some(2)), [7]) == Whole([7])
    ensures Get(Range(Some(1), Some(0)), [7, 8]) == Part([], 1, 0, 2)
    ensures Asked(Range(Some(1), Some(0)), [7, 8]) == Whole([7, 8])
  {
  }
}
