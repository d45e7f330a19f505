/** One output stream of a running command: a frozen head, a rolling tail at absolute offsets, polls by
    cursor and pages by offset, all checked against the bytes that were really written. */
module OutputStreams {
  import opened Options

  const COMMAND_BUFFER_BYTES: nat := 524_288
  const COMMAND_HEAD_BUFFER_DIVISOR: nat := 8

  type Byte = bv8

  function HeadLimit(bufferLimit: nat): nat {
    bufferLimit / COMMAND_HEAD_BUFFER_DIVISOR
  }

  function TailLimit(bufferLimit: nat): nat {
    bufferLimit - HeadLimit(bufferLimit)
  }

  function Min(a: int, b: int): int {
    if a < b then a else b
  }

  function Max(a: int, b: int): int {
    if a < b then b else a
  }

  lemma MaxIsNat()
    ensures forall b :: Max(0, b) >= 0
  {
  }

  /** What a stream keeps of what was written to it. Nothing in it depends on how the bytes were chunked. */
  datatype Retained = Retained(head: seq<Byte>, tail: seq<Byte>, start: nat, total: nat)

  function Keep(written: seq<Byte>, bufferLimit: nat): Retained {
    var start: nat := Max(0, |written| - TailLimit(bufferLimit));
    Retained(written[..Min(|written|, HeadLimit(bufferLimit))], written[start..], start, |written|)
  }

  /** An eighth of the buffer keeps the beginning of the stream, the rest of it the end. */
  lemma KeepSizes(written: seq<Byte>, bufferLimit: nat)
    ensures var r, eighth := Keep(written, bufferLimit), bufferLimit / 8;
            && r.head <= written && |r.head| == Min(|written|, eighth)
            && |r.tail| == Min(|written|, bufferLimit - eighth) && r.start == |written| - |r.tail|
            && r.tail == written[r.start..] && r.total == |written|
  {
  }

  /** Bytes between the head and the tail: in neither. */
  function Gap(r: Retained): nat {
    Max(0, r.start - |r.head|)
  }

  /** Bytes that are kept. */
  function RetainedOf(written: seq<Byte>, bufferLimit: nat): (n: nat)
    ensures n == Min(|written|, bufferLimit)
  {
    |written| - Gap(Keep(written, bufferLimit))
  }

  /** One poll: what was skipped since the last one, and the span of the stream that was taken. */
  datatype Poll = Span(from: nat, at: nat, until: nat)

  /** Each poll continues where the one before stopped, skips forward or not at all, and takes a span. */
  predicate Contiguous(polls: seq<Poll>, cursor: nat) {
    if polls == [] then cursor == 0
    else
      var last := polls[|polls| - 1];
      last.from <= last.at <= last.until == cursor && Contiguous(polls[..|polls| - 1], last.from)
  }

  function Taken(polls: seq<Poll>): int {
    if polls == [] then 0 else Taken(polls[..|polls| - 1]) + polls[|polls| - 1].until - polls[|polls| - 1].at
  }

  function Omitted(polls: seq<Poll>): int {
    if polls == [] then 0 else Omitted(polls[..|polls| - 1]) + polls[|polls| - 1].at - polls[|polls| - 1].from
  }

  /** What polls took and what they counted as omitted make up everything up to the cursor. */
  lemma {:induction false} PollsAddUp(polls: seq<Poll>, cursor: nat)
    requires Contiguous(polls, cursor)
    ensures Taken(polls) + Omitted(polls) == cursor
  {
    if polls != [] {
      PollsAddUp(polls[..|polls| - 1], polls[|polls| - 1].from);
    }
  }

  /** Polls are in stream order and take no byte twice. */
  lemma {:induction false} PollsInOrder(polls: seq<Poll>, cursor: nat)
    requires Contiguous(polls, cursor)
    ensures forall i | 0 <= i < |polls| :: polls[i].from <= polls[i].at <= polls[i].until <= cursor
    ensures forall i, j | 0 <= i < j < |polls| :: polls[i].until <= polls[j].from
  {
    if polls != [] {
      PollsInOrder(polls[..|polls| - 1], polls[|polls| - 1].from);
    }
  }

  class OutputStream {
    const bufferLimit: nat
    var head: seq<Byte>
    var tail: seq<Byte>
    var startOffset: nat
    var cursor: nat
    var totalBytes: nat
    var droppedBytes: nat
    ghost var written: seq<Byte>
    ghost var evicted: nat
    ghost var polls: seq<Poll>

    ghost predicate Valid()
      reads this
    {
      && Segments() == Keep(written, bufferLimit)
      && droppedBytes == startOffset
      && evicted == Gap(Segments())
      && cursor <= totalBytes && Contiguous(polls, cursor)
    }

    /** retained_stream_segments. */
    function Segments(): Retained
      reads this
    {
      Retained(head, tail, startOffset, totalBytes)
    }

    constructor (bufferLimit: nat := COMMAND_BUFFER_BYTES)
      ensures Valid() && written == [] && polls == [] && evicted == 0 && this.bufferLimit == bufferLimit
    {
      this.bufferLimit := bufferLimit;
      head, tail, startOffset, cursor, totalBytes, droppedBytes := [], [], 0, 0, 0, 0;
      written, evicted, polls := [], 0, [];
    }

    /** append_stdout, append_stderr. `lost` is what is reported as evicted. */
    method Append(chunk: seq<Byte>) returns (lost: nat)
      requires Valid()
      modifies this
      ensures Valid() && written == old(written) + chunk && polls == old(polls) && cursor == old(cursor)
      ensures evicted == old(evicted) + lost
    {
      hide Keep, Gap, HeadLimit, TailLimit, Contiguous, RetainedOf, Max;
      KeepMore(written, chunk, bufferLimit);
      KeepShape(written, bufferLimit);
      KeepShape(written + chunk, bufferLimit);
      MaxIsNat();
      assert head + [] == head;
      var headCapacity: int := HeadLimit(bufferLimit) - |head|;
      if headCapacity > 0 {
        head := head + chunk[..Min(headCapacity, |chunk|)];
      }
      tail := tail + chunk;
      totalBytes := totalBytes + |chunk|;
      var previousStart := startOffset;
      var dropped := TrimBuffer();
      droppedBytes := droppedBytes + dropped;
      lost := Max(0, startOffset - Max(previousStart, |head|));
      written := written + chunk;
      evicted := evicted + lost;
    }

    /** _trim_buffer. */
    method TrimBuffer() returns (overflow: nat)
      requires startOffset + |tail| == totalBytes
      modifies this`tail, this`startOffset
      ensures overflow == Max(0, |old(tail)| - TailLimit(bufferLimit))
      ensures tail == old(tail)[overflow..] && startOffset == old(startOffset) + overflow
    {
      var over: int := |tail| - TailLimit(bufferLimit);
      if over <= 0 { return 0; }
      tail := tail[over..];
      startOffset := totalBytes - |tail|;
      overflow := over;
    }

    /** The cursor part of snapshot_since_cursor: everything retained beyond the cursor, and how much
        beyond the cursor is retained no longer. */
    method Poll() returns (bytes: seq<Byte>, omitted: nat)
      requires Valid()
      modifies this`cursor, this`polls
      ensures Valid() && cursor == |written|
      ensures polls == old(polls) + [Span(old(cursor), old(cursor) + omitted, |written|)]
      ensures bytes == written[old(cursor) + omitted..]
      ensures omitted > 0 ==> old(cursor) + omitted == startOffset
    {
      omitted := Max(0, startOffset - cursor);
      var start: nat := Max(0, cursor - startOffset);
      bytes := tail[start..];
      var one := Span(cursor, cursor + omitted, totalBytes);
      assert (polls + [one])[..|polls|] == polls;
      polls := polls + [one];
      cursor := totalBytes;
    }

    /** retained_bytes, for one stream. */
    function RetainedBytes(): (n: nat)
      requires Valid()
      reads this
      ensures n <= bufferLimit && n == RetainedOf(written, bufferLimit)
      ensures n + Gap(Segments()) == |written|
    {
      |tail| + Min(|head|, startOffset)
    }
  }

  lemma KeepMore(written: seq<Byte>, chunk: seq<Byte>, bufferLimit: nat)
    ensures var a, b := Keep(written, bufferLimit), Keep(written + chunk, bufferLimit);
            var room: int := HeadLimit(bufferLimit) - |a.head|;
            && room >= 0
            && b.head == a.head + (if room > 0 then chunk[..Min(room, |chunk|)] else [])
            && b.start == a.start + Max(0, |a.tail + chunk| - TailLimit(bufferLimit))
            && b.tail == (a.tail + chunk)[b.start - a.start..]
            && Gap(b) == Gap(a) + Max(0, b.start - Max(a.start, |b.head|))
  {
    hide HeadLimit, TailLimit, Min, Max;
    LimitsFit(bufferLimit);
    MaxIsNat();
    Overflow(|written|, TailLimit(bufferLimit));
    Overflow(|written + chunk|, TailLimit(bufferLimit));
    HeadMore(written, chunk, HeadLimit(bufferLimit));
    TailMore(written, chunk, TailLimit(bufferLimit));
    GapMore(|written|, |chunk|, HeadLimit(bufferLimit), TailLimit(bufferLimit));
  }

  lemma Overflow(n: nat, limit: nat)
    ensures Max(0, n - limit) <= n
    ensures forall a: nat, b: nat :: 0 <= Min(a, b) <= a
  {
  }

  lemma LimitsFit(bufferLimit: nat)
    ensures HeadLimit(bufferLimit) <= TailLimit(bufferLimit)
  {
  }

  lemma HeadMore(written: seq<Byte>, chunk: seq<Byte>, limit: nat)
    ensures var head := written[..Min(|written|, limit)];
            var room := limit - |head|;
            && |head| == Min(|written|, limit) && room >= 0
            && |(written + chunk)[..Min(|written + chunk|, limit)]| == Min(|written| + |chunk|, limit)
            && (written + chunk)[..Min(|written + chunk|, limit)] ==
                 head + (if room > 0 then chunk[..Min(room, |chunk|)] else [])
  {
    if limit <= |written| {
      assert (written + chunk)[..limit] == written[..limit];
    } else {
      var more := Min(limit - |written|, |chunk|);
      assert (written + chunk)[..|written| + more] == written + chunk[..more];
      assert written[..|written|] == written;
    }
  }

  lemma TailMore(written: seq<Byte>, chunk: seq<Byte>, limit: nat)
    ensures var start, end := Max(0, |written| - limit), Max(0, |written + chunk| - limit);
            && end == start + Max(0, |written[start..] + chunk| - limit)
            && (written + chunk)[end..] == (written[start..] + chunk)[end - start..]
  {
    var start: nat, end: nat := Max(0, |written| - limit), Max(0, |written + chunk| - limit);
    assert written[start..] + chunk == (written + chunk)[start..];
    assert (written + chunk)[start..][end - start..] == (written + chunk)[end..];
  }

  lemma GapMore(n: nat, more: nat, head: nat, tail: nat)
    requires head <= tail
    ensures var start, end := Max(0, n - tail), Max(0, n + more - tail);
            Max(0, end - Min(n + more, head)) ==
              Max(0, start - Min(n, head)) + Max(0, end - Max(start, Min(n + more, head)))
  {
  }

  /** A page: where it starts, its bytes, where the next one starts, and the bytes skipped to get there. */
  datatype Page = Page(offset: nat, chunk: seq<Byte>, next: Option<nat>, omitted: nat)

  function Clamp(limit: int): (n: nat)
    ensures 1 <= n <= COMMAND_BUFFER_BYTES
  {
    Max(1, Min(limit, COMMAND_BUFFER_BYTES))
  }

  function Slice(s: seq<Byte>, from: nat, until: nat): seq<Byte> {
    if from >= |s| || until <= from then [] else s[from..Min(until, |s|)]
  }

  /** The arithmetic of read_output. */
  function ReadPage(r: Retained, requested: int, limit: int): Page {
    var at: nat := Max(0, requested);
    var n := Clamp(limit);
    var (offset: nat, chunk) :=
      if at >= r.start then (at, Slice(r.tail, at - r.start, at - r.start + n))
      else if at < |r.head| then (at, Slice(r.head, at, Min(|r.head|, at + n)))
      else (r.start, Slice(r.tail, 0, n));
    Page(offset, chunk, if offset + |chunk| < r.total then Some(offset + |chunk|) else None, offset - at)
  }

  /** Every page is the stream's own bytes at the page's offset, and following pages advances. */
  lemma PageIsTrue(written: seq<Byte>, bufferLimit: nat, requested: int, limit: int)
    ensures var r := Keep(written, bufferLimit);
            var p := ReadPage(r, requested, limit);
            && p.offset == Max(0, requested) + p.omitted
            && (p.chunk != [] ==>
                  && p.offset + |p.chunk| <= |written|
                  && p.chunk == written[p.offset..p.offset + |p.chunk|])
            && |p.chunk| <= Clamp(limit)
            && (p.next.Some? ==>
                  && p.chunk != [] && Max(0, requested) < p.next.value < |written|
                  && p.next.value == p.offset + |p.chunk|)
            && (p.next.None? ==> p.offset + |p.chunk| >= |written|)
            && (p.omitted > 0 ==> |r.head| <= Max(0, requested) < r.start == p.offset)
  {
    hide Slice, Keep;
    KeepShape(written, bufferLimit);
    var r := Keep(written, bufferLimit);
    var at: nat := Max(0, requested);
    var n := Clamp(limit);
    if at >= r.start {
      SliceOf(written, r.start, |written|, at - r.start, at - r.start + n);
    } else if at < |r.head| {
      SliceOf(written, 0, |r.head|, at, Min(|r.head|, at + n));
    } else {
      SliceOf(written, r.start, |written|, 0, n);
    }
  }

  /** A page is as long as it may be: up to the limit, or to the end of the part of the stream it lies in. */
  lemma PageIsFull(written: seq<Byte>, bufferLimit: nat, requested: int, limit: int)
    ensures var r := Keep(written, bufferLimit);
            var at := Max(0, requested);
            var end := if at < r.start && at < |r.head| then |r.head| else |written|;
            var p := ReadPage(r, requested, limit);
            |p.chunk| == Max(0, Min(if limit < 1 then 1 else Min(limit, COMMAND_BUFFER_BYTES), end - p.offset))
  {
    hide Slice, Keep;
    KeepShape(written, bufferLimit);
    var r := Keep(written, bufferLimit);
    var at: nat := Max(0, requested);
    var n := Clamp(limit);
    if at >= r.start {
      SliceOf(written, r.start, |written|, at - r.start, at - r.start + n);
    } else if at < |r.head| {
      SliceOf(written, 0, |r.head|, at, Min(|r.head|, at + n));
    } else {
      SliceOf(written, r.start, |written|, 0, n);
    }
  }

  lemma SliceOf(s: seq<Byte>, from: nat, until: nat, i: nat, j: nat)
    requires from <= until <= |s| && i <= j
    ensures var c := Slice(s[from..until], i, j);
            c != [] ==> from + i + |c| <= until && c == s[from + i..from + i + |c|]
    ensures i < until - from && i < j ==> |Slice(s[from..until], i, j)| == Min(j, until - from) - i > 0
    ensures i >= until - from ==> Slice(s[from..until], i, j) == []
  {
    if i < until - from {
      var m := Min(j, until - from);
      forall k | 0 <= k < m - i ensures s[from..until][i..m][k] == s[from + i..from + m][k] {
      }
    }
  }

  lemma KeepShape(written: seq<Byte>, bufferLimit: nat)
    ensures var r := Keep(written, bufferLimit);
            && r.total == |written| && r.start <= |written| && |r.head| <= |written|
            && r.head == written[0..|r.head|] && r.tail == written[r.start..|written|]
  {
  }

  /** All the bytes a reader gets by following next_offset, and all that is skipped on the way. */
  function Follow(written: seq<Byte>, bufferLimit: nat, requested: nat, limit: int): (seq<Byte>, nat)
    decreases |written| - requested
  {
    PageIsTrue(written, bufferLimit, requested, limit);
    var p := ReadPage(Keep(written, bufferLimit), requested, limit);
    match p.next
    case None => (p.chunk, p.omitted)
    case Some(next) =>
      var (bytes, omitted) := Follow(written, bufferLimit, next, limit);
      (p.chunk + bytes, p.omitted + omitted)
  }

  /** What is left of the stream from an offset on. */
  function Rest(r: Retained, written: seq<Byte>, at: nat): seq<Byte>
    requires at <= |written| == r.total && r.start <= r.total && |r.head| <= r.total
  {
    if Gap(r) == 0 then written[at..]
    else if at < |r.head| then written[at..|r.head|] + written[r.start..]
    else written[Max(at, r.start)..]
  }

  lemma RestStep(written: seq<Byte>, bufferLimit: nat, at: nat, limit: int)
    requires at <= |written|
    ensures var r := Keep(written, bufferLimit);
            var p := ReadPage(r, at, limit);
            && (p.next.Some? ==>
                  && p.next.value <= |written|
                  && Rest(r, written, at) == p.chunk + Rest(r, written, p.next.value))
            && (p.next.None? ==> Rest(r, written, at) == p.chunk)
            && (p.next.Some? ==> at + p.omitted + |p.chunk| == p.next.value)
            && (p.next.None? ==> at + p.omitted + |p.chunk| == |written|)
  {
    hide ReadPage, Keep, Clamp, Rest;
    KeepShape(written, bufferLimit);
    PageIsTrue(written, bufferLimit, at, limit);
    PageStaysInSegment(written, bufferLimit, at, limit);
    var r := Keep(written, bufferLimit);
    var p := ReadPage(r, at, limit);
    RestCut(r, written, at, p.offset, p.offset + |p.chunk|);
  }

  /** What is left from a place on is a stretch of it and what is left behind that. */
  lemma RestCut(r: Retained, written: seq<Byte>, at: nat, from: nat, end: nat)
    requires at <= from <= end <= |written| == r.total && r.start <= r.total && |r.head| <= r.total
    requires at < |r.head| && at < r.start ==> from == at && end <= |r.head|
    requires at >= |r.head| || at >= r.start ==> from == Max(at, r.start)
    ensures Rest(r, written, at) == written[from..end] + Rest(r, written, end)
    ensures end == |written| ==> Rest(r, written, end) == []
  {
    Cut(written, from, end, |written|);
    if Gap(r) > 0 && at < |r.head| {
      Cut(written, from, end, |r.head|);
      Together(written[from..end], written[end..|r.head|], written[r.start..]);
    }
  }

  lemma Together(a: seq<Byte>, b: seq<Byte>, c: seq<Byte>)
    ensures a + b + c == a + (b + c) && a + [] == a && [] + c == c
  {
  }

  lemma Cut(s: seq<Byte>, from: nat, mid: nat, until: nat)
    requires from <= mid <= until <= |s|
    ensures s[from..until] == s[from..mid] + s[mid..until]
    ensures s[from..] == s[from..|s|] && s[mid..] == s[mid..|s|]
    ensures from == mid ==> s[from..mid] == []
    ensures mid == until ==> s[mid..until] == []
  {
  }

  /** No page spans the gap. */
  lemma PageStaysInSegment(written: seq<Byte>, bufferLimit: nat, at: nat, limit: int)
    requires at <= |written|
    ensures var r := Keep(written, bufferLimit);
            var p := ReadPage(r, at, limit);
            && (at < |r.head| && at < r.start ==> p.offset == at && at + |p.chunk| <= |r.head|)
            && (at >= |r.head| || at >= r.start ==> p.offset == Max(at, r.start))
            && (at == |written| ==> p.chunk == [])
            && p.offset + |p.chunk| <= |written|
  {
    PageIsTrue(written, bufferLimit, at, limit);
  }

  lemma {:induction false} FollowIsRest(written: seq<Byte>, bufferLimit: nat, at: nat, limit: int)
    requires at <= |written|
    ensures var r := Keep(written, bufferLimit);
            var (bytes, omitted) := Follow(written, bufferLimit, at, limit);
            bytes == Rest(r, written, at) && |bytes| + omitted == |written| - at
    decreases |written| - at
  {
    hide ReadPage, Rest, Keep;
    PageIsTrue(written, bufferLimit, at, limit);
    RestStep(written, bufferLimit, at, limit);
    var next := ReadPage(Keep(written, bufferLimit), at, limit).next;
    if next.Some? {
      FollowIsRest(written, bufferLimit, next.value, limit);
    }
  }

  /** Paging from the start gives the whole stream while head and tail meet, and otherwise exactly the
      head followed by the tail; delivered and omitted bytes make up the stream. */
  lemma PagingIsComplete(written: seq<Byte>, bufferLimit: nat, limit: int)
    ensures var r := Keep(written, bufferLimit);
            var (bytes, omitted) := Follow(written, bufferLimit, 0, limit);
            && bytes == (if Gap(r) == 0 then written else r.head + r.tail)
            && |bytes| + omitted == |written| && omitted == Gap(r)
  {
    FollowIsRest(written, bufferLimit, 0, limit);
    var r := Keep(written, bufferLimit);
    assert written[0..] == written && written[0..|r.head|] == r.head;
  }
}
