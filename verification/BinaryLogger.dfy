/** The memory-mapped ring log and its replay reader. The mapping is a byte array shared by
    both; positions grow without bound and are reduced modulo the ring size on access. */
module BinaryLogger {
  import opened Types
  import opened Arithmetic
  import opened LogFormat

  // ---- The ring as a window on an unbounded byte stream ----

  /** The oldest stream position whose byte a ring of n bytes can still hold. */
  function Oldest(n: nat, written: nat): nat {
    if written > n then written - n else 0
  }

  /** Byte p of the stream sits in its slot of the ring. */
  ghost predicate HeldAt(ring: seq<Byte>, stream: seq<Byte>, p: nat)
    requires |ring| > 0 && p < |stream|
  {
    ring[p % |ring|] == stream[p]
  }

  /** Every byte of the stream from position `from` on sits in its slot of the ring. */
  ghost predicate Holds(ring: seq<Byte>, stream: seq<Byte>, from: nat) {
    |ring| > 0 && forall p :: from <= p < |stream| ==> HeldAt(ring, stream, p)
  }

  /** What one ring write leaves: `src` laid out from `off`, wrapping to the front, the rest as
      it was. */
  ghost predicate WroteAt(before: seq<Byte>, after: seq<Byte>, off: nat, src: seq<Byte>) {
    var n := |before|;
    && |after| == n && |src| <= n && off <= n
    && forall i :: 0 <= i < n ==>
         after[i] == if off <= i < off + |src| then src[i - off]
                     else if i < off + |src| - n then src[i + n - off]
                     else before[i]
  }

  /** The slot of stream position |stream| + j when `off` is the ring offset of its end. */
  lemma SlotOf(n: nat, off: nat, len: nat, j: nat)
    requires 0 < n && off <= n && off % n == len % n && j < n
    ensures (len + j) % n == if off == n then j else if off + j < n then off + j else off + j - n
  {
    RemainderOfSum(len, j, n);
    var a := if off == n then 0 else off;
    assert n % n == 0 by { DivModUnique(n, n, 1, 0); }
    if off < n { DivModUnique(off, n, 0, off); }
    assert len % n == a;
    if a + j < n { DivModUnique(a + j, n, 0, a + j); } else { DivModUnique(a + j, n, 1, a + j - n); }
  }

  lemma NewBytesHeld(before: seq<Byte>, after: seq<Byte>, off: nat, src: seq<Byte>, len: nat, j: nat)
    requires |before| > 0 && off <= |before| && off % |before| == len % |before|
    requires j < |src| <= |before|
    requires WroteAt(before, after, off, src)
    ensures after[(len + j) % |before|] == src[j]
  {
    SlotOf(|before|, off, len, j);
  }

  lemma OldBytesKept(before: seq<Byte>, after: seq<Byte>, off: nat, src: seq<Byte>, len: nat, p: nat)
    requires |before| > 0 && off <= |before| && off % |before| == len % |before|
    requires |src| <= |before|
    requires WroteAt(before, after, off, src)
    requires p < len && len + |src| <= p + |before|
    ensures after[p % |before|] == before[p % |before|]
  {
    var n, i := |before|, p % |before|;
    if off <= i < off + |src| {
      SlotOf(n, off, len, i - off);
      SameRemainder(p, len + (i - off), n);
    } else if i < off + |src| - n {
      SlotOf(n, off, len, i + n - off);
      SameRemainder(p, len + (i + n - off), n);
    }
  }

  /** A ring write appends to the stream: whatever was held and is still young enough stays. */
  lemma {:induction false} WriteAppends(before: seq<Byte>, after: seq<Byte>, off: nat, src: seq<Byte>,
                     stream: seq<Byte>, from: nat)
    requires Holds(before, stream, from) && WroteAt(before, after, off, src)
    requires off <= |before| && off % |before| == |stream| % |before| && |src| <= |before|
    requires from + |before| >= |stream| + |src|
    ensures Holds(after, stream + src, from)
  {
    forall p | from <= p < |stream + src|
      ensures HeldAt(after, stream + src, p)
    {
      if p < |stream| {
        assert HeldAt(before, stream, p);
        OldBytesKept(before, after, off, src, |stream|, p);
      } else {
        NewBytesHeld(before, after, off, src, |stream|, p - |stream|);
      }
    }
  }

  /** Reading `n` ring bytes from position `pos`, in one or two pieces. */
  function ReadAt(ring: seq<Byte>, pos: nat, n: nat): (bytes: seq<Byte>)
    requires |ring| > 0 && n <= |ring|
    ensures |bytes| == n
  {
    var off := pos % |ring|;
    if off + n <= |ring| then ring[off..off + n] else ring[off..] + ring[..off + n - |ring|]
  }

  lemma ReadsStream(ring: seq<Byte>, stream: seq<Byte>, from: nat, pos: nat, n: nat)
    requires Holds(ring, stream, from)
    requires from <= pos && pos + n <= |stream| && n <= |ring|
    ensures ReadAt(ring, pos, n) == stream[pos..pos + n]
  {
    var off := pos % |ring|;
    assert off % |ring| == off by { DivModUnique(off, |ring|, 0, off); }
    forall j | 0 <= j < n
      ensures ReadAt(ring, pos, n)[j] == stream[pos + j]
    {
      assert HeldAt(ring, stream, pos + j);
      SlotOf(|ring|, off, pos, j);
    }
  }

  // ---- Where replay starts ----

  /** "The oldest record still in the ring": the first one of which no byte is overwritten. */
  ghost predicate IsOldestWhole(rs: seq<Record>, n: nat, i: nat) {
    && i <= |rs| && Oldest(n, |Stream(rs)|) <= Boundary(rs, i)
    && (i > 0 ==> Boundary(rs, i - 1) < Oldest(n, |Stream(rs)|))
  }

  lemma {:induction false} OldestWholeExists(rs: seq<Record>, n: nat, j: nat) returns (i: nat)
    requires j <= |rs| && Oldest(n, |Stream(rs)|) <= Boundary(rs, j)
    ensures IsOldestWhole(rs, n, i)
  {
    if j > 0 && Oldest(n, |Stream(rs)|) <= Boundary(rs, j - 1) {
      i := OldestWholeExists(rs, n, j - 1);
    } else {
      i := j;
    }
  }

  lemma {:induction false} SuffixLength(rs: seq<Record>, j: nat)
    requires j <= |rs|
    ensures |Stream(rs)| == Boundary(rs, j) + |Stream(rs[j..])|
  {
    assert rs[..j] + rs[j..] == rs;
    StreamAppends(rs[..j], rs[j..]);
  }

  lemma {:induction false} FilledToTheByte(rs: seq<Record>, n: nat, i: nat, j: nat)
    requires IsOldestWhole(rs, n, i) && |Stream(rs)| > n
    requires j <= |rs| && |Stream(rs[j..])| == n
    ensures Oldest(n, |Stream(rs)|) == Boundary(rs, i)
  {
    SuffixLength(rs, j);
    if i < j { BoundariesGrow(rs, i, j); }
    if j < i { BoundariesGrow(rs, j, i - 1); }
  }

  /** The condition under which replay starts on a record: nothing has been overwritten yet, or
      some run of the newest records fills the ring to the byte. */
  ghost predicate NothingCut(rs: seq<Record>, n: nat) {
    |Stream(rs)| <= n || exists j :: 0 <= j <= |rs| && |Stream(rs[j..])| == n
  }

  /** The reader and `rewind` are documented to start at the oldest record still in the ring.
      They do exactly under `NothingCut`; otherwise they start inside a record. */
  lemma {:induction false} StartsAtOldestRecord(rs: seq<Record>, n: nat, i: nat)
    requires IsOldestWhole(rs, n, i)
    ensures Oldest(n, |Stream(rs)|) == Boundary(rs, i) <==> NothingCut(rs, n)
  {
    if |Stream(rs)| > n {
      if Oldest(n, |Stream(rs)|) == Boundary(rs, i) {
        SuffixLength(rs, i);
      } else if j :| 0 <= j <= |rs| && |Stream(rs[j..])| == n {
        FilledToTheByte(rs, n, i, j);
      }
    }
  }

  /** And then a full pass returns every record still whole in the ring, and nothing else. */
  lemma {:induction false} ReplaysEveryWholeRecord(rs: seq<Record>, n: nat, i: nat)
    requires IsOldestWhole(rs, n, i) && NothingCut(rs, n)
    requires forall r :: r in rs ==> Encodable(r)
    ensures ParseAll(Stream(rs), Oldest(n, |Stream(rs)|), |Stream(rs)|) == rs[i..]
  {
    StartsAtOldestRecord(rs, n, i);
    assert rs[..|rs|] == rs;
    ReplayFromBoundary(rs, i, |rs|);
  }

  /** Replay starts where some record starts if and only if nothing was cut. */
  lemma {:induction false} StartsOnRecordIff(rs: seq<Record>, n: nat)
    ensures (exists i: nat :: i <= |rs| && Boundary(rs, i) == Oldest(n, |Stream(rs)|)) <==> NothingCut(rs, n)
  {
    assert rs[..|rs|] == rs;
    var first := OldestWholeExists(rs, n, |rs|);
    StartsAtOldestRecord(rs, n, first);
    if i: nat :| i <= |rs| && Boundary(rs, i) == Oldest(n, |Stream(rs)|) {
      SuffixLength(rs, i);
    }
  }

  /** Two records of 3000 payload bytes in a one-page ring: replay starts inside the first. */
  lemma StartInsideRecord(r: Record)
    requires |r.data| == 3000
    ensures IsOldestWhole([r, r], 4096, 1)
    ensures Boundary([r, r], 0) < Oldest(4096, |Stream([r, r])|) < Boundary([r, r], 1)
  {
    assert [r, r][..1] == [r] && [r][..0] == [] && [r, r][..0] == [];
    assert |Stream([r])| == 3012;
  }

  // ---- The writer ----

  /** The system page size, or 4096 when it cannot be had. */
  function PageSize(sysconf: int): nat {
    if sysconf > 0 then sysconf else 4096
  }

  function RoundUpPage(n: nat, sysconf: int): (r: nat)
    ensures r >= n && r % PageSize(sysconf) == 0
    ensures r < n + PageSize(sysconf)
  {
    var ps := PageSize(sysconf);
    var pages := (n + ps - 1) / ps;
    assert n + ps - 1 == ps * pages + (n + ps - 1) % ps;
    DivModUnique(ps * pages, ps, pages, 0);
    pages * ps
  }

  class BinaryLogger {
    const buf: array<Byte>
    var writePos: nat
    ghost var stream: seq<Byte>       // every byte written so far
    ghost var records: seq<Record>    // every record written so far

    /** The ring holds the newest bytes of the stream. */
    ghost predicate RingValid()
      reads this, buf
    {
      && buf.Length >= HEADER_SIZE && writePos == |stream|
      && Holds(buf[..], stream, Oldest(buf.Length, writePos))
    }

    ghost predicate Valid()
      reads this, buf
    {
      RingValid() && stream == Stream(records) && forall r :: r in records ==> Encodable(r)
    }

    constructor (size: nat)
      requires size >= HEADER_SIZE
      ensures Valid() && records == [] && buf.Length == size && fresh(buf)
    {
      buf := new Byte[size](_ => 0);
      writePos := 0;
      stream, records := [], [];
    }

    /** Opens a log; a zero buffer size is an error. */
    static method Open(bufferSize: nat, sysconf: int) returns (log: Option<BinaryLogger>)
      requires PageSize(sysconf) >= HEADER_SIZE
      ensures log.None? <==> bufferSize == 0
      ensures log.Some? ==> fresh(log.value) && log.value.Valid() && log.value.records == []
      ensures log.Some? ==> log.value.buf.Length == RoundUpPage(bufferSize, sysconf)
    {
      if bufferSize == 0 {
        return None;
      }
      var size := RoundUpPage(bufferSize, sysconf);
      MultipleIsFar(PageSize(sysconf), size / PageSize(sysconf));
      var l := new BinaryLogger(size);
      log := Some(l);
    }

    /** memcpy into the ring. */
    static method Copy(ring: array<Byte>, at: nat, src: seq<Byte>)
      requires at + |src| <= ring.Length
      modifies ring
      ensures forall i :: 0 <= i < ring.Length ==>
                ring[i] == if at <= i < at + |src| then src[i - at] else old(ring[i])
    {
      forall j | 0 <= j < |src| {
        ring[at + j] := src[j];
      }
    }

    static method RingWrite(ring: array<Byte>, off: nat, src: seq<Byte>) returns (next: nat)
      requires off <= ring.Length && 0 < ring.Length && |src| <= ring.Length
      modifies ring
      ensures WroteAt(old(ring[..]), ring[..], off, src)
      ensures next <= ring.Length && next % ring.Length == (off + |src|) % ring.Length
    {
      var avail := ring.Length - off;
      if |src| <= avail {
        Copy(ring, off, src);
        next := off + |src|;
      } else {
        Copy(ring, off, src[..avail]);
        Copy(ring, 0, src[avail..]);
        next := |src| - avail;
        RemainderOfPeriod(next, ring.Length);
      }
    }

    /** Appends one framed record. The payload must fit the ring: a longer one would be copied
        past its end. */
    method Write(timestampNs: nat, data: seq<Byte>)
      requires Valid() && Encodable(Record(timestampNs, data)) && |data| <= buf.Length
      modifies this, buf
      ensures Valid()
      ensures records == old(records) + [Record(timestampNs, data)]
      ensures stream == old(stream) + Encode(Record(timestampNs, data))
      ensures writePos == old(writePos) + HEADER_SIZE + |data|
    {
      ghost var rec := Record(timestampNs, data);
      assert (records + [rec])[..|records|] == records;
      AppendFrame(timestampNs, data);
      records := records + [rec];
    }

    method AppendFrame(timestampNs: nat, data: seq<Byte>)
      requires RingValid() && |data| <= buf.Length
      modifies this, buf
      ensures RingValid() && records == old(records)
      ensures stream == old(stream) + Encode(Record(timestampNs, data))
    {
      var total := HEADER_SIZE + |data|;
      var pos := writePos;
      var off := pos % buf.Length;
      var header := Header(Record(timestampNs, data));
      ghost var n, start := buf.Length, off;
      assert start % n == pos % n by { DivModUnique(off, n, 0, off); }
      ghost var ring0 := buf[..];
      off := RingWrite(buf, off, header);
      ghost var ring1, mid := buf[..], off;
      assert mid % n == (pos + HEADER_SIZE) % n by { RemainderOfSum(pos, HEADER_SIZE, n); }
      off := RingWrite(buf, off, data);
      WriteAppends(ring0, ring1, start, header, stream, Oldest(n, pos + HEADER_SIZE));
      WriteAppends(ring1, buf[..], mid, data, stream + header, Oldest(n, pos + total));
      assert stream + header + data == stream + (header + data);
      stream := stream + (header + data);
      writePos := pos + total;
    }
  }

  // ---- The reader ----

  /** A growing buffer: the number of its storage block, what that has room for, and what it holds.
      A block that has been given back does not return. */
  datatype Buffer = Buffer(block: nat, capacity: nat, data: seq<Byte>)

  const NO_BUFFER := Buffer(0, 0, [])

  /** How much room the allocator makes for each block, if that is more than was asked for. */
  type Allocator = nat -> nat

  function Max(a: nat, b: nat): nat { if a < b then b else a }

  /** Resized to the payload and filled with it. A payload beyond the capacity moves the buffer to
      a new block. */
  function Refilled(b: Buffer, payload: seq<Byte>, grow: Allocator): Buffer {
    if |payload| <= b.capacity then b.(data := payload)
    else Buffer(b.block + 1, Max(|payload|, grow(b.block + 1)), payload)
  }

  /** Where an entry's payload is: in the ring itself, or in a block of the bounce buffer. */
  datatype Pointer = InRing(off: nat) | InBounce(block: nat)

  datatype Entry = Entry(timestampNs: nat, length: nat, data: Pointer)

  /** The payload at `pos` runs over the end of a ring of n bytes. */
  predicate Straddles(pos: nat, len: nat, n: nat)
    requires n > 0
  {
    pos % n + len > n
  }

  /** Where the payload of `len` bytes at `pos` is handed out, the bounce buffer being as given. */
  function PointerTo(pos: nat, len: nat, n: nat, bounce: Buffer): Pointer
    requires n > 0
  {
    if Straddles(pos, len, n) then InBounce(bounce.block) else InRing(pos % n)
  }

  /** The bytes an entry points to. A pointer into a block the buffer has left, or past what the
      buffer holds, shows nothing. */
  function PayloadOf(e: Entry, ring: seq<Byte>, bounce: Buffer): seq<Byte> {
    match e.data
    case InBounce(block) =>
      if block == bounce.block && e.length <= |bounce.data| then bounce.data[..e.length] else []
    case InRing(off) => if off + e.length <= |ring| then ring[off..off + e.length] else []
  }

  /** The records that entries stand for, read through their pointers. */
  ghost function Payloads(entries: seq<Entry>, ring: seq<Byte>, bounce: Buffer): seq<Record> {
    seq(|entries|, i requires 0 <= i < |entries| =>
      Record(entries[i].timestampNs, PayloadOf(entries[i], ring, bounce)))
  }

  /** Refilling the bounce buffer leaves entries that point into the ring as they were. */
  lemma PayloadsExtend(entries: seq<Entry>, e: Entry, ring: seq<Byte>, bounce: Buffer, bounce': Buffer)
    requires bounce == bounce' || forall i :: 0 <= i < |entries| ==> !entries[i].data.InBounce?
    ensures Payloads(entries + [e], ring, bounce')
         == Payloads(entries, ring, bounce) + [Record(e.timestampNs, PayloadOf(e, ring, bounce'))]
  {
  }

  /** Entries point into the bounce buffer only if it was filled, at a straddling payload that
      this pass has already gone over. */
  ghost predicate BouncedOnce(entries: seq<Entry>, at: Option<nat>, start: nat, pos: nat, len: nat, n: nat) {
    match at
    case None => forall i :: 0 <= i < |entries| ==> !entries[i].data.InBounce?
    case Some(p) => n > 0 && start <= p && p + len <= pos && Straddles(p, len, n)
  }

  /** One pass over at most n bytes meets at most one straddling payload. */
  lemma {:induction false} StraddlesOnce(n: nat, start: nat, pos: nat, len: nat, pos': nat, len': nat)
    requires n > 0 && start <= pos && pos + len <= pos' && pos' + len' <= start + n
    requires Straddles(pos, len, n)
    ensures !Straddles(pos', len', n)
  {
    var q, q' := pos / n, pos' / n;
    assert pos == n * q + pos % n && pos' == n * q' + pos' % n;
    var d := q' - q - 1;
    assert n * d == n * q' - n * q - n;
    MultipleIsFar(n, d);
    MultipleIsFar(n, d + 1);
    assert n * (d + 1) == n * q' - n * q;
  }

  /** What one call of `next` takes from the ring bytes, whatever they are. */
  function ParseRing(ring: seq<Byte>, pos: nat, end: nat): (r: Option<Parsed>)
    requires |ring| >= HEADER_SIZE && end <= pos + |ring|
    ensures r.Some? ==> r.value.next == pos + HEADER_SIZE + |r.value.record.data| <= end
  {
    if pos + HEADER_SIZE > end then None
    else
      var header := ReadAt(ring, pos, HEADER_SIZE);
      var stamp := FromLittleEndian(header[..STAMP_SIZE]);
      var len := FromLittleEndian(header[STAMP_SIZE..]);
      var start := pos + HEADER_SIZE;
      if start + len > end then None
      else Some(Parsed(Record(stamp, ReadAt(ring, start, len)), start + len))
  }

  /** Reading an intact ring is parsing the unbounded log, at any position. */
  lemma {:induction false} ParsesFromRing(ring: seq<Byte>, stream: seq<Byte>, from: nat, pos: nat, end: nat)
    requires |ring| >= HEADER_SIZE && Holds(ring, stream, from)
    requires from <= pos && end <= |stream| && end <= pos + |ring|
    ensures ParseRing(ring, pos, end) == Parse(stream, pos, end)
  {
    if pos + HEADER_SIZE <= end {
      var header := ReadAt(ring, pos, HEADER_SIZE);
      ReadsStream(ring, stream, from, pos, HEADER_SIZE);
      assert header[..STAMP_SIZE] == stream[pos..pos + STAMP_SIZE];
      assert header[STAMP_SIZE..] == stream[pos + STAMP_SIZE..pos + HEADER_SIZE];
      var len := FromLittleEndian(header[STAMP_SIZE..]);
      if pos + HEADER_SIZE + len <= end {
        ReadsStream(ring, stream, from, pos + HEADER_SIZE, len);
      }
    }
  }

  /** The choice between the two paths for a payload at `pos` in a ring of n bytes. */
  ghost predicate TookPayload(e: Entry, pos: nat, n: nat, bounce: Buffer, bounce': Buffer, grow: Allocator)
    requires n > 0
  {
    && e.data == PointerTo(pos, e.length, n, bounce')
    && if Straddles(pos, e.length, n)
       then |bounce'.data| == e.length && bounce' == Refilled(bounce, bounce'.data, grow)
       else bounce' == bounce
  }

  /** What a call of `next` did, given what parsing the ring says. */
  ghost predicate TookNext(entry: Option<Entry>, parsed: Option<Parsed>, pos: nat, pos': nat,
                           ring: seq<Byte>, bounce: Buffer, bounce': Buffer, grow: Allocator)
    requires |ring| > 0
  {
    match parsed
    case None => entry.None? && pos' == pos && bounce' == bounce
    case Some(p) =>
      && entry.Some? && pos' == p.next
      && Record(entry.value.timestampNs, PayloadOf(entry.value, ring, bounce')) == p.record
      && entry.value.length == |p.record.data|
      && TookPayload(entry.value, pos + HEADER_SIZE, |ring|, bounce, bounce', grow)
  }

  /** A pass over an intact ring that began at `start` stands at `pos`: the entries taken so far
      show, through their pointers, the records parsed so far; `rest` are those still ahead. */
  ghost predicate Passing(ring: seq<Byte>, stream: seq<Byte>, start: nat, end: nat, pos: nat, bounce: Buffer,
                          entries: seq<Entry>, at: Option<nat>, rest: seq<Record>)
  {
    && |ring| >= HEADER_SIZE && Holds(ring, stream, start)
    && start <= pos <= end <= |stream| && end <= start + |ring|
    && rest == ParseAll(stream, pos, end)
    && BouncedOnce(entries, at, start, pos, |bounce.data|, |ring|)
    && Payloads(entries, ring, bounce) + rest == ParseAll(stream, start, end)
  }

  /** An entry can go through the bounce buffer only if no earlier one of the pass did. */
  lemma StillBouncedOnce(entries: seq<Entry>, at: Option<nat>, start: nat, pos: nat, n: nat,
                         e: Entry, bounce: Buffer, bounce': Buffer, grow: Allocator)
    returns (at': Option<nat>)
    requires n > 0 && start <= pos && pos + e.length <= start + n
    requires BouncedOnce(entries, at, start, pos, |bounce.data|, n) && TookPayload(e, pos, n, bounce, bounce', grow)
    ensures BouncedOnce(entries + [e], at', start, pos + e.length, |bounce'.data|, n)
    ensures bounce == bounce' || forall i :: 0 <= i < |entries| ==> !entries[i].data.InBounce?
  {
    at' := at;
    if e.data.InBounce? {
      if at.Some? {
        StraddlesOnce(n, start, at.value, |bounce.data|, pos, e.length);
      }
      at' := Some(pos);
    }
  }

  /** One more call of `next` in a pass: its entry shows its payload, and the earlier ones still
      do. */
  lemma PassGoesOn(ring: seq<Byte>, stream: seq<Byte>, start: nat, end: nat, pos: nat, bounce: Buffer,
                   entries: seq<Entry>, at: Option<nat>, rest: seq<Record>, parsed: Option<Parsed>,
                   entry: Option<Entry>, pos': nat, bounce': Buffer, grow: Allocator)
    returns (at': Option<nat>)
    requires Passing(ring, stream, start, end, pos, bounce, entries, at, rest)
    requires parsed == Parse(stream, pos, end) && TookNext(entry, parsed, pos, pos', ring, bounce, bounce', grow)
    ensures entry.None? ==> rest == [] && at' == at && pos' == pos && bounce' == bounce
    ensures entry.Some? ==> rest != [] && pos' > pos
    ensures entry.Some? ==>
              Passing(ring, stream, start, end, pos', bounce', entries + [entry.value], at', rest[1..])
  {
    at' := at;
    if entry.Some? {
      var e, p := entry.value, parsed.value;
      at' := StillBouncedOnce(entries, at, start, pos + HEADER_SIZE, |ring|, e, bounce, bounce', grow);
      PayloadsExtend(entries, e, ring, bounce, bounce');
      assert rest == [p.record] + ParseAll(stream, p.next, end);
      assert Payloads(entries, ring, bounce) + rest
          == Payloads(entries, ring, bounce) + [p.record] + rest[1..];
    }
  }

  // ---- How long an entry shows its payload ----

  /** A payload handed out: where it stood in the stream, its bytes, and whether the writer had
      not yet lapped the read position when it was read. */
  datatype Taken = Taken(pos: nat, data: seq<Byte>, intact: bool)

  predicate Bounces(t: Taken, n: nat)
    requires n > 0
  {
    Straddles(t.pos, |t.data|, n)
  }

  /** The bounce buffer after these payloads. */
  function Buffered(taken: seq<Taken>, n: nat, grow: Allocator): Buffer
    requires n > 0
  {
    if taken == [] then NO_BUFFER
    else
      var before, last := Buffered(taken[..|taken| - 1], n, grow), taken[|taken| - 1];
      if Bounces(last, n) then Refilled(before, last.data, grow) else before
  }

  lemma {:induction false} BufferedSnoc(taken: seq<Taken>, t: Taken, n: nat, grow: Allocator)
    requires n > 0
    ensures Buffered(taken + [t], n, grow)
         == if Bounces(t, n) then Refilled(Buffered(taken, n, grow), t.data, grow) else Buffered(taken, n, grow)
  {
    assert (taken + [t])[..|taken|] == taken;
  }

  /** The bounce buffer after one more payload has been handed out. */
  lemma {:induction false} BufferedAfter(taken: seq<Taken>, e: Entry, p: Parsed, pos: nat, bounce: Buffer,
                                         bounce': Buffer, ring: seq<Byte>, grow: Allocator, intact: bool)
    requires |ring| > 0 && bounce == Buffered(taken, |ring|, grow)
    requires TookNext(Some(e), Some(p), pos, p.next, ring, bounce, bounce', grow)
    ensures bounce' == Buffered(taken + [Taken(pos + HEADER_SIZE, p.record.data, intact)], |ring|, grow)
  {
    BufferedSnoc(taken, Taken(pos + HEADER_SIZE, p.record.data, intact), |ring|, grow);
    assert e.data.InBounce? ==> bounce'.data[..e.length] == bounce'.data;
  }

  /** What the entry of the k-th payload handed out shows after all of them, over this ring. */
  function Shown(taken: seq<Taken>, k: nat, ring: seq<Byte>, grow: Allocator): seq<Byte>
    requires |ring| > 0 && k < |taken|
  {
    var t, n := taken[k], |ring|;
    PayloadOf(Entry(0, |t.data|, PointerTo(t.pos, |t.data|, n, Buffered(taken[..k + 1], n, grow))), ring,
              Buffered(taken, n, grow))
  }

  ghost predicate TakenFrom(stream: seq<Byte>, t: Taken) {
    t.pos + |t.data| <= |stream| && t.data == stream[t.pos..t.pos + |t.data|]
  }

  /** The newest of the first `written` stream positions that shares the slot of position q. */
  function Newest(n: nat, written: nat, q: nat): (p: nat)
    requires n > 0 && q < written
    ensures q <= p < written && written <= p + n && p % n == q % n
    ensures written <= q + n ==> p == q
  {
    var laps := (written - 1 - q) / n;
    assert written - 1 - q == n * laps + (written - 1 - q) % n;
    MultipleIsFar(n, laps);
    assert q + n * laps == n * (q / n + laps) + q % n by { assert n * (q / n + laps) == n * (q / n) + n * laps; }
    DivModUnique(q + n * laps, n, q / n + laps, q % n);
    q + n * laps
  }

  /** The newest byte of every slot under the payload is the payload's. */
  ghost predicate Unlapped(stream: seq<Byte>, t: Taken, n: nat)
    requires n > 0 && t.pos + |t.data| <= |stream|
  {
    forall j :: 0 <= j < |t.data| ==> stream[Newest(n, |stream|, t.pos + j)] == t.data[j]
  }

  /** The slots of a payload that does not straddle lie side by side. */
  lemma SlotsOfPayload(pos: nat, len: nat, n: nat, j: nat)
    requires n > 0 && !Straddles(pos, len, n) && j < len
    ensures (pos + j) % n == pos % n + j
  {
    assert pos + j == n * (pos / n) + (pos % n + j);
    DivModUnique(pos + j, n, pos / n, pos % n + j);
  }

  /** A zero-copy entry shows its payload if and only if every slot under it holds its byte. */
  lemma {:induction false} InRingShowsIff(ring: seq<Byte>, stream: seq<Byte>, taken: seq<Taken>, k: nat,
                                          grow: Allocator)
    requires Holds(ring, stream, Oldest(|ring|, |stream|)) && k < |taken|
    requires taken[k].pos + |taken[k].data| <= |stream| && !Bounces(taken[k], |ring|)
    ensures Shown(taken, k, ring, grow) == taken[k].data <==> Unlapped(stream, taken[k], |ring|)
  {
    var n, t, len := |ring|, taken[k], |taken[k].data|;
    var shown := Shown(taken, k, ring, grow);
    forall j | 0 <= j < len
      ensures shown[j] == stream[Newest(n, |stream|, t.pos + j)]
    {
      SlotsOfPayload(t.pos, len, n, j);
      assert HeldAt(ring, stream, Newest(n, |stream|, t.pos + j));
    }
    if Unlapped(stream, t, n) {
      assert forall j :: 0 <= j < len ==> shown[j] == t.data[j];
    } else {
      var j :| 0 <= j < len && stream[Newest(n, |stream|, t.pos + j)] != t.data[j];
      assert shown[j] != t.data[j];
    }
  }

  /** Until the writer is more than a ring length past its start, nothing can be lapped. */
  lemma NotYetLapped(stream: seq<Byte>, t: Taken, n: nat)
    requires n > 0 && TakenFrom(stream, t) && |stream| <= t.pos + n
    ensures Unlapped(stream, t, n)
  {
  }

  /** No payload bounced after the k-th was too long for the block the k-th was put in. */
  ghost predicate Unmoved(taken: seq<Taken>, k: nat, n: nat, grow: Allocator)
    requires n > 0 && k < |taken|
  {
    forall i :: k < i < |taken| && Bounces(taken[i], n) ==>
      |taken[i].data| <= Buffered(taken[..k + 1], n, grow).capacity
  }

  /** The buffer is still in the block of the k-th payload exactly when it did not have to move. */
  lemma {:induction false} SameBlockIff(taken: seq<Taken>, k: nat, n: nat, grow: Allocator)
    requires n > 0 && k < |taken|
    ensures var was, now := Buffered(taken[..k + 1], n, grow), Buffered(taken, n, grow);
            && was.block <= now.block && (was.block == now.block <==> Unmoved(taken, k, n, grow))
            && (was.block == now.block ==> was.capacity == now.capacity)
    decreases |taken|
  {
    var m := |taken| - 1;
    if k == m {
      assert taken[..k + 1] == taken;
    } else {
      var front := taken[..m];
      SameBlockIff(front, k, n, grow);
      assert front[..k + 1] == taken[..k + 1];
      assert forall i :: 0 <= i < m ==> front[i] == taken[i];
      assert Unmoved(taken, k, n, grow) <==>
             Unmoved(front, k, n, grow)
             && (Bounces(taken[m], n) ==> |taken[m].data| <= Buffered(taken[..k + 1], n, grow).capacity);
    }
  }

  ghost predicate LastBounce(taken: seq<Taken>, i: nat, n: nat)
    requires n > 0 && i < |taken|
  {
    Bounces(taken[i], n) && forall m :: i < m < |taken| ==> !Bounces(taken[m], n)
  }

  lemma {:induction false} HoldsLastBounce(taken: seq<Taken>, k: nat, n: nat, grow: Allocator) returns (i: nat)
    requires n > 0 && k < |taken| && Bounces(taken[k], n)
    ensures k <= i < |taken| && LastBounce(taken, i, n) && Buffered(taken, n, grow).data == taken[i].data
  {
    var last := |taken| - 1;
    if Bounces(taken[last], n) {
      i := last;
    } else {
      i := HoldsLastBounce(taken[..last], k, n, grow);
    }
  }

  /** The payload bounced last, if not the k-th itself, begins with the k-th. */
  ghost predicate Unreplaced(taken: seq<Taken>, k: nat, n: nat)
    requires n > 0 && k < |taken|
  {
    forall i :: k <= i < |taken| && LastBounce(taken, i, n) ==> taken[k].data <= taken[i].data
  }

  /** A bounced entry shows its payload if and only if the buffer did not move since and what was
      bounced last begins with that payload. */
  lemma {:induction false} InBounceShowsIff(ring: seq<Byte>, taken: seq<Taken>, k: nat, grow: Allocator)
    requires |ring| > 0 && k < |taken| && Bounces(taken[k], |ring|)
    ensures Shown(taken, k, ring, grow) == taken[k].data <==>
              Unmoved(taken, k, |ring|, grow) && Unreplaced(taken, k, |ring|)
  {
    var n, t := |ring|, taken[k];
    SameBlockIff(taken, k, n, grow);
    var i := HoldsLastBounce(taken, k, n, grow);
    assert Unreplaced(taken, k, n) <==> t.data <= taken[i].data by {
      if m :| k <= m < |taken| && LastBounce(taken, m, n) && !(t.data <= taken[m].data) {
        assert m == i;
      }
    }
    assert t.data <= taken[i].data <==> |t.data| <= |taken[i].data| && taken[i].data[..|t.data|] == t.data;
  }

  /** How long an entry is good. A bounced one: until a payload too long for its block is bounced,
      or one that does not begin with its bytes, in this pass or after a rewind. A zero-copy one:
      until the writer laps it with other bytes, which cannot happen before it is a ring length
      past the payload's start. */
  lemma {:induction false} EntryShowsIff(ring: seq<Byte>, stream: seq<Byte>, taken: seq<Taken>, k: nat,
                                         grow: Allocator)
    requires Holds(ring, stream, Oldest(|ring|, |stream|)) && k < |taken|
    requires taken[k].pos + |taken[k].data| <= |stream|
    ensures Shown(taken, k, ring, grow) == taken[k].data <==>
              if Bounces(taken[k], |ring|) then Unmoved(taken, k, |ring|, grow) && Unreplaced(taken, k, |ring|)
              else Unlapped(stream, taken[k], |ring|)
    ensures !Bounces(taken[k], |ring|) && TakenFrom(stream, taken[k]) && |stream| <= taken[k].pos + |ring| ==>
              Shown(taken, k, ring, grow) == taken[k].data
  {
    var n, t := |ring|, taken[k];
    if Bounces(t, n) {
      InBounceShowsIff(ring, taken, k, grow);
    } else {
      InRingShowsIff(ring, stream, taken, k, grow);
      if TakenFrom(stream, t) && |stream| <= t.pos + n {
        NotYetLapped(stream, t, n);
      }
    }
  }

  lemma {:induction false} RecordTaken(rs: seq<Record>, i: nat, intact: bool)
    requires i < |rs|
    ensures TakenFrom(Stream(rs), Taken(Boundary(rs, i) + HEADER_SIZE, rs[i].data, intact))
  {
    StreamAround(rs, i);
    PayloadLies(Stream(rs), Stream(rs[..i]), Header(rs[i]), rs[i].data, Stream(rs[i + 1..]));
  }

  /** Once the buffer has moved, an entry of an earlier block is left with nothing, even if the same
      payload is bounced again. */
  lemma {:induction false} MovedEntryShowsNothing(ring: seq<Byte>, taken: seq<Taken>, k: nat, grow: Allocator)
    requires |ring| > 0 && k < |taken| && Bounces(taken[k], |ring|) && !Unmoved(taken, k, |ring|, grow)
    ensures Shown(taken, k, ring, grow) == []
  {
    SameBlockIff(taken, k, |ring|, grow);
  }

  /** What lies right behind the start of a full ring, read at that offset. */
  lemma {:induction false} FullRing(ring: seq<Byte>, stream: seq<Byte>, taken: seq<Taken>, data: seq<Byte>,
                                    grow: Allocator)
    requires var n := |ring|;
             n >= HEADER_SIZE && |stream| == 2 * n && |data| == n - HEADER_SIZE && stream[n + HEADER_SIZE..] == data
    requires Holds(ring, stream, Oldest(|ring|, |stream|))
    requires |taken| == 1 && taken[0].pos == HEADER_SIZE && |taken[0].data| == |data|
    ensures Shown(taken, 0, ring, grow) == data
  {
    var n := |ring|;
    DivModUnique(HEADER_SIZE, n, if n == HEADER_SIZE then 1 else 0, if n == HEADER_SIZE then 0 else HEADER_SIZE);
    forall j | 0 <= j < n - HEADER_SIZE
      ensures Shown(taken, 0, ring, grow)[j] == data[j]
    {
      DivModUnique(n + HEADER_SIZE + j, n, 1, HEADER_SIZE + j);
      assert HeldAt(ring, stream, n + HEADER_SIZE + j);
      assert data[j] == stream[n + HEADER_SIZE..][j];
    }
  }

  /** A zero-copy entry that is lapped, in a ring of any size: one record that fills it, read, then
      another that fills it; the entry of the first shows the second, and nothing was bounced. */
  lemma {:induction false} LappedEntryShowsNext(rs: seq<Record>, n: nat, ring: seq<Byte>, grow: Allocator)
    requires |rs| == 2 && n >= HEADER_SIZE && |rs[0].data| == |rs[1].data| == n - HEADER_SIZE
    requires |ring| == n && Holds(ring, Stream(rs), Oldest(n, |Stream(rs)|))
    ensures var taken := [Taken(HEADER_SIZE, rs[0].data, true)];
            TakenFrom(Stream(rs), taken[0]) && Shown(taken, 0, ring, grow) == rs[1].data
  {
    assert rs[..0] == [] && rs[..2] == rs;
    StreamAround(rs, 0);
    StreamAround(rs, 1);
    RecordTaken(rs, 0, true);
    RecordTaken(rs, 1, true);
    FullRing(ring, Stream(rs), [Taken(HEADER_SIZE, rs[0].data, true)], rs[1].data, grow);
  }

  /** Four records for a ring of n bytes, the second and the fourth of which straddle its end. */
  predicate FourRecords(rs: seq<Record>, n: nat) {
    && n >= 36 && |rs| == 4
    && |rs[0].data| == n - 32 && |rs[1].data| == 12 && |rs[2].data| == n - 36 && |rs[3].data| == 12
    && forall r :: r in rs ==> Encodable(r)
  }

  lemma {:induction false} FourBoundaries(rs: seq<Record>, n: nat)
    requires FourRecords(rs, n)
    ensures Boundary(rs, 1) == n - 20 && Boundary(rs, 2) == n + 4
    ensures Boundary(rs, 3) == 2 * n - 20 && Boundary(rs, 4) == 2 * n + 4
    ensures rs[..4] == rs && rs[..3][..1] == rs[..1]
  {
    assert rs[..0] == [];
    StreamAround(rs, 0);
    StreamAround(rs, 1);
    StreamAround(rs, 2);
    StreamAround(rs, 3);
    assert Boundary(rs, 0) == 0;
  }

  /** What two passes over them hand out. */
  function FourTaken(rs: seq<Record>, n: nat): seq<Taken>
    requires FourRecords(rs, n)
  {
    [Taken(n - 8, rs[1].data, true), Taken(n + 16, rs[2].data, true),
     Taken(n + 16, rs[2].data, true), Taken(2 * n - 8, rs[3].data, true)]
  }

  lemma FourBounces(rs: seq<Record>, n: nat)
    requires FourRecords(rs, n)
    ensures var taken := FourTaken(rs, n);
            && Bounces(taken[0], n) && !Bounces(taken[1], n) && !Bounces(taken[2], n) && Bounces(taken[3], n)
  {
    DivModUnique(n - 8, n, 0, n - 8);
    DivModUnique(n + 16, n, 1, 16);
    DivModUnique(2 * n - 8, n, 1, n - 8);
  }

  lemma {:induction false} FourPasses(rs: seq<Record>, n: nat)
    requires FourRecords(rs, n)
    ensures var first := rs[..3];
            && ParseAll(Stream(first), Oldest(n, |Stream(first)|), |Stream(first)|) == rs[1..3]
            && ParseAll(Stream(rs), Oldest(n, |Stream(rs)|), |Stream(rs)|) == rs[2..4]
  {
    var first := rs[..3];
    FourBoundaries(rs, n);
    ReplayFromBoundary(first, 1, 3);
    ReplayFromBoundary(rs, 2, 4);
    assert first[..3] == first && first[1..3] == rs[1..3];
  }

  lemma {:induction false} FourTakenFrom(rs: seq<Record>, n: nat, k: nat)
    requires FourRecords(rs, n) && k < 4
    ensures TakenFrom(Stream(rs), FourTaken(rs, n)[k])
  {
    FourBoundaries(rs, n);
    RecordTaken(rs, 1, true);
    RecordTaken(rs, 2, true);
    RecordTaken(rs, 3, true);
  }

  lemma {:induction false} FourShown(rs: seq<Record>, n: nat, taken: seq<Taken>, ring: seq<Byte>, grow: Allocator)
    requires FourRecords(rs, n) && |ring| == n && taken == FourTaken(rs, n)
    ensures Shown(taken, 0, ring, grow) == rs[3].data
  {
    FourBounces(rs, n);
    SameBlockIff(taken, 0, n, grow);
    assert taken[..1][..0] == [] && Buffered(taken[..1], n, grow) == Refilled(NO_BUFFER, rs[1].data, grow);
    assert Unmoved(taken, 0, n, grow);
    var i := HoldsLastBounce(taken, 0, n, grow);
    assert i == 3 && rs[3].data[..12] == rs[3].data;
  }

  /** A bounced entry that is replaced, in a ring of any size that has room for it. A pass after the
      third record reads and bounces the second; a pass after the fourth, from a rewind, reads and
      bounces the fourth; and what was handed out for the second now shows the fourth. */
  lemma {:induction false} RewindReplacesBounce(rs: seq<Record>, n: nat, ring: seq<Byte>, grow: Allocator)
    requires FourRecords(rs, n) && |ring| == n
    ensures var first := rs[..3];
            && ParseAll(Stream(first), Oldest(n, |Stream(first)|), |Stream(first)|) == rs[1..3]
            && ParseAll(Stream(rs), Oldest(n, |Stream(rs)|), |Stream(rs)|) == rs[2..4]
    ensures forall k :: 0 <= k < 4 ==> TakenFrom(Stream(rs), FourTaken(rs, n)[k])
    ensures Shown(FourTaken(rs, n), 0, ring, grow) == rs[3].data
  {
    FourPasses(rs, n);
    forall k | 0 <= k < 4
      ensures TakenFrom(Stream(rs), FourTaken(rs, n)[k])
    {
      FourTakenFrom(rs, n, k);
    }
    FourShown(rs, n, FourTaken(rs, n), ring, grow);
  }

  /** Everything handed out lay within the stream, and is of the stream if it was read in time. */
  ghost predicate Sound(stream: seq<Byte>, taken: seq<Taken>) {
    forall k :: 0 <= k < |taken| ==>
      taken[k].pos + |taken[k].data| <= |stream| && (taken[k].intact ==> TakenFrom(stream, taken[k]))
  }

  lemma StaysSound(ring: seq<Byte>, stream: seq<Byte>, taken: seq<Taken>, pos: nat, end: nat, p: Parsed, intact: bool)
    requires Sound(stream, taken) && |ring| >= HEADER_SIZE && Holds(ring, stream, Oldest(|ring|, |stream|))
    requires end <= |stream| && end <= pos + |ring| && (intact ==> |stream| <= pos + |ring|)
    requires ParseRing(ring, pos, end) == Some(p)
    ensures Sound(stream, taken + [Taken(pos + HEADER_SIZE, p.record.data, intact)])
  {
    if intact {
      ParsesFromRing(ring, stream, Oldest(|ring|, |stream|), pos, end);
    }
  }

  class Reader {
    const log: BinaryLogger
    var readPos: nat
    var endPos: nat
    var totalRecords: nat
    var bounce: Buffer
    const grow: Allocator
    ghost var taken: seq<Taken>    // every payload handed out, over all passes

    ghost predicate InRange()
      reads this, log, log.buf
    {
      log.RingValid() && readPos <= endPos <= log.writePos && endPos - readPos <= log.buf.Length
    }

    ghost predicate Valid()
      reads this, log, log.buf
    {
      && InRange() && bounce == Buffered(taken, log.buf.Length, grow)
      && Sound(log.stream, taken)
    }

    /** The writer has not yet overwritten anything at or after the read position. */
    ghost predicate Intact()
      reads this, log
    {
      log.writePos <= readPos + log.buf.Length
    }

    constructor (log: BinaryLogger, grow: Allocator)
      requires log.RingValid()
      ensures Valid() && Intact() && this.log == log && this.grow == grow && totalRecords == 0 && taken == []
      ensures endPos == log.writePos && readPos == Oldest(log.buf.Length, log.writePos)
    {
      this.log, this.grow := log, grow;
      endPos := log.writePos;
      readPos := if log.writePos > log.buf.Length then log.writePos - log.buf.Length else 0;
      totalRecords := 0;
      bounce, taken := NO_BUFFER, [];
    }

    method Rewind()
      requires Valid()
      modifies this
      ensures Valid() && Intact() && totalRecords == 0 && bounce == old(bounce) && taken == old(taken)
      ensures endPos == log.writePos && readPos == Oldest(log.buf.Length, log.writePos)
    {
      endPos := log.writePos;
      readPos := if endPos > log.buf.Length then endPos - log.buf.Length else 0;
      totalRecords := 0;
    }

    method RingReadInto(n: nat, ghost ring: seq<Byte>) returns (dst: seq<Byte>)
      requires ring == log.buf[..] && |ring| > 0 && n <= |ring|
      modifies this`readPos
      ensures dst == ReadAt(ring, old(readPos), n) && readPos == old(readPos) + n
    {
      var off := readPos % log.buf.Length;
      var avail := log.buf.Length - off;
      if n <= avail {
        dst := log.buf[off..off + n];
      } else {
        dst := log.buf[off..] + log.buf[..n - avail];
      }
      readPos := readPos + n;
    }

    /** The payload of `length` bytes at the read position: fast path, or through the bounce
        buffer. */
    method TakePayload(stamp: nat, length: nat, ghost ring: seq<Byte>) returns (e: Entry)
      requires ring == log.buf[..] && |ring| > 0 && length <= |ring|
      modifies this`readPos, this`bounce
      ensures e.timestampNs == stamp && e.length == length && readPos == old(readPos) + length
      ensures PayloadOf(e, ring, bounce) == ReadAt(ring, old(readPos), length)
      ensures TookPayload(e, old(readPos), |ring|, old(bounce), bounce, grow)
    {
      var dataOff := readPos % log.buf.Length;
      var avail := log.buf.Length - dataOff;
      if length <= avail {
        e := Entry(stamp, length, InRing(dataOff));
        readPos := readPos + length;
      } else {
        var payload := RingReadInto(length, ring);
        bounce := Refilled(bounce, payload, grow);
        e := Entry(stamp, length, InBounce(bounce.block));
      }
    }

    /** One record, by reference when it is contiguous and through the bounce buffer when it is
        not. */
    method Fetch(ghost ring: seq<Byte>) returns (entry: Option<Entry>)
      requires InRange() && ring == log.buf[..]
      modifies this`readPos, this`bounce, this`totalRecords
      ensures InRange()
      ensures TookNext(entry, ParseRing(ring, old(readPos), endPos), old(readPos), readPos, ring, old(bounce), bounce,
                       grow)
      ensures totalRecords == old(totalRecords) + if entry.Some? then 1 else 0
    {
      if readPos + HEADER_SIZE > endPos {
        return None;
      }
      var header := RingReadInto(HEADER_SIZE, ring);
      var stamp := FromLittleEndian(header[..STAMP_SIZE]);
      var length := FromLittleEndian(header[STAMP_SIZE..]);
      if readPos + length > endPos {
        readPos := readPos - HEADER_SIZE;
        return None;
      }
      assert ParseRing(ring, old(readPos), endPos)
          == Some(Parsed(Record(stamp, ReadAt(ring, readPos, length)), readPos + length));
      var e := TakePayload(stamp, length, ring);
      totalRecords := totalRecords + 1;
      return Some(e);
    }

    /** The same, keeping account of what was handed out. */
    method Next(ghost ring: seq<Byte>) returns (entry: Option<Entry>)
      requires Valid() && ring == log.buf[..]
      modifies this
      ensures Valid() && endPos == old(endPos)
      ensures TookNext(entry, ParseRing(ring, old(readPos), endPos), old(readPos), readPos, ring, old(bounce), bounce,
                       grow)
      ensures totalRecords == old(totalRecords) + if entry.Some? then 1 else 0
      ensures entry.None? ==> taken == old(taken)
      ensures entry.Some? ==>
                taken == old(taken) + [Taken(old(readPos) + HEADER_SIZE, PayloadOf(entry.value, ring, bounce),
                                             old(Intact()))]
    {
      ghost var pos, bounce0, intact := readPos, bounce, Intact();
      ghost var parsed := ParseRing(ring, pos, endPos);
      entry := Fetch(ring);
      if entry.Some? {
        ghost var t := Taken(pos + HEADER_SIZE, parsed.value.record.data, intact);
        BufferedAfter(taken, entry.value, parsed.value, pos, bounce0, bounce, ring, grow, intact);
        StaysSound(ring, log.stream, taken, pos, endPos, parsed.value, intact);
        taken := taken + [t];
      }
    }

    /** What the k-th entry this reader handed out shows now, after any writes, further reads and
        rewinds. */
    lemma {:induction false} EntryLives(k: nat)
      requires Valid() && k < |taken|
      ensures Shown(taken, k, log.buf[..], grow) == taken[k].data <==>
                if Bounces(taken[k], log.buf.Length)
                then Unmoved(taken, k, log.buf.Length, grow) && Unreplaced(taken, k, log.buf.Length)
                else Unlapped(log.stream, taken[k], log.buf.Length)
      ensures taken[k].intact && !Bounces(taken[k], log.buf.Length)
              && log.writePos <= taken[k].pos + log.buf.Length ==>
                Shown(taken, k, log.buf[..], grow) == taken[k].data
    {
      EntryShowsIff(log.buf[..], log.stream, taken, k, grow);
    }

    /** Writing leaves the readers of the log valid. */
    twostate lemma StaysValid()
      requires old(Valid()) && unchanged(this) && log.RingValid() && old(log.stream) <= log.stream
      ensures Valid()
    {
    }

    /** `next` until it says there is no more: the whole parse of what is left, and every entry
        returned on the way still shows its own payload at the end, because at most one of them
        went through the bounce buffer. */
    method Drain() returns (entries: seq<Entry>)
      requires Valid() && Intact()
      modifies this
      ensures Valid() && endPos == old(endPos)
      ensures ParseAll(log.stream, readPos, endPos) == []
      ensures Payloads(entries, log.buf[..], bounce) == ParseAll(log.stream, old(readPos), endPos)
    {
      entries := [];
      ghost var ring, stream, start, end := log.buf[..], log.stream, readPos, endPos;
      ghost var rest, at := ParseAll(stream, start, end), None;
      var more := true;
      while more
        invariant Valid() && endPos == end
        invariant Passing(ring, stream, start, end, readPos, bounce, entries, at, rest)
        invariant !more ==> rest == []
        decreases more, endPos - readPos
      {
        ghost var pos, bounce0 := readPos, bounce;
        var entry := Next(ring);
        ParsesFromRing(ring, stream, start, pos, end);
        at := PassGoesOn(ring, stream, start, end, pos, bounce0, entries, at, rest,
                         Parse(stream, pos, end), entry, readPos, bounce, grow);
        if entry.None? {
          more := false;
        } else {
          entries := entries + [entry.value];
          rest := rest[1..];
        }
      }
    }

    /** From one record boundary to another the pass hands out exactly the records written there. */
    method DrainRecords(ghost i: nat, ghost j: nat) returns (entries: seq<Entry>)
      requires Valid() && Intact() && log.Valid() && i <= j <= |log.records|
      requires readPos == Boundary(log.records, i) && endPos == Boundary(log.records, j)
      modifies this
      ensures Valid() && Payloads(entries, log.buf[..], bounce) == log.records[i..j]
    {
      ReplayFromBoundary(log.records, i, j);
      entries := Drain();
    }
  }
}
