/** The record framing of the binary log: an 8-byte time stamp and a 4-byte length, both
    little-endian, then the payload. A log is the concatenation of its framed records. */
module LogFormat {
  import opened Types
  import opened Arithmetic

  type Byte = b: int | 0 <= b < 256

  const STAMP_SIZE: nat := 8
  const LENGTH_SIZE: nat := 4
  const HEADER_SIZE: nat := STAMP_SIZE + LENGTH_SIZE

  datatype Record = Record(timestampNs: nat, data: seq<Byte>)

  /** The field widths of the header: a 64-bit stamp and a 32-bit length. */
  predicate Encodable(r: Record) {
    r.timestampNs < TWO_64 && |r.data| < 0x1_0000_0000
  }

  function LittleEndian(v: nat, width: nat): (bytes: seq<Byte>)
    ensures |bytes| == width
  {
    if width == 0 then [] else [v % 256] + LittleEndian(v / 256, width - 1)
  }

  function FromLittleEndian(bytes: seq<Byte>): nat {
    if bytes == [] then 0 else bytes[0] + 256 * FromLittleEndian(bytes[1..])
  }

  function Pow256(w: nat): (r: nat)
    ensures r >= 1
  {
    if w == 0 then 1 else 256 * Pow256(w - 1)
  }

  lemma {:induction false} LittleEndianRoundTrip(v: nat, width: nat)
    requires v < Pow256(width)
    ensures FromLittleEndian(LittleEndian(v, width)) == v
  {
    if width > 0 {
      LittleEndianRoundTrip(v / 256, width - 1);
      assert LittleEndian(v, width)[1..] == LittleEndian(v / 256, width - 1);
    }
  }

  lemma FieldWidths()
    ensures Pow256(STAMP_SIZE) == TWO_64 && Pow256(LENGTH_SIZE) == 0x1_0000_0000
  {
    assert Pow256(2) == 0x1_0000;
    assert Pow256(6) == 0x1_0000_0000_0000;
  }

  function Header(r: Record): (bytes: seq<Byte>)
    ensures |bytes| == HEADER_SIZE
  {
    LittleEndian(r.timestampNs, STAMP_SIZE) + LittleEndian(|r.data|, LENGTH_SIZE)
  }

  function Encode(r: Record): (bytes: seq<Byte>)
    ensures |bytes| == HEADER_SIZE + |r.data|
  {
    Header(r) + r.data
  }

  lemma DivideTwice(v: nat, p: nat)
    requires p > 0
    ensures v / 256 / p == v / (256 * p)
  {
    var q, r := v / 256, v % 256;
    assert q == p * (q / p) + q % p;
    assert v == (256 * p) * (q / p) + (256 * (q % p) + r) by {
      assert (256 * p) * (q / p) == 256 * (p * (q / p));
    }
    DivModUnique(v, 256 * p, q / p, 256 * (q % p) + r);
  }

  lemma {:induction false} LittleEndianAt(v: nat, width: nat, i: nat)
    requires i < width
    ensures LittleEndian(v, width)[i] == v / Pow256(i) % 256
  {
    if i > 0 {
      LittleEndianAt(v / 256, width - 1, i - 1);
      DivideTwice(v, Pow256(i - 1));
    }
  }

  /** Byte by byte: eight of the stamp and four of the length, the lowest first, then the payload. */
  lemma {:induction false} EncodedAt(r: Record, i: nat)
    requires i < HEADER_SIZE + |r.data|
    ensures Encode(r)[i] == if i < 8 then r.timestampNs / Pow256(i) % 256
                            else if i < 12 then |r.data| / Pow256(i - 8) % 256
                            else r.data[i - 12]
  {
    if i < 8 {
      LittleEndianAt(r.timestampNs, 8, i);
    } else if i < 12 {
      LittleEndianAt(|r.data|, 4, i - 8);
    }
  }

  function Stream(rs: seq<Record>): seq<Byte> {
    if rs == [] then [] else Stream(rs[..|rs| - 1]) + Encode(rs[|rs| - 1])
  }

  datatype Parsed = Parsed(record: Record, next: nat)

  /** The record that starts at position `pos` of a log, if all of it lies before `end`. */
  function Parse(log: seq<Byte>, pos: nat, end: nat): (r: Option<Parsed>)
    requires end <= |log|
    ensures r.Some? ==> pos + HEADER_SIZE <= r.value.next <= end
  {
    if pos + HEADER_SIZE > end then None
    else
      var stamp := FromLittleEndian(log[pos..pos + STAMP_SIZE]);
      var len := FromLittleEndian(log[pos + STAMP_SIZE..pos + HEADER_SIZE]);
      var start := pos + HEADER_SIZE;
      if start + len > end then None
      else Some(Parsed(Record(stamp, log[start..start + len]), start + len))
  }

  /** Everything repeated parsing from `pos` yields, up to the first incomplete record. */
  function ParseAll(log: seq<Byte>, pos: nat, end: nat): seq<Record>
    requires end <= |log|
    decreases end - pos
  {
    match Parse(log, pos, end)
    case None => []
    case Some(p) => [p.record] + ParseAll(log, p.next, end)
  }

  lemma Middle(log: seq<Byte>, a: seq<Byte>, b: seq<Byte>, c: seq<Byte>)
    requires log == a + b + c
    ensures log[|a|..|a| + |b|] == b
  {
  }

  lemma Regroup(a: seq<Byte>, s: seq<Byte>, l: seq<Byte>, d: seq<Byte>, z: seq<Byte>)
    ensures a + (s + l + d) + z == a + s + (l + d + z)
    ensures a + (s + l + d) + z == (a + s) + l + (d + z)
    ensures a + (s + l + d) + z == (a + s + l) + d + z
  {
  }

  /** Where the three parts of a framed record lie. */
  lemma PartsLie(log: seq<Byte>, a: seq<Byte>, s: seq<Byte>, l: seq<Byte>, d: seq<Byte>, z: seq<Byte>)
    requires log == a + (s + l + d) + z
    ensures log[|a|..|a| + |s|] == s
    ensures log[|a| + |s|..|a| + |s| + |l|] == l
    ensures log[|a| + |s| + |l|..|a| + |s| + |l| + |d|] == d
  {
    Regroup(a, s, l, d, z);
    Middle(log, a, s, l + d + z);
    Middle(log, a + s, l, d + z);
    Middle(log, a + s + l, d, z);
  }

  lemma PayloadLies(log: seq<Byte>, before: seq<Byte>, header: seq<Byte>, data: seq<Byte>, after: seq<Byte>)
    requires log == before + (header + data) + after
    ensures log[|before| + |header|..|before| + |header| + |data|] == data
  {
    assert log == (before + header) + data + after;
    Middle(log, before + header, data, after);
  }

  /** Two header fields and a payload, wherever the fields come from. */
  lemma {:induction false} ParseFramed(log: seq<Byte>, before: seq<Byte>, stamp: seq<Byte>, length: seq<Byte>,
                                       r: Record, after: seq<Byte>, end: nat)
    requires |stamp| == STAMP_SIZE && |length| == LENGTH_SIZE
    requires FromLittleEndian(stamp) == r.timestampNs && FromLittleEndian(length) == |r.data|
    requires log == before + (stamp + length + r.data) + after
    requires |before| + HEADER_SIZE + |r.data| <= end <= |log|
    ensures Parse(log, |before|, end) == Some(Parsed(r, |before| + HEADER_SIZE + |r.data|))
  {
    PartsLie(log, before, stamp, length, r.data, after);
  }

  lemma ParseEncoded(log: seq<Byte>, before: seq<Byte>, r: Record, after: seq<Byte>, end: nat)
    requires Encodable(r) && log == before + Encode(r) + after
    requires |before| + |Encode(r)| <= end <= |log|
    ensures Parse(log, |before|, end) == Some(Parsed(r, |before| + |Encode(r)|))
  {
    var stamp, length := LittleEndian(r.timestampNs, STAMP_SIZE), LittleEndian(|r.data|, LENGTH_SIZE);
    FieldWidths();
    LittleEndianRoundTrip(r.timestampNs, STAMP_SIZE);
    LittleEndianRoundTrip(|r.data|, LENGTH_SIZE);
    ParseFramed(log, before, stamp, length, r, after, end);
  }

  lemma {:induction false} StreamSnoc(rs: seq<Record>, r: Record)
    ensures Stream(rs + [r]) == Stream(rs) + Encode(r)
  {
    assert (rs + [r])[..|rs|] == rs;
  }

  lemma {:induction false} StreamAppends(a: seq<Record>, b: seq<Record>)
    ensures Stream(a + b) == Stream(a) + Stream(b)
    decreases |b|
  {
    if b == [] {
      assert a + b == a;
    } else {
      var front, last := b[..|b| - 1], b[|b| - 1];
      StreamAppends(a, front);
      StreamSnoc(a + front, last);
      StreamSnoc(front, last);
      assert b == front + [last] && a + b == a + front + [last];
      assert Stream(a) + Stream(front) + Encode(last) == Stream(a) + (Stream(front) + Encode(last));
    }
  }

  /** Where record number i starts. */
  function Boundary(rs: seq<Record>, i: nat): nat
    requires i <= |rs|
  {
    |Stream(rs[..i])|
  }

  lemma {:induction false} StreamAround(rs: seq<Record>, i: nat)
    requires i < |rs|
    ensures Stream(rs) == Stream(rs[..i]) + Encode(rs[i]) + Stream(rs[i + 1..])
    ensures Boundary(rs, i + 1) == Boundary(rs, i) + |Encode(rs[i])|
  {
    assert rs[..i + 1] + rs[i + 1..] == rs;
    StreamAppends(rs[..i + 1], rs[i + 1..]);
    assert rs[..i + 1][..i] == rs[..i];
  }

  lemma {:induction false} BoundariesGrow(rs: seq<Record>, i: nat, j: nat)
    requires i <= j <= |rs|
    ensures if i < j then Boundary(rs, i) + HEADER_SIZE <= Boundary(rs, j) else Boundary(rs, i) == Boundary(rs, j)
    decreases j
  {
    if i < j {
      BoundariesGrow(rs, i, j - 1);
      assert rs[..j][..j - 1] == rs[..j - 1];
    }
  }

  lemma {:induction false} ParseAtBoundary(rs: seq<Record>, i: nat, end: nat)
    requires i < |rs| && Encodable(rs[i]) && Boundary(rs, i + 1) <= end <= |Stream(rs)|
    ensures Parse(Stream(rs), Boundary(rs, i), end) == Some(Parsed(rs[i], Boundary(rs, i + 1)))
  {
    var before, after := Stream(rs[..i]), Stream(rs[i + 1..]);
    assert Stream(rs) == before + Encode(rs[i]) + after && Boundary(rs, i + 1) == |before| + |Encode(rs[i])| by {
      StreamAround(rs, i);
    }
    ParseEncoded(Stream(rs), before, rs[i], after, end);
  }

  lemma {:induction false} BoundaryInLog(rs: seq<Record>, i: nat, j: nat)
    requires i <= j <= |rs|
    ensures Boundary(rs, i) <= Boundary(rs, j) <= |Stream(rs)|
  {
    assert rs[..|rs|] == rs;
    assert Boundary(rs, i) <= Boundary(rs, j) by { BoundariesGrow(rs, i, j); }
    assert Boundary(rs, j) <= Boundary(rs, |rs|) by { BoundariesGrow(rs, j, |rs|); }
  }

  /** Encode / decode round trip: parsing a log from where record i starts, up to a snapshot
      taken where record j starts, gives back records i to j - 1 and then stops, however much
      was appended after the snapshot. */
  lemma {:induction false} ReplayFromBoundary(rs: seq<Record>, i: nat, j: nat)
    requires forall r :: r in rs ==> Encodable(r)
    requires i <= j <= |rs|
    ensures Boundary(rs, j) <= |Stream(rs)|
    ensures ParseAll(Stream(rs), Boundary(rs, i), Boundary(rs, j)) == rs[i..j]
    decreases j - i
  {
    BoundaryInLog(rs, i, j);
    if i < j {
      BoundaryInLog(rs, i + 1, j);
      ParseAtBoundary(rs, i, Boundary(rs, j));
      ReplayFromBoundary(rs, i + 1, j);
    }
  }
}
