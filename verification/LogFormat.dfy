// The write-ahead log on disk: records are cut into fragments, each with a
// 7-byte header, so that no fragment crosses a 32768-byte block boundary.
module LogFormat {
  import opened Basics
  import opened Coding
  import opened Sequences

  const BLOCK_SIZE := 32768
  const HEADER_SIZE := 7

  const ZERO := 0
  const FULL := 1
  const FIRST := 2
  const MIDDLE := 3
  const LAST := 4

  type U32 = x: int | 0 <= x < 0x1_0000_0000

  // The checksum of a fragment's type byte and payload; which function it is
  // does not matter here.
  type Checksum = (Byte, seq<Byte>) -> U32

  // ----- The stored form of a checksum -----

  const MASK_DELTA := 0xa282ead8

  // Rotate right by 15 bits and add a constant, modulo 2^32.
  function Mask(crc: U32): U32 {
    (crc / 0x8000 + crc % 0x8000 * 0x2_0000 + MASK_DELTA) % 0x1_0000_0000
  }

  function Unmask(masked: nat): U32 {
    var rot := (masked - MASK_DELTA) % 0x1_0000_0000;
    rot / 0x2_0000 + rot % 0x2_0000 * 0x8000
  }

  lemma UnmaskMask(crc: U32)
    ensures Unmask(Mask(crc)) == crc
  {
    var hi, lo := crc / 0x8000, crc % 0x8000;
    var rotated := hi + lo * 0x2_0000;
    assert 0 <= rotated < 0x1_0000_0000;
    assert (Mask(crc) - MASK_DELTA) % 0x1_0000_0000 == rotated;
    assert rotated / 0x2_0000 == lo && rotated % 0x2_0000 == hi;
  }

  lemma MaskUnmask(masked: U32)
    ensures Mask(Unmask(masked)) == masked
  {
    var rot := (masked - MASK_DELTA) % 0x1_0000_0000;
    var hi, lo := rot % 0x2_0000, rot / 0x2_0000;
    assert Unmask(masked) == lo + hi * 0x8000;
    assert Unmask(masked) / 0x8000 == hi && Unmask(masked) % 0x8000 == lo;
    assert hi + lo * 0x2_0000 == rot;
  }

  // ----- Fragments -----

  datatype Fragment = Fragment(kind: Byte, start: nat, payload: seq<Byte>) {
    function End(): nat {
      start + HEADER_SIZE + |payload|
    }
  }

  // Bytes of trailer before the next header when the file is off bytes long.
  function Pad(off: nat): (n: nat)
    ensures n < HEADER_SIZE
    ensures n > 0 ==> (off + n) % BLOCK_SIZE == 0
    ensures (off + n) % BLOCK_SIZE <= BLOCK_SIZE - HEADER_SIZE
  {
    var leftover := BLOCK_SIZE - off % BLOCK_SIZE;
    if leftover < HEADER_SIZE then leftover else 0
  }

  function Zeros(n: nat): (z: seq<Byte>)
    ensures |z| == n
  {
    seq(n, _ => 0)
  }

  // Room for payload in the block after the header.
  function Avail(off: nat): nat {
    BLOCK_SIZE - (off + Pad(off)) % BLOCK_SIZE - HEADER_SIZE
  }

  function KindOf(begin: bool, end: bool): (k: Byte)
    ensures FULL <= k <= LAST
  {
    if begin && end then FULL else if begin then FIRST else if end then LAST else MIDDLE
  }

  // The fragments of a record appended to a file of off bytes.
  function Split(off: nat, data: seq<Byte>, begin: bool): (fs: seq<Fragment>)
    ensures |fs| > 0
    decreases |data|, if Avail(off) == 0 then 1 else 0
  {
    var n := if |data| < Avail(off) then |data| else Avail(off);
    var f := Fragment(KindOf(begin, n == |data|), off + Pad(off), data[..n]);
    if n == |data| then [f] else [f] + Split(f.End(), data[n..], false)
  }

  // One group of fragments for each record, in file order.
  function Layout(off: nat, records: seq<seq<Byte>>): (g: seq<seq<Fragment>>)
    ensures |g| == |records| && forall i :: 0 <= i < |g| ==> |g[i]| > 0
    decreases |records|
  {
    if records == [] then []
    else
      var fs := Split(off, records[0], true);
      [fs] + Layout(fs[|fs| - 1].End(), records[1..])
  }

  function PhysicalRecord(crc: Checksum, kind: Byte, payload: seq<Byte>): (b: seq<Byte>)
    ensures |b| == HEADER_SIZE + |payload|
  {
    EncodeFixed(Mask(crc(kind, payload)), 4) + [|payload| % 256, |payload| / 256 % 256, kind] + payload
  }

  // ----- Chains of fragments -----

  predicate Fits(f: Fragment) {
    f.start % BLOCK_SIZE + HEADER_SIZE + |f.payload| <= BLOCK_SIZE
  }

  // Fragments laid end to end from off on, with trailers where they are due.
  ghost predicate Chained(off: nat, fs: seq<Fragment>)
    decreases |fs|
  {
    fs == [] || (fs[0].start == off + Pad(off) && Fits(fs[0]) && Chained(fs[0].End(), fs[1..]))
  }

  // A fragment on a file of off bytes: the trailer that is due, then the record.
  function Chunk(crc: Checksum, off: nat, f: Fragment): (b: seq<Byte>)
    ensures |b| == Pad(off) + HEADER_SIZE + |f.payload|
    ensures b[Pad(off)..] == PhysicalRecord(crc, f.kind, f.payload)
  {
    Zeros(Pad(off)) + PhysicalRecord(crc, f.kind, f.payload)
  }

  function Bytes(crc: Checksum, off: nat, fs: seq<Fragment>): seq<Byte>
    decreases |fs|
  {
    if fs == [] then []
    else Chunk(crc, off, fs[0]) + Bytes(crc, fs[0].End(), fs[1..])
  }

  function Flatten(g: seq<seq<Fragment>>): seq<Fragment> {
    if g == [] then [] else g[0] + Flatten(g[1..])
  }

  function Ending(off: nat, fs: seq<Fragment>): nat {
    if fs == [] then off else fs[|fs| - 1].End()
  }

  lemma {:induction false} ChainedAppend(off: nat, a: seq<Fragment>, b: seq<Fragment>)
    ensures Chained(off, a + b) <==> Chained(off, a) && Chained(Ending(off, a), b)
    decreases |a|
  {
    hide Chunk;
    hide Pad;
    hide Fits;
    if a == [] {
      NothingAppended(b);
    } else {
      ChainedAppend(a[0].End(), a[1..], b);
      TailOfSum(a, b);
    }
  }

  lemma {:induction false} SplitIsChained(off: nat, data: seq<Byte>, begin: bool)
    ensures Chained(off, Split(off, data, begin))
    decreases |data|, if Avail(off) == 0 then 1 else 0
  {
    var n := if |data| < Avail(off) then |data| else Avail(off);
    if n < |data| {
      var f := Split(off, data, begin)[0];
      SplitIsChained(f.End(), data[n..], false);
      assert Split(off, data, begin)[1..] == Split(f.End(), data[n..], false);
    }
  }

  lemma {:induction false} LayoutIsChained(off: nat, records: seq<seq<Byte>>)
    ensures Chained(off, Flatten(Layout(off, records)))
    decreases |records|
  {
    if records != [] {
      var fs := Split(off, records[0], true);
      SplitIsChained(off, records[0], true);
      LayoutIsChained(Ending(off, fs), records[1..]);
      ChainedAppend(off, fs, Flatten(Layout(Ending(off, fs), records[1..])));
      assert Layout(off, records)[1..] == Layout(Ending(off, fs), records[1..]);
    }
  }

  lemma {:induction false} ChainedFits(off: nat, fs: seq<Fragment>)
    requires Chained(off, fs)
    ensures forall f :: f in fs ==> Fits(f) && |f.payload| < 0x1_0000 && f.start >= off
    decreases |fs|
  {
    if fs != [] {
      ChainedFits(fs[0].End(), fs[1..]);
    }
  }

  // The bytes of a log holding the records.
  function LogBytes(crc: Checksum, records: seq<seq<Byte>>): seq<Byte> {
    Bytes(crc, 0, Flatten(Layout(0, records)))
  }

  lemma {:induction false} BytesLength(crc: Checksum, off: nat, fs: seq<Fragment>)
    requires Chained(off, fs)
    ensures off + |Bytes(crc, off, fs)| == Ending(off, fs)
    decreases |fs|
  {
    hide Chunk;
    hide Pad;
    hide Fits;
    if fs != [] {
      BytesLength(crc, fs[0].End(), fs[1..]);
    }
  }

  // Every fragment's physical record sits in the file where the fragment says.
  lemma {:induction false} BytesAt(crc: Checksum, pre: seq<Byte>, fs: seq<Fragment>, f: Fragment)
    requires Chained(|pre|, fs)
    requires f in fs
    ensures var w := pre + Bytes(crc, |pre|, fs);
            f.End() <= |w| && w[f.start..f.End()] == PhysicalRecord(crc, f.kind, f.payload)
    decreases |fs|
  {
    hide Pad;
    hide PhysicalRecord;
    var chunk := Chunk(crc, |pre|, fs[0]);
    hide Chunk;
    var pre' := pre + chunk;
    var tail := Bytes(crc, |pre'|, fs[1..]);
    assert pre + Bytes(crc, |pre|, fs) == pre' + tail;
    if f == fs[0] {
      assert (pre' + tail)[f.start..f.End()] == chunk[Pad(|pre|)..];
    } else {
      BytesAt(crc, pre', fs[1..], f);
    }
  }

  lemma BytesUnfold(crc: Checksum, off: nat, fs: seq<Fragment>)
    ensures fs == [] ==> Bytes(crc, off, fs) == [] && Ending(off, fs) == off
    ensures fs != [] ==> Bytes(crc, off, fs) == Chunk(crc, off, fs[0]) + Bytes(crc, fs[0].End(), fs[1..])
    ensures fs != [] ==> Ending(off, fs) == Ending(fs[0].End(), fs[1..])
  {
  }

  lemma {:induction false} BytesAppend(crc: Checksum, off: nat, a: seq<Fragment>, b: seq<Fragment>)
    ensures Bytes(crc, off, a + b) == Bytes(crc, off, a) + Bytes(crc, Ending(off, a), b)
    decreases |a|
  {
    hide *;
    BytesUnfold(crc, off, a);
    if a == [] {
      NothingAppended(b);
      NothingAppended(Bytes(crc, off, b));
    } else {
      BytesAppend(crc, a[0].End(), a[1..], b);
      BytesUnfold(crc, off, a + b);
      TailOfSum(a, b);
      Associate(Chunk(crc, off, a[0]), Bytes(crc, a[0].End(), a[1..]), Bytes(crc, Ending(off, a), b));
    }
  }

  lemma {:induction false} FlattenAppend(g: seq<seq<Fragment>>, fs: seq<Fragment>)
    ensures Flatten(g + [fs]) == Flatten(g) + fs
  {
    if g == [] {
      assert g + [fs] == [fs];
      assert Flatten([fs]) == fs;
    } else {
      FlattenAppend(g[1..], fs);
      assert (g + [fs])[1..] == g[1..] + [fs];
    }
  }

  lemma {:induction false} LayoutAppend(off: nat, records: seq<seq<Byte>>, data: seq<Byte>)
    ensures Layout(off, records + [data])
         == Layout(off, records) + [Split(Ending(off, Flatten(Layout(off, records))), data, true)]
    decreases |records|
  {
    if records == [] {
      assert records + [data] == [data];
    } else {
      var fs := Split(off, records[0], true);
      var rest := Layout(Ending(off, fs), records[1..]);
      LayoutAppend(Ending(off, fs), records[1..], data);
      assert (records + [data])[1..] == records[1..] + [data];
      assert Flatten(Layout(off, records)) == fs + Flatten(rest);
      assert Ending(off, fs + Flatten(rest)) == Ending(Ending(off, fs), Flatten(rest));
    }
  }

  // Appending one more record's fragments makes the log of one more record.
  lemma LogBytesAppend(crc: Checksum, records: seq<seq<Byte>>, data: seq<Byte>)
    ensures var w := LogBytes(crc, records);
            var fs := Split(|w|, data, true);
            LogBytes(crc, records + [data]) == w + Bytes(crc, |w|, fs)
  {
    hide *;
    var all := Flatten(Layout(0, records));
    var fs := Split(Ending(0, all), data, true);
    LogBytesAre(crc, records);
    LogBytesAre(crc, records + [data]);
    LayoutIsChained(0, records);
    BytesLength(crc, 0, all);
    LayoutAppend(0, records, data);
    FlattenAppend(Layout(0, records), fs);
    BytesAppend(crc, 0, all, fs);
  }

  lemma LogBytesAre(crc: Checksum, records: seq<seq<Byte>>)
    ensures LogBytes(crc, records) == Bytes(crc, 0, Flatten(Layout(0, records)))
  {
  }

  // ----- Byte for byte -----

  lemma InFourBytes(a: Byte, b: Byte, c: Byte, d: Byte)
    ensures EncodeFixed(a as int + 256 * (b as int) + 65536 * (c as int) + 16777216 * (d as int), 4) == [a, b, c, d]
  {
    var v := a as int + 256 * (b as int) + 65536 * (c as int) + 16777216 * (d as int);
    assert v % 256 == a && v / 256 == b + 256 * (c as int) + 65536 * (d as int);
    assert v / 256 / 256 == c + 256 * (d as int) && v / 256 / 256 / 256 == d;
    assert EncodeFixed(v / 256 / 256, 2) == [c, d];
    assert EncodeFixed(v / 256, 3) == [b] + [c, d];
  }

  // Two checksums as they are stored: rotated, with the constant added, least byte first.
  lemma StoredChecksums()
    ensures EncodeFixed(Mask(1), 4) == [0xd8, 0xea, 0x84, 0xa2]
    ensures EncodeFixed(Mask(0x8000), 4) == [0xd9, 0xea, 0x82, 0xa2]
  {
    hide *;
    InFourBytes(0xd8, 0xea, 0x84, 0xa2);
    InFourBytes(0xd9, 0xea, 0x82, 0xa2);
    MasksOfTwo();
  }

  lemma MasksOfTwo()
    ensures Mask(1) == 0xd8 + 256 * 0xea + 65536 * 0x84 + 16777216 * 0xa2
    ensures Mask(0x8000) == 0xd9 + 256 * 0xea + 65536 * 0x82 + 16777216 * 0xa2
  {
  }

  // The checksum, two bytes of length, the type and the payload.
  lemma RecordInBytes(crc: Checksum, kind: Byte, payload: seq<Byte>)
    requires |payload| < 0x1_0000
    ensures PhysicalRecord(crc, kind, payload)
         == EncodeFixed(Mask(crc(kind, payload)), 4) + [|payload| % 256, |payload| / 256, kind] + payload
    ensures crc(kind, payload) == 1 ==>
      PhysicalRecord(crc, kind, payload) == [0xd8, 0xea, 0x84, 0xa2, |payload| % 256, |payload| / 256, kind] + payload
    ensures crc(kind, payload) == 0x8000 ==>
      PhysicalRecord(crc, kind, payload) == [0xd9, 0xea, 0x82, 0xa2, |payload| % 256, |payload| / 256, kind] + payload
  {
    StoredChecksums();
    hide EncodeFixed;
    hide Mask;
  }

  // Fragments fill a block of 32768 bytes up with 7 bytes of header each.
  lemma SplitUnfold(off: nat, data: seq<Byte>, begin: bool)
    requires off % 32768 <= 32761
    ensures var room := 32761 - off % 32768;
      Split(off, data, begin)
      == if |data| <= room then [Fragment(if begin then 1 else 4, off, data)]
         else [Fragment(if begin then 2 else 3, off, data[..room])] + Split(off + 7 + room, data[room..], false)
  {
    assert Pad(off) == 0 && Avail(off) == 32761 - off % 32768;
    assert data[..|data|] == data;
  }

  // Less room than a header takes is left to the trailer.
  lemma SplitAtTrailer(off: nat, data: seq<Byte>, begin: bool)
    requires off % 32768 > 32761
    ensures Split(off, data, begin) == Split((off / 32768 + 1) * 32768, data, begin)
    decreases |data|
  {
    var next := (off / 32768 + 1) * 32768;
    assert Pad(off) == 32768 - off % 32768 && off + Pad(off) == next;
    assert next % 32768 == 0 && Pad(next) == 0 && Avail(off) == Avail(next);
  }

  // A record over three blocks, and one that finds room for no more than a header.
  lemma SplitOverBlocks(off: nat, data: seq<Byte>)
    ensures 65522 < |data| <= 98283 ==>
      Split(0, data, true)
      == [Fragment(2, 0, data[..32761]), Fragment(3, 32768, data[32761..65522]), Fragment(4, 65536, data[65522..])]
    ensures off % 32768 == 32761 && 0 < |data| <= 32761 ==>
      Split(off, data, true) == [Fragment(2, off, []), Fragment(4, off + 7, data)]
  {
    hide Split;
    if 65522 < |data| <= 98283 {
      var behind, last := data[32761..], data[65522..];
      assert behind[..32761] == data[32761..65522] && behind[32761..] == last;
      SplitUnfold(0, data, true);
      SplitUnfold(32768, behind, false);
      SplitUnfold(65536, last, false);
    }
    if off % 32768 == 32761 && 0 < |data| <= 32761 {
      SplitUnfold(off, data, true);
      SplitUnfold(off + 7, data, false);
      assert data[0..] == data;
    }
  }

  // The trailer in front of a record is zeros.
  lemma TrailerIsZeros(crc: Checksum, off: nat, data: seq<Byte>)
    requires off % 32768 > 32761 && |data| <= 32761
    ensures Bytes(crc, off, Split(off, data, true))
         == seq(32768 - off % 32768, _ => 0) + PhysicalRecord(crc, 1, data)
  {
    hide PhysicalRecord;
    var next := (off / 32768 + 1) * 32768;
    SplitAtTrailer(off, data, true);
    SplitUnfold(next, data, true);
    hide Split;
    var f := Fragment(1, next, data);
    NothingAppended(Chunk(crc, off, f));
    assert Bytes(crc, f.End(), []) == [];
    assert Bytes(crc, off, [f]) == Chunk(crc, off, f);
  }
}
