// Appending records to a log file.
module LogWriter {
  import opened Basics
  import opened Coding
  import opened LogFormat
  import opened Sequences

  class WritableFile {
    var contents: seq<Byte>

    constructor (contents: seq<Byte>)
      ensures this.contents == contents
    {
      this.contents := contents;
    }

    method Append(data: seq<Byte>)
      modifies this
      ensures contents == old(contents) + data
    {
      contents := contents + data;
    }
  }

  class Writer {
    const crc: Checksum
    const dest: WritableFile
    var blockOffset: int

    ghost predicate Valid()
      reads this, dest
    {
      0 <= blockOffset <= BLOCK_SIZE && blockOffset % BLOCK_SIZE == |dest.contents| % BLOCK_SIZE
    }

    // The file holds exactly the log of the records.
    ghost predicate Holds(records: seq<seq<Byte>>)
      reads dest
    {
      dest.contents == LogBytes(crc, records)
    }

    constructor (crc: Checksum, dest: WritableFile)
      requires dest.contents == []
      ensures this.crc == crc && this.dest == dest && Valid() && Holds([])
    {
      this.crc, this.dest, blockOffset := crc, dest, 0;
    }

    // Continues a file left behind by an earlier writer.
    constructor Reopen(crc: Checksum, dest: WritableFile, destLength: nat)
      requires destLength == |dest.contents|
      ensures this.crc == crc && this.dest == dest && Valid()
    {
      this.crc, this.dest, blockOffset := crc, dest, destLength % BLOCK_SIZE;
    }

    method EmitPhysicalRecord(kind: Byte, payload: seq<Byte>)
      requires |payload| <= 0xffff
      requires 0 <= blockOffset && blockOffset + HEADER_SIZE + |payload| <= BLOCK_SIZE
      modifies dest, this`blockOffset
      ensures dest.contents == old(dest.contents) + PhysicalRecord(crc, kind, payload)
      ensures blockOffset == old(blockOffset) + HEADER_SIZE + |payload|
    {
      var n := |payload|;
      var buf := EncodeFixed(Mask(crc(kind, payload)), 4) + [n % 256, n / 256, kind];
      dest.Append(buf);
      dest.Append(payload);
      blockOffset := blockOffset + HEADER_SIZE + n;
    }

    // What appending the data to the contents comes to.
    ghost function Appended(contents: seq<Byte>, data: seq<Byte>, begin: bool): seq<Byte> {
      contents + Bytes(crc, |contents|, Split(|contents|, data, begin))
    }

    // One turn of the loop below: the fragment it emits is the next of the split.
    lemma AppendedStep(contents: seq<Byte>, data: seq<Byte>, begin: bool)
      ensures var n := if |data| < Avail(|contents|) then |data| else Avail(|contents|);
              var f := Fragment(KindOf(begin, n == |data|), |contents| + Pad(|contents|), data[..n]);
              var next := contents + Chunk(crc, |contents|, f);
              Appended(contents, data, begin) == if n == |data| then next else Appended(next, data[n..], false)
    {
      var off := |contents|;
      var n := if |data| < Avail(off) then |data| else Avail(off);
      var f := Fragment(KindOf(begin, n == |data|), off + Pad(off), data[..n]);
      var fs := Split(off, data, begin);
      assert fs[0] == f && fs[1..] == if n == |data| then [] else Split(f.End(), data[n..], false);
      assert |contents + Chunk(crc, off, f)| == f.End();
      AppendedIs(contents, data, begin);
      AppendedIs(contents + Chunk(crc, off, f), data[n..], false);
      hide *;
      BytesUnfold(crc, off, fs);
      BytesUnfold(crc, f.End(), fs[1..]);
      Associate(contents, Chunk(crc, off, f), Bytes(crc, f.End(), fs[1..]));
      NothingAppended(contents + Chunk(crc, off, f));
    }

    lemma AppendedIs(contents: seq<Byte>, data: seq<Byte>, begin: bool)
      ensures Appended(contents, data, begin) == contents + Bytes(crc, |contents|, Split(|contents|, data, begin))
    {
    }

    lemma ChunkAppended(contents: seq<Byte>, f: Fragment)
      ensures contents + Zeros(Pad(|contents|)) + PhysicalRecord(crc, f.kind, f.payload)
          == contents + Chunk(crc, |contents|, f)
    {
      hide PhysicalRecord;
      hide Pad;
      Associate(contents, Zeros(Pad(|contents|)), PhysicalRecord(crc, f.kind, f.payload));
    }

    lemma AppendedMakesLog(records: seq<seq<Byte>>, data: seq<Byte>)
      ensures Appended(LogBytes(crc, records), data, true) == LogBytes(crc, records + [data])
    {
      LogBytesAppend(crc, records, data);
    }

    // The offset in the block tells the trailer and the room left.
    static lemma BlockOffsetTells(off: nat, blockOffset: int, n: nat)
      requires 0 <= blockOffset <= BLOCK_SIZE && blockOffset % BLOCK_SIZE == off % BLOCK_SIZE
      ensures var leftover := BLOCK_SIZE - blockOffset;
              var at := if leftover < HEADER_SIZE then 0 else blockOffset;
              && Pad(off) == (if leftover < HEADER_SIZE then leftover else 0)
              && Avail(off) == BLOCK_SIZE - at - HEADER_SIZE
              && (at + HEADER_SIZE + n) % BLOCK_SIZE == (off + Pad(off) + HEADER_SIZE + n) % BLOCK_SIZE
    {
    }

    method AddRecord(data: seq<Byte>)
      requires Valid()
      modifies this`blockOffset, dest
      ensures Valid()
      ensures dest.contents == Appended(old(dest.contents), data, true)
      ensures forall records :: old(Holds(records)) ==> Holds(records + [data])
    {
      hide Appended;
      hide Pad;
      hide Avail;
      hide PhysicalRecord;
      hide Zeros;
      hide Chunk;
      hide LogBytes;
      ghost var goal := Appended(dest.contents, data, true);
      var left := data;
      var begin := true;
      while true
        invariant Valid()
        invariant Appended(dest.contents, left, begin) == goal
        decreases |left|, if blockOffset == BLOCK_SIZE - HEADER_SIZE then 1 else 0
      {
        AppendedStep(dest.contents, left, begin);
        BlockOffsetTells(|dest.contents|, blockOffset,
                         if |left| < Avail(|dest.contents|) then |left| else Avail(|dest.contents|));
        ghost var before := dest.contents;
        var leftover := BLOCK_SIZE - blockOffset;
        if leftover < HEADER_SIZE {
          if leftover > 0 {
            dest.Append(Zeros(leftover));
          }
          blockOffset := 0;
        }
        assert dest.contents == before + Zeros(Pad(|before|));
        var avail := BLOCK_SIZE - blockOffset - HEADER_SIZE;
        var fragmentLength := if |left| < avail then |left| else avail;
        var end := |left| == fragmentLength;
        var kind := KindOf(begin, end);
        EmitPhysicalRecord(kind, left[..fragmentLength]);
        ChunkAppended(before, Fragment(kind, |before| + Pad(|before|), left[..fragmentLength]));
        left := left[fragmentLength..];
        begin := false;
        if left == [] {
          break;
        }
      }
      forall records | old(Holds(records))
        ensures Holds(records + [data])
      {
        AppendedMakesLog(records, data);
      }
    }
  }
}
