// Reading a log back: physical records are taken off the file one by one and
// reassembled into records by a small automaton.
module LogReader {
  import opened Basics
  import opened Coding
  import opened LogFormat
  import opened Sequences

  // ----- Physical records -----

  // Bad drops what is left of a block; the number is the size reported, if any.
  datatype Token = Piece(kind: Byte, payload: seq<Byte>, start: nat) | Bad(drop: Option<nat>) | Eof

  function BlockEnd(p: nat): (e: nat)
    ensures p < e <= p + BLOCK_SIZE && e % BLOCK_SIZE == 0
  {
    (p / BLOCK_SIZE + 1) * BLOCK_SIZE
  }

  // Two type codes double as return values for the end of the file and for a
  // record to be passed over; a fragment with such a type is taken for one.
  const END_OF_FILE := LAST + 1
  const BAD_RECORD := LAST + 2

  function LengthAt(block: seq<Byte>): nat
    requires |block| >= HEADER_SIZE
  {
    block[4] as int + 256 * (block[5] as int)
  }

  predicate ChecksumMatches(crc: Checksum, block: seq<Byte>)
    requires |block| >= HEADER_SIZE && |block| >= HEADER_SIZE + LengthAt(block)
  {
    Unmask(DecodeFixed(block[..4])) == crc(block[6], block[HEADER_SIZE..HEADER_SIZE + LengthAt(block)])
  }

  // The token at the head of the rest of a block, which starts at p in the
  // file, and where the next token starts.
  function Parse(crc: Checksum, block: seq<Byte>, init: nat, p: nat, full: bool): (r: (Token, nat))
    requires |block| >= HEADER_SIZE
    ensures p < r.1 <= p + |block|
    ensures r.0.Piece? ==> r.0.start == p >= init && r.1 == p + HEADER_SIZE + |r.0.payload|
  {
    var n := HEADER_SIZE + LengthAt(block);
    if n > |block| then (if full then Bad(Some(|block|)) else Eof, p + |block|)
    else if block[6] == ZERO && n == HEADER_SIZE then (Bad(None), p + |block|)
    else if !ChecksumMatches(crc, block) then (Bad(Some(|block|)), p + |block|)
    else if p < init || block[6] == BAD_RECORD then (Bad(None), p + n)
    else if block[6] == END_OF_FILE then (Eof, p + n)
    else (Piece(block[6], block[HEADER_SIZE..n], p), p + n)
  }

  function NextToken(crc: Checksum, file: seq<Byte>, init: nat, p: nat): (r: (Token, nat))
    ensures p <= r.1 && (!r.0.Eof? ==> p < r.1 <= |file|)
    ensures r.0.Piece? ==> r.0.start >= init && r.1 == r.0.start + HEADER_SIZE + |r.0.payload|
    decreases if p < |file| then |file| - p else 0
  {
    var e := BlockEnd(p);
    if e <= |file| then
      if e - p < HEADER_SIZE then NextToken(crc, file, init, e) else Parse(crc, file[p..e], init, p, true)
    else if |file| - p < HEADER_SIZE then (Eof, if p < |file| then |file| else p)
    else Parse(crc, file[p..], init, p, false)
  }

  // ----- Reassembly -----

  datatype Record = Record(offset: nat, data: seq<Byte>)

  datatype Assembly = Assembly(resyncing: bool, inFragment: bool, scratch: seq<Byte>, start: nat)

  datatype Outcome = Outcome(records: seq<Record>, reports: seq<nat>) {
    function After(o: Outcome): Outcome {
      Outcome(o.records + records, o.reports + reports)
    }
  }

  const NOTHING := Outcome([], [])

  function Idle(resyncing: bool): Assembly {
    Assembly(resyncing, false, [], 0)
  }

  // A drop is reported when it is past the initial offset.
  function Report(init: nat, p: int, bytes: nat): seq<nat> {
    if p - bytes >= init then [bytes] else []
  }

  // What taking the token off the file reports, in front of the position p.
  function Dropped(init: nat, t: Token, p: int): seq<nat> {
    if t.Bad? && t.drop.Some? then Report(init, p, t.drop.value) else []
  }

  // What a token does to the reassembly; p is where the next token starts.
  function Feed(init: nat, a: Assembly, t: Token, p: int): (r: (Assembly, Outcome))
    requires !t.Eof?
  {
    var unfinished := if a.inFragment && a.scratch != [] then Report(init, p, |a.scratch|) else [];
    match t
    case Bad(drop) =>
      (Idle(false), Outcome([], if a.inFragment then Report(init, p, |a.scratch|) else []))
    case Piece(kind, payload, start) =>
      if a.resyncing && kind == MIDDLE then (a, NOTHING)
      else if a.resyncing && kind == LAST then (a.(resyncing := false), NOTHING)
      else if kind == FULL then (Idle(false), Outcome([Record(start, payload)], unfinished))
      else if kind == FIRST then (Assembly(false, true, payload, start), Outcome([], unfinished))
      else if kind == MIDDLE then
        if a.inFragment then (a.(scratch := a.scratch + payload), NOTHING)
        else (a, Outcome([], Report(init, p, |payload|)))
      else if kind == LAST then
        if a.inFragment then (Idle(false), Outcome([Record(a.start, a.scratch + payload)], []))
        else (a, Outcome([], Report(init, p, |payload|)))
      else (Idle(false), Outcome([], Report(init, p, |payload| + if a.inFragment then |a.scratch| else 0)))
  }

  // Everything read from p on until the end of the file is met.
  function ReadLog(crc: Checksum, file: seq<Byte>, init: nat, p: nat, a: Assembly): Outcome
    decreases if p < |file| then |file| - p else 0
  {
    var (t, p') := NextToken(crc, file, init, p);
    if t.Eof? then NOTHING
    else
      var (a', o) := Feed(init, a, t, p');
      ReadLog(crc, file, init, p', a').After(Outcome(o.records, Dropped(init, t, p') + o.reports))
  }

  // Where the search for the first record at or after the initial offset begins.
  function InitialBlock(init: nat): nat {
    var offsetInBlock := init % BLOCK_SIZE;
    if offsetInBlock > BLOCK_SIZE - 6 then init - offsetInBlock + BLOCK_SIZE else init - offsetInBlock
  }

  // ----- The reader -----

  class SequentialFile {
    const contents: seq<Byte>
    var pos: nat

    constructor (contents: seq<Byte>)
      ensures this.contents == contents && pos == 0
    {
      this.contents, pos := contents, 0;
    }

    method Read(n: nat) returns (data: seq<Byte>)
      requires pos <= |contents|
      modifies this
      ensures old(pos) <= pos <= |contents| && data == contents[old(pos)..pos]
      ensures pos == if old(pos) + n <= |contents| then old(pos) + n else |contents|
    {
      var end := if pos + n <= |contents| then pos + n else |contents|;
      data := contents[pos..end];
      pos := end;
    }

    method Skip(n: nat)
      requires pos <= |contents|
      modifies this
      ensures pos == if old(pos) + n <= |contents| then old(pos) + n else |contents|
    {
      pos := if pos + n <= |contents| then pos + n else |contents|;
    }
  }

  class Reader {
    const crc: Checksum
    const file: SequentialFile
    const initialOffset: nat
    var buffer: seq<Byte>
    var eof: bool
    var lastRecordOffset: nat
    var endOfBufferOffset: nat
    var resyncing: bool
    var reports: seq<nat>

    // Where the unread part of the buffer starts in the file.
    function Position(): int
      reads this`buffer, this`endOfBufferOffset
    {
      endOfBufferOffset - |buffer|
    }

    ghost predicate Valid()
      reads this`buffer, this`eof, this`endOfBufferOffset, file
    {
      && file.pos == (if endOfBufferOffset <= |file.contents| then endOfBufferOffset else |file.contents|)
      && |buffer| <= endOfBufferOffset
      && (buffer != [] ==>
            endOfBufferOffset <= |file.contents| && buffer == file.contents[Position()..endOfBufferOffset])
      && |buffer| <= BLOCK_SIZE
      && (if eof then file.pos == |file.contents| && (buffer == [] || |file.contents| < BlockEnd(Position()))
          else endOfBufferOffset % BLOCK_SIZE == 0)
    }

    constructor (crc: Checksum, file: SequentialFile, initialOffset: nat)
      requires file.pos == 0
      ensures this.crc == crc && this.file == file && this.initialOffset == initialOffset
      ensures Valid() && Fresh() && resyncing == (initialOffset > 0) && reports == []
    {
      this.crc, this.file, this.initialOffset := crc, file, initialOffset;
      buffer, eof, lastRecordOffset, endOfBufferOffset := [], false, 0, 0;
      resyncing, reports := initialOffset > 0, [];
    }

    // Nothing has been read yet.
    predicate Fresh()
      reads this, file
    {
      buffer == [] && !eof && endOfBufferOffset == 0 && file.pos == 0
    }

    method ReportDrop(bytes: nat)
      modifies this`reports
      ensures reports == old(reports) + Report(initialOffset, Position(), bytes)
    {
      if endOfBufferOffset - |buffer| - bytes >= initialOffset {
        reports := reports + [bytes];
      }
    }

    method SkipToInitialBlock()
      requires Fresh()
      modifies this`endOfBufferOffset, file
      ensures Valid() && Position() == InitialBlock(initialOffset)
    {
      var offsetInBlock := initialOffset % BLOCK_SIZE;
      var blockStartLocation := initialOffset - offsetInBlock;
      if offsetInBlock > BLOCK_SIZE - 6 {
        offsetInBlock := 0;
        blockStartLocation := blockStartLocation + BLOCK_SIZE;
      }
      endOfBufferOffset := blockStartLocation;
      if blockStartLocation > 0 {
        file.Skip(blockStartLocation);
      }
    }

    ghost function Next(): (Token, nat)
      requires Valid()
      reads this`buffer, this`eof, this`endOfBufferOffset, file
    {
      NextToken(crc, file.contents, initialOffset, Position())
    }

    lemma TrailerIsSkipped()
      requires Valid() && |buffer| < HEADER_SIZE && !eof
      ensures Next() == NextToken(crc, file.contents, initialOffset, endOfBufferOffset)
    {
      assert buffer != [] ==> BlockEnd(Position()) == endOfBufferOffset;
    }

    lemma TruncatedHeaderEnds()
      requires Valid() && |buffer| < HEADER_SIZE && eof
      ensures Next() == (Eof, endOfBufferOffset)
    {
    }

    lemma BufferIsParsed()
      requires Valid() && |buffer| >= HEADER_SIZE
      ensures Next() == Parse(crc, buffer, initialOffset, Position(), !eof)
    {
      if eof {
        assert file.contents[Position()..endOfBufferOffset] == file.contents[Position()..];
      }
    }

    // buffer_.remove_prefix(n); n = |buffer| is buffer_.clear().
    method RemovePrefix(n: nat)
      requires Valid() && n <= |buffer|
      modifies this`buffer
      ensures Valid() && buffer == old(buffer)[n..] && Position() == old(Position()) + n
    {
      buffer := buffer[n..];
      if buffer != [] {
        assert buffer == file.contents[Position()..endOfBufferOffset];
      }
    }

    lemma BlockEndAt(p: nat)
      requires p % BLOCK_SIZE == 0
      ensures BlockEnd(p) == p + BLOCK_SIZE
    {
    }

    method Refill()
      requires Valid() && |buffer| < HEADER_SIZE && !eof
      modifies this`buffer, this`eof, this`endOfBufferOffset, file
      ensures Valid() && Next() == old(Next())
      ensures eof || |buffer| >= HEADER_SIZE
    {
      TrailerIsSkipped();
      BlockEndAt(endOfBufferOffset);
      hide NextToken;
      hide BlockEnd;
      // What is left of a full block is too short for a header.
      buffer := [];
      buffer := file.Read(BLOCK_SIZE);
      endOfBufferOffset := endOfBufferOffset + |buffer|;
      if |buffer| < BLOCK_SIZE {
        eof := true;
      }
    }

    lemma ChecksumIs(block: seq<Byte>)
      requires |block| >= HEADER_SIZE && |block| >= HEADER_SIZE + LengthAt(block)
      ensures ChecksumMatches(crc, block)
         <==> Unmask(DecodeFixed(block[..4])) == crc(block[6], block[HEADER_SIZE..HEADER_SIZE + LengthAt(block)])
    {
    }

    method ReadPhysicalRecord() returns (t: Token)
      requires Valid()
      modifies this`buffer, this`eof, this`endOfBufferOffset, this`reports, file
      ensures Valid()
      ensures (t, Position()) == old(Next())
      ensures reports == old(reports)
              + if t.Bad? && t.drop.Some? && Position() - t.drop.value >= initialOffset then [t.drop.value] else []
    {
      hide NextToken;
      hide Valid;
      hide ChecksumMatches;
      while true
        invariant Valid() && reports == old(reports)
        invariant Next() == old(Next())
        decreases !eof, |buffer| < HEADER_SIZE
      {
        if |buffer| < HEADER_SIZE {
          if !eof {
            Refill();
            continue;
          } else {
            TruncatedHeaderEnds();
            RemovePrefix(|buffer|);
            return Eof;
          }
        }
        BufferIsParsed();
        ghost var block := buffer;
        var length := buffer[4] as int + 256 * (buffer[5] as int);
        var kind := buffer[6];
        if HEADER_SIZE + length > |buffer| {
          var dropSize := |buffer|;
          RemovePrefix(|buffer|);
          if !eof {
            ReportDrop(dropSize);
            return Bad(Some(dropSize));
          }
          return Eof;
        }
        if kind == ZERO && length == 0 {
          RemovePrefix(|buffer|);
          return Bad(None);
        }
        var payload := buffer[HEADER_SIZE..HEADER_SIZE + length];
        assert ChecksumMatches(crc, block) <==> Unmask(DecodeFixed(buffer[..4])) == crc(kind, payload) by {
          ChecksumIs(block);
        }
        if Unmask(DecodeFixed(buffer[..4])) != crc(kind, payload) {
          var dropSize := |buffer|;
          RemovePrefix(|buffer|);
          ReportDrop(dropSize);
          return Bad(Some(dropSize));
        }
        RemovePrefix(HEADER_SIZE + length);
        if endOfBufferOffset - |buffer| - HEADER_SIZE - length < initialOffset {
          return Bad(None);
        }
        if kind == BAD_RECORD {
          return Bad(None);
        }
        if kind == END_OF_FILE {
          return Eof;
        }
        return Piece(kind, payload, endOfBufferOffset - |buffer| - HEADER_SIZE - length);
      }
    }

    // What reading on from here comes to, if a new record is started.
    ghost function Rest(): Outcome
      requires Valid()
      reads this, file
    {
      ReadLog(crc, file.contents, initialOffset, Position(), Idle(resyncing))
    }

    // What reading comes to from the first call on: a reader whose last record
    // is before the initial offset has not returned one yet.
    ghost function Ahead(): Outcome
      requires Valid()
      reads this, file
    {
      ReadLog(crc, file.contents, initialOffset,
              if lastRecordOffset < initialOffset then InitialBlock(initialOffset) else Position(), Idle(resyncing))
    }

    // With the reports made so far, what is still to be read makes up the goal.
    ghost predicate Owes(a: Assembly, goal: Outcome)
      requires Valid()
      reads this, file
    {
      var rest := ReadLog(crc, file.contents, initialOffset, Position(), a);
      rest.records == goal.records && reports + rest.reports == goal.reports
    }

    // What is owed once a token has been taken in and its outcome passed on.
    ghost predicate OwesAfter(before: seq<nat>, p: nat, a: Assembly, o: Outcome, goal: Outcome) {
      var rest := ReadLog(crc, file.contents, initialOffset, p, a);
      goal.records == o.records + rest.records && goal.reports == before + o.reports + rest.reports
    }

    lemma Token(a: Assembly, goal: Outcome)
      requires Valid() && Owes(a, goal)
      ensures var (t, p') := Next();
              if t.Eof? then goal == Outcome([], reports)
              else
                var (a', o) := Feed(initialOffset, a, t, p');
                OwesAfter(reports + Dropped(initialOffset, t, p'), p', a', o, goal)
    {
      hide Feed;
      var (t, p') := Next();
      if t.Eof? {
        NothingAppended(reports);
      } else {
        var (a', o) := Feed(initialOffset, a, t, p');
        Associate(reports, Dropped(initialOffset, t, p') + o.reports,
                  ReadLog(crc, file.contents, initialOffset, p', a').reports);
        Associate(reports, Dropped(initialOffset, t, p'), o.reports);
      }
    }

    lemma Settle(before: seq<nat>, a: Assembly, o: Outcome, goal: Outcome)
      requires Valid() && OwesAfter(before, Position(), a, o, goal)
      requires o.records == [] && reports == before + o.reports
      ensures Owes(a, goal)
    {
    }

    lemma Deliver(before: seq<nat>, record: Record, o: Outcome, goal: Outcome)
      requires Valid() && OwesAfter(before, Position(), Idle(false), o, goal)
      requires o.records == [record] && reports == before + o.reports && !resyncing
      ensures goal.records == [record] + Rest().records && goal.reports == reports + Rest().reports
    {
    }

    // The switch on the type of the physical record: what it leaves of the
    // record being put together, and the record it completes.
    method Reassemble(t: Token, inFragmentedRecord: bool, scratch: seq<Byte>, prospectiveRecordOffset: nat)
      returns (inFragmentedRecord': bool, scratch': seq<Byte>, prospectiveRecordOffset': nat, completed: bool)
      requires !t.Eof? && (resyncing ==> !inFragmentedRecord)
      requires !inFragmentedRecord ==> scratch == [] && prospectiveRecordOffset == 0
      modifies this`reports, this`resyncing, this`lastRecordOffset
      ensures
        var before := Assembly(old(resyncing), inFragmentedRecord, scratch, prospectiveRecordOffset);
        var (a, o) := Feed(initialOffset, before, t, Position());
              && reports == old(reports) + o.reports
              && completed == (o.records != [])
              && resyncing == a.resyncing && (resyncing ==> !inFragmentedRecord')
              && (completed ==> o.records == [Record(lastRecordOffset, scratch')] && !resyncing && a == Idle(false))
              && (!completed ==> a == Assembly(resyncing, inFragmentedRecord', scratch', prospectiveRecordOffset')
                                 && lastRecordOffset == old(lastRecordOffset)
                                 && (!inFragmentedRecord' ==> scratch' == [] && prospectiveRecordOffset' == 0))
    {
      hide Report;
      inFragmentedRecord', scratch', prospectiveRecordOffset' := inFragmentedRecord, scratch, prospectiveRecordOffset;
      completed := false;
      if t.Bad? {
        resyncing := false;
        if inFragmentedRecord {
          ReportDrop(|scratch|);
          inFragmentedRecord', scratch', prospectiveRecordOffset' := false, [], 0;
        }
      } else if resyncing && t.kind == MIDDLE {
      } else if resyncing && t.kind == LAST {
        resyncing := false;
      } else {
        resyncing := false;
        var kind, fragment := t.kind, t.payload;
        if kind == FULL || kind == FIRST {
          if inFragmentedRecord && scratch != [] {
            ReportDrop(|scratch|);
          }
          inFragmentedRecord', scratch', prospectiveRecordOffset' := true, fragment, t.start;
          completed := kind == FULL;
        } else if kind == MIDDLE || kind == LAST {
          if !inFragmentedRecord {
            ReportDrop(|fragment|);
          } else {
            scratch' := scratch + fragment;
            completed := kind == LAST;
          }
        } else {
          ReportDrop(|fragment| + if inFragmentedRecord then |scratch| else 0);
          inFragmentedRecord', scratch', prospectiveRecordOffset' := false, [], 0;
        }
        if completed {
          lastRecordOffset := prospectiveRecordOffset';
        }
      }
    }

    // A record begun starts at or after the initial offset.
    lemma StartsAhead(a: Assembly, t: Token, p: int)
      requires !t.Eof? && (t.Piece? ==> t.start >= initialOffset)
      requires a.inFragment ==> a.start >= initialOffset
      ensures var (a', o) := Feed(initialOffset, a, t, p);
        (a'.inFragment ==> a'.start >= initialOffset) && forall r :: r in o.records ==> r.offset >= initialOffset
    {
    }

    method ReadRecord() returns (ok: bool, record: seq<Byte>)
      requires Valid() && (lastRecordOffset < initialOffset ==> Fresh())
      modifies this, file
      ensures Valid() && (ok ==> lastRecordOffset >= initialOffset)
      ensures ok ==> old(Ahead()).records == [Record(lastRecordOffset, record)] + Rest().records
      ensures ok ==> old(reports) + old(Ahead()).reports == reports + Rest().reports
      ensures !ok ==> old(Ahead()).records == [] && old(reports) + old(Ahead()).reports == reports
    {
      hide Valid;
      hide ReadLog;
      hide NextToken;
      hide OwesAfter;
      hide Feed;
      ghost var goal := Outcome(Ahead().records, reports + Ahead().reports);
      if lastRecordOffset < initialOffset {
        SkipToInitialBlock();
      }
      var scratch: seq<Byte> := [];
      var inFragmentedRecord := false;
      var prospectiveRecordOffset: nat := 0;
      assert Owes(Idle(resyncing), goal);
      hide Owes;
      while true
        invariant Valid() && lastRecordOffset == old(lastRecordOffset)
        invariant resyncing ==> !inFragmentedRecord
        invariant inFragmentedRecord ==> prospectiveRecordOffset >= initialOffset
        invariant !inFragmentedRecord ==> scratch == [] && prospectiveRecordOffset == 0
        invariant Owes(Assembly(resyncing, inFragmentedRecord, scratch, prospectiveRecordOffset), goal)
        decreases |file.contents| - Position()
      {
        ghost var a := Assembly(resyncing, inFragmentedRecord, scratch, prospectiveRecordOffset);
        Token(a, goal);
        var t := ReadPhysicalRecord();
        if t.Eof? {
          return false, [];
        }
        StartsAhead(a, t, Position());
        ghost var before := reports;
        ghost var (a', o) := Feed(initialOffset, a, t, Position());
        var completed;
        inFragmentedRecord, scratch, prospectiveRecordOffset, completed :=
          Reassemble(t, inFragmentedRecord, scratch, prospectiveRecordOffset);
        if completed {
          Deliver(before, Record(lastRecordOffset, scratch), o, goal);
          return true, scratch;
        }
        Settle(before, a', o, goal);
      }
    }
  }
}
