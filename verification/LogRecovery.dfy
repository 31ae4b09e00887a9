// What reading a log recovers of the records written to it: of a log damaged
// in place or cut short, read from any offset, exactly the records that lost
// no fragment.
module LogRecovery {
  import opened Basics
  import opened Coding
  import opened LogFormat
  import opened LogReader
  import opened Sequences

  // A file read for what was written: all the fragments once written to it, in
  // order, and the offset the reading starts at.
  datatype Log = Log(crc: Checksum, file: seq<Byte>, all: seq<Fragment>, init: nat)

  // ----- Which fragments survive -----

  // The file still holds the fragment as it was written.
  predicate Intact(l: Log, f: Fragment) {
    f.End() <= |l.file| && l.file[f.start..f.End()] == PhysicalRecord(l.crc, f.kind, f.payload)
  }

  // The reader accepts what it finds where the fragment was written.
  predicate Accepted(l: Log, f: Fragment) {
    && f.start + HEADER_SIZE <= Limit(l.file, f.start)
    && var block := l.file[f.start..Limit(l.file, f.start)];
    && HEADER_SIZE + LengthAt(block) <= |block|
    && !(block[6] == ZERO && LengthAt(block) == 0)
    && ChecksumMatches(l.crc, block)
  }

  // A physical record, with the checksum that goes with it, stands at p.
  ghost predicate HoldsRecord(crc: Checksum, file: seq<Byte>, p: nat, kind: Byte, payload: seq<Byte>) {
    var end := p + HEADER_SIZE + |payload|;
    end <= |file| && end <= BlockEnd(p) && |payload| < 0x1_0000 && file[p..end] == PhysicalRecord(crc, kind, payload)
  }

  // An ideal checksum: where a fragment was written stands that fragment, or nothing
  // with the checksum that goes with it, unless it be an empty record of type 0.
  ghost predicate Ideal(l: Log) {
    forall f, kind, payload :: f in l.all && HoldsRecord(l.crc, l.file, f.start, kind, payload)
      ==> (kind == ZERO && payload == []) || Intact(l, f)
  }

  // What the reader accepts is what was written.
  ghost predicate Trusty(l: Log) {
    forall f :: f in l.all && Accepted(l, f) ==> Intact(l, f)
  }

  // After a bad fragment the rest of its block is dropped.
  ghost predicate Survives(l: Log, f: Fragment) {
    && f.start >= l.init
    && forall g :: g in l.all && g.start <= f.start && BlockEnd(g.start) == BlockEnd(f.start) ==> Intact(l, g)
  }

  ghost predicate AllSurvive(l: Log, fs: seq<Fragment>) {
    forall f :: f in fs ==> Survives(l, f)
  }

  function Payload(fs: seq<Fragment>): seq<Byte> {
    if fs == [] then [] else fs[0].payload + Payload(fs[1..])
  }

  // The records all of whose fragments survive.
  ghost function Survivors(l: Log, groups: seq<seq<Fragment>>): seq<Record> {
    if groups == [] then [] else SurvivingRecord(l, groups[0]) + Survivors(l, groups[1..])
  }

  ghost function SurvivingRecord(l: Log, fs: seq<Fragment>): seq<Record> {
    if fs != [] && AllSurvive(l, fs) then [Record(fs[0].start, Payload(fs))] else []
  }

  // ----- Shape of the fragments of a record -----

  ghost predicate Continues(fs: seq<Fragment>) {
    forall i :: 0 <= i < |fs| ==> fs[i].kind == if i == |fs| - 1 then LAST else MIDDLE
  }

  ghost predicate WellKinded(fs: seq<Fragment>) {
    && fs != []
    && (if |fs| == 1 then fs[0].kind == FULL else fs[0].kind == FIRST && Continues(fs[1..]))
  }

  // The first fragment and the others.
  lemma SplitHead(off: nat, data: seq<Byte>, begin: bool)
    ensures var (fs, n) := (Split(off, data, begin), if |data| < Avail(off) then |data| else Avail(off));
      && fs[0].kind == KindOf(begin, n == |data|) && fs[0].payload == data[..n]
      && fs == [fs[0]] + if n == |data| then [] else Split(fs[0].End(), data[n..], false)
  {
  }

  lemma LastAlone(f: Fragment)
    requires f.kind == LAST
    ensures Continues([f]) && Payload([f]) == f.payload
  {
    assert Payload([f][1..]) == [];
  }

  lemma MiddleBefore(f: Fragment, fs: seq<Fragment>)
    requires f.kind == MIDDLE && Continues(fs) && fs != []
    ensures Continues([f] + fs) && Payload([f] + fs) == f.payload + Payload(fs)
  {
    assert ([f] + fs)[1..] == fs;
    assert forall i :: 1 <= i <= |fs| ==> ([f] + fs)[i] == fs[i - 1];
  }

  lemma {:induction false} SplitContinues(off: nat, data: seq<Byte>)
    ensures Continues(Split(off, data, false)) && Payload(Split(off, data, false)) == data
    decreases |data|, if Avail(off) == 0 then 1 else 0
  {
    var n := if |data| < Avail(off) then |data| else Avail(off);
    var fs := Split(off, data, false);
    if n < |data| { assert Avail(off) == 0 ==> Avail(fs[0].End()) > 0; }
    hide Split;
    hide Avail;
    hide Payload;
    hide Continues;
    SplitHead(off, data, false);
    if n < |data| {
      SplitContinues(fs[0].End(), data[n..]);
      MiddleBefore(fs[0], Split(fs[0].End(), data[n..], false));
      assert data[..n] + data[n..] == data;
    } else {
      NothingAppended([fs[0]]);
      LastAlone(fs[0]);
      assert data[..n] == data;
    }
  }

  lemma FullAlone(f: Fragment)
    requires f.kind == FULL
    ensures WellKinded([f]) && Payload([f]) == f.payload
  {
    assert Payload([f][1..]) == [];
  }

  lemma FirstBefore(f: Fragment, fs: seq<Fragment>)
    requires f.kind == FIRST && Continues(fs) && fs != []
    ensures WellKinded([f] + fs) && Payload([f] + fs) == f.payload + Payload(fs)
  {
    assert ([f] + fs)[1..] == fs;
  }

  lemma SplitIsWellKinded(off: nat, data: seq<Byte>)
    ensures WellKinded(Split(off, data, true)) && Payload(Split(off, data, true)) == data
  {
    var n := if |data| < Avail(off) then |data| else Avail(off);
    var fs := Split(off, data, true);
    hide *;
    SplitHead(off, data, true);
    KindsAre(n == |data|);
    if n < |data| {
      SplitContinues(fs[0].End(), data[n..]);
      FirstBefore(fs[0], Split(fs[0].End(), data[n..], false));
      assert data[..n] + data[n..] == data;
    } else {
      NothingAppended([fs[0]]);
      FullAlone(fs[0]);
      assert data[..n] == data;
    }
  }

  lemma KindsAre(end: bool)
    ensures KindOf(true, end) == if end then FULL else FIRST
  {
  }

  // ----- One token -----

  lemma HeaderOf(crc: Checksum, kind: Byte, payload: seq<Byte>, block: seq<Byte>)
    requires |payload| < 0x1_0000 && PhysicalRecord(crc, kind, payload) <= block
    ensures LengthAt(block) == |payload| && block[6] == kind
    ensures block[..4] == EncodeFixed(Mask(crc(kind, payload)), 4)
    ensures block[HEADER_SIZE..HEADER_SIZE + |payload|] == payload
  {
    hide EncodeFixed;
    var phys := PhysicalRecord(crc, kind, payload);
    var head := EncodeFixed(Mask(crc(kind, payload)), 4);
    assert forall i :: 0 <= i < |phys| ==> block[i] == phys[i];
    assert block[..4] == phys[..4] == head;
    assert block[HEADER_SIZE..|phys|] == phys[HEADER_SIZE..|phys|] == payload;
  }

  // What was written with a type has the checksum of that type.
  lemma ChecksumIntact(crc: Checksum, kind: Byte, payload: seq<Byte>, block: seq<Byte>)
    requires |payload| < 0x1_0000 && PhysicalRecord(crc, kind, payload) <= block
    ensures HEADER_SIZE + LengthAt(block) <= |block| && ChecksumMatches(crc, block)
    ensures LengthAt(block) == |payload| && block[6] == kind
  {
    hide EncodeFixed;
    hide DecodeFixed;
    hide Mask;
    hide Unmask;
    HeaderOf(crc, kind, payload, block);
    ValuesOfWords();
    DecodeEncode(Mask(crc(kind, payload)), 4);
    UnmaskMask(crc(kind, payload));
    hide PhysicalRecord;
  }

  // What the reader takes a physical record for.
  function TokenOf(kind: Byte, payload: seq<Byte>, p: nat): Token {
    if kind == 5 then Eof else if kind == 6 then Bad(None) else Piece(kind, payload, p)
  }

  lemma RecordToken(crc: Checksum, file: seq<Byte>, init: nat, p: nat, kind: Byte, payload: seq<Byte>)
    requires HoldsRecord(crc, file, p, kind, payload) && p >= init && (kind == ZERO ==> payload != [])
    ensures NextToken(crc, file, init, p) == (TokenOf(kind, payload, p), p + HEADER_SIZE + |payload|)
  {
    hide Parse;
    hide BlockEnd;
    var full := BlockEnd(p) <= |file|;
    var block := if full then file[p..BlockEnd(p)] else file[p..];
    var end := p + HEADER_SIZE + |payload|;
    assert block[..end - p] == file[p..end];
    assert PhysicalRecord(crc, kind, payload) <= block;
    hide PhysicalRecord;
    RecordParses(crc, kind, payload, block, init, p, full);
  }

  lemma RecordParses(crc: Checksum, kind: Byte, payload: seq<Byte>, block: seq<Byte>, init: nat, p: nat, full: bool)
    requires |payload| < 0x1_0000 && PhysicalRecord(crc, kind, payload) <= block
    requires p >= init && (kind == ZERO ==> payload != [])
    ensures |block| >= HEADER_SIZE
         && Parse(crc, block, init, p, full) == (TokenOf(kind, payload, p), p + HEADER_SIZE + |payload|)
  {
    ChecksumIntact(crc, kind, payload, block);
    HeaderOf(crc, kind, payload, block);
    hide PhysicalRecord;
    hide ChecksumMatches;
  }

  // Type 5 is taken for the end of the file: whatever follows is lost to this
  // read, and so is a record begun before, and nothing is reported.
  lemma TypeFiveEndsReading(crc: Checksum, file: seq<Byte>, init: nat, p: nat, payload: seq<Byte>, a: Assembly)
    requires HoldsRecord(crc, file, p, END_OF_FILE, payload) && p >= init
    ensures ReadLog(crc, file, init, p, a) == NOTHING
  {
    RecordToken(crc, file, init, p, END_OF_FILE, payload);
    hide NextToken;
  }

  // Type 6 is taken for a record that was passed over: its payload is not
  // reported, only what was begun before is, and reading goes on behind it.
  lemma TypeSixIsPassedOver(crc: Checksum, file: seq<Byte>, init: nat, p: nat, payload: seq<Byte>, a: Assembly)
    requires HoldsRecord(crc, file, p, BAD_RECORD, payload) && p >= init
    ensures var end := p + HEADER_SIZE + |payload|;
      ReadLog(crc, file, init, p, a)
      == ReadLog(crc, file, init, end, Idle(false))
         .After(Outcome([], if a.inFragment then Report(init, end, |a.scratch|) else []))
  {
    var end := p + HEADER_SIZE + |payload|;
    RecordToken(crc, file, init, p, BAD_RECORD, payload);
    hide HoldsRecord;
    ReadsOver(crc, file, init, p, a, end);
  }

  // Any other type is reported: its payload together with what was begun before.
  lemma OtherTypesAreReported(crc: Checksum, file: seq<Byte>, init: nat, p: nat, kind: Byte, payload: seq<Byte>,
                              a: Assembly)
    requires HoldsRecord(crc, file, p, kind, payload) && p >= init && (if kind == 0 then payload != [] else kind > 6)
    ensures var end, held := p + 7 + |payload|, if a.inFragment then |a.scratch| else 0;
      ReadLog(crc, file, init, p, a)
      == ReadLog(crc, file, init, end, Idle(false))
         .After(Outcome([], if p + 7 - held >= init then [|payload| + held] else []))
  {
    hide *;
    var end := p + 7 + |payload|;
    OtherIsPiece(kind, payload, p);
    RecordToken(crc, file, init, p, kind, payload);
    FeedOther(init, a, kind, payload, p);
    PieceRead(crc, file, init, p, a, Piece(kind, payload, p), end);
  }

  lemma OtherIsPiece(kind: Byte, payload: seq<Byte>, p: nat)
    requires kind == 0 || kind > 6
    ensures TokenOf(kind, payload, p) == Piece(kind, payload, p) && HEADER_SIZE == 7 && ZERO == 0
  {
  }

  lemma PieceRead(crc: Checksum, file: seq<Byte>, init: nat, p: nat, a: Assembly, t: Token, p': nat)
    requires NextToken(crc, file, init, p) == (t, p') && t.Piece?
    ensures ReadLog(crc, file, init, p, a)
         == ReadLog(crc, file, init, p', Feed(init, a, t, p').0).After(Feed(init, a, t, p').1)
  {
    hide NextToken;
    hide Feed;
    assert [] + Feed(init, a, t, p').1.reports == Feed(init, a, t, p').1.reports;
  }

  lemma FeedOther(init: nat, a: Assembly, kind: Byte, payload: seq<Byte>, p: nat)
    requires kind == 0 || kind > 6
    ensures var held := if a.inFragment then |a.scratch| else 0;
      Feed(init, a, Piece(kind, payload, p), p + 7 + |payload|)
      == (Idle(false), Outcome([], if p + 7 - held >= init then [|payload| + held] else []))
  {
  }

  lemma ReadsOver(crc: Checksum, file: seq<Byte>, init: nat, p: nat, a: Assembly, end: nat)
    requires NextToken(crc, file, init, p) == (Bad(None), end)
    ensures ReadLog(crc, file, init, p, a)
         == ReadLog(crc, file, init, end, Idle(false))
            .After(Outcome([], if a.inFragment then Report(init, end, |a.scratch|) else []))
  {
    hide NextToken;
    hide Report;
    var reports := if a.inFragment then Report(init, end, |a.scratch|) else [];
    NothingAppended(reports);
    assert Dropped(init, Bad(None), end) + reports == reports;
    assert Feed(init, a, Bad(None), end) == (Idle(false), Outcome([], reports));
  }

  // The reader takes an intact fragment for what it is.
  lemma IntactParses(crc: Checksum, f: Fragment, block: seq<Byte>, init: nat, full: bool)
    requires |f.payload| < 0x1_0000 && FULL <= f.kind <= LAST
    requires PhysicalRecord(crc, f.kind, f.payload) <= block
    ensures HEADER_SIZE + LengthAt(block) <= |block| && ChecksumMatches(crc, block)
    ensures Parse(crc, block, init, f.start, full)
         == (if f.start < init then Bad(None) else Piece(f.kind, f.payload, f.start), f.End())
  {
    ChecksumIntact(crc, f.kind, f.payload, block);
    HeaderOf(crc, f.kind, f.payload, block);
    hide PhysicalRecord;
  }

  lemma FitsInBlock(f: Fragment)
    requires Fits(f)
    ensures f.End() <= BlockEnd(f.start) && f.start + HEADER_SIZE <= BlockEnd(f.start) && |f.payload| < 0x1_0000
  {
  }

  function Limit(file: seq<Byte>, p: nat): nat {
    if BlockEnd(p) <= |file| then BlockEnd(p) else |file|
  }

  lemma StoredAgain(b: seq<Byte>)
    requires |b| == 4
    ensures EncodeFixed(Mask(Unmask(DecodeFixed(b))), 4) == b
  {
    hide Mask;
    hide Unmask;
    ValuesOfWords();
    EncodeDecode(b);
    MaskUnmask(DecodeFixed(b));
  }

  // A header with a length that fits and a matching checksum heads a physical record.
  lemma MatchIsRecord(crc: Checksum, block: seq<Byte>)
    requires |block| >= HEADER_SIZE && |block| >= HEADER_SIZE + LengthAt(block) && ChecksumMatches(crc, block)
    ensures block[..HEADER_SIZE + LengthAt(block)]
         == PhysicalRecord(crc, block[6], block[HEADER_SIZE..HEADER_SIZE + LengthAt(block)])
  {
    hide EncodeFixed;
    hide DecodeFixed;
    hide Mask;
    hide Unmask;
    var n := LengthAt(block);
    var payload := block[HEADER_SIZE..HEADER_SIZE + n];
    StoredAgain(block[..4]);
    var phys := PhysicalRecord(crc, block[6], payload);
    assert phys[..4] == block[..4];
    assert forall i :: 0 <= i < 4 ==> phys[i] == phys[..4][i] && block[i] == block[..4][i];
    assert phys[4] == block[4] && phys[5] == block[5] && phys[6] == block[6];
  }

  lemma IdealIsTrusty(l: Log)
    requires Ideal(l)
    ensures Trusty(l)
  {
    hide PhysicalRecord;
    hide Intact;
    hide ChecksumMatches;
    forall f | f in l.all && Accepted(l, f)
      ensures Intact(l, f)
    {
      var block := l.file[f.start..Limit(l.file, f.start)];
      var n := LengthAt(block);
      var payload := block[HEADER_SIZE..HEADER_SIZE + n];
      MatchIsRecord(l.crc, block);
      assert block[..HEADER_SIZE + n] == l.file[f.start..f.start + HEADER_SIZE + n];
      assert HoldsRecord(l.crc, l.file, f.start, block[6], payload);
    }
  }

  lemma IntactIsHead(l: Log, f: Fragment)
    requires Fits(f) && Intact(l, f)
    ensures f.End() <= Limit(l.file, f.start)
    ensures PhysicalRecord(l.crc, f.kind, f.payload) <= l.file[f.start..Limit(l.file, f.start)]
  {
    hide PhysicalRecord;
    FitsInBlock(f);
    var block := l.file[f.start..Limit(l.file, f.start)];
    assert block[..HEADER_SIZE + |f.payload|] == l.file[f.start..f.End()];
  }

  // The token that stands where the fragment was written: the trailer before it
  // does not matter.
  lemma TokenAt(l: Log, p: nat, f: Fragment)
    requires f.start == p + Pad(p) && Fits(f)
    ensures var (t, p') := NextToken(l.crc, l.file, l.init, p);
            if f.start + HEADER_SIZE > Limit(l.file, f.start) then t.Eof?
            else (t, p') == Parse(l.crc, l.file[f.start..Limit(l.file, f.start)], l.init, f.start,
                                  BlockEnd(f.start) <= |l.file|)
  {
    hide Parse;
    FitsInBlock(f);
    if Pad(p) > 0 {
      assert BlockEnd(p) == f.start;
    }
    if f.start <= |l.file| < BlockEnd(f.start) {
      assert l.file[f.start..] == l.file[f.start..|l.file|];
    }
  }

  // An accepted fragment is read, or passed over when it is before the initial offset.
  lemma AcceptedToken(l: Log, p: nat, f: Fragment)
    requires f.start == p + Pad(p) && Fits(f) && FULL <= f.kind <= LAST
    requires Intact(l, f)
    ensures NextToken(l.crc, l.file, l.init, p)
         == (if f.start < l.init then Bad(None) else Piece(f.kind, f.payload, f.start), f.End())
    ensures Accepted(l, f)
  {
    hide Parse;
    hide NextToken;
    TokenAt(l, p, f);
    IntactIsHead(l, f);
    FitsInBlock(f);
    var block := l.file[f.start..Limit(l.file, f.start)];
    IntactParses(l.crc, f, block, l.init, BlockEnd(f.start) <= |l.file|);
    HeaderOf(l.crc, f.kind, f.payload, block);
  }

  // A rejected fragment takes the rest of its block with it.
  lemma RejectedToken(l: Log, p: nat, f: Fragment)
    requires f.start == p + Pad(p) && Fits(f) && !Accepted(l, f)
    ensures var (t, p') := NextToken(l.crc, l.file, l.init, p);
            && (t.Eof? || (t.Bad? && p' == Limit(l.file, f.start)))
            && (t.Eof? ==> |l.file| < BlockEnd(f.start))
  {
    hide NextToken;
    TokenAt(l, p, f);
    FitsInBlock(f);
  }

  // ----- The fragments still to be read -----

  // What is left to read: the rest of the record under way, then whole records.
  datatype Left = Left(rest: seq<Fragment>, groups: seq<seq<Fragment>>) {
    function All(): seq<Fragment> {
      rest + Flatten(groups)
    }

    predicate Ready() {
      rest != [] || (groups != [] && groups[0] != [])
    }

    function Head(): Fragment
      requires Ready()
    {
      if rest != [] then rest[0] else groups[0][0]
    }

    // Without the next fragment.
    function Tail(): Left
      requires Ready()
    {
      if rest != [] then Left(rest[1..], groups) else Left(groups[0][1..], groups[1..])
    }
  }

  ghost predicate Shape(left: Left) {
    Continues(left.rest) && forall g :: g in left.groups ==> WellKinded(g)
  }

  lemma TailIsLeft(left: Left)
    requires Shape(left) && left.All() != []
    ensures left.Ready()
    ensures left.All() == [left.Head()] + left.Tail().All()
    ensures Shape(left.Tail())
    ensures FULL <= left.Head().kind <= LAST
  {
    if left.rest == [] {
      var g := left.groups[0];
      assert g in left.groups;
      assert left.All() == g + Flatten(left.groups[1..]);
      assert g == [g[0]] + g[1..];
      assert WellKinded(g);
    } else {
      assert left.rest == [left.rest[0]] + left.rest[1..];
      forall i | 0 <= i < |left.rest[1..]|
        ensures left.rest[1..][i].kind == if i == |left.rest[1..]| - 1 then LAST else MIDDLE
      {
        assert left.rest[1..][i] == left.rest[i + 1];
      }
    }
  }

  // The position p is in front of what is left, and nothing at or past it has been overlooked.
  ghost predicate InFront(l: Log, p: nat, left: Left) {
    && Shape(left)
    && Chained(p, left.All())
    && (forall f :: f in left.All() ==> f in l.all)
    && (forall f :: f in l.all && f.start >= p ==> f in left.All())
    && |l.file| <= Ending(p, left.All())
  }

  lemma InFrontOfTail(l: Log, p: nat, left: Left)
    requires InFront(l, p, left) && left.All() != []
    ensures Shape(left) && left.Ready() && left.Head().start == p + Pad(p) && Fits(left.Head()) && left.Head() in l.all
    ensures FULL <= left.Head().kind <= LAST
    ensures InFront(l, left.Head().End(), left.Tail())
    ensures forall f :: f in l.all && p <= f.start < left.Head().End() ==> f == left.Head()
  {
    TailIsLeft(left);
    var f, tail := left.Head(), left.Tail();
    assert left.All()[0] == f && left.All()[1..] == tail.All();
    ChainedFits(f.End(), tail.All());
    assert Ending(f.End(), tail.All()) == Ending(p, left.All());
  }

  lemma MeetsBlock(p: nat, f: Fragment, b: nat)
    requires f.start == p + Pad(p) && Fits(f) && p <= b && b % BLOCK_SIZE == 0
    ensures f.start < b ==> f.End() <= b
    ensures f.start >= b ==> f.start == b == b + Pad(b)
  {
  }

  // Nothing lies between p and b but trailer.
  lemma InFrontOfBlock(l: Log, p: nat, left: Left, b: nat)
    requires InFront(l, p, left) && p <= b && b % BLOCK_SIZE == 0
    requires left.All() != [] ==> left.All()[0].start >= b
    ensures InFront(l, b, left)
  {
    if left.All() != [] {
      MeetsBlock(p, left.All()[0], b);
    }
  }

  lemma HeadLost(l: Log, left: Left)
    requires Shape(left) && left.Ready() && !Survives(l, left.Head())
    ensures Survivors(l, left.Tail().groups) == Survivors(l, left.groups)
  {
    if left.rest == [] {
      assert left.Head() in left.groups[0];
      assert SurvivingRecord(l, left.groups[0]) == [];
    }
  }

  // Skipping to a block start, when nothing before it survives.
  lemma {:induction false} Skip(l: Log, p: nat, left: Left, b: nat) returns (left': Left)
    requires InFront(l, p, left) && p <= b && b % BLOCK_SIZE == 0
    requires forall f :: f in l.all && p <= f.start < b ==> !Survives(l, f)
    ensures InFront(l, b, left') && |left'.All()| <= |left.All()|
    ensures Survivors(l, left'.groups) == Survivors(l, left.groups)
    decreases |left.All()|
  {
    hide InFront;
    hide Survives;
    hide Pad;
    hide Fits;
    hide Shape;
    if left.All() == [] {
      left' := left;
      InFrontOfBlock(l, p, left, b);
    } else {
      InFrontOfTail(l, p, left);
      TailIsLeft(left);
      var f := left.Head();
      assert left.All()[0] == f;
      MeetsBlock(p, f, b);
      if f.start < b {
        left' := Skip(l, f.End(), left.Tail(), b);
        HeadLost(l, left);
      } else {
        left' := left;
        InFrontOfBlock(l, p, left, b);
      }
    }
  }

  // ----- What reading comes to -----

  // The record under way, if the reader holds its beginning, then the others.
  ghost function Owed(l: Log, a: Assembly, left: Left): seq<Record> {
    (if a.inFragment && AllSurvive(l, left.rest) then [Record(a.start, a.scratch + Payload(left.rest))] else [])
      + Survivors(l, left.groups)
  }

  // The reader holds the beginning of a record only while some of it is left.
  ghost predicate InStep(a: Assembly, left: Left) {
    (a.inFragment ==> left.rest != []) && (a.resyncing ==> !a.inFragment)
  }

  lemma FeedSurvivor(l: Log, left: Left, a: Assembly, p: nat)
    requires Shape(left) && left.Ready() && InStep(a, left) && Survives(l, left.Head())
    ensures var f := left.Head();
            var (a', o) := Feed(l.init, a, Piece(f.kind, f.payload, f.start), p);
            InStep(a', left.Tail()) && Owed(l, a, left) == o.records + Owed(l, a', left.Tail())
  {
    hide Survives;
    hide Report;
    var f, tail := left.Head(), left.Tail();
    var (a', o) := Feed(l.init, a, Piece(f.kind, f.payload, f.start), p);
    if left.rest == [] {
      var g := left.groups[0];
      assert g in left.groups && WellKinded(g);
      assert g == [f] + tail.rest;
      assert AllSurvive(l, g) <==> AllSurvive(l, tail.rest);
      assert Payload(g) == f.payload + Payload(tail.rest);
      NothingAppended(f.payload);
      assert Survivors(l, left.groups) == SurvivingRecord(l, g) + Survivors(l, tail.groups);
      NothingAppended(Survivors(l, left.groups));
    } else {
      assert left.rest == [f] + tail.rest;
      assert AllSurvive(l, left.rest) <==> AllSurvive(l, tail.rest);
      assert Payload(left.rest) == f.payload + Payload(tail.rest);
      Associate(a.scratch, f.payload, Payload(tail.rest));
      if |left.rest| == 1 {
        assert f.kind == LAST && tail.rest == [];
        NothingAppended(f.payload);
      } else {
        assert f.kind == MIDDLE && tail.rest != [];
      }
      NothingAppended(Owed(l, a', tail));
      NothingAppended(Survivors(l, tail.groups));
    }
  }

  lemma LostIsNotOwed(l: Log, left: Left, a: Assembly)
    requires Shape(left) && left.Ready() && InStep(a, left) && !Survives(l, left.Head())
    ensures Owed(l, a, left) == Survivors(l, left.groups) == Owed(l, Idle(false), left.Tail())
  {
    hide Survives;
    HeadLost(l, left);
    if left.rest != [] {
      assert left.Head() in left.rest;
      assert !AllSurvive(l, left.rest);
    }
  }

  lemma {:induction false} NoSurvivors(l: Log, groups: seq<seq<Fragment>>)
    requires forall g :: g in groups ==> g != []
    requires forall f :: f in Flatten(groups) ==> !Survives(l, f)
    ensures Survivors(l, groups) == []
  {
    hide Survives;
    if groups != [] {
      assert groups[0] in groups && groups[0][0] in Flatten(groups);
      assert !AllSurvive(l, groups[0]) by {
        assert groups[0][0] in groups[0];
      }
      assert forall g :: g in groups[1..] ==> g in groups;
      NoSurvivors(l, groups[1..]);
    }
  }

  lemma NothingOwed(l: Log, left: Left, a: Assembly)
    requires Shape(left) && InStep(a, left)
    requires forall f :: f in left.All() ==> !Survives(l, f)
    ensures Owed(l, a, left) == []
  {
    hide Survives;
    NoSurvivors(l, left.groups);
    if left.rest != [] {
      assert left.rest[0] in left.rest && left.rest[0] in left.All();
    }
  }

  // Everything read so far of the block the next fragment starts in is intact.
  ghost predicate PriorIntact(l: Log, p: nat) {
    forall g :: g in l.all && g.start < p && BlockEnd(g.start) == BlockEnd(p + Pad(p)) ==> Intact(l, g)
  }

  lemma PriorThrough(l: Log, p: nat, f: Fragment)
    requires PriorIntact(l, p) && f.start == p + Pad(p) && Fits(f) && Intact(l, f)
    requires forall g :: g in l.all && p <= g.start < f.End() ==> g == f
    ensures PriorIntact(l, f.End())
    ensures f.start >= l.init <==> Survives(l, f)
  {
    hide Intact;
    BlockEndsGrow(f);
    assert f.End() > f.start >= p;
    hide Fragment.End;
    hide Fits;
    hide BlockEnd;
    hide Pad;
  }

  // What is in front of a fragment and in the block of what is behind it is in its own.
  lemma BlockEndsGrow(f: Fragment)
    ensures var next := f.End() + Pad(f.End());
      forall q: nat {:trigger BlockEnd(q)} ::
        q <= f.start && BlockEnd(q) == BlockEnd(next) ==> BlockEnd(q) == BlockEnd(f.start)
  {
  }

  lemma PriorAtBlock(l: Log, b: nat)
    requires b % BLOCK_SIZE == 0
    ensures PriorIntact(l, b)
  {
    forall g | g in l.all && g.start < b
      ensures BlockEnd(g.start) <= b
    {
    }
  }

  lemma SameBlockLost(l: Log, f: Fragment, g: Fragment)
    requires f in l.all && !Intact(l, f) && f.start <= g.start < BlockEnd(f.start)
    ensures !Survives(l, g)
  {
    assert BlockEnd(g.start) == BlockEnd(f.start);
  }

  lemma BeyondFileLost(l: Log, g: Fragment)
    requires g in l.all && g.start >= |l.file|
    ensures !Survives(l, g)
  {
    assert !Intact(l, g);
  }

  lemma RestOfBlockLost(l: Log, p: nat, left: Left)
    requires InFront(l, p, left) && left.Ready() && !Intact(l, left.Head())
    ensures left.Head().start >= p && left.Head() in l.all
    ensures forall g :: g in l.all && p <= g.start < BlockEnd(left.Head().start) ==> !Survives(l, g)
    ensures |l.file| < BlockEnd(left.Head().start) ==> forall g :: g in l.all && p <= g.start ==> !Survives(l, g)
  {
    hide Pad;
    hide Survives;
    hide Intact;
    InFrontOfTail(l, p, left);
    hide InFront;
    hide Fits;
    var f := left.Head();
    forall g | g in l.all && p <= g.start
      ensures g.start < BlockEnd(f.start) || |l.file| < BlockEnd(f.start) ==> !Survives(l, g)
    {
      if g.start < BlockEnd(f.start) {
        SameBlockLost(l, f, g);
      } else if |l.file| < BlockEnd(f.start) {
        BeyondFileLost(l, g);
      }
    }
  }

  lemma NothingIsEmpty(left: Left)
    requires Shape(left)
    ensures left.All() == [] ==> left.rest == [] && left.groups == []
  {
    if left.groups != [] {
      assert left.groups[0] in left.groups;
    }
  }

  lemma EndOfFile(l: Log, p: nat)
    requires |l.file| <= p || (|l.file| == p && p < BlockEnd(p))
    ensures NextToken(l.crc, l.file, l.init, p).0.Eof?
  {
  }

  // Of what is left in front of the reader, exactly the records that lost no
  // fragment are read, in order.
  lemma {:induction false} Reads(l: Log, p: nat, left: Left, a: Assembly)
    requires Trusty(l) && InFront(l, p, left) && PriorIntact(l, p) && InStep(a, left)
    ensures ReadLog(l.crc, l.file, l.init, p, a).records == Owed(l, a, left)
    decreases |left.All()|
  {
    hide NextToken;
    hide InFront;
    hide Shape;
    hide Survives;
    hide Intact;
    hide Accepted;
    hide PriorIntact;
    hide Survivors;
    hide Report;
    if left.All() == [] {
      AtTheEnd(l, p, left, a);
    } else {
      InFrontOfTail(l, p, left);
      TailIsLeft(left);
      var f := left.Head();
      var (t, p') := NextToken(l.crc, l.file, l.init, p);
      if Accepted(l, f) {
        AcceptedToken(l, p, f);
        PriorThrough(l, p, f);
        var (a', o) := Feed(l.init, a, t, p');
        if f.start < l.init {
          LostIsNotOwed(l, left, a);
        } else {
          FeedSurvivor(l, left, a, p');
        }
        Reads(l, p', left.Tail(), a');
      } else {
        RejectedIsLost(l, p, left, a);
        if t.Bad? {
          var b := BlockEnd(f.start);
          if b <= |l.file| {
            FitsInBlock(f);
            var left' := Skip(l, f.End(), left.Tail(), b);
            PriorAtBlock(l, b);
            LostIsNotOwed(l, left, a);
            Reads(l, b, left', Idle(false));
          } else {
            EndOfFile(l, p');
          }
        }
      }
    }
  }

  lemma AtTheEnd(l: Log, p: nat, left: Left, a: Assembly)
    requires InFront(l, p, left) && InStep(a, left) && left.All() == []
    ensures NextToken(l.crc, l.file, l.init, p).0.Eof? && Owed(l, a, left) == []
  {
    NothingIsEmpty(left);
    EndOfFile(l, p);
  }

  lemma RejectedIsLost(l: Log, p: nat, left: Left, a: Assembly)
    requires InFront(l, p, left) && left.Ready() && InStep(a, left)
    requires var f := left.Head(); f.start == p + Pad(p) && Fits(f) && FULL <= f.kind <= LAST && !Accepted(l, f)
    ensures !Survives(l, left.Head())
    ensures forall g :: g in l.all && p <= g.start < BlockEnd(left.Head().start) ==> !Survives(l, g)
    ensures |l.file| < BlockEnd(left.Head().start) ==> Owed(l, a, left) == []
    ensures var (t, p') := NextToken(l.crc, l.file, l.init, p);
            && (t.Eof? || (t.Bad? && p' == Limit(l.file, left.Head().start)))
            && (t.Eof? ==> |l.file| < BlockEnd(left.Head().start))
  {
    hide NextToken;
    hide Survives;
    var f := left.Head();
    RejectedToken(l, p, f);
    if Intact(l, f) {
      AcceptedToken(l, p, f);
    }
    hide Intact;
    RestOfBlockLost(l, p, left);
    ChainedFits(p, left.All());
    if |l.file| < BlockEnd(f.start) {
      NothingOwed(l, left, a);
    }
  }

  // ----- The log as it was written -----

  function Written(crc: Checksum, records: seq<seq<Byte>>, file: seq<Byte>, init: nat): Log {
    Log(crc, file, Flatten(Layout(0, records)), init)
  }

  lemma {:induction false} LayoutIsWellKinded(off: nat, records: seq<seq<Byte>>)
    ensures forall g :: g in Layout(off, records) ==> WellKinded(g)
    ensures forall i :: 0 <= i < |records| ==> Payload(Layout(off, records)[i]) == records[i]
    decreases |records|
  {
    if records != [] {
      var fs := Split(off, records[0], true);
      SplitIsWellKinded(off, records[0]);
      LayoutIsWellKinded(fs[|fs| - 1].End(), records[1..]);
    }
  }

  lemma WrittenIsInFront(crc: Checksum, records: seq<seq<Byte>>, file: seq<Byte>, init: nat)
    requires |file| <= |LogBytes(crc, records)|
    ensures InFront(Written(crc, records, file, init), 0, Left([], Layout(0, records)))
  {
    var l, left := Written(crc, records, file, init), Left([], Layout(0, records));
    LayoutIsChained(0, records);
    LayoutIsWellKinded(0, records);
    BytesLength(crc, 0, l.all);
    NothingAppended(l.all);
    assert left.All() == l.all;
  }

  lemma InitialBlockIsNear(init: nat)
    ensures InitialBlock(init) % BLOCK_SIZE == 0
    ensures forall f: Fragment :: Fits(f) && f.start < InitialBlock(init) ==> f.start < init
  {
    forall f: Fragment | Fits(f) && f.start < InitialBlock(init)
      ensures f.start < init
    {
      var b := InitialBlock(init);
      assert b > init ==> f.start / BLOCK_SIZE < b / BLOCK_SIZE;
    }
  }

  // The main result. Of a log cut short anywhere and damaged in place, read
  // from any offset, exactly the records that lost no fragment come back.
  lemma RecoversSurvivors(crc: Checksum, records: seq<seq<Byte>>, file: seq<Byte>, init: nat)
    requires |file| <= |LogBytes(crc, records)|
    requires Ideal(Written(crc, records, file, init))
    ensures ReadLog(crc, file, init, InitialBlock(init), Idle(init > 0)).records
         == Survivors(Written(crc, records, file, init), Layout(0, records))
  {
    hide *;
    IdealIsTrusty(Written(crc, records, file, init));
    RecoversTrusted(crc, records, file, init);
  }

  lemma RecoversTrusted(crc: Checksum, records: seq<seq<Byte>>, file: seq<Byte>, init: nat)
    requires |file| <= |LogBytes(crc, records)|
    requires Trusty(Written(crc, records, file, init))
    ensures ReadLog(crc, file, init, InitialBlock(init), Idle(init > 0)).records
         == Survivors(Written(crc, records, file, init), Layout(0, records))
  {
    hide ReadLog;
    hide Survivors;
    hide InFront;
    hide LogBytes;
    hide Trusty;
    var l, left, b := Written(crc, records, file, init), Left([], Layout(0, records)), InitialBlock(init);
    WrittenIsInFront(crc, records, file, init);
    InitialBlockIsNear(init);
    LayoutIsChained(0, records);
    ChainedFits(0, l.all);
    var left' := Skip(l, 0, left, b);
    PriorAtBlock(l, b);
    Reads(l, b, left', Idle(init > 0));
  }

  // ----- Logs that were only cut short -----

  function Torn(crc: Checksum, records: seq<seq<Byte>>, n: nat, init: nat): Log
    requires n <= |LogBytes(crc, records)|
  {
    Written(crc, records, LogBytes(crc, records)[..n], init)
  }

  lemma {:induction false} ChainOrder(off: nat, fs: seq<Fragment>, f: Fragment, g: Fragment)
    requires Chained(off, fs) && f in fs && g in fs && g.start <= f.start
    ensures g == f || g.End() <= f.start
    decreases |fs|
  {
    ChainedFits(fs[0].End(), fs[1..]);
    if f in fs[1..] && g in fs[1..] {
      ChainOrder(fs[0].End(), fs[1..], f, g);
    }
  }

  lemma SameHeader(crc: Checksum, kind: Byte, payload: seq<Byte>, block: seq<Byte>)
    requires |payload| < 0x1_0000 && |block| >= HEADER_SIZE
    requires block <= PhysicalRecord(crc, kind, payload)
    ensures LengthAt(block) == |payload|
  {
    hide EncodeFixed;
    var phys := PhysicalRecord(crc, kind, payload);
    assert block[4] == phys[4] && block[5] == phys[5];
  }

  // In a log cut short at n, what ends by n is intact, and what does not is at the end of the file.
  lemma TornFragment(crc: Checksum, records: seq<seq<Byte>>, n: nat, init: nat, f: Fragment)
    requires n <= |LogBytes(crc, records)| && f in Torn(crc, records, n, init).all
    ensures var l := Torn(crc, records, n, init);
            && Fits(f)
            && (Intact(l, f) <==> f.End() <= n)
            && (f.End() > n ==> !Accepted(l, f))
            && (f.End() > n && f.start + HEADER_SIZE <= Limit(l.file, f.start) ==>
                  BlockEnd(f.start) > n && LengthAt(l.file[f.start..Limit(l.file, f.start)]) == |f.payload|)
  {
    hide PhysicalRecord;
    var w, l := LogBytes(crc, records), Torn(crc, records, n, init);
    LayoutIsChained(0, records);
    ChainedFits(0, l.all);
    BytesAt(crc, [], l.all, f);
    NothingAppended(w);
    hide LogBytes;
    hide Bytes;
    hide Layout;
    hide Flatten;
    hide Chained;
    FitsInBlock(f);
    var phys := PhysicalRecord(crc, f.kind, f.payload);
    assert w[f.start..f.End()] == phys;
    if f.End() <= n {
      SliceOfPrefix(w, n, f.start, f.End());
    } else if f.start + HEADER_SIZE <= n {
      var block := l.file[f.start..n];
      SliceOfPrefix(w, n, f.start, n);
      PrefixOfSlice(w, f.start, n, f.End());
      SameHeader(crc, f.kind, f.payload, block);
    }
  }

  // The records that start at or after init and end by n.
  function Between(groups: seq<seq<Fragment>>, init: nat, n: nat): seq<Record> {
    if groups == [] then []
    else
      (if groups[0] != [] && groups[0][0].start >= init && Ending(0, groups[0]) <= n
       then [Record(groups[0][0].start, Payload(groups[0]))] else [])
      + Between(groups[1..], init, n)
  }

  lemma TornSurvivor(crc: Checksum, records: seq<seq<Byte>>, n: nat, init: nat, f: Fragment)
    requires n <= |LogBytes(crc, records)| && f in Torn(crc, records, n, init).all
    ensures Survives(Torn(crc, records, n, init), f) <==> f.start >= init && f.End() <= n
  {
    var l := Torn(crc, records, n, init);
    LayoutIsChained(0, records);
    forall g | g in l.all && g.start <= f.start
      ensures f.End() <= n ==> Intact(l, g)
    {
      TornFragment(crc, records, n, init, g);
      ChainOrder(0, l.all, f, g);
    }
    TornFragment(crc, records, n, init, f);
  }

  lemma {:induction false} WithinChain(off: nat, fs: seq<Fragment>)
    requires Chained(off, fs) && fs != []
    ensures forall f :: f in fs ==> fs[0].start <= f.start && f.End() <= Ending(0, fs)
    decreases |fs|
  {
    if |fs| > 1 {
      WithinChain(fs[0].End(), fs[1..]);
      assert Ending(0, fs[1..]) == Ending(0, fs);
      assert fs[1].start >= fs[0].End();
    }
  }

  lemma {:induction false} TornSurvivors(crc: Checksum, records: seq<seq<Byte>>, n: nat, init: nat, off: nat,
                                         groups: seq<seq<Fragment>>)
    requires n <= |LogBytes(crc, records)|
    requires Chained(off, Flatten(groups)) && forall f :: f in Flatten(groups) ==> f in Torn(crc, records, n, init).all
    ensures Survivors(Torn(crc, records, n, init), groups) == Between(groups, init, n)
    decreases |groups|
  {
    hide Survives;
    hide LogBytes;
    if groups != [] {
      var l, g := Torn(crc, records, n, init), groups[0];
      ChainedAppend(off, g, Flatten(groups[1..]));
      TornSurvivors(crc, records, n, init, Ending(off, g), groups[1..]);
      forall f | f in g
        ensures Survives(l, f) <==> f.start >= init && f.End() <= n
      {
        assert f in Flatten(groups);
        TornSurvivor(crc, records, n, init, f);
      }
      if g != [] {
        WithinChain(off, g);
        assert g[0] in g && g[|g| - 1] in g;
      }
    }
  }

  // A log cut short anywhere, read from any offset: the records that start at
  // or after the offset and whose last fragment is all there.
  lemma RecoversBetween(crc: Checksum, records: seq<seq<Byte>>, n: nat, init: nat)
    requires n <= |LogBytes(crc, records)|
    ensures ReadLog(crc, LogBytes(crc, records)[..n], init, InitialBlock(init), Idle(init > 0)).records
         == Between(Layout(0, records), init, n)
  {
    hide Survives;
    hide LogBytes;
    hide ReadLog;
    hide Accepted;
    var l := Torn(crc, records, n, init);
    forall f | f in l.all && Accepted(l, f)
      ensures Intact(l, f)
    {
      TornFragment(crc, records, n, init, f);
    }
    RecoversTrusted(crc, records, l.file, init);
    LayoutIsChained(0, records);
    TornSurvivors(crc, records, n, init, 0, Layout(0, records));
  }

  // ----- Nothing is reported of a log that was only cut short -----

  ghost predicate Holding(a: Assembly, left: Left) {
    !a.resyncing && (a.inFragment <==> left.rest != [])
  }

  lemma FeedQuietly(left: Left, a: Assembly, init: nat, p: nat)
    requires Shape(left) && left.Ready() && Holding(a, left)
    ensures var f := left.Head();
            var (a', o) := Feed(init, a, Piece(f.kind, f.payload, f.start), p);
            Holding(a', left.Tail()) && o.reports == []
  {
    if left.rest == [] {
      assert left.groups[0] in left.groups;
    }
  }

  lemma TornToken(crc: Checksum, records: seq<seq<Byte>>, n: nat, p: nat, f: Fragment)
    requires n <= |LogBytes(crc, records)| && f in Torn(crc, records, n, 0).all
    requires f.start == p + Pad(p) && FULL <= f.kind <= LAST
    ensures var l := Torn(crc, records, n, 0);
            var (t, p') := NextToken(crc, l.file, 0, p);
            t.Eof? || (t, p') == (Piece(f.kind, f.payload, f.start), f.End())
  {
    hide LogBytes;
    hide NextToken;
    var l := Torn(crc, records, n, 0);
    TornFragment(crc, records, n, 0, f);
    if f.End() <= n {
      AcceptedToken(l, p, f);
    } else {
      TokenAt(l, p, f);
      FitsInBlock(f);
    }
  }

  lemma {:induction false} ReadsQuietly(crc: Checksum, records: seq<seq<Byte>>, n: nat, p: nat, left: Left, a: Assembly)
    requires n <= |LogBytes(crc, records)|
    requires InFront(Torn(crc, records, n, 0), p, left) && Holding(a, left)
    ensures ReadLog(crc, LogBytes(crc, records)[..n], 0, p, a).reports == []
    decreases |left.All()|
  {
    hide LogBytes;
    hide NextToken;
    hide InFront;
    hide Shape;
    hide Torn;
    hide Report;
    var l := Torn(crc, records, n, 0);
    TornIs(crc, records, n, 0);
    if left.All() == [] {
      AtTheEnd(l, p, left, a);
    } else {
      InFrontOfTail(l, p, left);
      TailIsLeft(left);
      TornToken(crc, records, n, p, left.Head());
      var (t, p') := NextToken(crc, l.file, 0, p);
      if !t.Eof? {
        FeedQuietly(left, a, 0, p');
        ReadsQuietly(crc, records, n, p', left.Tail(), Feed(0, a, t, p').0);
      }
    }
  }

  lemma TornIs(crc: Checksum, records: seq<seq<Byte>>, n: nat, init: nat)
    requires n <= |LogBytes(crc, records)|
    ensures var l := Torn(crc, records, n, init);
      l.file == LogBytes(crc, records)[..n] && l.crc == crc && l.init == init
  {
  }

  // A torn tail is no corruption: the complete records come back and nothing is reported.
  lemma TornTail(crc: Checksum, records: seq<seq<Byte>>, n: nat)
    requires n <= |LogBytes(crc, records)|
    ensures ReadLog(crc, LogBytes(crc, records)[..n], 0, 0, Idle(false))
         == Outcome(Between(Layout(0, records), 0, n), [])
  {
    hide ReadLog;
    hide LogBytes;
    RecoversBetween(crc, records, n, 0);
    WrittenIsInFront(crc, records, LogBytes(crc, records)[..n], 0);
    ReadsQuietly(crc, records, n, 0, Left([], Layout(0, records)), Idle(false));
  }

  // The records as they were written, each with the offset of its first fragment.
  function Originals(off: nat, records: seq<seq<Byte>>): (rs: seq<Record>)
    ensures |rs| == |records| && forall i :: 0 <= i < |rs| ==> rs[i].data == records[i]
    decreases |records|
  {
    if records == [] then []
    else
      var g := Split(off, records[0], true);
      [Record(g[0].start, records[0])] + Originals(Ending(off, g), records[1..])
  }

  lemma LayoutUnfold(off: nat, records: seq<seq<Byte>>)
    requires records != []
    ensures var g := Split(off, records[0], true);
            var rest := Layout(Ending(off, g), records[1..]);
            && g != [] && Payload(g) == records[0]
            && Layout(off, records) == [g] + rest
            && Layout(off, records)[0] == g && Layout(off, records)[1..] == rest
            && Flatten(Layout(off, records)) == g + Flatten(rest)
  {
    SplitIsWellKinded(off, records[0]);
  }

  lemma {:induction false} AllBetween(off: nat, records: seq<seq<Byte>>, n: nat)
    requires Ending(off, Flatten(Layout(off, records))) <= n
    ensures Between(Layout(off, records), 0, n) == Originals(off, records)
    decreases |records|
  {
    hide Split;
    hide Layout;
    hide Flatten;
    if records == [] {
      LayoutOfNone(off);
    } else {
      LayoutUnfold(off, records);
      var g := Split(off, records[0], true);
      var end := Ending(off, g);
      var rest := Layout(end, records[1..]);
      LayoutIsChained(end, records[1..]);
      EndingGrows(end, Flatten(rest));
      EndingOfSum(off, g, Flatten(rest));
      AllBetween(end, records[1..], n);
    }
  }

  lemma LayoutOfNone(off: nat)
    ensures Layout(off, []) == []
  {
  }

  lemma EndingOfSum(off: nat, a: seq<Fragment>, b: seq<Fragment>)
    ensures Ending(off, a + b) == Ending(Ending(off, a), b)
  {
  }

  lemma {:induction false} EndingGrows(off: nat, fs: seq<Fragment>)
    requires Chained(off, fs)
    ensures Ending(off, fs) >= off
    decreases |fs|
  {
    if fs != [] {
      EndingGrows(fs[0].End(), fs[1..]);
      assert Ending(fs[0].End(), fs[1..]) == Ending(off, fs);
    }
  }

  // Round trip: what was appended comes back, whatever its length, with no report.
  lemma RoundTrip(crc: Checksum, records: seq<seq<Byte>>)
    ensures var o := ReadLog(crc, LogBytes(crc, records), 0, 0, Idle(false));
            o == Outcome(Originals(0, records), [])
  {
    hide ReadLog;
    var w := LogBytes(crc, records);
    LayoutIsChained(0, records);
    BytesLength(crc, 0, Flatten(Layout(0, records)));
    hide LogBytes;
    assert w[..|w|] == w;
    TornTail(crc, records, |w|);
    AllBetween(0, records, |w|);
  }

  // ----- Damage in place -----

  // The records that lost no fragment, as they were written: in each block such
  // a record touches, every fragment up to its own is unharmed.
  ghost function Unharmed(l: Log, off: nat, records: seq<seq<Byte>>): seq<Record>
    decreases |records|
  {
    if records == [] then []
    else
      var g := Split(off, records[0], true);
      (if AllSurvive(l, g) then [Record(g[0].start, records[0])] else []) + Unharmed(l, Ending(off, g), records[1..])
  }

  lemma {:induction false} SurvivorsAreUnharmed(l: Log, off: nat, records: seq<seq<Byte>>)
    ensures Survivors(l, Layout(off, records)) == Unharmed(l, off, records)
    decreases |records|
  {
    hide AllSurvive;
    hide Split;
    hide Layout;
    if records == [] {
      LayoutOfNone(off);
    } else {
      LayoutUnfold(off, records);
      SurvivorsAreUnharmed(l, Ending(off, Split(off, records[0], true)), records[1..]);
    }
  }

  // Damage in place never splices, reorders or invents records: the ones that
  // come back are exactly the unharmed ones, with their bytes and offsets.
  lemma DamageLosesOnlyHarmed(crc: Checksum, records: seq<seq<Byte>>, file: seq<Byte>)
    requires |file| == |LogBytes(crc, records)| && Ideal(Written(crc, records, file, 0))
    ensures ReadLog(crc, file, 0, 0, Idle(false)).records == Unharmed(Written(crc, records, file, 0), 0, records)
  {
    hide ReadLog;
    hide LogBytes;
    hide Ideal;
    RecoversSurvivors(crc, records, file, 0);
    SurvivorsAreUnharmed(Written(crc, records, file, 0), 0, records);
  }

  // ----- The reading loop -----

  method ReadAll(reader: Reader) returns (records: seq<Record>)
    requires reader.Valid() && reader.Fresh() && reader.lastRecordOffset == 0
    requires reader.resyncing == (reader.initialOffset > 0) && reader.reports == []
    modifies reader, reader.file
    ensures Outcome(records, reader.reports)
         == ReadLog(reader.crc, reader.file.contents, reader.initialOffset, InitialBlock(reader.initialOffset),
                    Idle(reader.initialOffset > 0))
  {
    hide ReadLog;
    hide reader.Valid;
    ghost var goal := reader.Ahead();
    records := [];
    while true
      invariant reader.Valid() && (reader.lastRecordOffset < reader.initialOffset ==> reader.Fresh())
      invariant records + reader.Ahead().records == goal.records
      invariant reader.reports + reader.Ahead().reports == goal.reports
      decreases |reader.Ahead().records|
    {
      ghost var ahead := reader.Ahead();
      var ok, record := reader.ReadRecord();
      if !ok {
        break;
      }
      Associate(records, [Record(reader.lastRecordOffset, record)], reader.Ahead().records);
      records := records + [Record(reader.lastRecordOffset, record)];
    }
  }
}
