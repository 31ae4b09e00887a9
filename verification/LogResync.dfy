// Undamaged logs that are not read from their start, or that a second writer went on
// with: which reports are made although nothing is wrong with what is read.
module LogResync {
  import opened Basics
  import opened LogDamage
  import opened LogFormat
  import opened LogReader
  import opened LogRecovery
  import opened Sequences

  ghost predicate Undamaged(l: Log) {
    forall f :: f in l.all ==> Intact(l, f)
  }

  // ----- Reading from an offset -----

  // The next token of an undamaged log.
  lemma UndamagedToken(l: Log, p: nat, left: Left)
    requires Undamaged(l) && InFront(l, p, left) && left.All() != []
    ensures left.Ready() && left.Head().start >= p
    ensures var f := left.Head();
      NextToken(l.crc, l.file, l.init, p)
      == (if f.start < l.init then Bad(None) else Piece(f.kind, f.payload, f.start), f.End())
    ensures InFront(l, left.Head().End(), left.Tail()) && |left.Tail().All()| < |left.All()|
    ensures left.All() == [left.Head()] + left.Tail().All() && Shape(left) && Shape(left.Tail())
    ensures left.Head() in l.all && Fits(left.Head())
  {
    hide NextToken;
    hide PhysicalRecord;
    InFrontOfTail(l, p, left);
    TailIsLeft(left);
    assert Intact(l, left.Head());
    AcceptedToken(l, p, left.Head());
  }

  // All that is left starts at or after the initial offset.
  ghost predicate Ahead(l: Log, left: Left) {
    forall f :: f in left.All() ==> f.start >= l.init
  }

  // With whole records in front of the reader nothing is reported.
  lemma {:induction false} ReadsWhole(l: Log, p: nat, left: Left, a: Assembly)
    requires Undamaged(l) && InFront(l, p, left) && Ahead(l, left) && Holding(a, left)
    ensures ReadLog(l.crc, l.file, l.init, p, a).reports == []
    decreases |left.All()|
  {
    hide *;
    ReportsUnfold(l, p, a);
    if left.All() == [] {
      EndIsMet(l, p, left);
    } else {
      UndamagedToken(l, p, left);
      AheadUnfold(l, left);
      var (t, p') := NextToken(l.crc, l.file, l.init, p);
      FeedQuietly(left, a, l.init, p');
      var a' := Feed(l.init, a, t, p').0;
      ReadsWhole(l, p', left.Tail(), a');
      PieceDropsNothing(l.init, t, p', ReadLog(l.crc, l.file, l.init, p', a').reports);
    }
  }

  lemma AheadUnfold(l: Log, left: Left)
    requires left.Ready() && left.All() == [left.Head()] + left.Tail().All() && Ahead(l, left)
    ensures left.Head().start >= l.init && Ahead(l, left.Tail())
  {
    assert forall f :: f in left.Tail().All() ==> f in left.All();
    assert left.All()[0] == left.Head();
  }

  // The rest of a record is passed over in silence as long as none was passed over
  // before for its start.
  lemma {:induction false} ReadsResyncing(l: Log, p: nat, left: Left)
    requires Undamaged(l) && InFront(l, p, left) && Ahead(l, left)
    ensures ReadLog(l.crc, l.file, l.init, p, Idle(true)).reports == []
    decreases |left.All()|
  {
    hide *;
    ReportsUnfold(l, p, Idle(true));
    if left.All() == [] {
      EndIsMet(l, p, left);
    } else {
      UndamagedToken(l, p, left);
      AheadUnfold(l, left);
      var (t, p') := NextToken(l.crc, l.file, l.init, p);
      FeedResyncing(left, l.init, p');
      var a' := Feed(l.init, Idle(true), t, p').0;
      if a'.resyncing {
        ReadsResyncing(l, p', left.Tail());
      } else {
        ReadsWhole(l, p', left.Tail(), a');
      }
      PieceDropsNothing(l.init, t, p', ReadLog(l.crc, l.file, l.init, p', a').reports);
    }
  }

  lemma FeedResyncing(left: Left, init: nat, p: nat)
    requires Shape(left) && left.Ready()
    ensures var f := left.Head();
      var (a, o) := Feed(init, Idle(true), Piece(f.kind, f.payload, f.start), p);
      o.reports == [] && if a.resyncing then a == Idle(true) else Holding(a, left.Tail())
  {
    if left.rest == [] {
      assert left.groups[0] in left.groups;
    }
  }

  // A fragment that goes on with a record.
  predicate GoesOn(f: Fragment) {
    f.kind == MIDDLE || f.kind == LAST
  }

  lemma FeedOrphan(left: Left, init: nat, p: nat)
    requires Shape(left) && left.Ready() && left.Head().start >= init && p == left.Head().End()
    ensures var f := left.Head();
      var (a, o) := Feed(init, Idle(false), Piece(f.kind, f.payload, f.start), p);
      GoesOn(f) ==> o.reports != []
    ensures !GoesOn(left.Head()) ==> left.rest == []
  {
  }

  // The first of the fragments that start at or after the offset.
  ghost predicate FirstFrom(fs: seq<Fragment>, init: nat, f: Fragment) {
    f in fs && f.start >= init && forall g :: g in fs && g.start >= init ==> g.start >= f.start
  }

  // A fragment was passed over for its start, and the first that was not goes on with
  // its record.
  ghost predicate Orphaned(fs: seq<Fragment>, init: nat, passed: bool) {
    && (passed || exists f :: f in fs && f.start < init)
    && exists f :: FirstFrom(fs, init, f) && GoesOn(f)
  }

  lemma OrphanedHead(p: nat, fs: seq<Fragment>, init: nat, passed: bool)
    requires fs != [] && Chained(p, fs)
    ensures fs[0].start >= init ==> (Orphaned(fs, init, passed) <==> passed && GoesOn(fs[0]))
    ensures fs[0].start >= init ==> forall f :: f in fs ==> f.start >= init
    ensures fs[0].start < init ==> (Orphaned(fs, init, passed) <==> Orphaned(fs[1..], init, true))
  {
    hide GoesOn;
    BehindHead(p, fs);
    hide Chained;
    hide Fragment.End;
    if fs[0].start >= init {
      StartsApart(p, fs);
      assert FirstFrom(fs, init, fs[0]);
    } else {
      forall f
        ensures FirstFrom(fs, init, f) <==> FirstFrom(fs[1..], init, f)
      {
      }
      assert fs[0] in fs;
    }
  }

  lemma StartsApart(p: nat, fs: seq<Fragment>)
    requires fs != [] && Chained(p, fs)
    ensures forall f :: f in fs ==> f == fs[0] || f.start > fs[0].start
  {
    BehindHead(p, fs);
  }

  lemma {:induction false} ReadsPast(l: Log, p: nat, left: Left, passed: bool)
    requires Undamaged(l) && InFront(l, p, left)
    ensures ReadLog(l.crc, l.file, l.init, p, Idle(!passed)).reports == [] <==> !Orphaned(left.All(), l.init, passed)
    decreases |left.All()|
  {
    var a := Idle(!passed);
    hide *;
    ReportsUnfold(l, p, a);
    LeftIsChained(l, p, left);
    if left.All() == [] {
      EndIsMet(l, p, left);
      NoOrphans(l.init, passed);
    } else {
      UndamagedToken(l, p, left);
      var f, tail := left.Head(), left.Tail();
      FirstRest(f, tail.All());
      OrphanedHead(p, left.All(), l.init, passed);
      var (t, p') := NextToken(l.crc, l.file, l.init, p);
      var (a', o) := Feed(l.init, a, t, p');
      var more := ReadLog(l.crc, l.file, l.init, p', a').reports;
      if f.start < l.init {
        FeedPassed(passed, l.init, p');
        ReadsPast(l, p', tail, true);
        PieceDropsNothing(l.init, t, p', more);
      } else {
        AheadIs(l, left);
        if !passed {
          ReadsResyncing(l, p, left);
        } else {
          FeedOrphan(left, l.init, p');
          if GoesOn(f) {
            OrphanShows(Dropped(l.init, t, p'), o.reports, more);
          } else {
            HoldingNothing(left);
            ReadsWhole(l, p, left, a);
          }
        }
      }
    }
  }

  lemma NoOrphans(init: nat, passed: bool)
    ensures !Orphaned([], init, passed)
  {
  }

  lemma FeedPassed(passed: bool, init: nat, p: nat)
    ensures Feed(init, Idle(!passed), Bad(None), p) == (Idle(false), Outcome([], []))
  {
  }

  lemma AheadIs(l: Log, left: Left)
    requires forall f :: f in left.All() ==> f.start >= l.init
    ensures Ahead(l, left)
  {
  }

  lemma OrphanShows(drop: seq<nat>, reports: seq<nat>, more: seq<nat>)
    requires reports != []
    ensures drop + reports + more != []
  {
  }

  lemma HoldingNothing(left: Left)
    requires left.rest == []
    ensures Holding(Idle(false), left)
  {
  }

  // Nothing is wrong with the log, but it is read from an offset. The fragments from
  // the start of the block on that start before the offset are passed over, and that
  // ends the resyncing, so that the rest of a record begun there is reported as
  // having no start. Just then is anything reported.
  lemma ReportsFromOffset(crc: Checksum, records: seq<seq<Byte>>, init: nat)
    requires init > 0
    ensures var all, b := Flatten(Layout(0, records)), InitialBlock(init);
      ReadLog(crc, LogBytes(crc, records), init, b, Idle(true)).reports == []
      <==> !((exists f :: f in all && b <= f.start < init) && exists f :: FirstFrom(all, init, f) && GoesOn(f))
  {
    var l, left := Written(crc, records, LogBytes(crc, records), init), Left([], Layout(0, records));
    var b := InitialBlock(init);
    hide *;
    WholeIsUndamaged(crc, records, init);
    WrittenIsInFront(crc, records, LogBytes(crc, records), init);
    InitialBlockIsNear(init);
    var left' := SkipTo(l, 0, left, b);
    ReadsPast(l, b, left', false);
    OrphanedFrom(l, b, left');
    WrittenMeans(crc, records, init);
  }

  lemma WrittenMeans(crc: Checksum, records: seq<seq<Byte>>, init: nat)
    ensures var l := Written(crc, records, LogBytes(crc, records), init);
      l.crc == crc && l.file == LogBytes(crc, records) && l.init == init && l.all == Flatten(Layout(0, records))
  {
  }

  lemma WholeIsUndamaged(crc: Checksum, records: seq<seq<Byte>>, init: nat)
    ensures Undamaged(Written(crc, records, LogBytes(crc, records), init))
    ensures forall f :: f in Flatten(Layout(0, records)) ==> Fits(f)
  {
    var w, all := LogBytes(crc, records), Flatten(Layout(0, records));
    LayoutIsChained(0, records);
    ChainedFits(0, all);
    NothingAppended(w);
    forall f | f in all
      ensures Intact(Written(crc, records, w, init), f)
    {
      BytesAt(crc, [], all, f);
      assert [] + w == w;
    }
  }

  // Skipping to the start of a block.
  lemma {:induction false} SkipTo(l: Log, p: nat, left: Left, b: nat) returns (left': Left)
    requires InFront(l, p, left) && p <= b && b % BLOCK_SIZE == 0
    ensures InFront(l, b, left')
    decreases |left.All()|
  {
    hide *;
    LeftIsChained(l, p, left);
    if left.All() == [] {
      left' := left;
      InFrontOfBlock(l, p, left, b);
    } else {
      InFrontOfTail(l, p, left);
      TailIsLeft(left);
      var f, tail := left.Head(), left.Tail();
      FirstRest(f, tail.All());
      MeetsBlock(p, f, b);
      if f.start < b {
        left' := SkipTo(l, f.End(), tail, b);
      } else {
        left' := left;
        InFrontOfBlock(l, p, left, b);
      }
    }
  }

  // What is left at the block is what starts there or later.
  lemma OrphanedFrom(l: Log, b: nat, left: Left)
    requires InFront(l, b, left) && forall f :: f in l.all && f.start < b ==> f.start < l.init
    ensures Orphaned(left.All(), l.init, false)
       <==> (exists f :: f in l.all && b <= f.start < l.init) && exists f :: FirstFrom(l.all, l.init, f) && GoesOn(f)
  {
    hide GoesOn;
    LeftIsChained(l, b, left);
    ChainedFits(b, left.All());
    hide Chained;
    hide Shape;
    var all := left.All();
    assert forall f :: f in l.all && f.start >= b <==> f in all;
    hide Left.All;
    forall f
      ensures FirstFrom(l.all, l.init, f) <==> FirstFrom(all, l.init, f)
    {
    }
  }

  // One record over two blocks, read from the second byte on.
  lemma HealthyLogIsReported(crc: Checksum, data: seq<Byte>)
    requires |data| == 40000
    ensures ReadLog(crc, LogBytes(crc, [data]), 1, 0, Idle(true)).reports != []
  {
    var first, last := Fragment(2, 0, data[..32761]), Fragment(4, 32768, data[32761..]);
    SplitUnfold(0, data, true);
    SplitUnfold(32768, data[32761..], false);
    hide Split;
    var all := Flatten(Layout(0, [data]));
    LayoutOfOne(0, data);
    assert all == [first, last];
    assert InitialBlock(1) == 0;
    assert first in all && last in all;
    assert FirstFrom(all, 1, last) && GoesOn(last);
    hide *;
    ReportsFromOffset(crc, [data], 1);
  }

  lemma LayoutOfOne(off: nat, data: seq<Byte>)
    ensures Flatten(Layout(off, [data])) == Split(off, data, true)
  {
    hide Split;
    LayoutUnfold(off, [data]);
    LayoutOfNone(Ending(off, Split(off, data, true)));
    NothingAppended(Split(off, data, true));
    assert [data][1..] == [];
    assert Flatten([]) == [];
  }

  // ----- A second writer -----

  ghost predicate AllIntact(l: Log, fs: seq<Fragment>) {
    forall f :: f in fs ==> Intact(l, f)
  }

  lemma AllIntactUnfold(l: Log, fs: seq<Fragment>)
    requires fs != [] && AllIntact(l, fs)
    ensures Intact(l, fs[0]) && AllIntact(l, fs[1..])
  {
    hide Intact;
  }

  function Reading(l: Log, p: nat, a: Assembly): Outcome {
    ReadLog(l.crc, l.file, 0, p, a)
  }

  lemma AfterTwice(o: Outcome, first: Outcome, second: Outcome)
    ensures o.After(second).After(first) == o.After(second.After(first))
  {
    Associate(first.records, second.records, o.records);
    Associate(first.reports, second.reports, o.reports);
  }

  lemma AfterNothing(o: Outcome, records: seq<Record>, reports: seq<nat>)
    ensures o.After(Outcome([], [])) == o
    ensures Outcome(records, reports).After(Outcome([], [])) == Outcome(records, reports)
    ensures Outcome([], []).After(Outcome(records, reports)) == Outcome(records, reports)
  {
  }

  // Taking one fragment in.
  lemma OneFragmentRead(l: Log, p: nat, f: Fragment, a: Assembly)
    requires l.init == 0 && f.start == p + Pad(p) && Fits(f) && FULL <= f.kind <= LAST && Intact(l, f)
    ensures var (a', o) := Feed(0, a, Piece(f.kind, f.payload, f.start), f.End());
      Reading(l, p, a) == Reading(l, f.End(), a').After(o)
  {
    hide NextToken;
    hide Feed;
    AcceptedToken(l, p, f);
    var (a', o) := Feed(0, a, Piece(f.kind, f.payload, f.start), f.End());
    assert [] + o.reports == o.reports;
  }

  // What is reported of a record that was begun and never finished.
  function Unfinished(a: Assembly): seq<nat> {
    if a.inFragment && a.scratch != [] then [|a.scratch|] else []
  }

  lemma FeedStart(a: Assembly, f: Fragment)
    requires !a.resyncing && (f.kind == FULL || f.kind == FIRST) && |a.scratch| <= f.start
    ensures Feed(0, a, Piece(f.kind, f.payload, f.start), f.End())
         == if f.kind == FULL then (Idle(false), Outcome([Record(f.start, f.payload)], Unfinished(a)))
            else (Assembly(false, true, f.payload, f.start), Outcome([], Unfinished(a)))
  {
  }

  lemma FeedNext(scratch: seq<Byte>, start: nat, f: Fragment)
    requires f.kind == MIDDLE || f.kind == LAST
    ensures var a := Assembly(false, true, scratch, start);
      Feed(0, a, Piece(f.kind, f.payload, f.start), f.End())
      == if f.kind == MIDDLE then (Assembly(false, true, scratch + f.payload, start), Outcome([], []))
         else (Idle(false), Outcome([Record(start, scratch + f.payload)], []))
  {
  }

  // The beginning of a record that is not all there.
  lemma {:induction false} MiddlesRead(l: Log, p: nat, fs: seq<Fragment>, scratch: seq<Byte>, start: nat)
    requires l.init == 0 && Chained(p, fs) && AllIntact(l, fs)
    requires forall f :: f in fs ==> f.kind == MIDDLE
    ensures Reading(l, p, Assembly(false, true, scratch, start))
         == Reading(l, Ending(p, fs), Assembly(false, true, scratch + Payload(fs), start))
    decreases |fs|
  {
    if fs == [] {
      NothingAppended(scratch);
    } else {
      hide Pad;
      hide Fits;
      hide Intact;
      hide Reading;
      hide Feed;
      var f := fs[0];
      AllIntactUnfold(l, fs);
      assert f in fs;
      OneFragmentRead(l, p, f, Assembly(false, true, scratch, start));
      FeedNext(scratch, start, f);
      MiddlesRead(l, f.End(), fs[1..], scratch + f.payload, start);
      Associate(scratch, f.payload, Payload(fs[1..]));
      AfterNothing(Reading(l, f.End(), Assembly(false, true, scratch + f.payload, start)), [], []);
    }
  }

  // The rest of a record.
  lemma {:induction false} RestRead(l: Log, p: nat, fs: seq<Fragment>, scratch: seq<Byte>, start: nat)
    requires l.init == 0 && Chained(p, fs) && AllIntact(l, fs) && Continues(fs) && fs != []
    ensures Reading(l, p, Assembly(false, true, scratch, start))
         == Reading(l, Ending(p, fs), Idle(false)).After(Outcome([Record(start, scratch + Payload(fs))], []))
    decreases |fs|
  {
    hide Pad;
    hide Fits;
    hide Intact;
    hide Reading;
    hide Feed;
    var f := fs[0];
    AllIntactUnfold(l, fs);
    OneFragmentRead(l, p, f, Assembly(false, true, scratch, start));
    FeedNext(scratch, start, f);
    if |fs| == 1 {
      NothingAppended(f.payload);
      assert Payload(fs[1..]) == [];
    } else {
      ContinuesUnfold(fs);
      RestRead(l, f.End(), fs[1..], scratch + f.payload, start);
      Associate(scratch, f.payload, Payload(fs[1..]));
      AfterNothing(Reading(l, f.End(), Assembly(false, true, scratch + f.payload, start)), [], []);
    }
  }

  lemma ContinuesUnfold(fs: seq<Fragment>)
    requires Continues(fs) && |fs| > 1
    ensures fs[0].kind == MIDDLE && Continues(fs[1..]) && Ending(fs[0].End(), fs[1..]) == Ending(0, fs)
  {
    forall i | 0 <= i < |fs[1..]|
      ensures fs[1..][i].kind == if i == |fs[1..]| - 1 then LAST else MIDDLE
    {
      assert fs[1..][i] == fs[i + 1];
    }
  }

  // A whole record, behind one that was begun or not.
  lemma RecordRead(l: Log, p: nat, g: seq<Fragment>, a: Assembly)
    requires l.init == 0 && Chained(p, g) && AllIntact(l, g) && WellKinded(g)
    requires !a.resyncing && |a.scratch| <= p
    ensures Reading(l, p, a)
         == Reading(l, Ending(p, g), Idle(false)).After(Outcome([Record(g[0].start, Payload(g))], Unfinished(a)))
  {
    var f := g[0];
    assert Chained(f.End(), g[1..]) && f.start == p + Pad(p) && Fits(f);
    assert Payload(g) == f.payload + Payload(g[1..]);
    assert g[1..] != [] ==> Ending(f.End(), g[1..]) == Ending(p, g);
    assert g[1..] == [] ==> Payload(g[1..]) == [];
    hide Reading;
    hide Chained;
    hide Pad;
    hide Payload;
    hide Feed;
    hide Intact;
    hide Fits;
    AllIntactUnfold(l, g);
    OneFragmentRead(l, p, f, a);
    FeedStart(a, f);
    if |g| == 1 {
      NothingAppended(f.payload);
    } else {
      RestRead(l, f.End(), g[1..], f.payload, f.start);
      AfterTwice(Reading(l, Ending(p, g), Idle(false)), Outcome([], Unfinished(a)),
                 Outcome([Record(f.start, f.payload + Payload(g[1..]))], []));
      NothingAppended(Unfinished(a));
    }
  }

  // Whole records, the first behind one that was begun or not.
  lemma {:induction false} RecordsRead(l: Log, off: nat, records: seq<seq<Byte>>, a: Assembly)
    requires l.init == 0 && AllIntact(l, Flatten(Layout(off, records))) && !a.resyncing && |a.scratch| <= off
    requires records != []
    ensures Reading(l, off, a) == Reading(l, Ending(off, Flatten(Layout(off, records))), Idle(false))
                                  .After(Outcome(Originals(off, records), Unfinished(a)))
    decreases |records|
  {
    var g := Split(off, records[0], true);
    var end := Ending(off, g);
    var rest := Flatten(Layout(end, records[1..]));
    assert Originals(off, records) == [Record(g[0].start, records[0])] + Originals(end, records[1..]);
    hide *;
    LayoutUnfold(off, records);
    SplitIsChained(off, records[0], true);
    SplitIsWellKinded(off, records[0]);
    AllIntactOfBoth(l, g, rest);
    EndingOfSum(off, g, rest);
    RecordRead(l, off, g, a);
    var first := Outcome([Record(g[0].start, records[0])], Unfinished(a));
    if records[1..] == [] {
      NoneLaidOut(end);
      AfterNothing(Reading(l, end, Idle(false)), [], []);
      NothingAppended(first.records);
    } else {
      IdleHoldsNothing();
      RecordsRead(l, end, records[1..], Idle(false));
      AfterTwice(Reading(l, Ending(end, rest), Idle(false)), first, Outcome(Originals(end, records[1..]), []));
      OneMore(first, Originals(end, records[1..]));
    }
  }

  lemma NoneLaidOut(off: nat)
    ensures Flatten(Layout(off, [])) == [] && Originals(off, []) == [] && Ending(off, []) == off
  {
  }

  lemma IdleHoldsNothing()
    ensures Idle(false).scratch == [] && !Idle(false).resyncing && Unfinished(Idle(false)) == []
  {
  }

  lemma OneMore(first: Outcome, rest: seq<Record>)
    ensures Outcome(rest, []).After(first) == Outcome(first.records + rest, first.reports)
  {
    NothingAppended(first.reports);
  }

  lemma AllIntactOfBoth(l: Log, a: seq<Fragment>, b: seq<Fragment>)
    ensures AllIntact(l, a + b) <==> AllIntact(l, a) && AllIntact(l, b)
  {
    hide Intact;
    assert forall f :: f in a + b <==> f in a || f in b;
  }

  // The file as the first writer left it: whole records, and of one more the first
  // few fragments.
  function LeftBehind(crc: Checksum, records: seq<seq<Byte>>, begun: seq<Byte>, k: nat): seq<Byte>
    requires k <= |Split(|LogBytes(crc, records)|, begun, true)|
  {
    var w := LogBytes(crc, records);
    w + Bytes(crc, |w|, Split(|w|, begun, true)[..k])
  }

  // The same, and what a second writer appended to it.
  function Continued(crc: Checksum, w: seq<Byte>, more: seq<seq<Byte>>): seq<Byte> {
    w + Bytes(crc, |w|, Flatten(Layout(|w|, more)))
  }

  // All of it is a chain of fragments.
  lemma ContinuedIsChain(crc: Checksum, a: seq<Fragment>, b: seq<Fragment>, c: seq<Fragment>, w: seq<Byte>)
    requires Chained(0, a) && Chained(Ending(0, a), b) && Chained(Ending(0, a + b), c)
    requires w == Bytes(crc, 0, a) + Bytes(crc, Ending(0, a), b)
    ensures Chained(0, a + b + c) && |w| == Ending(0, a + b) && |Bytes(crc, 0, a)| == Ending(0, a)
    ensures w + Bytes(crc, |w|, c) == Bytes(crc, 0, a + b + c)
    ensures |Bytes(crc, 0, a + b + c)| == Ending(Ending(0, a + b), c)
  {
    hide *;
    ChainedAppend(0, a, b);
    ChainedAppend(0, a + b, c);
    BytesAppend(crc, 0, a, b);
    BytesLength(crc, 0, a);
    BytesLength(crc, 0, a + b);
    BytesAppend(crc, 0, a + b, c);
    BytesLength(crc, 0, a + b + c);
    EndingOfSum(0, a + b, c);
  }

  lemma ChainIsIntact(crc: Checksum, all: seq<Fragment>)
    requires Chained(0, all)
    ensures AllIntact(Log(crc, Bytes(crc, 0, all), all, 0), all)
  {
    var file := Bytes(crc, 0, all);
    forall f | f in all
      ensures Intact(Log(crc, file, all, 0), f)
    {
      BytesAt(crc, [], all, f);
      assert [] + file == file;
    }
  }

  lemma PrefixChained(off: nat, fs: seq<Fragment>, k: nat)
    requires Chained(off, fs) && k <= |fs|
    ensures Chained(off, fs[..k])
  {
    assert fs == fs[..k] + fs[k..];
    ChainedAppend(off, fs[..k], fs[k..]);
  }

  // The first few of the fragments of a record.
  lemma BegunRead(l: Log, p: nat, g: seq<Fragment>, k: nat)
    requires l.init == 0 && WellKinded(g) && 0 < k < |g| && Chained(p, g[..k]) && AllIntact(l, g[..k])
    ensures Reading(l, p, Idle(false))
         == Reading(l, Ending(p, g[..k]), Assembly(false, true, Payload(g[..k]), g[0].start))
  {
    var fs := g[..k];
    var f := fs[0];
    assert fs[1..] == g[1..][..k - 1];
    assert forall h :: h in fs[1..] ==> h.kind == MIDDLE;
    assert Payload(fs) == f.payload + Payload(fs[1..]);
    assert Ending(f.End(), fs[1..]) == Ending(p, fs);
    assert Chained(f.End(), fs[1..]) && f.start == p + Pad(p) && Fits(f);
    hide *;
    AllIntactUnfold(l, fs);
    OneFragmentRead(l, p, f, Idle(false));
    IdleHoldsNothing();
    FeedStart(Idle(false), f);
    MiddlesRead(l, f.End(), fs[1..], f.payload, f.start);
    AfterNothing(Reading(l, f.End(), Assembly(false, true, f.payload, f.start)), [], []);
  }

  lemma ReadToEnd(l: Log, p: nat, a: Assembly)
    requires l.init == 0 && p == |l.file|
    ensures Reading(l, p, a) == Outcome([], [])
  {
    EndOfFile(l, p);
  }

  // Reading what both writers wrote.
  lemma ChainRead(l: Log, records: seq<seq<Byte>>, g: seq<Fragment>, k: nat, more: seq<seq<Byte>>)
    requires l.init == 0 && WellKinded(g) && 0 < k < |g|
    requires var a, b := Flatten(Layout(0, records)), g[..k];
      var c := Flatten(Layout(Ending(0, a + b), more));
      && Chained(Ending(0, a), b) && AllIntact(l, a) && AllIntact(l, b) && AllIntact(l, c)
      && |l.file| == Ending(Ending(0, a + b), c) && |Payload(b)| <= Ending(0, a + b)
    ensures var b := g[..k];
      Reading(l, 0, Idle(false))
      == Outcome(Originals(0, records) + Originals(Ending(0, Flatten(Layout(0, records)) + b), more),
                 if more == [] || Payload(b) == [] then [] else [|Payload(b)|])
  {
    hide *;
    var a, b := Flatten(Layout(0, records)), g[..k];
    var e1, e2 := Ending(0, a), Ending(0, a + b);
    EndingOfSum(0, a, b);
    IdleHoldsNothing();
    BegunRead(l, e1, g, k);
    var held := Assembly(false, true, Payload(b), g[0].start);
    var first, second := Outcome(Originals(0, records), []), Outcome(Originals(e2, more), Unfinished(held));
    UnfinishedIs(held);
    if more == [] {
      NoneLaidOut(e2);
      ReadToEnd(l, e2, held);
      AfterNothing(NOTHING, Originals(0, records), []);
      NothingAppended(Originals(0, records));
    } else {
      RecordsRead(l, e2, more, held);
      ReadToEnd(l, |l.file|, Idle(false));
      AfterNothing(NOTHING, Originals(e2, more), Unfinished(held));
    }
    if records == [] {
      NoneLaidOut(0);
      assert Originals(0, records) + Originals(e2, more) == Originals(e2, more);
    } else {
      RecordsRead(l, 0, records, Idle(false));
      Together(first, second);
      AfterNothing(NOTHING, Originals(0, records), []);
    }
  }

  lemma UnfinishedIs(a: Assembly)
    requires a.inFragment
    ensures Unfinished(a) == if a.scratch == [] then [] else [|a.scratch|]
  {
  }

  lemma Together(first: Outcome, second: Outcome)
    requires first.reports == []
    ensures second.After(first) == Outcome(first.records + second.records, second.reports)
  {
  }

  // A writer stopped between two fragments of a record, and a second one went on with
  // the file. Every finished record of both is read back, and the unfinished one is
  // reported with the bytes there are of it, unless there are none.
  lemma ContinuedLogIsRead(crc: Checksum, records: seq<seq<Byte>>, begun: seq<Byte>, k: nat, more: seq<seq<Byte>>)
    requires 0 < k < |Split(|LogBytes(crc, records)|, begun, true)|
    ensures var w, part := LeftBehind(crc, records, begun, k), Split(|LogBytes(crc, records)|, begun, true)[..k];
      ReadLog(crc, Continued(crc, w, more), 0, 0, Idle(false))
      == Outcome(Originals(0, records) + Originals(|w|, more),
                 if more == [] || Payload(part) == [] then [] else [|Payload(part)|])
  {
    var a := Flatten(Layout(0, records));
    var e := Ending(0, a);
    LayoutIsChained(0, records);
    BytesLength(crc, 0, a);
    assert |LogBytes(crc, records)| == e;
    var g := Split(e, begun, true);
    var b, w := g[..k], LeftBehind(crc, records, begun, k);
    assert w == Bytes(crc, 0, a) + Bytes(crc, e, b);
    hide *;
    SplitIsChained(e, begun, true);
    SplitIsWellKinded(e, begun);
    PrefixChained(e, g, k);
    var e2 := Ending(0, a + b);
    var c := Flatten(Layout(e2, more));
    LayoutIsChained(e2, more);
    ContinuedIsChain(crc, a, b, c, w);
    ContinuedIs(crc, w, more);
    var all := a + b + c;
    var l := Log(crc, Bytes(crc, 0, all), all, 0);
    ChainIsIntact(crc, all);
    AllIntactOfBoth(l, a + b, c);
    AllIntactOfBoth(l, a, b);
    EndingOfSum(0, a, b);
    PayloadFits(e, b);
    ChainRead(l, records, g, k, more);
    ReadingIs(l);
  }

  lemma ContinuedIs(crc: Checksum, w: seq<Byte>, more: seq<seq<Byte>>)
    ensures Continued(crc, w, more) == w + Bytes(crc, |w|, Flatten(Layout(|w|, more)))
  {
  }

  lemma ReadingIs(l: Log)
    ensures Reading(l, 0, Idle(false)) == ReadLog(l.crc, l.file, 0, 0, Idle(false))
  {
  }

  lemma {:induction false} PayloadFits(off: nat, fs: seq<Fragment>)
    requires Chained(off, fs)
    ensures off + |Payload(fs)| <= Ending(off, fs)
    decreases |fs|
  {
    if fs != [] {
      PayloadFits(fs[0].End(), fs[1..]);
      assert Ending(fs[0].End(), fs[1..]) == Ending(off, fs);
    }
  }
}
