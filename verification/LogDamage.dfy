// What reading a damaged log reports: the first report tells where the damage begins,
// and the reports come to exactly the bytes that were not returned.
module LogDamage {
  import opened Basics
  import opened LogFormat
  import opened LogReader
  import opened LogRecovery
  import opened Sequences

  // The length in the header at p, least byte first.
  function StoredLength(file: seq<Byte>, p: nat): nat
    requires p + 7 <= |file|
  {
    file[p + 4] as int + 256 * (file[p + 5] as int)
  }

  // Damage in place that leaves the length and the type of every fragment alone.
  ghost predicate HeadersKept(l: Log) {
    forall f :: f in l.all && f.start + 7 <= |l.file| ==>
      StoredLength(l.file, f.start) == |f.payload| && l.file[f.start + 6] == f.kind
  }

  // The file is long enough to hold the fragment, and holds something else.
  predicate Damaged(l: Log, f: Fragment) {
    f.End() <= |l.file| && l.file[f.start..f.End()] != PhysicalRecord(l.crc, f.kind, f.payload)
  }

  // ----- One token -----

  lemma KeptHeader(l: Log, f: Fragment)
    requires HeadersKept(l) && f in l.all && Fits(f) && f.start + HEADER_SIZE <= |l.file|
    ensures f.start + HEADER_SIZE <= Limit(l.file, f.start)
    ensures var block := l.file[f.start..Limit(l.file, f.start)]; LengthAt(block) == |f.payload| && block[6] == f.kind
  {
    FitsInBlock(f);
  }

  // A damaged fragment that the reader does not accept is reported with the rest of its block.
  lemma DamagedToken(l: Log, p: nat, f: Fragment)
    requires HeadersKept(l) && Trusty(l) && l.init == 0
    requires f in l.all && f.start == p + Pad(p) && Fits(f) && FULL <= f.kind <= LAST && Damaged(l, f)
    ensures f.start < Limit(l.file, f.start)
    ensures NextToken(l.crc, l.file, 0, p)
         == (Bad(Some(Limit(l.file, f.start) - f.start)), Limit(l.file, f.start))
  {
    hide NextToken;
    hide ChecksumMatches;
    hide PhysicalRecord;
    KeptHeader(l, f);
    FitsInBlock(f);
    TokenAt(l, p, f);
    assert !Accepted(l, f);
  }

  // What does not end by the end of the file is not reported.
  lemma CutToken(l: Log, p: nat, f: Fragment)
    requires HeadersKept(l) && f in l.all && f.start == p + Pad(p) && Fits(f) && f.End() > |l.file|
    ensures NextToken(l.crc, l.file, l.init, p).0.Eof?
  {
    hide NextToken;
    hide ChecksumMatches;
    FitsInBlock(f);
    TokenAt(l, p, f);
    if f.start + HEADER_SIZE <= |l.file| { KeptHeader(l, f); }
  }

  // What a token begins the reports with.
  lemma ReportsUnfold(l: Log, p: nat, a: Assembly)
    ensures var (t, p') := NextToken(l.crc, l.file, l.init, p);
      ReadLog(l.crc, l.file, l.init, p, a).reports
      == if t.Eof? then []
         else
           var (a', o) := Feed(l.init, a, t, p');
           Dropped(l.init, t, p') + o.reports + ReadLog(l.crc, l.file, l.init, p', a').reports
  {
    hide NextToken;
    hide Feed;
    hide Dropped;
  }

  // ----- The first report -----

  // The first damaged one of the fragments that are left.
  ghost predicate FirstDamaged(l: Log, fs: seq<Fragment>, f: Fragment) {
    f in fs && Damaged(l, f) && forall g :: g in fs && g.start < f.start ==> !Damaged(l, g)
  }

  // The bytes from the fragment to the end of its block, or of the file.
  function FromHere(l: Log, f: Fragment): int {
    Limit(l.file, f.start) - f.start
  }

  ghost predicate TellsFirst(l: Log, fs: seq<Fragment>, reports: seq<nat>) {
    && (reports == [] <==> forall f :: f in fs ==> !Damaged(l, f))
    && forall f :: FirstDamaged(l, fs, f) ==> reports != [] && reports[0] == FromHere(l, f)
  }

  lemma BehindHead(p: nat, fs: seq<Fragment>)
    requires fs != [] && Chained(p, fs)
    ensures forall g :: g in fs ==> g == fs[0] || (g in fs[1..] && g.start >= fs[0].End() && g.End() > fs[0].End())
    ensures forall g :: g in fs[1..] ==> g in fs
  {
    ChainedFits(fs[0].End(), fs[1..]);
  }

  lemma TellsBehind(l: Log, p: nat, fs: seq<Fragment>, reports: seq<nat>)
    requires fs != [] && Chained(p, fs) && !Damaged(l, fs[0]) && TellsFirst(l, fs[1..], reports)
    ensures TellsFirst(l, fs, reports)
  {
    hide Damaged;
    hide FromHere;
    hide Chained;
    BehindHead(p, fs);
    forall f | FirstDamaged(l, fs, f)
      ensures FirstDamaged(l, fs[1..], f)
    {
    }
  }

  lemma TellsHead(l: Log, p: nat, fs: seq<Fragment>, reports: seq<nat>)
    requires fs != [] && Chained(p, fs) && Damaged(l, fs[0]) && reports != [] && reports[0] == FromHere(l, fs[0])
    ensures TellsFirst(l, fs, reports)
  {
    hide Damaged;
    hide FromHere;
    hide Chained;
    BehindHead(p, fs);
  }

  lemma TellsNothing(l: Log, p: nat, fs: seq<Fragment>)
    requires Chained(p, fs) && (fs != [] ==> fs[0].End() > |l.file|)
    ensures TellsFirst(l, fs, [])
  {
    hide PhysicalRecord;
    if fs != [] { BehindHead(p, fs); }
    hide Chained;
  }

  lemma {:induction false} ReadsToFirst(l: Log, p: nat, left: Left, a: Assembly)
    requires HeadersKept(l) && Trusty(l) && l.init == 0 && InFront(l, p, left) && Holding(a, left)
    ensures TellsFirst(l, left.All(), ReadLog(l.crc, l.file, 0, p, a).reports)
    decreases |left.All()|
  {
    hide *;
    ReportsUnfold(l, p, a);
    LeftIsChained(l, p, left);
    if left.All() == [] {
      EndIsMet(l, p, left);
      TellsNothing(l, p, []);
    } else {
      InFrontOfTail(l, p, left);
      TailIsLeft(left);
      var f, tail := left.Head(), left.Tail();
      FirstRest(f, tail.All());
      var (t, p') := NextToken(l.crc, l.file, 0, p);
      if f.End() > |l.file| {
        CutToken(l, p, f);
        TellsNothing(l, p, left.All());
      } else if Damaged(l, f) {
        DamagedToken(l, p, f);
        ReportedFirst(t, p', Feed(0, a, t, p').1.reports, ReadLog(l.crc, l.file, 0, p', Feed(0, a, t, p').0).reports);
        DropIs(l, f);
        TellsHead(l, p, left.All(), ReadLog(l.crc, l.file, 0, p, a).reports);
      } else {
        NotDamagedIsIntact(l, f);
        AcceptedToken(l, p, f);
        FeedQuietly(left, a, 0, p');
        ReadsToFirst(l, p', tail, Feed(0, a, t, p').0);
        PieceDropsNothing(0, t, p', ReadLog(l.crc, l.file, 0, p', Feed(0, a, t, p').0).reports);
        TellsBehind(l, p, left.All(), ReadLog(l.crc, l.file, 0, p, a).reports);
      }
    }
  }

  lemma FirstRest<T>(x: T, s: seq<T>)
    ensures [x] + s != [] && ([x] + s)[0] == x && ([x] + s)[1..] == s
  {
  }

  lemma LeftIsChained(l: Log, p: nat, left: Left)
    requires InFront(l, p, left)
    ensures Chained(p, left.All())
  {
  }

  lemma EndIsMet(l: Log, p: nat, left: Left)
    requires InFront(l, p, left) && left.All() == []
    ensures NextToken(l.crc, l.file, l.init, p).0.Eof?
  {
    EndOfFile(l, p);
  }

  lemma DropIs(l: Log, f: Fragment)
    ensures FromHere(l, f) == Limit(l.file, f.start) - f.start
  {
  }

  lemma NotDamagedIsIntact(l: Log, f: Fragment)
    requires f.End() <= |l.file|
    ensures Damaged(l, f) <==> !Intact(l, f)
  {
    hide PhysicalRecord;
  }

  lemma ReportedFirst(t: Token, p: nat, reports: seq<nat>, more: seq<nat>)
    requires t.Bad? && t.drop.Some? && t.drop.value <= p
    ensures Dropped(0, t, p) + reports + more != [] && (Dropped(0, t, p) + reports + more)[0] == t.drop.value
  {
  }

  lemma PieceDropsNothing(init: nat, t: Token, p: nat, more: seq<nat>)
    requires t.Piece? || t == Bad(None)
    ensures Dropped(init, t, p) + [] + more == more
  {
  }

  // A log cut short anywhere, with damage that leaves the headers' lengths and types
  // alone, read from its start: nothing is reported just when nothing is damaged, and
  // the first report is what the block holds from the first damaged fragment on.
  lemma DamageIsReported(crc: Checksum, records: seq<seq<Byte>>, file: seq<Byte>)
    requires |file| <= |LogBytes(crc, records)|
    requires var l := Written(crc, records, file, 0); Ideal(l) && HeadersKept(l)
    ensures TellsFirst(Written(crc, records, file, 0), Flatten(Layout(0, records)),
                       ReadLog(crc, file, 0, 0, Idle(false)).reports)
  {
    var l, left := Written(crc, records, file, 0), Left([], Layout(0, records));
    assert left.All() == l.all == Flatten(Layout(0, records));
    assert Holding(Idle(false), left);
    hide *;
    WrittenIs(crc, records, file);
    WrittenIsInFront(crc, records, file, 0);
    IdealIsTrusty(l);
    ReadsToFirst(l, 0, left, Idle(false));
  }

  lemma WrittenIs(crc: Checksum, records: seq<seq<Byte>>, file: seq<Byte>)
    ensures var l := Written(crc, records, file, 0);
      l.crc == crc && l.file == file && l.init == 0 && l.all == Flatten(Layout(0, records))
  {
  }

  // ----- Damaged headers -----

  // Up to the first fragment that is not intact nothing is reported.
  lemma {:induction false} ReadsUpTo(l: Log, p: nat, left: Left, a: Assembly, f: Fragment)
    returns (q: nat, left': Left, a': Assembly)
    requires l.init == 0 && InFront(l, p, left) && Holding(a, left) && f in left.All()
    requires forall g :: g in left.All() && g.start < f.start ==> Intact(l, g)
    ensures InFront(l, q, left') && left'.All() != [] && left'.Ready() && left'.Head() == f && Holding(a', left')
    ensures ReadLog(l.crc, l.file, 0, p, a).reports == ReadLog(l.crc, l.file, 0, q, a').reports
    decreases |left.All()|
  {
    hide *;
    LeftIsChained(l, p, left);
    InFrontOfTail(l, p, left);
    TailIsLeft(left);
    var head, tail := left.Head(), left.Tail();
    FirstRest(head, tail.All());
    if head == f {
      q, left', a' := p, left, a;
    } else {
      BehindHead(p, left.All());
      FragmentEnds(head);
      AcceptedToken(l, p, head);
      var (t, p') := NextToken(l.crc, l.file, 0, p);
      FeedQuietly(left, a, 0, p');
      ReportsUnfold(l, p, a);
      PieceDropsNothing(0, t, p', ReadLog(l.crc, l.file, 0, p', Feed(0, a, t, p').0).reports);
      q, left', a' := ReadsUpTo(l, p', tail, Feed(0, a, t, p').0, f);
    }
  }

  lemma FragmentEnds(f: Fragment)
    ensures f.End() > f.start
  {
  }

  // Where the first fragment that is not intact was written, a header is found whose
  // length fits the block or does not.
  lemma FirstToken(l: Log, q: nat, f: Fragment)
    requires f.start == q + Pad(q) && Fits(f) && f.start + 7 <= |l.file|
    ensures f.start + 7 <= Limit(l.file, f.start)
    ensures var (limit, n, token) := (Limit(l.file, f.start), StoredLength(l.file, f.start),
                                      NextToken(l.crc, l.file, l.init, q));
      && (f.start + 7 + n > limit ==> if BlockEnd(f.start) <= |l.file| then token == (Bad(Some(limit - f.start)), limit)
                                      else token.0.Eof?)
      && (n == 0 && l.file[f.start + 6] == 0 ==> token == (Bad(None), limit))
  {
    hide NextToken;
    hide ChecksumMatches;
    FitsInBlock(f);
    TokenAt(l, q, f);
    var block := l.file[f.start..Limit(l.file, f.start)];
    assert block[4] == l.file[f.start + 4] && block[5] == l.file[f.start + 5] && block[6] == l.file[f.start + 6];
  }

  ghost predicate TellsHeader(l: Log, f: Fragment, reports: seq<nat>)
    requires f.start + 7 <= |l.file|
  {
    var limit, n := Limit(l.file, f.start), StoredLength(l.file, f.start);
    && (f.start + 7 + n > limit ==>
          if BlockEnd(f.start) <= |l.file| then reports != [] && reports[0] == limit - f.start else reports == [])
    && (n == 0 && l.file[f.start + 6] == 0 && (f.kind == FULL || f.kind == FIRST)
        ==> reports == ReadLog(l.crc, l.file, 0, limit, Idle(false)).reports)
  }

  lemma TellsAtOnce(l: Log, q: nat, left: Left, a: Assembly, f: Fragment)
    requires l.init == 0 && Shape(left) && left.Ready() && Holding(a, left) && left.Head() == f
    requires f.start == q + Pad(q) && Fits(f) && f.start + 7 <= |l.file|
    ensures TellsHeader(l, f, ReadLog(l.crc, l.file, 0, q, a).reports)
  {
    hide *;
    FirstToken(l, q, f);
    ReportsUnfold(l, q, a);
    var (t, p') := NextToken(l.crc, l.file, 0, q);
    if !t.Eof? {
      var (a', o) := Feed(0, a, t, p');
      var more := ReadLog(l.crc, l.file, 0, p', a').reports;
      if t.Bad? && t.drop.Some? && t.drop.value <= p' { ReportedFirst(t, p', o.reports, more); }
      if t == Bad(None) && (f.kind == FULL || f.kind == FIRST) {
        StartsAfresh(left, a);
        SilentDrop(a, p', more);
      }
    }
    TellsIs(l, f, ReadLog(l.crc, l.file, 0, q, a).reports);
  }

  lemma TellsIs(l: Log, f: Fragment, reports: seq<nat>)
    requires f.start + 7 <= |l.file|
    requires var limit, n := Limit(l.file, f.start), StoredLength(l.file, f.start);
      && (f.start + 7 + n > limit ==>
            if BlockEnd(f.start) <= |l.file| then reports != [] && reports[0] == limit - f.start else reports == [])
      && (n == 0 && l.file[f.start + 6] == 0 && (f.kind == FULL || f.kind == FIRST)
          ==> reports == ReadLog(l.crc, l.file, 0, limit, Idle(false)).reports)
    ensures TellsHeader(l, f, reports)
  {
  }

  // Whatever became of the header of the first fragment that is not intact. A length
  // that runs over the end of a full block is reported with all the block still held;
  // at the end of the file it passes for a record that was cut short. A header of zeros
  // is passed over with the rest of its block in silence, unless a record was begun.
  lemma HeaderDamage(crc: Checksum, records: seq<seq<Byte>>, file: seq<Byte>, f: Fragment)
    requires |file| <= |LogBytes(crc, records)| && f in Flatten(Layout(0, records)) && f.start + 7 <= |file|
    requires forall g :: g in Flatten(Layout(0, records)) && g.start < f.start
               ==> Intact(Written(crc, records, file, 0), g)
    ensures TellsHeader(Written(crc, records, file, 0), f, ReadLog(crc, file, 0, 0, Idle(false)).reports)
  {
    var l, left := Written(crc, records, file, 0), Left([], Layout(0, records));
    assert left.All() == l.all == Flatten(Layout(0, records));
    assert Holding(Idle(false), left);
    hide *;
    WrittenIs(crc, records, file);
    WrittenIsInFront(crc, records, file, 0);
    var q, left', a := ReadsUpTo(l, 0, left, Idle(false), f);
    InFrontOfTail(l, q, left');
    TellsAtOnce(l, q, left', a, f);
  }

  lemma StartsAfresh(left: Left, a: Assembly)
    requires Shape(left) && left.Ready() && Holding(a, left)
    requires left.Head().kind == FULL || left.Head().kind == FIRST
    ensures !a.inFragment
  {
  }

  lemma SilentDrop(a: Assembly, p: nat, more: seq<nat>)
    requires !a.inFragment
    ensures Feed(0, a, Bad(None), p) == (Idle(false), NOTHING)
    ensures Dropped(0, Bad(None), p) + NOTHING.reports + more == more
  {
  }

  // ----- What the reports come to -----

  // The first fragment of its block that is not as it was written.
  ghost predicate Breaks(l: Log, f: Fragment) {
    && !Intact(l, f)
    && forall g :: g in l.all && g.start < f.start && BlockEnd(g.start) == BlockEnd(f.start) ==> Intact(l, g)
  }

  // What is not returned of a fragment: with the first damaged one of a block all that
  // the block holds from there on, and the payload of one that is read for nothing.
  ghost function Loss(l: Log, f: Fragment, lost: bool): int {
    if Breaks(l, f) then FromHere(l, f) else if lost && Survives(l, f) then |f.payload| else 0
  }

  ghost function LossOf(l: Log, fs: seq<Fragment>, lost: bool): int {
    if fs == [] then 0 else Loss(l, fs[0], lost) + LossOf(l, fs[1..], lost)
  }

  // A record is lost when one of its fragments does not survive.
  ghost function LossOfAll(l: Log, groups: seq<seq<Fragment>>): int {
    if groups == [] then 0 else LossOf(l, groups[0], !AllSurvive(l, groups[0])) + LossOfAll(l, groups[1..])
  }

  function Sum(reports: seq<nat>): nat {
    if reports == [] then 0 else reports[0] + Sum(reports[1..])
  }

  lemma {:induction false} SumOfBoth(a: seq<nat>, b: seq<nat>)
    ensures Sum(a + b) == Sum(a) + Sum(b)
  {
    if a == [] {
      assert a + b == b;
    } else {
      assert (a + b)[1..] == a[1..] + b;
      SumOfBoth(a[1..], b);
    }
  }

  // What is still to be reported of what is left: the beginning held of a record
  // that will not be finished, and what is not returned of the fragments.
  ghost function Due(l: Log, a: Assembly, left: Left): int {
    var lost := !(a.inFragment && AllSurvive(l, left.rest));
    (if a.inFragment && lost then |a.scratch| else 0) + LossOf(l, left.rest, lost) + LossOfAll(l, left.groups)
  }

  lemma DueOfNothing(l: Log, left: Left, a: Assembly)
    requires Shape(left) && InStep(a, left) && left.All() == []
    ensures Due(l, a, left) == 0
  {
    NothingIsEmpty(left);
  }

  // Without its first fragment.
  lemma LossUnfold(l: Log, fs: seq<Fragment>, lost: bool)
    requires fs != []
    ensures LossOf(l, fs, lost) == Loss(l, fs[0], lost) + LossOf(l, fs[1..], lost)
    ensures AllSurvive(l, fs) <==> Survives(l, fs[0]) && AllSurvive(l, fs[1..])
  {
    hide Survives;
    assert fs == [fs[0]] + fs[1..];
  }

  lemma LossAllUnfold(l: Log, groups: seq<seq<Fragment>>)
    requires groups != []
    ensures LossOfAll(l, groups) == LossOf(l, groups[0], !AllSurvive(l, groups[0])) + LossOfAll(l, groups[1..])
  {
  }

  lemma SurvivorsLoss(l: Log, f: Fragment, lost: bool)
    requires Survives(l, f) && f in l.all
    ensures Loss(l, f, lost) == if lost then |f.payload| else 0
  {
  }

  lemma BreakerIsLost(l: Log, f: Fragment)
    requires f in l.all && Breaks(l, f)
    ensures !Survives(l, f)
  {
  }

  // A fragment that survives is reported now or later, or is part of a record returned.
  lemma FeedAccounted(l: Log, left: Left, a: Assembly, p: nat)
    requires Shape(left) && left.Ready() && InStep(a, left) && !a.resyncing && l.init == 0
    requires Survives(l, left.Head()) && left.Head() in l.all && |a.scratch| + |left.Head().payload| <= p
    ensures var f := left.Head();
            var (a', o) := Feed(0, a, Piece(f.kind, f.payload, f.start), p);
            && InStep(a', left.Tail()) && !a'.resyncing && |a'.scratch| <= p
            && Due(l, a, left) == Sum(o.reports) + Due(l, a', left.Tail())
  {
    hide Survives;
    hide AllSurvive;
    hide LossOf;
    hide LossOfAll;
    hide Loss;
    var f, tail := left.Head(), left.Tail();
    SurvivorsLoss(l, f, true);
    SurvivorsLoss(l, f, false);
    if left.rest == [] {
      var g := left.groups[0];
      assert g in left.groups && WellKinded(g);
      LossUnfold(l, g, true);
      LossUnfold(l, g, false);
      LossAllUnfold(l, left.groups);
      LossOfNone(l);
    } else {
      LossUnfold(l, left.rest, true);
      LossUnfold(l, left.rest, false);
      LossOfNone(l);
      assert |left.rest| == 1 ==> tail.rest == [];
    }
  }

  lemma LossOfNone(l: Log)
    ensures LossOf(l, [], true) == 0 && LossOf(l, [], false) == 0 && AllSurvive(l, [])
  {
  }

  // A fragment that is neither returned nor reported for itself counts for nothing.
  lemma DueBehind(l: Log, left: Left)
    requires Shape(left) && left.Ready() && !Survives(l, left.Head())
    ensures Due(l, Idle(false), left)
         == (if Breaks(l, left.Head()) then FromHere(l, left.Head()) else 0) + Due(l, Idle(false), left.Tail())
  {
    hide Survives;
    hide AllSurvive;
    hide LossOf;
    hide LossOfAll;
    hide Breaks;
    hide FromHere;
    if left.rest == [] {
      LossUnfold(l, left.groups[0], true);
      LossAllUnfold(l, left.groups);
      LossOfNone(l);
    } else {
      LossUnfold(l, left.rest, true);
    }
  }

  // Once a fragment is lost the beginning that is held is given up.
  lemma DueOfLost(l: Log, left: Left, a: Assembly)
    requires Shape(left) && left.Ready() && InStep(a, left) && !Survives(l, left.Head())
    ensures Due(l, a, left) == (if a.inFragment then |a.scratch| else 0) + Due(l, Idle(false), left)
  {
    hide Survives;
    hide AllSurvive;
    hide LossOf;
    hide LossOfAll;
    if left.rest != [] { LossUnfold(l, left.rest, true); }
  }

  // Nothing is due of what is skipped.
  lemma {:induction false} SkipDue(l: Log, p: nat, left: Left, b: nat) returns (left': Left)
    requires InFront(l, p, left) && p <= b && b % BLOCK_SIZE == 0
    requires forall f :: f in l.all && p <= f.start < b ==> !Survives(l, f) && !Breaks(l, f)
    ensures InFront(l, b, left') && |left'.All()| <= |left.All()|
    ensures Due(l, Idle(false), left') == Due(l, Idle(false), left)
    decreases |left.All()|
  {
    hide *;
    LeftIsChained(l, p, left);
    if left.All() == [] {
      left' := left;
      InFrontOfBlock(l, p, left, b);
    } else {
      InFrontOfTail(l, p, left);
      TailIsLeft(left);
      var f, tail := left.Head(), left.Tail();
      FirstRest(f, tail.All());
      assert f.start >= p;
      FragmentEnds(f);
      MeetsBlock(p, f, b);
      if f.start < b {
        left' := SkipDue(l, f.End(), tail, b);
        DueBehind(l, left);
      } else {
        left' := left;
        InFrontOfBlock(l, p, left, b);
      }
    }
  }

  // The rest of a block behind its first damaged fragment counts for nothing.
  lemma BlockIsBroken(l: Log, f: Fragment)
    requires f in l.all && Breaks(l, f) && Fits(f)
    ensures !Survives(l, f)
    ensures forall g :: g in l.all && f.End() <= g.start < BlockEnd(f.start) ==> !Survives(l, g) && !Breaks(l, g)
  {
    forall g | g in l.all && f.End() <= g.start < BlockEnd(f.start)
      ensures !Survives(l, g) && !Breaks(l, g)
    {
      assert BlockEnd(g.start) == BlockEnd(f.start);
    }
  }

  lemma BreaksHere(l: Log, p: nat, f: Fragment)
    requires PriorIntact(l, p) && f.start == p + Pad(p) && !Intact(l, f)
    requires forall g :: g in l.all && p <= g.start < f.End() ==> g == f
    ensures Breaks(l, f)
  {
    hide Intact;
  }

  lemma SumsAdd(t: Token, p: nat, reports: seq<nat>, more: seq<nat>)
    ensures Sum(Dropped(0, t, p) + reports + more) == Sum(Dropped(0, t, p)) + Sum(reports) + Sum(more)
  {
    SumOfBoth(Dropped(0, t, p) + reports, more);
    SumOfBoth(Dropped(0, t, p), reports);
  }

  lemma BadReports(a: Assembly, n: nat, p: nat)
    requires n <= p && |a.scratch| <= p
    ensures Sum(Dropped(0, Bad(Some(n)), p)) == n
    ensures var (a', o) := Feed(0, a, Bad(Some(n)), p);
      a' == Idle(false) && Sum(o.reports) == if a.inFragment then |a.scratch| else 0
  {
  }

  lemma PieceSum(t: Token, p: nat)
    requires t.Piece?
    ensures Sum(Dropped(0, t, p)) == 0
  {
  }

  // Nothing of the log is missing.
  ghost predicate Whole(l: Log) {
    forall f :: f in l.all ==> f.End() <= |l.file|
  }

  lemma NothingBehind(l: Log, b: nat, left: Left)
    requires InFront(l, b, left) && Whole(l) && b > |l.file|
    ensures left.All() == []
  {
    if left.All() != [] {
      LeftIsChained(l, b, left);
      ChainedFits(b, left.All());
    }
  }

  ghost predicate AtToken(l: Log, p: nat, left: Left, a: Assembly) {
    && Trusty(l) && HeadersKept(l) && Whole(l) && l.init == 0
    && InFront(l, p, left) && PriorIntact(l, p) && InStep(a, left) && !a.resyncing && |a.scratch| <= p
  }

  // Reading one fragment that is as it was written.
  lemma IntactAccounted(l: Log, p: nat, left: Left, a: Assembly)
    requires AtToken(l, p, left, a) && left.All() != []
    requires left.Ready() && Intact(l, left.Head())
    ensures var (t, p') := NextToken(l.crc, l.file, 0, p);
      && !t.Eof? && AtToken(l, p', left.Tail(), Feed(0, a, t, p').0)
      && Due(l, a, left) == Sum(Dropped(0, t, p')) + Sum(Feed(0, a, t, p').1.reports)
                            + Due(l, Feed(0, a, t, p').0, left.Tail())
  {
    var f := left.Head();
    assert |a.scratch| + |f.payload| <= f.End() by { InFrontOfTail(l, p, left); }
    hide *;
    AtTokenMeans(l, p, left, a);
    InFrontOfTail(l, p, left);
    TailIsLeft(left);
    AcceptedToken(l, p, f);
    PriorThrough(l, p, f);
    FeedAccounted(l, left, a, f.End());
    var (t, p') := NextToken(l.crc, l.file, 0, p);
    PieceSum(t, p');
    AtTokenIs(l, p', left.Tail(), Feed(0, a, t, p').0);
  }

  lemma AtTokenIs(l: Log, p: nat, left: Left, a: Assembly)
    requires Trusty(l) && HeadersKept(l) && Whole(l) && l.init == 0
    requires InFront(l, p, left) && PriorIntact(l, p) && InStep(a, left) && !a.resyncing && |a.scratch| <= p
    ensures AtToken(l, p, left, a)
  {
  }

  lemma AtTokenMeans(l: Log, p: nat, left: Left, a: Assembly)
    requires AtToken(l, p, left, a)
    ensures Trusty(l) && HeadersKept(l) && Whole(l) && l.init == 0 && InFront(l, p, left) && PriorIntact(l, p)
    ensures InStep(a, left) && Shape(left) && !a.resyncing && |a.scratch| <= p
  {
  }

  lemma EndsInFile(l: Log, f: Fragment)
    requires Whole(l) && f in l.all
    ensures f.End() <= |l.file|
  {
  }

  // One that is not is reported with the rest of its block.
  lemma BrokenToken(l: Log, p: nat, left: Left, a: Assembly)
    requires AtToken(l, p, left, a) && left.All() != []
    requires left.Ready() && !Intact(l, left.Head())
    ensures var f := left.Head();
      && f in l.all && Fits(f) && Breaks(l, f) && FromHere(l, f) > 0
      && NextToken(l.crc, l.file, 0, p) == (Bad(Some(FromHere(l, f))), Limit(l.file, f.start))
      && InFront(l, f.End(), left.Tail()) && |left.Tail().All()| < |left.All()|
  {
    hide *;
    AtTokenMeans(l, p, left, a);
    InFrontOfTail(l, p, left);
    var f, tail := left.Head(), left.Tail();
    TailIsLeft(left);
    FirstRest(f, tail.All());
    EndsInFile(l, f);
    NotDamagedIsIntact(l, f);
    DamagedToken(l, p, f);
    BreaksHere(l, p, f);
    DropIs(l, f);
  }

  // The rest of its block goes with it.
  lemma BrokenAccounted(l: Log, left: Left, a: Assembly) returns (left': Left)
    requires Shape(left) && left.Ready() && InStep(a, left) && |a.scratch| <= left.Head().start
    requires left.Head() in l.all && Fits(left.Head()) && Breaks(l, left.Head()) && FromHere(l, left.Head()) > 0
    requires InFront(l, left.Head().End(), left.Tail())
    ensures var (f, limit) := (left.Head(), Limit(l.file, left.Head().start));
      var (a', o) := Feed(0, a, Bad(Some(FromHere(l, f))), limit);
      && a' == Idle(false)
      && Due(l, a, left)
         == Sum(Dropped(0, Bad(Some(FromHere(l, f))), limit)) + Sum(o.reports) + Due(l, Idle(false), left')
    ensures InFront(l, BlockEnd(left.Head().start), left') && |left'.All()| <= |left.Tail().All()|
  {
    var f := left.Head();
    hide *;
    BlockIsBroken(l, f);
    FitsInBlock(f);
    BlockEndIs(f.start);
    left' := SkipDue(l, f.End(), left.Tail(), BlockEnd(f.start));
    DueOfLost(l, left, a);
    DueBehind(l, left);
    DropIs(l, f);
    BadReports(a, FromHere(l, f), Limit(l.file, f.start));
  }

  lemma BlockEndIs(p: nat)
    ensures BlockEnd(p) % BLOCK_SIZE == 0
  {
  }

  // Reading goes on at the next block, if there is one.
  lemma BehindBreak(l: Log, start: nat, left: Left)
    requires Trusty(l) && HeadersKept(l) && Whole(l) && l.init == 0 && InFront(l, BlockEnd(start), left)
    ensures var next := Limit(l.file, start);
      if BlockEnd(start) <= |l.file| then next == BlockEnd(start) && AtToken(l, next, left, Idle(false))
      else Sum(ReadLog(l.crc, l.file, 0, next, Idle(false)).reports) == 0 == Due(l, Idle(false), left)
  {
    hide *;
    var b := BlockEnd(start);
    BlockEndIs(start);
    LimitIs(l, start);
    ShapeOf(l, b, left);
    IdleInStep(left);
    if b <= |l.file| {
      PriorAtBlock(l, b);
      IdleAtToken(l, b, left);
    } else {
      NothingBehind(l, b, left);
      DueOfNothing(l, left, Idle(false));
      EndOfFile(l, |l.file|);
      ReportsUnfold(l, |l.file|, Idle(false));
      SumOfNone();
    }
  }

  // The reports with one token more.
  lemma SumUnfold(l: Log, p: nat, a: Assembly)
    requires l.init == 0
    ensures var (t, p') := NextToken(l.crc, l.file, 0, p);
      Sum(ReadLog(l.crc, l.file, 0, p, a).reports)
      == if t.Eof? then 0
         else
           var (a', o) := Feed(0, a, t, p');
           Sum(Dropped(0, t, p')) + Sum(o.reports) + Sum(ReadLog(l.crc, l.file, 0, p', a').reports)
  {
    hide *;
    SumOfNone();
    ReportsUnfold(l, p, a);
    var (t, p') := NextToken(l.crc, l.file, 0, p);
    if !t.Eof? {
      var (a', o) := Feed(0, a, t, p');
      SumsAdd(t, p', o.reports, ReadLog(l.crc, l.file, 0, p', a').reports);
    }
  }

  lemma {:induction false} ReadsAccounted(l: Log, p: nat, left: Left, a: Assembly)
    requires AtToken(l, p, left, a)
    ensures Sum(ReadLog(l.crc, l.file, 0, p, a).reports) == Due(l, a, left)
    decreases |left.All()|
  {
    hide *;
    AtTokenMeans(l, p, left, a);
    SumUnfold(l, p, a);
    if left.All() == [] {
      EndIsMet(l, p, left);
      DueOfNothing(l, left, a);
    } else {
      InFrontOfTail(l, p, left);
      TailIsLeft(left);
      FirstRest(left.Head(), left.Tail().All());
      var start := left.Head().start;
      if Intact(l, left.Head()) {
        IntactAccounted(l, p, left, a);
        var (t, p') := NextToken(l.crc, l.file, 0, p);
        ReadsAccounted(l, p', left.Tail(), Feed(0, a, t, p').0);
      } else {
        BrokenToken(l, p, left, a);
        var left' := BrokenAccounted(l, left, a);
        BehindBreak(l, start, left');
        if BlockEnd(start) <= |l.file| { ReadsAccounted(l, BlockEnd(start), left', Idle(false)); }
      }
    }
  }

  lemma SumOfNone()
    ensures Sum([]) == 0
  {
  }

  lemma ShapeOf(l: Log, p: nat, left: Left)
    requires InFront(l, p, left)
    ensures Shape(left)
  {
  }

  lemma LimitIs(l: Log, p: nat)
    ensures Limit(l.file, p) == if BlockEnd(p) <= |l.file| then BlockEnd(p) else |l.file|
  {
  }

  lemma IdleInStep(left: Left)
    ensures InStep(Idle(false), left)
  {
  }

  lemma IdleAtToken(l: Log, b: nat, left: Left)
    requires Trusty(l) && HeadersKept(l) && Whole(l) && l.init == 0
    requires InFront(l, b, left) && PriorIntact(l, b)
    ensures AtToken(l, b, left, Idle(false))
  {
  }

  // With damage in place that leaves lengths and types alone, the reports come to
  // exactly what is not returned: nothing is lost in silence and nothing told twice.
  lemma ReportsAddUp(crc: Checksum, records: seq<seq<Byte>>, file: seq<Byte>)
    requires |file| == |LogBytes(crc, records)|
    requires var l := Written(crc, records, file, 0); Ideal(l) && HeadersKept(l)
    ensures Sum(ReadLog(crc, file, 0, 0, Idle(false)).reports)
         == LossOfAll(Written(crc, records, file, 0), Layout(0, records))
  {
    var l, left := Written(crc, records, file, 0), Left([], Layout(0, records));
    LayoutIsChained(0, records);
    BytesLength(crc, 0, l.all);
    assert |file| == Ending(0, l.all);
    hide *;
    WrittenIs(crc, records, file);
    WrittenIsInFront(crc, records, file, 0);
    EndsWithin(l);
    IdealIsTrusty(l);
    PriorAtBlock(l, 0);
    IdleAtToken(l, 0, left);
    ReadsAccounted(l, 0, left, Idle(false));
    DueAtFirst(l, left.groups);
  }

  lemma EndsWithin(l: Log)
    requires Chained(0, l.all) && |l.file| == Ending(0, l.all)
    ensures Whole(l)
  {
    if l.all != [] { WithinChain(0, l.all); }
  }

  lemma DueAtFirst(l: Log, groups: seq<seq<Fragment>>)
    ensures Due(l, Idle(false), Left([], groups)) == LossOfAll(l, groups)
  {
  }

  // Not all damage is reported: a block that begins with a header of zeros, as files
  // have that were allocated ahead, is passed over without a word, whatever was in it.
  lemma ZerosAreSilent(crc: Checksum, file: seq<Byte>)
    requires 7 <= |file| <= 32768 && file[4] == 0 && file[5] == 0 && file[6] == 0
    ensures ReadLog(crc, file, 0, 0, Idle(false)) == NOTHING
  {
    var block := file[0..|file|];
    assert block == file && file[0..] == file;
    assert Parse(crc, file, 0, 0, |file| == 32768) == (Bad(None), |file|);
    assert NextToken(crc, file, 0, 0) == (Bad(None), |file|);
    assert NextToken(crc, file, 0, |file|).0.Eof?;
    assert ReadLog(crc, file, 0, |file|, Idle(false)) == NOTHING;
    hide NextToken;
    assert Feed(0, Idle(false), Bad(None), |file|) == (Idle(false), NOTHING);
  }
}
