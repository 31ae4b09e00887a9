// Write batches in the log: what a log holds that the database wrote its batches to,
// however short a crash cut it.
module BatchLogs {
  import opened Basics
  import opened Coding
  import opened LogFormat
  import opened LogReader
  import opened LogRecovery
  import opened Sequences
  import opened Store
  import opened WriteBatches

  // A batch as it was logged: its sequence number and its operations.
  datatype LoggedBatch = LoggedBatch(sequence: nat, ops: seq<Write>)

  function Encoded(batches: seq<LoggedBatch>): (records: seq<seq<Byte>>)
    ensures |records| == |batches|
  {
    seq(|batches|, i requires 0 <= i < |batches| => BatchBytes(batches[i].sequence, batches[i].ops))
  }

  // Every batch, operation and length fits its word.
  predicate Loggable(b: LoggedBatch) {
    b.sequence < WORD * WORD && |b.ops| < WORD && forall i :: 0 <= i < |b.ops| ==> Encodable(b.ops[i])
  }

  // ----- Logs cut short hold the first few records -----

  lemma {:induction false} NoneBeyond(off: nat, records: seq<seq<Byte>>, n: nat)
    requires off > n
    ensures Between(Layout(off, records), 0, n) == []
    decreases |records|
  {
    hide Split;
    hide Layout;
    hide Flatten;
    if records == [] {
      LayoutOfNone(off);
    } else {
      LayoutUnfold(off, records);
      var g := Split(off, records[0], true);
      SplitIsChained(off, records[0], true);
      EndingGrows(off, g);
      NoneBeyond(Ending(off, g), records[1..], n);
    }
  }

  lemma OriginalsUnfold(off: nat, records: seq<seq<Byte>>, k: nat)
    requires records != [] && k < |records|
    ensures var g := Split(off, records[0], true);
      Originals(off, records)[..k + 1]
      == [Record(g[0].start, records[0])] + Originals(Ending(off, g), records[1..])[..k]
  {
    hide Split;
  }

  // How many records end by n, when the first begins at off.
  lemma {:induction false} BetweenIsPrefix(off: nat, records: seq<seq<Byte>>, n: nat) returns (k: nat)
    ensures k <= |records| && Between(Layout(off, records), 0, n) == Originals(off, records)[..k]
    ensures k > 0 ==> Ending(off, Flatten(Layout(off, records[..k]))) <= n
    ensures k < |records| ==> Ending(off, Flatten(Layout(off, records[..k + 1]))) > n
    decreases |records|
  {
    hide Split;
    hide Layout;
    hide Flatten;
    hide Originals;
    k := 0;
    if records == [] {
      LayoutOfNone(off);
    } else {
      var g := Split(off, records[0], true);
      var end := Ending(off, g);
      LayoutUnfold(off, records);
      if end <= n {
        var more := BetweenIsPrefix(end, records[1..], n);
        k := more + 1;
        OriginalsUnfold(off, records, more);
        PrefixEnds(off, records, more);
        if k < |records| { PrefixEnds(off, records, more + 1); }
      } else {
        NoneBeyond(end, records[1..], n);
        PrefixEnds(off, records, 0);
      }
    }
  }

  // Where the first few records end.
  lemma PrefixEnds(off: nat, records: seq<seq<Byte>>, k: nat)
    requires k < |records|
    ensures var end := Ending(off, Split(off, records[0], true));
      Ending(off, Flatten(Layout(off, records[..k + 1]))) == Ending(end, Flatten(Layout(end, records[1..][..k])))
    ensures k == 0 ==> Ending(off, Flatten(Layout(off, records[..k + 1]))) == Ending(off, Split(off, records[0], true))
  {
    hide Split;
    hide Layout;
    hide Flatten;
    var first := records[..k + 1];
    assert first[0] == records[0] && first[1..] == records[1..][..k];
    LayoutUnfold(off, first);
    var end := Ending(off, Split(off, records[0], true));
    EndingOfSum(off, Split(off, records[0], true), Flatten(Layout(end, first[1..])));
    if k == 0 {
      LayoutOfNone(end);
      NoneFlat();
    }
  }

  lemma NoneFlat()
    ensures Flatten([]) == []
  {
  }

  lemma LogEnds(crc: Checksum, records: seq<seq<Byte>>)
    ensures |LogBytes(crc, records)| == Ending(0, Flatten(Layout(0, records)))
  {
    LayoutIsChained(0, records);
    BytesLength(crc, 0, Flatten(Layout(0, records)));
  }

  // ----- The batches of a log -----

  // Reading a batch record yields the batch.
  ghost predicate Yields(record: Record, b: LoggedBatch) {
    && ReadBatch(record.data) == (Fine, b.ops)
    && |record.data| >= 8 && DecodeFixed(record.data[..8]) == b.sequence
  }

  lemma YieldsBatch(record: Record, b: LoggedBatch)
    requires record.data == BatchBytes(b.sequence, b.ops) && Loggable(b)
    ensures Yields(record, b)
  {
    BatchRead(b.sequence, b.ops);
    hide *;
    BatchHead(b.sequence, b.ops);
    YieldsIs(record, b);
  }

  lemma BatchHead(sequence: nat, ops: seq<Write>)
    ensures |BatchBytes(sequence, ops)| >= 8
  {
  }

  lemma YieldsIs(record: Record, b: LoggedBatch)
    requires ReadBatch(record.data) == (Fine, b.ops)
    requires |record.data| >= 8 && DecodeFixed(record.data[..8]) == b.sequence
    ensures Yields(record, b)
  {
  }

  // A log of batches cut short anywhere gives back, without a report, the first of
  // them: exactly those whose last byte is there, whole, in order and with their
  // sequence numbers.
  lemma CutLogHoldsFirstBatches(crc: Checksum, batches: seq<LoggedBatch>, n: nat) returns (k: nat)
    requires (forall i :: 0 <= i < |batches| ==> Loggable(batches[i])) && n <= |LogBytes(crc, Encoded(batches))|
    ensures k <= |batches|
    ensures var o := ReadLog(crc, LogBytes(crc, Encoded(batches))[..n], 0, 0, Idle(false));
      o.reports == [] && |o.records| == k && forall i :: 0 <= i < k ==> Yields(o.records[i], batches[i])
    ensures |LogBytes(crc, Encoded(batches[..k]))| <= n
    ensures k < |batches| ==> |LogBytes(crc, Encoded(batches[..k + 1]))| > n
  {
    hide *;
    var records := Encoded(batches);
    TornTail(crc, records, n);
    k := BetweenIsPrefix(0, records, n);
    EncodedPrefix(batches, k);
    LogEnds(crc, records[..k]);
    if k < |batches| {
      EncodedPrefix(batches, k + 1);
      LogEnds(crc, records[..k + 1]);
    }
    if k == 0 {
      EmptyLog();
      assert records[..0] == [];
    }
    forall i | 0 <= i < k
      ensures Yields(Originals(0, records)[i], batches[i])
    {
      EncodedAt(batches, i);
      YieldsBatch(Originals(0, records)[i], batches[i]);
    }
  }

  lemma EncodedPrefix(batches: seq<LoggedBatch>, k: nat)
    requires k <= |batches|
    ensures Encoded(batches[..k]) == Encoded(batches)[..k]
  {
  }

  lemma EncodedAt(batches: seq<LoggedBatch>, i: nat)
    requires i < |batches|
    ensures Encoded(batches)[i] == BatchBytes(batches[i].sequence, batches[i].ops)
  {
  }

  lemma EmptyLog()
    ensures Ending(0, Flatten(Layout(0, []))) == 0
  {
  }
}
