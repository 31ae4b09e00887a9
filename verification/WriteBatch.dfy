// The bytes of a write batch: a header with a sequence number and a count, and a record
// for each operation.
module WriteBatches {
  import opened Basics
  import opened Coding
  import opened Entries
  import opened Sequences
  import opened Store

  const WORD := 0x1_0000_0000

  // ----- Varints -----

  // Seven bits to a byte, the lowest first; the high bit says that more follow.
  function Varint(n: nat): (b: seq<Byte>)
    ensures |b| > 0
  {
    if n < 128 then [n] else [n % 128 + 128] + Varint(n / 128)
  }

  // At most so many bytes are read.
  function ReadVarint(s: seq<Byte>, left: nat): (r: Option<(nat, seq<Byte>)>)
    ensures r.Some? ==> |r.value.1| < |s|
  {
    if left == 0 || s == [] then None
    else if s[0] < 128 then Some((s[0], s[1..]))
    else
      var more := ReadVarint(s[1..], left - 1);
      if more.None? then None else Some((s[0] - 128 + 128 * more.value.0, more.value.1))
  }

  // What so many bytes of seven bits can hold.
  function Sevens(left: nat): nat {
    if left == 0 then 1 else 128 * Sevens(left - 1)
  }

  lemma {:induction false} VarintRead(n: nat, left: nat, rest: seq<Byte>)
    requires left > 0 && n < Sevens(left)
    ensures ReadVarint(Varint(n) + rest, left) == Some((n, rest))
  {
    var s := Varint(n) + rest;
    if n < 128 {
      assert s[1..] == rest;
    } else {
      assert s[1..] == Varint(n / 128) + rest;
      assert left - 1 > 0 by { assert Sevens(1) == 128; }
      VarintRead(n / 128, left - 1, rest);
    }
  }

  // ----- Length-prefixed strings -----

  function LengthPrefixed(b: seq<Byte>): seq<Byte> {
    Varint(|b| % WORD) + b
  }

  // A length of at most five bytes, taken as a 32-bit number, and that many bytes.
  function ReadPrefixed(s: seq<Byte>): (r: Option<(seq<Byte>, seq<Byte>)>)
    ensures r.Some? ==> |r.value.1| < |s|
  {
    var length := ReadVarint(s, 5);
    if length.None? then None
    else
      var n, rest := length.value.0 % WORD, length.value.1;
      if n > |rest| then None else Some((rest[..n], rest[n..]))
  }

  lemma PrefixedRead(b: seq<Byte>, rest: seq<Byte>)
    requires |b| < WORD
    ensures ReadPrefixed(LengthPrefixed(b) + rest) == Some((b, rest))
  {
    assert LengthPrefixed(b) + rest == Varint(|b|) + (b + rest);
    assert Sevens(5) == 128 * 128 * 128 * 128 * 128 by { assert Sevens(3) == 128 * 128 * 128; }
    VarintRead(|b|, 5, b + rest);
    assert (b + rest)[..|b|] == b && (b + rest)[|b|..] == rest;
  }

  // ----- Records -----

  function Record(w: Write): seq<Byte> {
    match w.kind
    case Put => [1] + LengthPrefixed(w.key) + LengthPrefixed(w.value)
    case Deletion => [0] + LengthPrefixed(w.key)
  }

  function Records(ops: seq<Write>): seq<Byte> {
    if ops == [] then [] else Records(ops[..|ops| - 1]) + Record(ops[|ops| - 1])
  }

  // The whole batch: eight bytes of sequence number, four of count, and the records.
  function BatchBytes(sequence: nat, ops: seq<Write>): seq<Byte> {
    EncodeFixed(sequence, 8) + EncodeFixed(|ops|, 4) + Records(ops)
  }

  // What WriteBatchInternal::ByteSize says of a batch with these operations.
  function ByteSize(ops: seq<Write>): (n: nat)
    ensures n >= 12
  {
    |BatchBytes(0, ops)|
  }

  lemma {:induction false} RecordsOfBoth(a: seq<Write>, b: seq<Write>)
    ensures Records(a + b) == Records(a) + Records(b)
  {
    if b == [] {
      assert a + b == a;
    } else {
      var before, last := b[..|b| - 1], b[|b| - 1];
      assert (a + b)[..|a + b| - 1] == a + before;
      RecordsOfBoth(a, before);
      Associate(Records(a), Records(before), Record(last));
    }
  }

  lemma RecordsUnfold(ops: seq<Write>)
    requires ops != []
    ensures Records(ops) == Record(ops[0]) + Records(ops[1..])
  {
    assert ops == [ops[0]] + ops[1..];
    RecordsOfBoth([ops[0]], ops[1..]);
    RecordsOfOne(ops[0]);
  }

  // ----- Reading a batch back -----

  datatype Reading = Fine | TooSmall | BadPut | BadDelete | UnknownTag | WrongCount

  // One record off the front.
  function ReadRecord(s: seq<Byte>): (r: (Reading, Write, seq<Byte>))
    requires s != []
    ensures r.0.Fine? ==> |r.2| < |s|
  {
    var none := Write(Put, [], []);
    if s[0] == 1 then
      var key := ReadPrefixed(s[1..]);
      if key.None? then (BadPut, none, s)
      else
        var value := ReadPrefixed(key.value.1);
        if value.None? then (BadPut, none, s) else (Fine, Write(Put, key.value.0, value.value.0), value.value.1)
    else if s[0] == 0 then
      var key := ReadPrefixed(s[1..]);
      if key.None? then (BadDelete, none, s) else (Fine, Write(Deletion, key.value.0, []), key.value.1)
    else (UnknownTag, none, s)
  }

  // The operations handed on before the end or the first bad record.
  function ReadRecords(s: seq<Byte>): (Reading, seq<Write>)
    decreases |s|
  {
    if s == [] then (Fine, [])
    else
      var (reading, w, rest) := ReadRecord(s);
      if !reading.Fine? then (reading, [])
      else
        var (more, ops) := ReadRecords(rest);
        (more, [w] + ops)
  }

  function ReadBatch(rep: seq<Byte>): (Reading, seq<Write>) {
    if |rep| < 12 then (TooSmall, [])
    else
      var (reading, ops) := ReadRecords(rep[12..]);
      if reading.Fine? && |ops| != DecodeFixed(rep[8..12]) then (WrongCount, ops) else (reading, ops)
  }

  // Lengths fit their words, and a deletion has no value.
  predicate Encodable(w: Write) {
    |w.key| < WORD && |w.value| < WORD && (w.kind.Deletion? ==> w.value == [])
  }

  lemma RecordRead(w: Write, rest: seq<Byte>)
    requires Encodable(w)
    ensures Record(w) + rest != [] && ReadRecord(Record(w) + rest) == (Fine, w, rest)
  {
    hide ReadPrefixed;
    hide LengthPrefixed;
    var s := Record(w) + rest;
    PrefixedRead(w.value, rest);
    if w.kind.Put? {
      assert s[1..] == LengthPrefixed(w.key) + (LengthPrefixed(w.value) + rest);
      PrefixedRead(w.key, LengthPrefixed(w.value) + rest);
    } else {
      assert s[1..] == LengthPrefixed(w.key) + rest;
      PrefixedRead(w.key, rest);
    }
  }

  lemma {:induction false} RecordsRead(ops: seq<Write>)
    requires forall i :: 0 <= i < |ops| ==> Encodable(ops[i])
    ensures ReadRecords(Records(ops)) == (Fine, ops)
  {
    if ops != [] {
      hide *;
      RecordsUnfold(ops);
      RecordRead(ops[0], Records(ops[1..]));
      RecordsRead(ops[1..]);
      ReadOn(Record(ops[0]) + Records(ops[1..]), ops[0], Records(ops[1..]));
      assert ops == [ops[0]] + ops[1..];
    }
  }

  lemma ReadOn(s: seq<Byte>, w: Write, rest: seq<Byte>)
    requires s != [] && ReadRecord(s) == (Fine, w, rest)
    ensures ReadRecords(s) == (ReadRecords(rest).0, [w] + ReadRecords(rest).1)
  {
    hide ReadRecord;
  }

  // What was put into a batch is read back from its bytes, sequence number included.
  lemma BatchRead(sequence: nat, ops: seq<Write>)
    requires forall i :: 0 <= i < |ops| ==> Encodable(ops[i])
    requires |ops| < WORD && sequence < WORD * WORD
    ensures ReadBatch(BatchBytes(sequence, ops)) == (Fine, ops)
    ensures DecodeFixed(BatchBytes(sequence, ops)[..8]) == sequence
  {
    var rep := BatchBytes(sequence, ops);
    assert rep[..8] == EncodeFixed(sequence, 8) && rep[8..12] == EncodeFixed(|ops|, 4) && rep[12..] == Records(ops);
    ValuesOfWords();
    DecodeEncode(sequence, 8);
    DecodeEncode(|ops|, 4);
    RecordsRead(ops);
  }

  // Byte by byte, for lengths below 128.
  lemma ShortRecords(w: Write)
    requires |w.key| < 128 && |w.value| < 128
    ensures w.kind.Put? ==> Record(w) == [1, |w.key|] + w.key + [|w.value|] + w.value
    ensures w.kind.Deletion? ==> Record(w) == [0, |w.key|] + w.key
    ensures BatchBytes(1, [w]) == [1, 0, 0, 0, 0, 0, 0, 0, 1, 0, 0, 0] + Record(w)
    ensures ByteSize([w]) == 14 + |w.key| + if w.kind.Put? then 1 + |w.value| else 0
  {
    OneInBytes();
    RecordsOfOne(w);
    ShortRecord(w);
    hide EncodeFixed;
    hide Records;
    hide Record;
    var r := Record(w);
    assert |BatchBytes(0, [w])| == 12 + |r|;
    assert [1, 0, 0, 0, 0, 0, 0, 0] + [1, 0, 0, 0] == [1, 0, 0, 0, 0, 0, 0, 0, 1, 0, 0, 0];
  }

  lemma RecordsOfOne(w: Write)
    ensures Records([w]) == Record(w)
  {
    assert Records([w][..0]) == [];
    NothingAppended(Record(w));
  }

  lemma ShortRecord(w: Write)
    requires |w.key| < 128 && |w.value| < 128
    ensures w.kind.Put? ==> Record(w) == [1, |w.key|] + w.key + [|w.value|] + w.value
    ensures w.kind.Deletion? ==> Record(w) == [0, |w.key|] + w.key
  {
    assert LengthPrefixed(w.key) == [|w.key|] + w.key && LengthPrefixed(w.value) == [|w.value|] + w.value;
    hide LengthPrefixed;
    Regroup([1], [|w.key|], w.key, []);
  }

  lemma OneInBytes()
    ensures EncodeFixed(1, 8) == [1, 0, 0, 0, 0, 0, 0, 0] && EncodeFixed(1, 4) == [1, 0, 0, 0]
  {
    assert EncodeFixed(0, 3) == [0] + EncodeFixed(0, 2) && EncodeFixed(0, 2) == [0, 0];
    assert EncodeFixed(0, 7) == [0] + EncodeFixed(0, 6) && EncodeFixed(0, 6) == [0] + EncodeFixed(0, 5);
    assert EncodeFixed(0, 5) == [0] + EncodeFixed(0, 4) && EncodeFixed(0, 4) == [0] + EncodeFixed(0, 3);
  }

  // A length takes a byte for each seven bits.
  lemma {:induction false} VarintLength(n: nat, bytes: nat)
    requires bytes > 0
    ensures |Varint(n)| <= bytes <==> n < Sevens(bytes)
  {
    if n >= 128 && bytes > 1 {
      VarintLength(n / 128, bytes - 1);
    } else {
      SevensGrow(bytes);
    }
  }

  lemma {:induction false} SevensGrow(bytes: nat)
    requires bytes > 0
    ensures Sevens(bytes) >= 128 && (bytes == 1 ==> Sevens(bytes) == 128)
  {
    if bytes > 1 { SevensGrow(bytes - 1); }
  }

  // ----- The batch -----

  lemma CountKept(sequence: nat, ops: seq<Write>)
    requires |ops| < WORD
    ensures var rep := BatchBytes(sequence, ops);
      && DecodeFixed(rep[8..12]) == |ops|
      && rep[..8] == EncodeFixed(sequence, 8) && rep[12..] == Records(ops)
  {
    var rep := BatchBytes(sequence, ops);
    assert rep[8..12] == EncodeFixed(|ops|, 4);
    ValuesOfWords();
    DecodeEncode(|ops|, 4);
  }

  lemma OneMoreRecord(sequence: nat, ops: seq<Write>, w: Write)
    ensures EncodeFixed(sequence, 8) + EncodeFixed(|ops| + 1, 4) + Records(ops) + Record(w)
         == BatchBytes(sequence, ops + [w])
  {
    assert (ops + [w])[..|ops|] == ops;
    Associate(EncodeFixed(sequence, 8) + EncodeFixed(|ops| + 1, 4), Records(ops), Record(w));
  }

  class WriteBatch {
    var rep: seq<Byte>

    // These are the batch's bytes, with room in the count for more.
    ghost predicate Holds(sequence: nat, ops: seq<Write>)
      reads this
    {
      rep == BatchBytes(sequence, ops) && |ops| < WORD
    }

    constructor ()
      ensures Holds(0, [])
    {
      rep := seq(12, _ => 0);
      new;
      Emptied(rep);
    }

    method Clear()
      modifies this
      ensures Holds(0, [])
    {
      rep := seq(12, _ => 0);
      Emptied(rep);
    }

    function Count(): nat
      requires |rep| >= 12
      reads this
    {
      DecodeFixed(rep[8..12])
    }

    method SetCount(n: nat)
      requires |rep| >= 12
      modifies this
      ensures rep == old(rep)[..8] + EncodeFixed(n, 4) + old(rep)[12..]
    {
      rep := rep[..8] + EncodeFixed(n, 4) + rep[12..];
    }

    method SetSequence(sequence: nat, ghost was: nat, ghost ops: seq<Write>)
      requires Holds(was, ops)
      modifies this
      ensures Holds(sequence, ops)
    {
      CountKept(was, ops);
      rep := EncodeFixed(sequence, 8) + rep[8..];
      assert rep == EncodeFixed(sequence, 8) + EncodeFixed(|ops|, 4) + Records(ops);
    }

    method Put(key: Key, value: Value, ghost sequence: nat, ghost ops: seq<Write>)
      requires Holds(sequence, ops) && |ops| + 1 < WORD
      modifies this
      ensures Holds(sequence, ops + [Write(Kind.Put, key, value)])
    {
      hide EncodeFixed;
      hide DecodeFixed;
      hide Records;
      hide Record;
      hide LengthPrefixed;
      CountKept(sequence, ops);
      SetCount(Count() + 1);
      ghost var head := EncodeFixed(sequence, 8) + EncodeFixed(|ops| + 1, 4) + Records(ops);
      assert rep == head;
      RecordIs(Write(Kind.Put, key, value));
      rep := rep + [1];
      rep := rep + LengthPrefixed(key);
      rep := rep + LengthPrefixed(value);
      Regroup(head, [1], LengthPrefixed(key), LengthPrefixed(value));
      OneMoreRecord(sequence, ops, Write(Kind.Put, key, value));
    }

    method Delete(key: Key, ghost sequence: nat, ghost ops: seq<Write>)
      requires Holds(sequence, ops) && |ops| + 1 < WORD
      modifies this
      ensures Holds(sequence, ops + [Write(Deletion, key, [])])
    {
      hide EncodeFixed;
      hide DecodeFixed;
      hide Records;
      hide Record;
      hide LengthPrefixed;
      CountKept(sequence, ops);
      SetCount(Count() + 1);
      ghost var head := EncodeFixed(sequence, 8) + EncodeFixed(|ops| + 1, 4) + Records(ops);
      assert rep == head;
      RecordIs(Write(Deletion, key, []));
      rep := rep + [0];
      rep := rep + LengthPrefixed(key);
      Associate(head, [0], LengthPrefixed(key));
      OneMoreRecord(sequence, ops, Write(Deletion, key, []));
    }

    // The other batch's records behind this one's own.
    method Append(src: WriteBatch, ghost sequence: nat, ghost ops: seq<Write>, ghost from: nat, ghost more: seq<Write>)
      requires src != this && Holds(sequence, ops) && src.Holds(from, more) && |ops| + |more| < WORD
      modifies this
      ensures Holds(sequence, ops + more)
    {
      hide EncodeFixed;
      hide DecodeFixed;
      hide Records;
      CountKept(sequence, ops);
      CountKept(from, more);
      SetCount(Count() + src.Count());
      rep := rep + src.rep[12..];
      RecordsOfBoth(ops, more);
      Associate(EncodeFixed(sequence, 8) + EncodeFixed(|ops| + |more|, 4), Records(ops), Records(more));
    }

    // Hands on the operations one by one, up to the first that cannot be read.
    method Iterate() returns (reading: Reading, ops: seq<Write>)
      ensures (reading, ops) == ReadBatch(rep)
    {
      ops := [];
      if |rep| < 12 { return TooSmall, []; }
      var input := rep[12..];
      NothingAppended(ReadRecords(input).1);
      while input != []
        invariant ReadRecords(rep[12..]) == (ReadRecords(input).0, ops + ReadRecords(input).1)
        decreases |input|
      {
        var (read, w, rest) := ReadRecord(input);
        if !read.Fine? {
          NothingAppended(ops);
          return read, ops;
        }
        Associate(ops, [w], ReadRecords(rest).1);
        ops := ops + [w];
        input := rest;
      }
      NothingAppended(ops);
      reading := if |ops| != Count() then WrongCount else Fine;
    }
  }

  lemma RecordIs(w: Write)
    ensures w.kind.Put? ==> Record(w) == [1] + LengthPrefixed(w.key) + LengthPrefixed(w.value)
    ensures w.kind.Deletion? ==> Record(w) == [0] + LengthPrefixed(w.key)
  {
  }

  lemma Emptied(rep: seq<Byte>)
    requires |rep| == 12 && forall i :: 0 <= i < 12 ==> rep[i] == 0
    ensures rep == BatchBytes(0, [])
  {
    ZeroBytes(8);
    ZeroBytes(4);
  }

  lemma {:induction false} ZeroBytes(width: nat)
    ensures forall i :: 0 <= i < width ==> EncodeFixed(0, width)[i] == 0
  {
    if width > 0 { ZeroBytes(width - 1); }
  }

  lemma Regroup(a: seq<Byte>, b: seq<Byte>, c: seq<Byte>, d: seq<Byte>)
    ensures a + b + c + d == a + (b + c + d)
  {
  }
}
