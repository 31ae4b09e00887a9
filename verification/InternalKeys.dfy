// Internal keys: a user key followed by eight bytes that pack a sequence number
// and a kind, and the order on them.
module InternalKeys {
  import opened Basics
  import opened Coding
  import opened Entries
  import opened Sequences

  // ----- Packing -----

  function TypeCode(k: Kind): nat {
    if k.Put? then 1 else 0
  }

  // The highest code comes first among entries of one sequence number.
  const VALUE_TYPE_FOR_SEEK := Put

  datatype ParsedInternalKey = ParsedInternalKey(userKey: Key, sequence: nat, kind: Kind)

  function PackSequenceAndType(sequence: nat, kind: Kind): (n: nat)
    requires sequence <= MAX_SEQUENCE
    ensures n < Values(8)
    ensures n / 256 == sequence && n % 256 == TypeCode(kind)
  {
    ValuesOfWords();
    sequence * 256 + TypeCode(kind)
  }

  function AppendInternalKey(result: seq<Byte>, key: ParsedInternalKey): seq<Byte>
    requires key.sequence <= MAX_SEQUENCE
  {
    result + key.userKey + EncodeFixed(PackSequenceAndType(key.sequence, key.kind), 8)
  }

  function Encode(key: ParsedInternalKey): (s: seq<Byte>)
    requires key.sequence <= MAX_SEQUENCE
    ensures |s| == |key.userKey| + 8
  {
    AppendInternalKey([], key)
  }

  function ExtractUserKey(s: seq<Byte>): Key
    requires |s| >= 8
  {
    s[..|s| - 8]
  }

  function Tag(s: seq<Byte>): nat
    requires |s| >= 8
  {
    DecodeFixed(s[|s| - 8..])
  }

  function ParseInternalKey(s: seq<Byte>): Option<ParsedInternalKey> {
    if |s| < 8 then None
    else
      var c := Tag(s) % 256;
      if c > 1 then None
      else Some(ParsedInternalKey(ExtractUserKey(s), Tag(s) / 256, if c == 1 then Put else Deletion))
  }

  lemma EncodedParts(key: ParsedInternalKey)
    requires key.sequence <= MAX_SEQUENCE
    ensures ExtractUserKey(Encode(key)) == key.userKey
    ensures Tag(Encode(key)) == PackSequenceAndType(key.sequence, key.kind)
  {
    var tag := EncodeFixed(PackSequenceAndType(key.sequence, key.kind), 8);
    assert Encode(key) == key.userKey + tag;
    DecodeEncode(PackSequenceAndType(key.sequence, key.kind), 8);
  }

  lemma {:induction false} AllOnes(width: nat)
    ensures Values(width) > 0
    ensures EncodeFixed(Values(width) - 1, width) == seq(width, _ => 255)
  {
    if width > 0 {
      AllOnes(width - 1);
      assert (Values(width) - 1) % 256 == 255 && (Values(width) - 1) / 256 == Values(width - 1) - 1;
    }
  }

  // The type first, one byte, then the sequence number in seven; the greatest is all ones.
  lemma KeyInBytes(key: ParsedInternalKey)
    requires key.sequence <= MAX_SEQUENCE
    ensures Encode(key) == key.userKey + [if key.kind.Put? then 1 else 0] + EncodeFixed(key.sequence, 7)
    ensures Encode(SeekKey(key.userKey, MAX_SEQUENCE)) == key.userKey + [1, 255, 255, 255, 255, 255, 255, 255]
  {
    TagInBytes(key.sequence, key.kind);
    TagInBytes(MAX_SEQUENCE, Put);
    GreatestInBytes();
    EncodeIs(key);
    EncodeIs(SeekKey(key.userKey, MAX_SEQUENCE));
    hide *;
    Associate(key.userKey, [if key.kind.Put? then 1 else 0], EncodeFixed(key.sequence, 7));
  }

  lemma EncodeIs(key: ParsedInternalKey)
    requires key.sequence <= MAX_SEQUENCE
    ensures Encode(key) == key.userKey + EncodeFixed(PackSequenceAndType(key.sequence, key.kind), 8)
    ensures SeekKey(key.userKey, MAX_SEQUENCE) == ParsedInternalKey(key.userKey, MAX_SEQUENCE, Put)
  {
    assert [] + key.userKey == key.userKey;
  }

  lemma TagInBytes(sequence: nat, kind: Kind)
    requires sequence <= MAX_SEQUENCE
    ensures EncodeFixed(PackSequenceAndType(sequence, kind), 8)
         == [if kind.Put? then 1 else 0] + EncodeFixed(sequence, 7)
  {
    var n := PackSequenceAndType(sequence, kind);
    EncodeUnfold(n, 8);
    hide EncodeFixed;
  }

  lemma EncodeUnfold(v: nat, width: nat)
    requires width > 0
    ensures EncodeFixed(v, width) == [v % 256] + EncodeFixed(v / 256, width - 1)
  {
  }

  lemma GreatestInBytes()
    ensures [1] + EncodeFixed(MAX_SEQUENCE, 7) == [1, 255, 255, 255, 255, 255, 255, 255]
  {
    ValuesOfWords();
    assert Values(8) == 256 * Values(7);
    AllOnes(7);
    hide EncodeFixed;
    hide Values;
    assert [1] + seq(7, _ => 255) == [1, 255, 255, 255, 255, 255, 255, 255];
  }

  // Parsing undoes appending, also behind other bytes.
  lemma ParseAppend(result: seq<Byte>, key: ParsedInternalKey)
    requires key.sequence <= MAX_SEQUENCE
    ensures result <= AppendInternalKey(result, key)
    ensures ParseInternalKey(AppendInternalKey(result, key)[|result|..]) == Some(key)
  {
    assert AppendInternalKey(result, key)[|result|..] == Encode(key);
    EncodedParts(key);
  }

  // And what parses is the encoding of what it parses to.
  lemma AppendParse(s: seq<Byte>)
    requires ParseInternalKey(s).Some?
    ensures ParseInternalKey(s).value.sequence <= MAX_SEQUENCE
    ensures Encode(ParseInternalKey(s).value) == s
  {
    hide DecodeFixed;
    hide EncodeFixed;
    hide Values;
    var key := ParseInternalKey(s).value;
    var tag := s[|s| - 8..];
    EncodeDecode(tag);
    ValuesOfWords();
    assert PackSequenceAndType(key.sequence, key.kind) == Tag(s);
    assert s == ExtractUserKey(s) + tag;
  }

  // ----- Order -----

  // Compare: negative, zero or positive.
  function Compare(less: KeyOrder, a: seq<Byte>, b: seq<Byte>): int
    requires |a| >= 8 && |b| >= 8
  {
    if less(ExtractUserKey(a), ExtractUserKey(b)) then -1
    else if less(ExtractUserKey(b), ExtractUserKey(a)) then 1
    else if Tag(a) > Tag(b) then -1
    else if Tag(a) < Tag(b) then 1
    else 0
  }

  // Compare is a strict total order on all strings that have room for a tag.
  lemma CompareIsTotal(less: KeyOrder, a: seq<Byte>, b: seq<Byte>)
    requires TotalOrder(less) && |a| >= 8 && |b| >= 8
    ensures Compare(less, a, b) == 0 <==> a == b
    ensures Compare(less, a, b) == -Compare(less, b, a)
  {
    if Compare(less, a, b) == 0 {
      EncodeDecode(a[|a| - 8..]);
      EncodeDecode(b[|b| - 8..]);
      assert a == ExtractUserKey(a) + a[|a| - 8..];
      assert b == ExtractUserKey(b) + b[|b| - 8..];
    }
  }

  lemma CompareIsTransitive(less: KeyOrder, a: seq<Byte>, b: seq<Byte>, c: seq<Byte>)
    requires TotalOrder(less) && |a| >= 8 && |b| >= 8 && |c| >= 8
    requires Compare(less, a, b) < 0 && Compare(less, b, c) < 0
    ensures Compare(less, a, c) < 0
  {
    var x, y, z := ExtractUserKey(a), ExtractUserKey(b), ExtractUserKey(c);
    assert x == y || less(x, y);
    assert y == z || less(y, z);
  }

  // User key up, sequence number down, kind down.
  ghost predicate Before(less: KeyOrder, a: ParsedInternalKey, b: ParsedInternalKey) {
    || less(a.userKey, b.userKey)
    || (a.userKey == b.userKey && a.sequence > b.sequence)
    || (a.userKey == b.userKey && a.sequence == b.sequence && a.kind.Put? && b.kind.Deletion?)
  }

  lemma CompareIsBefore(less: KeyOrder, a: ParsedInternalKey, b: ParsedInternalKey)
    requires TotalOrder(less) && a.sequence <= MAX_SEQUENCE && b.sequence <= MAX_SEQUENCE
    ensures Compare(less, Encode(a), Encode(b)) < 0 <==> Before(less, a, b)
  {
    EncodedParts(a);
    EncodedParts(b);
    assert a.userKey != b.userKey ==> less(a.userKey, b.userKey) || less(b.userKey, a.userKey);
  }

  function KeyOf(e: Entry): ParsedInternalKey {
    ParsedInternalKey(e.key, e.seqno, e.kind)
  }

  // On entries of a store it is the order of the iterators.
  lemma CompareIsPrecedes(less: KeyOrder, a: Entry, b: Entry)
    requires TotalOrder(less) && a.seqno <= MAX_SEQUENCE && b.seqno <= MAX_SEQUENCE
    requires a.key == b.key && a.seqno == b.seqno ==> a == b
    ensures Compare(less, Encode(KeyOf(a)), Encode(KeyOf(b))) < 0 <==> Precedes(less, a, b)
  {
    CompareIsBefore(less, KeyOf(a), KeyOf(b));
  }

  function SeekKey(k: Key, s: nat): ParsedInternalKey {
    ParsedInternalKey(k, s, VALUE_TYPE_FOR_SEEK)
  }

  // Seeking (k, s) passes the entries of k above s, and lands before those a
  // reader at s may see.
  lemma SeekKeySplits(less: KeyOrder, k: Key, s: nat, e: Entry)
    requires TotalOrder(less) && s <= MAX_SEQUENCE && e.seqno <= MAX_SEQUENCE
    ensures Compare(less, Encode(KeyOf(e)), Encode(SeekKey(k, s))) < 0
            <==> less(e.key, k) || (e.key == k && e.seqno > s)
    ensures e.key == k ==> (Compare(less, Encode(SeekKey(k, s)), Encode(KeyOf(e))) <= 0 <==> e.seqno <= s)
  {
    CompareIsBefore(less, KeyOf(e), SeekKey(k, s));
    CompareIsTotal(less, Encode(KeyOf(e)), Encode(SeekKey(k, s)));
  }

  // ----- The bytewise comparator -----

  predicate BytewiseLess(a: Key, b: Key) {
    b != [] && (a == [] || a[0] < b[0] || (a[0] == b[0] && BytewiseLess(a[1..], b[1..])))
  }

  lemma {:induction false} BytewiseIrreflexive(a: Key)
    ensures !BytewiseLess(a, a)
  {
    if a != [] {
      BytewiseIrreflexive(a[1..]);
    }
  }

  lemma {:induction false} BytewiseTransitive(a: Key, b: Key, c: Key)
    requires BytewiseLess(a, b) && BytewiseLess(b, c)
    ensures BytewiseLess(a, c)
  {
    if a != [] && a[0] == b[0] == c[0] {
      BytewiseTransitive(a[1..], b[1..], c[1..]);
    }
  }

  lemma {:induction false} BytewiseTotal(a: Key, b: Key)
    requires a != b
    ensures BytewiseLess(a, b) || BytewiseLess(b, a)
  {
    if a != [] && b != [] && a[0] == b[0] {
      assert a == [a[0]] + a[1..] && b == [b[0]] + b[1..];
      BytewiseTotal(a[1..], b[1..]);
    }
  }

  lemma BytewiseIsTotalOrder()
    ensures TotalOrder(BytewiseLess)
  {
    forall a: Key
      ensures !BytewiseLess(a, a)
    {
      BytewiseIrreflexive(a);
    }
    forall a: Key, b: Key, c: Key | BytewiseLess(a, b) && BytewiseLess(b, c)
      ensures BytewiseLess(a, c)
    {
      BytewiseTransitive(a, b, c);
    }
    forall a: Key, b: Key | a != b
      ensures BytewiseLess(a, b) || BytewiseLess(b, a)
    {
      BytewiseTotal(a, b);
    }
  }

  // The first place where two strings differ decides.
  lemma {:induction false} DecidedAt(a: Key, b: Key, i: nat)
    requires i <= |a| && i < |b| && a[..i] == b[..i]
    requires i == |a| || a[i] < b[i]
    ensures BytewiseLess(a, b)
  {
    if i > 0 {
      assert a[0] == a[..i][0] && b[0] == b[..i][0];
      assert a[1..][..i - 1] == a[..i][1..] && b[1..][..i - 1] == b[..i][1..];
      DecidedAt(a[1..], b[1..], i - 1);
    }
  }

  // How far two strings agree.
  function Shared(a: Key, b: Key): (n: nat)
    ensures n <= |a| && n <= |b| && a[..n] == b[..n] && (n < |a| && n < |b| ==> a[n] != b[n])
  {
    if a == [] || b == [] || a[0] != b[0] then 0
    else
      var n := 1 + Shared(a[1..], b[1..]);
      assert a[..n] == [a[0]] + a[1..][..n - 1] && b[..n] == [b[0]] + b[1..][..n - 1];
      n
  }

  lemma SharedIs(a: Key, b: Key, n: nat)
    requires n <= |a| && n <= |b| && a[..n] == b[..n] && (n == |a| || n == |b| || a[n] != b[n])
    ensures n == Shared(a, b)
  {
    var m := Shared(a, b);
    assert forall i :: 0 <= i < n ==> a[i] == a[..n][i] == b[..n][i] == b[i];
    assert forall i :: 0 <= i < m ==> a[i] == a[..m][i] == b[..m][i] == b[i];
  }

  // Where the strings first differ, the smaller byte can be raised and still be
  // below the other.
  predicate Separable(start: Key, limit: Key) {
    var d := Shared(start, limit);
    d < |start| && d < |limit| && (start[d] as int) + 1 < limit[d]
  }

  // The strings agree up to n, and differ there.
  predicate Differ(start: Key, limit: Key, n: nat) {
    n < |start| && n < |limit| && start[..n] == limit[..n] && start[n] != limit[n]
  }

  lemma DiffersOnce(start: Key, limit: Key, n: nat)
    requires Differ(start, limit, n)
    ensures forall m :: Differ(start, limit, m) ==> m == n
  {
    forall m | Differ(start, limit, m)
      ensures m == n
    {
      SharedIs(start, limit, m);
      SharedIs(start, limit, n);
    }
  }

  // Raising a byte, and ending there.
  lemma Raised(key: Key, i: nat)
    requires i < |key| && key[i] < 0xff
    ensures BytewiseLess(key, key[..i] + [key[i] + 1])
  {
    var r := key[..i] + [key[i] + 1];
    assert r[..i] == key[..i];
    DecidedAt(key, r, i);
  }

  lemma RaisedBelow(r: Key, limit: Key, i: nat)
    requires i < |limit| && |r| == i + 1 && r[..i] == limit[..i] && r[i] < limit[i]
    ensures BytewiseLess(r, limit)
  {
    DecidedAt(r, limit, i);
  }

  // A string from start on and below limit, if a shorter one is easy to find.
  method FindShortestSeparator(start: Key, limit: Key) returns (r: Key)
    ensures !Separable(start, limit) ==> r == start
    ensures Separable(start, limit)
            ==> |r| == Shared(start, limit) + 1 && BytewiseLess(start, r) && BytewiseLess(r, limit)
    // The first byte that differs is raised by one, if that keeps it below.
    ensures forall n: nat :: Differ(start, limit, n) && (start[n] as int) + 1 < limit[n]
              ==> r == start[..n] + [start[n] + 1]
    ensures r != start ==> exists n: nat :: Differ(start, limit, n) && (start[n] as int) + 1 < limit[n]
  {
    hide BytewiseLess;
    hide Shared;
    var minLength := if |start| < |limit| then |start| else |limit|;
    var diffIndex := 0;
    while diffIndex < minLength && start[diffIndex] == limit[diffIndex]
      invariant diffIndex <= minLength && start[..diffIndex] == limit[..diffIndex]
    {
      assert start[..diffIndex + 1] == start[..diffIndex] + [start[diffIndex]];
      assert limit[..diffIndex + 1] == limit[..diffIndex] + [limit[diffIndex]];
      diffIndex := diffIndex + 1;
    }
    SharedIs(start, limit, diffIndex);
    r := start;
    if diffIndex < minLength {
      DiffersOnce(start, limit, diffIndex);
      var diffByte := start[diffIndex];
      if diffByte < 0xff && diffByte + 1 < limit[diffIndex] {
        r := start[..diffIndex] + [diffByte + 1];
        Raised(start, diffIndex);
        RaisedBelow(r, limit, diffIndex);
      }
    }
  }

  // How many bytes at the front are 0xff.
  function LeadingMax(key: Key): (i: nat)
    ensures i <= |key| && (forall j :: 0 <= j < i ==> key[j] == 0xff) && (i < |key| ==> key[i] != 0xff)
  {
    if key == [] || key[0] != 0xff then 0 else 1 + LeadingMax(key[1..])
  }

  lemma LeadingMaxIs(key: Key, i: nat)
    requires i <= |key| && (forall j :: 0 <= j < i ==> key[j] == 0xff) && (i < |key| ==> key[i] != 0xff)
    ensures LeadingMax(key) == i
  {
  }

  // A string from key on, which ends at the first byte that is not 0xff; only runs
  // of 0xff stay.
  method FindShortSuccessor(key: Key) returns (r: Key)
    ensures var i := LeadingMax(key);
      if i == |key| then r == key else BytewiseLess(key, r) && r == key[..i] + [key[i] + 1]
  {
    hide BytewiseLess;
    hide LeadingMax;
    for i := 0 to |key|
      invariant forall j :: 0 <= j < i ==> key[j] == 0xff
    {
      var byte := key[i];
      if byte != 0xff {
        LeadingMaxIs(key, i);
        Raised(key, i);
        r := key[..i] + [byte + 1];
        return;
      }
    }
    LeadingMaxIs(key, |key|);
    r := key;
  }

  // ----- Shortened internal keys -----

  // With the earliest number tacked on, a string strictly between two user keys
  // makes an internal key strictly between any two of theirs.
  lemma BetweenUserKeys(less: KeyOrder, start: seq<Byte>, k: Key, limit: seq<Byte>)
    requires TotalOrder(less) && |start| >= 8
    ensures less(ExtractUserKey(start), k) ==> Compare(less, start, Encode(SeekKey(k, MAX_SEQUENCE))) < 0
    ensures |limit| >= 8 && less(k, ExtractUserKey(limit))
            ==> Compare(less, Encode(SeekKey(k, MAX_SEQUENCE)), limit) < 0
  {
    EncodedParts(SeekKey(k, MAX_SEQUENCE));
  }

  method FindShortestInternalSeparator(start: seq<Byte>, limit: seq<Byte>) returns (r: seq<Byte>)
    requires |start| >= 8 && |limit| >= 8
    ensures |r| >= 8
    ensures var s, l := ExtractUserKey(start), ExtractUserKey(limit);
      if Separable(s, l) && Shared(s, l) + 1 < |s|
      then Compare(BytewiseLess, start, r) < 0 && Compare(BytewiseLess, r, limit) < 0 && |r| == Shared(s, l) + 9
      else r == start
    ensures r != start ==> |r| < |start| && r[|r| - 8..] == [1, 255, 255, 255, 255, 255, 255, 255]
  {
    var userStart, userLimit := ExtractUserKey(start), ExtractUserKey(limit);
    var tmp := FindShortestSeparator(userStart, userLimit);
    r := start;
    if |tmp| < |userStart| && BytewiseLess(userStart, tmp) {
      BytewiseIsTotalOrder();
      BetweenUserKeys(BytewiseLess, start, tmp, limit);
      KeyInBytes(SeekKey(tmp, MAX_SEQUENCE));
      r := Encode(SeekKey(tmp, MAX_SEQUENCE));
    }
  }

  method FindShortInternalSuccessor(key: seq<Byte>) returns (r: seq<Byte>)
    requires |key| >= 8
    ensures |r| >= 8
    ensures var userKey := ExtractUserKey(key);
      if LeadingMax(userKey) + 1 < |userKey|
      then Compare(BytewiseLess, key, r) < 0 && |r| == LeadingMax(userKey) + 9
      else r == key
    ensures r != key ==> r[|r| - 8..] == [1, 255, 255, 255, 255, 255, 255, 255]
  {
    var userKey := ExtractUserKey(key);
    var tmp := FindShortSuccessor(userKey);
    r := key;
    if |tmp| < |userKey| && BytewiseLess(userKey, tmp) {
      BytewiseIsTotalOrder();
      BetweenUserKeys(BytewiseLess, key, tmp, []);
      KeyInBytes(SeekKey(tmp, MAX_SEQUENCE));
      r := Encode(SeekKey(tmp, MAX_SEQUENCE));
    }
  }
}
