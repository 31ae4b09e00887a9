// Entries of the key-value store: user key, sequence number, kind and value.
// A store is a collection of such entries; what a reader sees at a sequence
// number is the newest entry at or below it, deletions hiding the key.
module Entries {
  import opened Basics

  type Key = seq<Byte>

  type Value = seq<Byte>

  datatype Kind = Deletion | Put

  datatype Entry = Entry(key: Key, seqno: nat, kind: Kind, value: Value)

  // Sequence numbers take 56 bits; eight are left for the kind.
  const MAX_SEQUENCE := 0xff_ffff_ffff_ffff

  // The user comparator: less(a, b) is Compare(a, b) < 0.
  type KeyOrder = (Key, Key) -> bool

  // What the store asks of a user comparator.
  ghost predicate TotalOrder(less: KeyOrder) {
    && (forall a: Key :: !less(a, a))
    && (forall a: Key, b: Key, c: Key :: less(a, b) && less(b, c) ==> less(a, c))
    && (forall a: Key, b: Key :: a != b ==> less(a, b) || less(b, a))
  }

  // The internal key order: user key up, then sequence number down.
  predicate Precedes(less: KeyOrder, a: Entry, b: Entry) {
    less(a.key, b.key) || (a.key == b.key && a.seqno > b.seqno)
  }

  ghost predicate Sorted(less: KeyOrder, es: seq<Entry>) {
    forall i, j :: 0 <= i < j < |es| ==> Precedes(less, es[i], es[j])
  }

  // e decides what a reader at sequence number s sees for its key.
  ghost predicate Newest(es: set<Entry>, s: nat, e: Entry) {
    && e in es
    && e.seqno <= s
    && forall f :: f in es && f.key == e.key && f.seqno <= s ==> f.seqno <= e.seqno
  }

  // No two entries of one key share a sequence number.
  ghost predicate Distinct(es: set<Entry>) {
    forall e, f :: e in es && f in es && e.key == f.key && e.seqno == f.seqno ==> e == f
  }

  // The sorted map a reader at sequence number s is entitled to see.
  ghost function View(es: set<Entry>, s: nat): map<Key, Value>
    requires Distinct(es)
  {
    map e | e in es && Newest(es, s, e) && e.kind.Put? :: e.key := e.value
  }
}
