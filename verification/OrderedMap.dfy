/** The ledger's container, Rust's `BTreeMap<String, u64>`: entries kept strictly sorted by key.
    Such a sequence represents a map (`ToMap`), inserting into it updates the map, and every map
    has exactly one such sequence (`Canonical`), which is what iteration yields. Keys compare byte by
    byte; on UTF-8 that is the order of the code points, which `Less` compares. */
module OrderedMap {
  import opened Basics

  datatype Entry = Entry(key: string, value: u64)

  type State = map<string, u64>

  predicate Less(a: string, b: string) {
    b != "" && (a == "" || a[0] < b[0] || (a[0] == b[0] && Less(a[1..], b[1..])))
  }

  lemma {:induction false} LessIsStrictOrder(a: string, b: string, c: string)
    ensures !Less(a, a)
    ensures Less(a, b) && Less(b, c) ==> Less(a, c)
    ensures a != b ==> Less(a, b) || Less(b, a)
  {
    if a != "" {
      var b', c' := if b == "" then "" else b[1..], if c == "" then "" else c[1..];
      LessIsStrictOrder(a[1..], b', c');
      if b != "" && a[1..] == b[1..] {
        assert a == [a[0]] + a[1..] && b == [b[0]] + b[1..];
      }
    }
  }

  /** `a` is shorter and `b` begins with it, or at the first place where they differ `a` has the
      smaller character. */
  ghost predicate Precedes(a: string, b: string) {
    || (|a| < |b| && b[..|a|] == a)
    || (exists i :: 0 <= i < |a| && i < |b| && a[..i] == b[..i] && a[i] < b[i])
  }

  lemma PrecedesNext(a: string, b: string)
    requires a != [] && b != [] && a[0] == b[0]
    ensures Precedes(a, b) <==> Precedes(a[1..], b[1..])
  {
    assert a == [a[0]] + a[1..] && b == [b[0]] + b[1..];
    if |a| < |b| && b[1..][..|a| - 1] == a[1..] {
      assert b[..|a|] == [b[0]] + b[1..][..|a| - 1];
    }
    if |a| < |b| && b[..|a|] == a {
      assert b[1..][..|a| - 1] == b[..|a|][1..];
    }
    if i :| 0 <= i < |a| && i < |b| && a[..i] == b[..i] && a[i] < b[i] {
      assert a[1..][..i - 1] == a[..i][1..] && b[1..][..i - 1] == b[..i][1..];
      assert a[1..][i - 1] < b[1..][i - 1];
    }
    if i :| 0 <= i < |a[1..]| && i < |b[1..]| && a[1..][..i] == b[1..][..i] && a[1..][i] < b[1..][i] {
      assert a[..i + 1] == [a[0]] + a[1..][..i] && b[..i + 1] == [b[0]] + b[1..][..i];
      assert a[i + 1] < b[i + 1];
    }
  }

  /** The key order is lexicographic. */
  lemma {:induction false} LessIsLexicographic(a: string, b: string)
    ensures Less(a, b) <==> Precedes(a, b)
  {
    if a == "" || b == "" {
      assert b != "" ==> b[..0] == "";
    } else if a[0] == b[0] {
      LessIsLexicographic(a[1..], b[1..]);
      PrecedesNext(a, b);
    } else {
      assert a[..0] == b[..0];
    }
  }

  ghost predicate AllAbove(k: string, es: seq<Entry>) {
    forall e :: e in es ==> Less(k, e.key)
  }

  ghost predicate Sorted(es: seq<Entry>) {
    es != [] ==> AllAbove(es[0].key, es[1..]) && Sorted(es[1..])
  }

  function ToMap(es: seq<Entry>): State {
    if es == [] then map[] else ToMap(es[1..])[es[0].key := es[0].value]
  }

  function Lookup(m: State, k: string): u64 { if k in m then m[k] else 0 }

  /** A sorted sequence lists exactly the associations of its map. */
  lemma {:induction false} SortedMeaning(es: seq<Entry>)
    requires Sorted(es)
    ensures forall e :: e in es ==> e.key in ToMap(es) && ToMap(es)[e.key] == e.value
    ensures forall k :: k in ToMap(es) ==> Entry(k, ToMap(es)[k]) in es
  {
    if es != [] {
      SortedMeaning(es[1..]);
      LessIsStrictOrder(es[0].key, "", "");
    }
  }

  lemma {:induction false} SortedPairwise(es: seq<Entry>, i: nat, j: nat)
    requires Sorted(es) && i < j < |es|
    ensures es[i].key != es[j].key
  {
    if i == 0 {
      assert es[j] in es[1..];
      LessIsStrictOrder(es[0].key, "", "");
    } else {
      SortedPairwise(es[1..], i - 1, j - 1);
    }
  }

  lemma SortedDistinct(es: seq<Entry>)
    requires Sorted(es)
    ensures Distinct(es)
  {
    forall i, j | 0 <= i < j < |es| ensures es[i] != es[j] {
      SortedPairwise(es, i, j);
    }
  }

  function Find(es: seq<Entry>, k: string): (r: Option<u64>)
    ensures r == if k in ToMap(es) then Some(ToMap(es)[k]) else None
  {
    if es == [] then None
    else if es[0].key == k then Some(es[0].value)
    else Find(es[1..], k)
  }

  /** `BTreeMap::insert`: replace the value of a present key, or place a new entry in order. */
  function Put(es: seq<Entry>, k: string, v: u64): seq<Entry> {
    if es == [] then [Entry(k, v)]
    else if es[0].key == k then [Entry(k, v)] + es[1..]
    else if Less(k, es[0].key) then [Entry(k, v)] + es
    else [es[0]] + Put(es[1..], k, v)
  }

  lemma {:induction false} PutUpdates(es: seq<Entry>, k: string, v: u64)
    ensures ToMap(Put(es, k, v)) == ToMap(es)[k := v]
  {
    var r := Put(es, k, v);
    if es == [] || es[0].key == k {
    } else if Less(k, es[0].key) {
      assert r[1..] == es;
    } else {
      PutUpdates(es[1..], k, v);
      assert r[1..] == Put(es[1..], k, v);
    }
  }

  lemma {:induction false} PutAdds(es: seq<Entry>, k: string, v: u64)
    ensures forall e :: e in Put(es, k, v) ==> e.key == k || e in es
  {
    if es != [] && es[0].key != k && !Less(k, es[0].key) {
      PutAdds(es[1..], k, v);
    }
  }

  lemma {:induction false} PutSorts(es: seq<Entry>, k: string, v: u64)
    requires Sorted(es)
    ensures Sorted(Put(es, k, v))
  {
    var r := Put(es, k, v);
    if es == [] || es[0].key == k {
      assert es != [] ==> r[1..] == es[1..];
    } else if Less(k, es[0].key) {
      assert r[1..] == es;
      forall e | e in es ensures Less(k, e.key) {
        LessIsStrictOrder(k, es[0].key, e.key);
      }
    } else {
      PutSorts(es[1..], k, v);
      PutAdds(es[1..], k, v);
      LessIsStrictOrder(es[0].key, k, "");
      assert r[1..] == Put(es[1..], k, v);
    }
  }

  lemma PutMeaning(es: seq<Entry>, k: string, v: u64)
    requires Sorted(es)
    ensures Sorted(Put(es, k, v)) && ToMap(Put(es, k, v)) == ToMap(es)[k := v]
  {
    PutSorts(es, k, v);
    PutUpdates(es, k, v);
  }

  lemma HeadOnlyOnce(a: seq<Entry>)
    requires Sorted(a) && a != []
    ensures a[0].key !in ToMap(a[1..])
  {
    SortedMeaning(a[1..]);
    LessIsStrictOrder(a[0].key, "", "");
  }

  lemma TailMeaning(a: seq<Entry>)
    requires Sorted(a) && a != []
    ensures Sorted(a[1..]) && ToMap(a[1..]) == ToMap(a) - {a[0].key}
  {
    HeadOnlyOnce(a);
  }

  lemma {:induction false} SizeMeaning(es: seq<Entry>)
    requires Sorted(es)
    ensures |ToMap(es)| == |es|
  {
    if es != [] {
      TailMeaning(es);
      SizeMeaning(es[1..]);
      assert ToMap(es).Keys == ToMap(es[1..]).Keys + {es[0].key};
    }
  }

  lemma HeadIsLeast(a: seq<Entry>, b: seq<Entry>)
    requires Sorted(a) && Sorted(b) && ToMap(a) == ToMap(b) && a != [] && b != []
    ensures a[0].key == b[0].key || Less(a[0].key, b[0].key)
    ensures a[0].key == b[0].key ==> a[0] == b[0]
  {
    SortedMeaning(a);
    assert Entry(b[0].key, ToMap(b)[b[0].key]) in a;
  }

  /** Canonical form: the map alone determines the sequence, whatever the insertion order. */
  lemma {:induction false} Canonical(a: seq<Entry>, b: seq<Entry>)
    requires Sorted(a) && Sorted(b) && ToMap(a) == ToMap(b)
    ensures a == b
  {
    SizeMeaning(a);
    SizeMeaning(b);
    if a != [] {
      HeadIsLeast(a, b);
      HeadIsLeast(b, a);
      LessIsStrictOrder(a[0].key, b[0].key, a[0].key);
      assert a[0] == b[0];
      TailMeaning(a);
      TailMeaning(b);
      Canonical(a[1..], b[1..]);
    }
  }

  /** The entries of a map, in key order: what iterating the `BTreeMap` yields. */
  ghost function Entries(m: State): (es: seq<Entry>)
    ensures Sorted(es) && ToMap(es) == m
  {
    if m == map[] then []
    else
      var k :| k in m;
      var rest := Entries(m - {k});
      PutMeaning(rest, k, m[k]);
      assert (m - {k})[k := m[k]] == m;
      Put(rest, k, m[k])
  }

  /** The only form a ledger is kept in. */
  type Ordered = es: seq<Entry> | Sorted(es)

  class BTreeMap {
    var entries: Ordered

    /** The map the entries represent. */
    ghost function Contents(): State
      reads this
    {
      ToMap(entries)
    }

    constructor ()
      ensures Contents() == map[]
    {
      entries := [];
    }

    constructor Clone(other: BTreeMap)
      ensures Contents() == other.Contents()
    {
      entries := other.entries;
    }

    /** `is_empty` */
    method IsEmpty() returns (empty: bool)
      ensures empty <==> Contents() == map[]
    {
      SizeMeaning(entries);
      empty := |entries| == 0;
    }

    /** `*get(k).unwrap_or(&0)` */
    method GetOrZero(k: string) returns (v: u64)
      ensures v == Lookup(Contents(), k)
    {
      var found := Find(entries, k);
      v := match found case Some(value) => value case None => 0;
    }

    method Insert(k: string, v: u64)
      modifies this
      ensures Contents() == old(Contents())[k := v]
    {
      PutMeaning(entries, k, v);
      entries := Put(entries, k, v);
    }

    /** `entry(k).or_insert(v)` */
    method OrInsert(k: string, v: u64)
      modifies this
      ensures Contents() == if k in old(Contents()) then old(Contents()) else old(Contents())[k := v]
    {
      var found := Find(entries, k);
      if found == None {
        PutMeaning(entries, k, v);
        entries := Put(entries, k, v);
      }
    }

    /** `*entry(k).or_insert(0) -= amount` */
    method Debit(k: string, amount: u64)
      requires amount <= Lookup(Contents(), k)
      modifies this
      ensures Contents() == old(Contents())[k := Lookup(old(Contents()), k) - amount]
    {
      OrInsert(k, 0);
      var v := GetOrZero(k);
      Insert(k, v - amount);
    }

    /** `*entry(k).or_insert(0) += amount` */
    method Credit(k: string, amount: u64)
      modifies this
      ensures Contents() == old(Contents())[k := WrappingAdd(Lookup(old(Contents()), k), amount)]
    {
      OrInsert(k, 0);
      var v := GetOrZero(k);
      Insert(k, WrappingAdd(v, amount));
    }

    /** `iter().collect()`: the one sorted sequence of the map, however it was built. */
    method Iterate() returns (es: seq<Entry>)
      ensures es == Entries(Contents())
    {
      es := entries;
      Canonical(es, Entries(Contents()));
    }
  }
}
