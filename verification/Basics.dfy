/** Vocabulary shared by every component: machine integers, options and results,
    and the few operations on sequences that the models and their laws need. */
module Basics {
  const U64_LIMIT: nat := 0x1_0000_0000_0000_0000
  const U64_MAX: nat := 0xFFFF_FFFF_FFFF_FFFF

  type u64 = x: nat | x < 0x1_0000_0000_0000_0000
  type byte = x: nat | x < 0x100

  datatype Option<+T> = None | Some(value: T)

  datatype Result<+T, +E> = Success(value: T) | Failure(error: E)

  function Min(a: nat, b: nat): nat { if a <= b then a else b }

  function Max(a: nat, b: nat): nat { if a <= b then b else a }

  function Distance(a: nat, b: nat): nat { if a <= b then b - a else a - b }

  function WrappingAdd(a: u64, b: u64): u64 { if a + b <= U64_MAX then a + b else a + b - U64_LIMIT }

  /** Rust's `saturating_sub`. */
  function SaturatingSub(a: nat, b: nat): nat { if a <= b then 0 else a - b }

  function Sum(s: seq<nat>): nat {
    if s == [] then 0 else Sum(s[..|s| - 1]) + s[|s| - 1]
  }

  function Flatten<T>(ss: seq<seq<T>>): seq<T> {
    if ss == [] then [] else Flatten(ss[..|ss| - 1]) + ss[|ss| - 1]
  }

  ghost function Elements<T>(s: seq<T>): set<T> { set x | x in s }

  ghost predicate Distinct<T>(s: seq<T>) {
    forall i, j :: 0 <= i < j < |s| ==> s[i] != s[j]
  }

  lemma MulMonotone(a: nat, b: nat, d: nat)
    requires a <= b
    ensures a * d <= b * d
  {}

  lemma TimesNext(b: nat, n: nat)
    ensures b * (n + 1) == b * n + b
  {}

  lemma MulStrict(x: real, y: real, d: real)
    requires x > y && d > 0.0
    ensures x * d > y * d
  {}

  lemma DivideBack(x: real, d: real)
    requires d > 0.0
    ensures (x / d) * d == x
  {}

  lemma TakeNext<T>(s: seq<T>, i: nat)
    requires i < |s|
    ensures s[..i + 1] == s[..i] + [s[i]]
  {}

  lemma TakeAll<T>(s: seq<T>)
    ensures s[..|s|] == s
  {}

  lemma SumSnoc(s: seq<nat>, x: nat)
    ensures Sum(s + [x]) == Sum(s) + x
  {
    assert (s + [x])[..|s|] == s;
  }

  lemma FlattenSnoc<T>(ss: seq<seq<T>>, s: seq<T>)
    ensures Flatten(ss + [s]) == Flatten(ss) + s
  {
    assert (ss + [s])[..|ss|] == ss;
  }

  /** Every part of a flattened sequence is a stretch of it. */
  lemma {:induction false} FlattenAt<T>(ss: seq<seq<T>>, j: nat) returns (at: nat)
    requires j < |ss|
    ensures at + |ss[j]| <= |Flatten(ss)| && Flatten(ss)[at..at + |ss[j]|] == ss[j]
  {
    var n := |ss| - 1;
    if j == n {
      at := |Flatten(ss[..n])|;
    } else {
      at := FlattenAt(ss[..n], j);
    }
  }

  lemma {:induction false} SumConcat(a: seq<nat>, b: seq<nat>)
    ensures Sum(a + b) == Sum(a) + Sum(b)
    decreases |b|
  {
    if b == [] {
      assert a + b == a;
    } else {
      var b' := b[..|b| - 1];
      SumConcat(a, b');
      assert (a + b)[..|a + b| - 1] == a + b';
    }
  }

  /** Of two pointwise ordered sequences the sums are ordered, and equal only for equal sequences. */
  lemma {:induction false} SumsCompare(a: seq<nat>, b: seq<nat>)
    requires |a| == |b| && forall i :: 0 <= i < |a| ==> a[i] <= b[i]
    ensures Sum(a) <= Sum(b) && (Sum(a) == Sum(b) <==> a == b)
  {
    if a != [] {
      var n := |a| - 1;
      SumsCompare(a[..n], b[..n]);
      TakeNext(a, n);
      TakeNext(b, n);
    }
  }

  lemma {:induction false} SumBounded(a: seq<nat>, bound: nat)
    requires forall i :: 0 <= i < |a| ==> a[i] <= bound
    ensures Sum(a) <= bound * |a|
  {
    if a != [] {
      SumBounded(a[..|a| - 1], bound);
    }
  }
}
