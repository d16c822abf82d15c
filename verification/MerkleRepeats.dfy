/** Which longer lists share a root with a list, whatever the digests: those that repeat its last
    block, and for lists without repeats no others. */
module MerkleRepeats {
  import opened Basics
  import opened MerkleTree

  /** The largest power of two that divides `n`. */
  function Block(n: nat): (b: nat)
    requires n > 0
    ensures 1 <= b <= n
  {
    if n % 2 == 1 then 1 else 2 * Block(n / 2)
  }

  lemma {:induction false} FullBlock(n: nat)
    requires n > 0 && Block(n) == n
    ensures n == Pow2(Height(n))
  {
    if n > 1 {
      FullBlock(n / 2);
    }
  }

  /** Between a length and the end of its repeated block all blocks are shorter than what was added. */
  lemma {:induction false} SmallerBlock(n: nat, r: nat)
    requires n > 0 && 0 < r < Block(n)
    ensures Block(n + r) <= r
  {
    if r % 2 == 0 {
      SmallerBlock(n / 2, r / 2);
      assert (n + r) / 2 == n / 2 + r / 2;
    }
  }

  /** `xs` with its last block repeated. */
  function Repeated<D>(xs: seq<D>): seq<D>
    requires xs != []
  {
    xs + xs[|xs| - Block(|xs|)..]
  }

  // ----- Odd lengths: the last leaf pairs with itself -----

  predicate IsPadded<D(==)>(xs: seq<D>, ys: seq<D>) {
    |xs| % 2 == 1 && ys == xs + [xs[|xs| - 1]]
  }

  lemma PaddedBottom<D>(xs: seq<D>, ys: seq<D>, lo: nat)
    requires IsPadded(xs, ys) && lo % 2 == 0 && lo < |xs|
    ensures Completed(xs, lo, 1) == Completed(ys, lo, 1)
  {
    assert Right(|xs|, lo, 1) == if lo + 1 < |xs| then lo + 1 else lo;
    assert Right(|ys|, lo, 1) == lo + 1;
    assert Completed(xs, lo, 1) == [xs[lo], xs[Right(|xs|, lo, 1)]];
    assert Completed(ys, lo, 1) == [ys[lo], ys[lo + 1]];
  }

  lemma {:induction false} PaddedRow<D>(xs: seq<D>, ys: seq<D>, lo: nat, h: nat)
    requires IsPadded(xs, ys) && lo % 2 == 0 && lo < |xs| && h >= 1
    ensures Completed(xs, lo, h) == Completed(ys, lo, h)
    decreases h
  {
    if h == 1 {
      PaddedBottom(xs, ys, lo);
    } else {
      EvenRight(|xs|, lo, h);
      PaddedRow(xs, ys, lo, h - 1);
      PaddedRow(xs, ys, Right(|xs|, lo, h), h - 1);
    }
  }

  lemma EvenRight(n: nat, lo: nat, h: nat)
    requires n % 2 == 1 && lo % 2 == 0 && lo < n && h >= 2
    ensures Right(n, lo, h) % 2 == 0 && Right(n + 1, lo, h) == Right(n, lo, h)
  {
    assert Pow2(h - 1) == 2 * Pow2(h - 2);
  }

  lemma OddRepeat<D>(xs: seq<D>)
    requires |xs| > 1 && |xs| % 2 == 1
    ensures SameRow(xs, xs + [xs[|xs| - 1]])
  {
    HeightOfOdd(|xs|);
    PaddedRow(xs, xs + [xs[|xs| - 1]], 0, Height(|xs|));
  }

  // ----- Even lengths: the leaves in pairs -----

  function Paired<D>(xs: seq<D>): (ps: seq<(D, D)>)
    requires |xs| % 2 == 0
    ensures |ps| == |xs| / 2 && forall i :: 0 <= i < |ps| ==> ps[i] == (xs[2 * i], xs[2 * i + 1])
  {
    seq(|xs| / 2, i requires 0 <= i < |xs| / 2 => (xs[2 * i], xs[2 * i + 1]))
  }

  /** `row` is `prow`, taken apart. */
  ghost predicate IsUnpaired<D>(row: seq<D>, prow: seq<(D, D)>) {
    |row| == 2 * |prow| && forall i :: 0 <= i < |prow| ==> (row[2 * i], row[2 * i + 1]) == prow[i]
  }

  lemma UnpairedConcat<D>(a: seq<D>, pa: seq<(D, D)>, b: seq<D>, pb: seq<(D, D)>)
    requires IsUnpaired(a, pa) && IsUnpaired(b, pb)
    ensures IsUnpaired(a + b, pa + pb)
  {
    var n := |pa|;
    forall i | 0 <= i < |pa + pb| ensures ((a + b)[2 * i], (a + b)[2 * i + 1]) == (pa + pb)[i] {
      if i >= n {
        assert (b[2 * (i - n)], b[2 * (i - n) + 1]) == pb[i - n];
      }
    }
  }

  lemma UnpairedSame<D>(a: seq<D>, b: seq<D>, ps: seq<(D, D)>)
    requires IsUnpaired(a, ps) && IsUnpaired(b, ps)
    ensures a == b
  {
    forall k | 0 <= k < |a| ensures a[k] == b[k] {
      var i := k / 2;
      assert (a[2 * i], a[2 * i + 1]) == ps[i] == (b[2 * i], b[2 * i + 1]);
    }
  }

  lemma PairedBottom<D>(xs: seq<D>, lo: nat)
    requires |xs| % 2 == 0 && 2 * lo < |xs|
    ensures IsUnpaired(Completed(xs, 2 * lo, 1), Completed(Paired(xs), lo, 0))
  {
    assert Right(|xs|, 2 * lo, 1) == 2 * lo + 1;
    assert Completed(xs, 2 * lo, 1) == [xs[2 * lo], xs[2 * lo + 1]];
  }

  /** The row of a list of even length is the row of its pairs, taken apart. */
  lemma {:induction false} PairedRow<D>(xs: seq<D>, lo: nat, h: nat)
    requires |xs| % 2 == 0 && 2 * lo < |xs| && h >= 1
    ensures IsUnpaired(Completed(xs, 2 * lo, h), Completed(Paired(xs), lo, h - 1))
    decreases h
  {
    if h == 1 {
      PairedBottom(xs, lo);
    } else {
      var ps, right := Paired(xs), Right(|xs| / 2, lo, h - 1);
      LevelRight(|xs|, lo, h);
      PairedRow(xs, lo, h - 1);
      PairedRow(xs, right, h - 1);
      UnpairedConcat(Completed(xs, 2 * lo, h - 1), Completed(ps, lo, h - 2),
                     Completed(xs, 2 * right, h - 1), Completed(ps, right, h - 2));
    }
  }

  lemma HeightOfEven(n: nat)
    requires n > 0 && n % 2 == 0
    ensures Height(n) == 1 + Height(n / 2)
  {
    assert (n + 1) / 2 == n / 2;
  }

  lemma PairedRepeat<D>(xs: seq<D>)
    requires xs != [] && |xs| % 2 == 0
    ensures |Repeated(xs)| % 2 == 0 && Paired(Repeated(xs)) == Repeated(Paired(xs))
  {}

  lemma PairedSameRow<D>(xs: seq<D>, ys: seq<D>)
    requires xs != [] && ys != [] && |xs| % 2 == 0 && |ys| % 2 == 0 && SameRow(Paired(xs), Paired(ys))
    ensures SameRow(xs, ys)
  {
    var h := Height(|xs|);
    HeightOfEven(|xs|);
    HeightOfEven(|ys|);
    PairedRow(xs, 0, h);
    PairedRow(ys, 0, h);
    UnpairedSame(Completed(xs, 0, h), Completed(ys, 0, h), Completed(Paired(xs), 0, h - 1));
  }

  /** Repeating the last block, unless that is the whole list, leaves the row as it is. */
  lemma {:induction false} RepeatedBlock<D>(xs: seq<D>)
    requires xs != [] && Block(|xs|) < |xs|
    ensures SameRow(xs, Repeated(xs))
    decreases |xs|
  {
    if |xs| % 2 == 1 {
      OddRepeat(xs);
      assert xs[|xs| - 1..] == [xs[|xs| - 1]];
    } else {
      RepeatedBlock(Paired(xs));
      PairedRepeat(xs);
      PairedSameRow(xs, Repeated(xs));
    }
  }

  // ----- The only way -----

  /** What the row holds behind the list: its last block again. */
  lemma RowRepeats<D>(xs: seq<D>, i: nat)
    requires xs != [] && Block(|xs|) < |xs| && i < Block(|xs|)
    ensures var n, row := |xs|, Completed(xs, 0, Height(|xs|));
            n + i < |row| && row[n + i] == xs[n - Block(n) + i]
  {
    RepeatedBlock(xs);
    HeightIsCeilLog2(|Repeated(xs)|);
    CompletedIsRow(Repeated(xs), Height(|xs|), |xs| + i);
  }

  /** A longer list with one row has room for it: the shorter is no power of two long. */
  lemma RoomForBlock<D>(xs: seq<D>, ys: seq<D>)
    requires SameRow(xs, ys) && |xs| < |ys|
    ensures Block(|xs|) < |xs|
  {
    HeightIsCeilLog2(|ys|);
    if Block(|xs|) == |xs| {
      FullBlock(|xs|);
    }
  }

  /** Where two lists have one row, it is the longer list as far as that goes. */
  lemma RowAt<D>(xs: seq<D>, ys: seq<D>, k: nat)
    requires SameRow(xs, ys) && k < |ys|
    ensures var row := Completed(xs, 0, Height(|xs|)); k < |row| && row[k] == ys[k]
  {
    HeightIsCeilLog2(|ys|);
    CompletedIsRow(ys, Height(|ys|), k);
  }

  /** And continues with that block, as far as it goes. */
  lemma ContinuesWithBlock<D>(xs: seq<D>, ys: seq<D>, i: nat)
    requires SameRow(xs, ys) && |xs| < |ys| && Block(|xs|) < |xs|
    requires i < Block(|xs|) && |xs| + i < |ys|
    ensures ys[|xs| + i] == xs[|xs| - Block(|xs|) + i]
  {
    RowRepeats(xs, i);
    RowAt(xs, ys, |xs| + i);
  }

  /** A list that stops within the block shows a repeat in the shorter list. */
  lemma TooSoon<D>(xs: seq<D>, ys: seq<D>) returns (i: nat, j: nat)
    requires SameRow(xs, ys) && Block(|xs|) < |xs| < |ys| < |xs| + Block(|xs|)
    ensures i < j < |xs| && xs[i] == xs[j]
  {
    var n, m, b, c := |xs|, |ys|, Block(|xs|), Block(|ys|);
    SmallerBlock(n, m - n);
    RowRepeats(ys, 0);
    RowRepeats(xs, m - n);
    ContinuesWithBlock(xs, ys, m - c - n);
    i, j := m - c - b, m - b;
  }

  /** Within the block it cannot stop, if the shorter list repeats nothing itself. */
  lemma BlockIsWhole<D>(xs: seq<D>, ys: seq<D>)
    requires SameRow(xs, ys) && Block(|xs|) < |xs| < |ys| && Distinct(xs)
    ensures |xs| + Block(|xs|) <= |ys|
  {
    if |ys| < |xs| + Block(|xs|) {
      var i, j := TooSoon(xs, ys);
    }
  }

  lemma Continuation<D>(xs: seq<D>, ys: seq<D>)
    requires SameRow(xs, ys) && Block(|xs|) < |xs| < |xs| + Block(|xs|) <= |ys|
    ensures ys[|xs|..|xs| + Block(|xs|)] == xs[|xs| - Block(|xs|)..]
  {
    var tail, block := ys[|xs|..|xs| + Block(|xs|)], xs[|xs| - Block(|xs|)..];
    forall i | 0 <= i < |tail| ensures tail[i] == block[i] {
      ContinuesWithBlock(xs, ys, i);
    }
  }

  lemma RepeatedIs<D>(xs: seq<D>, ys: seq<D>)
    requires xs != [] && |xs| + Block(|xs|) <= |ys| && xs == ys[..|xs|]
    requires ys[|xs|..|xs| + Block(|xs|)] == xs[|xs| - Block(|xs|)..]
    ensures Repeated(xs) == ys[..|xs| + Block(|xs|)]
  {
    PrefixPlus(ys, |xs|, Block(|xs|));
  }

  lemma PrefixPlus<T>(ys: seq<T>, n: nat, b: nat)
    requires n + b <= |ys|
    ensures ys[..n] + ys[n..n + b] == ys[..n + b]
  {}

  lemma IsPrefix<D>(xs: seq<D>, ys: seq<D>)
    requires SameRow(xs, ys) && |xs| < |ys|
    ensures xs == ys[..|xs|]
  {
    SameRowMeaning(xs, ys);
  }

  /** A longer list with the row of a list without repeats begins by repeating its last block. */
  lemma OnlyBlocks<D>(xs: seq<D>, ys: seq<D>)
    requires SameRow(xs, ys) && |xs| < |ys| && Distinct(xs)
    ensures Block(|xs|) < |xs| && |xs| + Block(|xs|) <= |ys| && Repeated(xs) == ys[..|xs| + Block(|xs|)]
  {
    RoomForBlock(xs, ys);
    BlockIsWhole(xs, ys);
    IsPrefix(xs, ys);
    Continuation(xs, ys);
    RepeatedIs(xs, ys);
  }
}
