/** The shape of the Merkle construction, over any digests and any way `node` of combining two
    of them: the level loop's result read from the root down, and what a shared root implies. */
module MerkleTree {
  import opened Basics

  function Pow2(k: nat): (p: nat)
    ensures p >= 1
  {
    if k == 0 then 1 else 2 * Pow2(k - 1)
  }

  /** ceil(log2(n)), the number of levels above `n` leaves. */
  function Height(n: nat): nat {
    if n <= 1 then 0 else 1 + Height((n + 1) / 2)
  }

  lemma {:induction false} HeightIsCeilLog2(n: nat)
    requires n >= 1
    ensures n <= Pow2(Height(n))
    ensures n > 1 ==> Pow2(Height(n) - 1) < n
  {
    if n > 1 {
      HeightIsCeilLog2((n + 1) / 2);
    }
  }

  /** First leaf of the right half of the node of height `h` above leaf `lo`: the next
      2^(h-1) block of leaves, or again the left half when there is none. */
  function Right(n: nat, lo: nat, h: nat): (right: nat)
    requires h >= 1 && lo < n
    ensures right < n
  {
    if lo + Pow2(h - 1) < n then lo + Pow2(h - 1) else lo
  }

  /** The commitment read from the root down: the node of height `h` whose leftmost leaf is
      number `lo` splits its leaves after the first 2^(h-1). */
  function Tree<D>(node: (D, D) -> D, xs: seq<D>, lo: nat, h: nat): D
    requires lo < |xs|
    decreases h
  {
    if h == 0 then xs[lo]
    else node(Tree(node, xs, lo, h - 1), Tree(node, xs, Right(|xs|, lo, h), h - 1))
  }

  /** The two digests combined at that node. */
  function Halves<D>(node: (D, D) -> D, xs: seq<D>, lo: nat, h: nat): (D, D)
    requires h >= 1 && lo < |xs|
  {
    (Tree(node, xs, lo, h - 1), Tree(node, xs, Right(|xs|, lo, h), h - 1))
  }

  /** Every pair combined at or below that node. */
  ghost function Pairs<D>(node: (D, D) -> D, xs: seq<D>, lo: nat, h: nat): set<(D, D)>
    requires lo < |xs|
    decreases h
  {
    if h == 0 then {}
    else {Halves(node, xs, lo, h)} + Pairs(node, xs, lo, h - 1) + Pairs(node, xs, Right(|xs|, lo, h), h - 1)
  }

  // ----- One level up -----

  function Chunk<D>(xs: seq<D>, i: nat): (D, D)
    requires 2 * i < |xs|
  {
    (xs[2 * i], if 2 * i + 1 < |xs| then xs[2 * i + 1] else xs[2 * i])
  }

  /** `cs` lists the pairs combined for one level, `next` their digests. */
  ghost predicate IsLevel<D>(node: (D, D) -> D, xs: seq<D>, cs: seq<(D, D)>, next: seq<D>) {
    && |cs| == |next| == (|xs| + 1) / 2
    && forall i :: 0 <= i < |cs| ==> cs[i] == Chunk(xs, i) && next[i] == node(cs[i].0, cs[i].1)
  }

  lemma LevelRight(n: nat, lo: nat, h: nat)
    requires h >= 2 && 2 * lo < n
    ensures Right(n, 2 * lo, h) == 2 * Right((n + 1) / 2, lo, h - 1)
  {}

  /** Combining one level of pairs leaves every node above it as it was. */
  lemma {:induction false} LevelKeepsTree<D>(node: (D, D) -> D, xs: seq<D>, cs: seq<(D, D)>, next: seq<D>, lo: nat, h: nat)
    requires IsLevel(node, xs, cs, next) && h >= 1 && 2 * lo < |xs|
    ensures Tree(node, next, lo, h - 1) == Tree(node, xs, 2 * lo, h)
    decreases h
  {
    if h == 1 {
      assert Halves(node, xs, 2 * lo, 1) == Chunk(xs, lo) == cs[lo];
    } else {
      LevelRight(|xs|, lo, h);
      LevelKeepsTree(node, xs, cs, next, lo, h - 1);
      LevelKeepsTree(node, xs, cs, next, Right(|next|, lo, h - 1), h - 1);
    }
  }

  lemma LevelKeepsHalves<D>(node: (D, D) -> D, xs: seq<D>, cs: seq<(D, D)>, next: seq<D>, lo: nat, h: nat)
    requires IsLevel(node, xs, cs, next) && h >= 2 && 2 * lo < |xs|
    ensures Halves(node, xs, 2 * lo, h) == Halves(node, next, lo, h - 1)
  {
    LevelRight(|xs|, lo, h);
    LevelKeepsTree(node, xs, cs, next, lo, h - 1);
    LevelKeepsTree(node, xs, cs, next, Right(|next|, lo, h - 1), h - 1);
  }

  lemma LowestPair<D>(node: (D, D) -> D, xs: seq<D>, cs: seq<(D, D)>, next: seq<D>, lo: nat, p: (D, D))
    requires IsLevel(node, xs, cs, next) && 2 * lo < |xs|
    ensures p in Pairs(node, xs, 2 * lo, 1) <==> p in Window(cs, lo, 0) || p in Pairs(node, next, lo, 0)
  {
    assert Halves(node, xs, 2 * lo, 1) == Chunk(xs, lo) == cs[lo];
  }

  lemma PairsSplit<D>(node: (D, D) -> D, xs: seq<D>, lo: nat, h: nat, p: (D, D))
    requires lo < |xs| && h >= 1
    ensures p in Pairs(node, xs, lo, h) <==>
      p == Halves(node, xs, lo, h) || p in Pairs(node, xs, lo, h - 1) || p in Pairs(node, xs, Right(|xs|, lo, h), h - 1)
  {}

  lemma WindowSplit<T>(cs: seq<T>, lo: nat, h: nat, t: T)
    requires lo < |cs| && h >= 1
    ensures t in Window(cs, lo, h) <==> t in Window(cs, lo, h - 1) || t in Window(cs, Right(|cs|, lo, h), h - 1)
  {}

  /** The step of the induction below: what holds of both halves of a node holds of the node. */
  lemma LevelSplit<D>(node: (D, D) -> D, xs: seq<D>, cs: seq<(D, D)>, next: seq<D>, lo: nat, h: nat, p: (D, D))
    requires IsLevel(node, xs, cs, next) && h >= 2 && 2 * lo < |xs|
    requires p in Pairs(node, xs, 2 * lo, h - 1) <==> p in Window(cs, lo, h - 2) || p in Pairs(node, next, lo, h - 2)
    requires var right := Right(|next|, lo, h - 1);
             p in Pairs(node, xs, 2 * right, h - 1) <==> p in Window(cs, right, h - 2) || p in Pairs(node, next, right, h - 2)
    ensures p in Pairs(node, xs, 2 * lo, h) <==> p in Window(cs, lo, h - 1) || p in Pairs(node, next, lo, h - 1)
  {
    LevelRight(|xs|, lo, h);
    LevelKeepsHalves(node, xs, cs, next, lo, h);
    PairsSplit(node, xs, 2 * lo, h, p);
    PairsSplit(node, next, lo, h - 1, p);
    WindowSplit(cs, lo, h - 1, p);
  }

  /** A pair is combined in the tree exactly when it is combined on this level or above it. */
  lemma {:induction false} LevelKeepsPair<D>(node: (D, D) -> D, xs: seq<D>, cs: seq<(D, D)>, next: seq<D>, lo: nat, h: nat, p: (D, D))
    requires IsLevel(node, xs, cs, next) && h >= 1 && 2 * lo < |xs|
    ensures p in Pairs(node, xs, 2 * lo, h) <==> p in Window(cs, lo, h - 1) || p in Pairs(node, next, lo, h - 1)
    decreases h
  {
    if h == 1 {
      LowestPair(node, xs, cs, next, lo, p);
    } else {
      LevelKeepsPair(node, xs, cs, next, lo, h - 1, p);
      LevelKeepsPair(node, xs, cs, next, Right(|next|, lo, h - 1), h - 1, p);
      LevelSplit(node, xs, cs, next, lo, h, p);
    }
  }

  /** The pairs of the tree are the pairs of this level and those of the levels above it. */
  lemma LevelKeepsPairs<D(!new)>(node: (D, D) -> D, xs: seq<D>, cs: seq<(D, D)>, next: seq<D>, lo: nat, h: nat)
    requires IsLevel(node, xs, cs, next) && h >= 1 && 2 * lo < |xs|
    ensures Pairs(node, xs, 2 * lo, h) == Window(cs, lo, h - 1) + Pairs(node, next, lo, h - 1)
  {
    forall p ensures p in Pairs(node, xs, 2 * lo, h) <==> p in Window(cs, lo, h - 1) + Pairs(node, next, lo, h - 1) {
      LevelKeepsPair(node, xs, cs, next, lo, h, p);
    }
  }

  /** The members of `cs` below the node of height `h` above position `lo`. */
  ghost function Window<T>(cs: seq<T>, lo: nat, h: nat): set<T>
    requires lo < |cs|
    decreases h
  {
    if h == 0 then {cs[lo]} else Window(cs, lo, h - 1) + Window(cs, Right(|cs|, lo, h), h - 1)
  }

  lemma {:induction false} WindowCovers<T>(cs: seq<T>, lo: nat, h: nat)
    requires lo < |cs|
    ensures forall s :: s in Window(cs, lo, h) ==> s in cs
    ensures forall i :: lo <= i < |cs| && i < lo + Pow2(h) ==> cs[i] in Window(cs, lo, h)
    decreases h
  {
    if h > 0 {
      WindowCovers(cs, lo, h - 1);
      WindowCovers(cs, Right(|cs|, lo, h), h - 1);
    }
  }

  /** Where the level loop stands: `combined` pairs have been hashed on `levels` levels, and
      the tree over `current` is what is left of the tree over `leaves`. */
  ghost predicate Progress<D>(node: (D, D) -> D, leaves: seq<D>, current: seq<D>, combined: seq<(D, D)>, levels: nat) {
    var h := Height(|leaves|);
    && leaves != [] && levels <= h && 1 <= |current| <= Pow2(h - levels)
    && (levels < h ==> Pow2(h - levels - 1) < |current|)
    && Tree(node, current, 0, h - levels) == Tree(node, leaves, 0, h)
    && Elements(combined) + Pairs(node, current, 0, h - levels) == Pairs(node, leaves, 0, h)
    && |leaves| <= |combined| + |current| <= |leaves| + levels
  }

  lemma ProgressStart<D>(node: (D, D) -> D, leaves: seq<D>)
    requires leaves != []
    ensures Progress(node, leaves, leaves, [], 0)
  {
    HeightIsCeilLog2(|leaves|);
  }

  lemma ProgressStep<D(!new)>(node: (D, D) -> D, leaves: seq<D>, current: seq<D>, combined: seq<(D, D)>, levels: nat,
                        cs: seq<(D, D)>, next: seq<D>)
    requires Progress(node, leaves, current, combined, levels) && |current| > 1
    requires IsLevel(node, current, cs, next)
    ensures Progress(node, leaves, next, combined + cs, levels + 1)
  {
    var h := Height(|leaves|) - levels;
    LevelKeepsTree(node, current, cs, next, 0, h);
    LevelKeepsPairs(node, current, cs, next, 0, h);
    WindowCovers(cs, 0, h - 1);
    assert Window(cs, 0, h - 1) == Elements(cs);
    assert Elements(combined + cs) == Elements(combined) + Elements(cs);
  }

  lemma ProgressDone<D>(node: (D, D) -> D, leaves: seq<D>, current: seq<D>, combined: seq<(D, D)>, levels: nat)
    requires Progress(node, leaves, current, combined, levels) && |current| == 1
    ensures levels == Height(|leaves|)
    ensures current[0] == Tree(node, leaves, 0, levels)
    ensures Elements(combined) == Pairs(node, leaves, 0, levels)
    ensures |leaves| - 1 <= |combined| <= |leaves| - 1 + levels
  {}

  // ----- What a shared root implies -----

  ghost predicate Collides<D>(node: (D, D) -> D, pairs: set<(D, D)>) {
    exists p, q :: p in pairs && q in pairs && p != q && node(p.0, p.1) == node(q.0, q.1)
  }

  lemma CollidesMore<D>(node: (D, D) -> D, small: set<(D, D)>, large: set<(D, D)>)
    requires small <= large
    ensures Collides(node, small) ==> Collides(node, large)
  {}

  /** The leaves below a node of height `h`, absent halves filled in by mirroring. */
  ghost function Completed<D>(xs: seq<D>, lo: nat, h: nat): seq<D>
    requires lo < |xs|
    decreases h
  {
    if h == 0 then [xs[lo]] else Completed(xs, lo, h - 1) + Completed(xs, Right(|xs|, lo, h), h - 1)
  }

  lemma {:induction false} CompletedLength<D>(xs: seq<D>, lo: nat, h: nat)
    requires lo < |xs|
    ensures |Completed(xs, lo, h)| == Pow2(h)
    decreases h
  {
    if h > 0 {
      CompletedLength(xs, lo, h - 1);
      CompletedLength(xs, Right(|xs|, lo, h), h - 1);
    }
  }

  lemma {:induction false} CompletedExtends<D>(xs: seq<D>, lo: nat, h: nat, i: nat)
    requires lo <= i < |xs| && i < lo + Pow2(h)
    ensures |Completed(xs, lo, h)| == Pow2(h) && Completed(xs, lo, h)[i - lo] == xs[i]
    decreases h
  {
    CompletedLength(xs, lo, h);
    if h > 0 {
      var right := Right(|xs|, lo, h);
      CompletedLength(xs, lo, h - 1);
      if i < lo + Pow2(h - 1) {
        CompletedExtends(xs, lo, h - 1, i);
      } else {
        CompletedExtends(xs, right, h - 1, i);
      }
    }
  }

  /** Past the end of the list, a completed row repeats one of the list's leaves. */
  lemma {:induction false} CompletedRepeats<D>(xs: seq<D>, lo: nat, h: nat)
    requires lo < |xs|
    ensures forall s :: s in Completed(xs, lo, h) ==> s in xs
    decreases h
  {
    if h > 0 {
      CompletedRepeats(xs, lo, h - 1);
      CompletedRepeats(xs, Right(|xs|, lo, h), h - 1);
    }
  }

  /** The row of the whole tree begins with the list and holds nothing else. */
  lemma CompletedIsRow<D>(xs: seq<D>, h: nat, i: nat)
    requires i < |xs| <= Pow2(h)
    ensures |Completed(xs, 0, h)| == Pow2(h) && Completed(xs, 0, h)[i] == xs[i]
    ensures forall s :: s in Completed(xs, 0, h) ==> s in xs
  {
    CompletedExtends(xs, 0, h, i);
    CompletedRepeats(xs, 0, h);
  }

  lemma {:induction false} CompletedDecides<D>(node: (D, D) -> D, xs: seq<D>, i: nat, ys: seq<D>, j: nat, h: nat)
    requires i < |xs| && j < |ys| && Completed(xs, i, h) == Completed(ys, j, h)
    ensures Tree(node, xs, i, h) == Tree(node, ys, j, h)
    decreases h
  {
    if h == 0 {
      assert Completed(xs, i, 0)[0] == Completed(ys, j, 0)[0];
    } else {
      var i', j' := Right(|xs|, i, h), Right(|ys|, j, h);
      SameHalves(xs, i, ys, j, h);
      CompletedDecides(node, xs, i, ys, j, h - 1);
      CompletedDecides(node, xs, i', ys, j', h - 1);
    }
  }

  lemma SameHalves<D>(xs: seq<D>, i: nat, ys: seq<D>, j: nat, h: nat)
    requires i < |xs| && j < |ys| && h >= 1 && Completed(xs, i, h) == Completed(ys, j, h)
    ensures Completed(xs, i, h - 1) == Completed(ys, j, h - 1)
    ensures Completed(xs, Right(|xs|, i, h), h - 1) == Completed(ys, Right(|ys|, j, h), h - 1)
  {
    CompletedLength(xs, i, h - 1);
    CompletedLength(ys, j, h - 1);
    SplitAt(Completed(xs, i, h - 1), Completed(xs, Right(|xs|, i, h), h - 1),
            Completed(ys, j, h - 1), Completed(ys, Right(|ys|, j, h), h - 1));
  }

  lemma SplitAt<T>(a: seq<T>, b: seq<T>, c: seq<T>, d: seq<T>)
    requires |a| == |c| && a + b == c + d
    ensures a == c && b == d
  {
    assert a == (a + b)[..|a|] && c == (c + d)[..|a|];
    assert b == (a + b)[|a|..] && d == (c + d)[|a|..];
  }

  /** Two lists that the tree cannot tell apart: as high, and the same once completed. */
  ghost predicate SameRow<D>(xs: seq<D>, ys: seq<D>) {
    && xs != [] && ys != [] && Height(|xs|) == Height(|ys|)
    && Completed(xs, 0, Height(|xs|)) == Completed(ys, 0, Height(|ys|))
  }

  /** Of two such lists the shorter is a prefix of the longer, which only repeats leaves after it. */
  lemma SameRowMeaning<D>(xs: seq<D>, ys: seq<D>)
    requires SameRow(xs, ys) && |xs| <= |ys|
    ensures xs == ys[..|xs|]
    ensures forall i :: |xs| <= i < |ys| ==> ys[i] in xs
  {
    var h := Height(|xs|);
    HeightIsCeilLog2(|xs|);
    HeightIsCeilLog2(|ys|);
    forall i | 0 <= i < |xs| ensures xs[i] == ys[i] {
      CompletedIsRow(xs, h, i);
      CompletedIsRow(ys, h, i);
    }
    forall i | |xs| <= i < |ys| ensures ys[i] in xs {
      CompletedIsRow(xs, h, 0);
      CompletedIsRow(ys, h, i);
      assert ys[i] in Completed(xs, 0, h);
    }
  }

  lemma NotBefore<D>(ys: seq<D>, n: nat)
    requires Distinct(ys) && n < |ys|
    ensures ys[n] !in ys[..n]
  {}

  lemma SameRowDistinct<D>(xs: seq<D>, ys: seq<D>)
    requires SameRow(xs, ys) && |xs| <= |ys| && Distinct(ys)
    ensures xs == ys
  {
    SameRowMeaning(xs, ys);
    if |xs| < |ys| {
      NotBefore(ys, |xs|);
    }
  }

  /** Two inner nodes with one digest combine one pair of digests, or show a collision. */
  lemma SameNodeHalves<D>(node: (D, D) -> D, xs: seq<D>, i: nat, h: nat, ys: seq<D>, j: nat, k: nat)
    requires h >= 1 && i < |xs| && k >= 1 && j < |ys|
    requires Tree(node, xs, i, h) == Tree(node, ys, j, k)
    requires !Collides(node, Pairs(node, xs, i, h) + Pairs(node, ys, j, k))
    ensures Halves(node, xs, i, h) == Halves(node, ys, j, k)
  {
    var p, q := Halves(node, xs, i, h), Halves(node, ys, j, k);
    assert p in Pairs(node, xs, i, h) && q in Pairs(node, ys, j, k);
    assert node(p.0, p.1) == node(q.0, q.1);
  }

  /** Equal roots at equal heights: the completed leaf rows agree, or two pairs collide. */
  lemma {:induction false} SameHeightBinding<D>(node: (D, D) -> D, xs: seq<D>, i: nat, ys: seq<D>, j: nat, h: nat)
    requires i < |xs| && j < |ys|
    requires Tree(node, xs, i, h) == Tree(node, ys, j, h)
    ensures Completed(xs, i, h) == Completed(ys, j, h)
         || Collides(node, Pairs(node, xs, i, h) + Pairs(node, ys, j, h))
    decreases h
  {
    var all := Pairs(node, xs, i, h) + Pairs(node, ys, j, h);
    if h > 0 && !Collides(node, all) {
      SameNodeHalves(node, xs, i, h, ys, j, h);
      var i', j' := Right(|xs|, i, h), Right(|ys|, j, h);
      SameHeightBinding(node, xs, i, ys, j, h - 1);
      SameHeightBinding(node, xs, i', ys, j', h - 1);
      CollidesMore(node, Pairs(node, xs, i, h - 1) + Pairs(node, ys, j, h - 1), all);
      CollidesMore(node, Pairs(node, xs, i', h - 1) + Pairs(node, ys, j', h - 1), all);
    }
  }

  lemma LeftPairs<D>(node: (D, D) -> D, xs: seq<D>, i: nat, h: nat, ys: seq<D>, j: nat, k: nat)
    requires i < |xs| && j < |ys| && h >= 1 && k >= 1
    requires !Collides(node, Pairs(node, xs, i, h) + Pairs(node, ys, j, k))
    ensures !Collides(node, Pairs(node, xs, i, h - 1) + Pairs(node, ys, j, k - 1))
  {
    CollidesMore(node, Pairs(node, xs, i, h - 1) + Pairs(node, ys, j, k - 1), Pairs(node, xs, i, h) + Pairs(node, ys, j, k));
  }

  /** Equal roots at different heights: descending to the left, the shorter tree runs out of
      levels first, so one of its leaves is an inner node of the other tree. */
  lemma {:induction false} ShorterTree<D>(node: (D, D) -> D, xs: seq<D>, i: nat, h: nat, ys: seq<D>, j: nat, k: nat)
    requires i < |xs| && j < |ys| && h <= k
    requires Tree(node, xs, i, h) == Tree(node, ys, j, k)
    ensures xs[i] == Tree(node, ys, j, k - h)
         || Collides(node, Pairs(node, xs, i, h) + Pairs(node, ys, j, k))
    decreases h
  {
    if h > 0 && !Collides(node, Pairs(node, xs, i, h) + Pairs(node, ys, j, k)) {
      SameNodeHalves(node, xs, i, h, ys, j, k);
      ShorterTree(node, xs, i, h - 1, ys, j, k - 1);
      LeftPairs(node, xs, i, h, ys, j, k);
      assert (k - 1) - (h - 1) == k - h;
    }
  }

  /** The pairs combined above a node include the pairs combined along its left edge. */
  lemma {:induction false} LeftEdgePairs<D>(node: (D, D) -> D, xs: seq<D>, lo: nat, h: nat, k: nat)
    requires lo < |xs| && 1 <= k <= h
    ensures Halves(node, xs, lo, k) in Pairs(node, xs, lo, h)
    decreases h
  {
    if k < h {
      LeftEdgePairs(node, xs, lo, h - 1, k);
    }
  }

  // ----- Trees over the digests of entries -----

  function Map<E, D>(leaf: E -> D, es: seq<E>): (xs: seq<D>)
    ensures |xs| == |es| && forall i :: 0 <= i < |es| ==> xs[i] == leaf(es[i])
  {
    seq(|es|, i requires 0 <= i < |es| => leaf(es[i]))
  }

  /** The root over, and the pairs combined for, a non-empty list. */
  function TreeRoot<D>(node: (D, D) -> D, xs: seq<D>): D
    requires xs != []
  {
    Tree(node, xs, 0, Height(|xs|))
  }

  ghost function TreePairs<D>(node: (D, D) -> D, xs: seq<D>): set<(D, D)>
    requires xs != []
  {
    Pairs(node, xs, 0, Height(|xs|))
  }

  /** One digest arose in two ways: from two pairs, from two entries, or from an entry and a pair. */
  ghost predicate Ambiguous<E, D>(leaf: E -> D, node: (D, D) -> D, entries: set<E>, pairs: set<(D, D)>) {
    || Collides(node, pairs)
    || (exists e, f :: e in entries && f in entries && e != f && leaf(e) == leaf(f))
    || (exists e, p :: e in entries && p in pairs && leaf(e) == node(p.0, p.1))
  }

  lemma ShorterRoot<D>(node: (D, D) -> D, xs: seq<D>, ys: seq<D>) returns (p: (D, D))
    requires xs != [] && ys != [] && Height(|xs|) < Height(|ys|)
    requires TreeRoot(node, xs) == TreeRoot(node, ys)
    ensures Collides(node, TreePairs(node, xs) + TreePairs(node, ys))
         || (p in TreePairs(node, ys) && xs[0] == node(p.0, p.1))
  {
    var h, k := Height(|xs|), Height(|ys|);
    ShorterTree(node, xs, 0, h, ys, 0, k);
    p := Halves(node, ys, 0, k - h);
    LeftEdgePairs(node, ys, 0, k, k - h);
  }

  lemma DifferentHeightRoots<E, D>(leaf: E -> D, node: (D, D) -> D, es: seq<E>, fs: seq<E>)
    requires es != [] && fs != [] && Height(|es|) < Height(|fs|)
    requires TreeRoot(node, Map(leaf, es)) == TreeRoot(node, Map(leaf, fs))
    ensures Ambiguous(leaf, node, Elements(es) + Elements(fs),
                      TreePairs(node, Map(leaf, es)) + TreePairs(node, Map(leaf, fs)))
  {
    var p := ShorterRoot(node, Map(leaf, es), Map(leaf, fs));
    assert es[0] in Elements(es) && leaf(es[0]) == Map(leaf, es)[0];
  }

  lemma {:induction false} CompletedMap<E, D>(leaf: E -> D, es: seq<E>, lo: nat, h: nat)
    requires lo < |es|
    ensures Completed(Map(leaf, es), lo, h) == Map(leaf, Completed(es, lo, h))
    decreases h
  {
    if h > 0 {
      CompletedMap(leaf, es, lo, h - 1);
      CompletedMap(leaf, es, Right(|es|, lo, h), h - 1);
      MapConcat(leaf, Completed(es, lo, h - 1), Completed(es, Right(|es|, lo, h), h - 1));
    }
  }

  lemma MapConcat<E, D>(leaf: E -> D, a: seq<E>, b: seq<E>)
    ensures Map(leaf, a + b) == Map(leaf, a) + Map(leaf, b)
  {}

  /** Lists with one row of digests have one row, or two of their entries have one digest. */
  lemma SameDigestRows<E, D>(leaf: E -> D, es: seq<E>, fs: seq<E>, h: nat)
    requires es != [] && fs != []
    requires Map(leaf, Completed(es, 0, h)) == Map(leaf, Completed(fs, 0, h))
    ensures Completed(es, 0, h) == Completed(fs, 0, h)
         || exists e, f :: e in Elements(es) + Elements(fs) && f in Elements(es) + Elements(fs) && e != f && leaf(e) == leaf(f)
  {
    var a, b := Completed(es, 0, h), Completed(fs, 0, h);
    assert |a| == |Map(leaf, a)| == |b|;
    if i :| 0 <= i < |a| && a[i] != b[i] {
      CompletedRepeats(es, 0, h);
      CompletedRepeats(fs, 0, h);
      assert a[i] in a && b[i] in b;
      assert leaf(a[i]) == Map(leaf, a)[i] == Map(leaf, b)[i] == leaf(b[i]);
    }
  }

  lemma SameHeightRoots<E, D>(leaf: E -> D, node: (D, D) -> D, es: seq<E>, fs: seq<E>)
    requires es != [] && fs != [] && Height(|es|) == Height(|fs|)
    requires TreeRoot(node, Map(leaf, es)) == TreeRoot(node, Map(leaf, fs))
    ensures SameRow(es, fs) || Ambiguous(leaf, node, Elements(es) + Elements(fs),
                                         TreePairs(node, Map(leaf, es)) + TreePairs(node, Map(leaf, fs)))
  {
    var xs, ys, h := Map(leaf, es), Map(leaf, fs), Height(|es|);
    SameHeightBinding(node, xs, 0, ys, 0, h);
    if !Collides(node, TreePairs(node, xs) + TreePairs(node, ys)) {
      CompletedMap(leaf, es, 0, h);
      CompletedMap(leaf, fs, 0, h);
      SameDigestRows(leaf, es, fs, h);
    }
  }

  /** Roots over any two non-empty lists: equal roots mean lists with one row, or one of the
      digests involved arose in two ways. */
  lemma RootBinding<E, D>(leaf: E -> D, node: (D, D) -> D, es: seq<E>, fs: seq<E>)
    requires es != [] && fs != []
    requires TreeRoot(node, Map(leaf, es)) == TreeRoot(node, Map(leaf, fs))
    ensures SameRow(es, fs) || Ambiguous(leaf, node, Elements(es) + Elements(fs),
                                         TreePairs(node, Map(leaf, es)) + TreePairs(node, Map(leaf, fs)))
  {
    assert Elements(es) + Elements(fs) == Elements(fs) + Elements(es);
    assert TreePairs(node, Map(leaf, es)) + TreePairs(node, Map(leaf, fs))
        == TreePairs(node, Map(leaf, fs)) + TreePairs(node, Map(leaf, es));
    if Height(|es|) < Height(|fs|) {
      DifferentHeightRoots(leaf, node, es, fs);
    } else if Height(|fs|) < Height(|es|) {
      DifferentHeightRoots(leaf, node, fs, es);
    } else {
      SameHeightRoots(leaf, node, es, fs);
    }
  }

  /** And lists with one row always have one root, whatever the digests. */
  lemma RowDecidesRoot<E, D>(leaf: E -> D, node: (D, D) -> D, es: seq<E>, fs: seq<E>)
    requires SameRow(es, fs)
    ensures TreeRoot(node, Map(leaf, es)) == TreeRoot(node, Map(leaf, fs))
  {
    var h := Height(|es|);
    CompletedMap(leaf, es, 0, h);
    CompletedMap(leaf, fs, 0, h);
    CompletedDecides(node, Map(leaf, es), 0, Map(leaf, fs), 0, h);
  }

  lemma {:induction false} HeightOfOdd(n: nat)
    requires n > 1 && n % 2 == 1
    ensures Height(n + 1) == Height(n) >= 1
  {
    assert (n + 1 + 1) / 2 == (n + 1) / 2;
  }

  /** The root of two or more leaves is an inner node. */
  lemma RootIsNode<D>(node: (D, D) -> D, xs: seq<D>) returns (p: (D, D))
    requires |xs| > 1
    ensures p in TreePairs(node, xs) && TreeRoot(node, xs) == node(p.0, p.1)
  {
    p := Halves(node, xs, 0, Height(|xs|));
  }

  /** What holds of all leaves and of all combined digests holds of both halves of every pair. */
  lemma {:induction false} PairsInherit<D(!new)>(node: (D, D) -> D, xs: seq<D>, lo: nat, h: nat, ok: D -> bool)
    requires lo < |xs|
    requires forall x :: x in xs ==> ok(x)
    requires forall a, b :: ok(node(a, b))
    ensures ok(Tree(node, xs, lo, h))
    ensures forall p :: p in Pairs(node, xs, lo, h) ==> ok(p.0) && ok(p.1)
    decreases h
  {
    if h > 0 {
      PairsInherit(node, xs, lo, h - 1, ok);
      PairsInherit(node, xs, Right(|xs|, lo, h), h - 1, ok);
    }
  }
}
