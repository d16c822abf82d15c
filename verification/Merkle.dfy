/** `merkle_root` over hex digests. The digest function is a parameter `H`: nothing is assumed
    about SHA-256 except, for binding, the shape of its hex-encoded output. Every law therefore
    holds of every such function, and binding is stated as the extraction of a collision. */
module Merkle {
  import opened Basics
  import opened MerkleTree
  import Text

  type HashFn = string -> string

  /** 64 lower-case hex characters, the output of `hex::encode` on 32 bytes. */
  predicate IsDigest(s: string) {
    |s| == 64 && forall c :: c in s ==> Text.IsDigit(c)
  }

  ghost predicate HexDigests(H: HashFn) {
    forall s :: IsDigest(H(s))
  }

  ghost predicate AllDigests(xs: seq<string>) {
    forall x :: x in xs ==> IsDigest(x)
  }

  /** Two different strings, both in `hashed`, with one digest. */
  ghost predicate HashCollision(H: HashFn, hashed: set<string>) {
    exists p, q :: p in hashed && q in hashed && p != q && H(p) == H(q)
  }

  /** The digest of an inner node: hash the two children's hex strings, concatenated. */
  function Node(H: HashFn): (string, string) -> string {
    (a: string, b: string) => H(a + b)
  }

  function Root(H: HashFn, leaves: seq<string>): string {
    if leaves == [] then H("empty") else TreeRoot(Node(H), leaves)
  }

  ghost function RootPairs(H: HashFn, leaves: seq<string>): set<(string, string)> {
    if leaves == [] then {} else TreePairs(Node(H), leaves)
  }

  ghost function Joined(pairs: set<(string, string)>): set<string> {
    set p | p in pairs :: p.0 + p.1
  }

  /** `merkle_root`: combine the leaves level by level. `combined` lists, in order, the pairs of
      strings whose concatenation was hashed. */
  method MerkleRoot(H: HashFn, leaves: seq<string>)
    returns (root: string, ghost levels: nat, ghost combined: seq<(string, string)>)
    ensures root == Root(H, leaves)
    ensures Elements(combined) == RootPairs(H, leaves)
    ensures leaves != [] ==> levels == Height(|leaves|)
    ensures leaves != [] ==> |leaves| - 1 <= |combined| <= |leaves| - 1 + levels
  {
    if |leaves| == 0 {
      return H("empty"), 0, [];
    }
    if |leaves| == 1 {
      return leaves[0], 0, [];
    }
    root, levels, combined := Reduce(H, leaves);
  }

  /** The level loop. */
  method Reduce(H: HashFn, leaves: seq<string>)
    returns (root: string, ghost levels: nat, ghost combined: seq<(string, string)>)
    requires |leaves| > 1
    ensures levels == Height(|leaves|) && root == Tree(Node(H), leaves, 0, levels)
    ensures Elements(combined) == Pairs(Node(H), leaves, 0, levels)
    ensures |leaves| - 1 <= |combined| <= |leaves| - 1 + levels
  {
    levels, combined := 0, [];
    ProgressStart(Node(H), leaves);
    var current := leaves;
    while |current| > 1
      invariant Progress(Node(H), leaves, current, combined, levels)
      decreases |current|
    {
      var next;
      ghost var chunks;
      next, chunks := NextLevel(H, current);
      ProgressStep(Node(H), leaves, current, combined, levels, chunks, next);
      current := next;
      combined := combined + chunks;
      levels := levels + 1;
    }
    ProgressDone(Node(H), leaves, current, combined, levels);
    root := current[0];
  }

  /** One pass over `chunks(2)`; an odd last digest is paired with itself. */
  method NextLevel(H: HashFn, current: seq<string>) returns (next: seq<string>, ghost chunks: seq<(string, string)>)
    ensures |next| == (|current| + 1) / 2
    ensures forall i :: 0 <= i < |next| ==> next[i] == H(Chunk(current, i).0 + Chunk(current, i).1)
    ensures IsLevel(Node(H), current, chunks, next)
  {
    next, chunks := [], [];
    var i := 0;
    while 2 * i < |current|
      invariant |next| == |chunks| == i <= (|current| + 1) / 2
      invariant forall j :: 0 <= j < i ==> chunks[j] == Chunk(current, j)
      invariant forall j :: 0 <= j < i ==> next[j] == Node(H)(chunks[j].0, chunks[j].1)
    {
      var left := current[2 * i];
      var right := if 2 * i + 1 < |current| then current[2 * i + 1] else current[2 * i];
      next := next + [H(left + right)];
      chunks := chunks + [(left, right)];
      i := i + 1;
    }
  }

  // ----- Binding -----

  lemma JoinInjective(p: (string, string), q: (string, string))
    requires |p.0| == |q.0| && p.0 + p.1 == q.0 + q.1
    ensures p == q
  {
    var s := p.0 + p.1;
    assert p.0 == s[..|p.0|] && p.1 == s[|p.0|..];
    assert q.0 == s[..|p.0|] && q.1 == s[|p.0|..];
  }

  /** Different pairs of digests concatenate to different strings, so a collision among the
      tree's nodes is a collision of the hash. */
  lemma NodeCollision(H: HashFn, pairs: set<(string, string)>)
    requires Collides(Node(H), pairs)
    requires forall p :: p in pairs ==> IsDigest(p.0)
    ensures HashCollision(H, Joined(pairs))
  {
    var p, q :| p in pairs && q in pairs && p != q && Node(H)(p.0, p.1) == Node(H)(q.0, q.1);
    if p.0 + p.1 == q.0 + q.1 {
      JoinInjective(p, q);
    }
    assert p.0 + p.1 in Joined(pairs) && q.0 + q.1 in Joined(pairs);
  }

  lemma PairsAreDigests(H: HashFn, xs: seq<string>)
    requires HexDigests(H) && AllDigests(xs)
    ensures forall p :: p in RootPairs(H, xs) ==> IsDigest(p.0) && IsDigest(p.1)
  {
    if xs != [] {
      PairsInherit(Node(H), xs, 0, Height(|xs|), IsDigest);
    }
  }

  /** Two digest lists of one length with one root are one list, or two of the strings hashed
      on the way up collide. */
  lemma MerkleBinding(H: HashFn, xs: seq<string>, ys: seq<string>)
    requires HexDigests(H) && AllDigests(xs) && AllDigests(ys)
    requires |xs| == |ys| && Root(H, xs) == Root(H, ys)
    ensures xs == ys || HashCollision(H, Joined(RootPairs(H, xs) + RootPairs(H, ys)))
  {
    if xs != [] {
      var h := Height(|xs|);
      HeightIsCeilLog2(|xs|);
      SameHeightBinding(Node(H), xs, 0, ys, 0, h);
      if Collides(Node(H), RootPairs(H, xs) + RootPairs(H, ys)) {
        PairsAreDigests(H, xs);
        PairsAreDigests(H, ys);
        NodeCollision(H, RootPairs(H, xs) + RootPairs(H, ys));
      } else {
        SameRowMeaning(xs, ys);
      }
    }
  }
}
