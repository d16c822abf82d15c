/** Merkle roots over lists of texts, each hashed to a leaf: what such a root says about the list.
    The state root and the trace hash are two of them. */
module ListCommitment {
  import opened Basics
  import opened MerkleTree
  import opened Merkle

  /** The root; the empty list has a digest of its own. */
  function ListRoot(H: HashFn, empty: string, texts: seq<string>): string {
    if texts == [] then H(empty) else TreeRoot(Node(H), Map(H, texts))
  }

  ghost function ListPairs(H: HashFn, texts: seq<string>): set<(string, string)>
    requires texts != []
  {
    TreePairs(Node(H), Map(H, texts))
  }

  /** Every string hashed to compute the root. */
  ghost function Hashed(H: HashFn, empty: string, texts: seq<string>): set<string> {
    if texts == [] then {empty} else Elements(texts) + Joined(ListPairs(H, texts))
  }

  /** Texts contain a colon, which no digest does, and the text for the empty list is as long as
      no two digests. */
  ghost predicate Distinguishable(empty: string, texts: set<string>) {
    ':' !in empty && |empty| != 128 && forall t :: t in texts ==> ':' in t
  }

  lemma JoinedIsNoText(p: (string, string))
    requires IsDigest(p.0) && IsDigest(p.1)
    ensures ':' !in p.0 + p.1 && |p.0 + p.1| == 128
  {}

  lemma PairsOfDigests(H: HashFn, texts: seq<string>)
    requires HexDigests(H) && texts != []
    ensures forall p :: p in ListPairs(H, texts) ==> IsDigest(p.0) && IsDigest(p.1)
  {
    var leaves := Map(H, texts);
    forall x | x in leaves ensures IsDigest(x) {
      var i :| 0 <= i < |leaves| && leaves[i] == x;
      assert x == H(texts[i]);
    }
    PairsAreDigests(H, leaves);
  }

  lemma CollisionMore(H: HashFn, small: set<string>, large: set<string>)
    requires HashCollision(H, small) && small <= large
    ensures HashCollision(H, large)
  {}

  lemma Collision(H: HashFn, p: string, q: string, hashed: set<string>)
    requires p in hashed && q in hashed && p != q && H(p) == H(q)
    ensures HashCollision(H, hashed)
  {}

  /** However a digest arose in two ways, two different strings were hashed to it. */
  lemma AmbiguityCollides(H: HashFn, empty: string, texts: set<string>, pairs: set<(string, string)>)
    requires forall p :: p in pairs ==> IsDigest(p.0) && IsDigest(p.1)
    requires Distinguishable(empty, texts) && Ambiguous(H, Node(H), texts, pairs)
    ensures HashCollision(H, texts + Joined(pairs))
  {
    var hashed := texts + Joined(pairs);
    if Collides(Node(H), pairs) {
      NodeCollision(H, pairs);
      CollisionMore(H, Joined(pairs), hashed);
    } else if s, t :| s in texts && t in texts && s != t && H(s) == H(t) {
      Collision(H, s, t, hashed);
    } else {
      var t, p :| t in texts && p in pairs && H(t) == Node(H)(p.0, p.1);
      JoinedIsNoText(p);
      assert p.0 + p.1 in Joined(pairs);
      Collision(H, t, p.0 + p.1, hashed);
    }
  }

  lemma HashedForBoth(H: HashFn, empty: string, ss: seq<string>, ts: seq<string>)
    requires ss != [] && ts != []
    ensures Elements(ss) + Elements(ts) + Joined(ListPairs(H, ss) + ListPairs(H, ts))
         <= Hashed(H, empty, ss) + Hashed(H, empty, ts)
  {}

  /** No list's root is the digest of the empty list, short of a collision. */
  lemma EmptyListBinding(H: HashFn, empty: string, ts: seq<string>)
    requires HexDigests(H) && ts != [] && Distinguishable(empty, Elements(ts))
    requires ListRoot(H, empty, ts) == H(empty)
    ensures HashCollision(H, {empty} + Hashed(H, empty, ts))
  {
    var hashed := {empty} + Hashed(H, empty, ts);
    if |ts| == 1 {
      assert ts[0] in Elements(ts);
      Collision(H, ts[0], empty, hashed);
    } else {
      var p := RootIsNode(Node(H), Map(H, ts));
      PairsOfDigests(H, ts);
      JoinedIsNoText(p);
      assert p.0 + p.1 in Joined(ListPairs(H, ts));
      Collision(H, p.0 + p.1, empty, hashed);
    }
  }

  lemma NonEmptyBinding(H: HashFn, empty: string, ss: seq<string>, ts: seq<string>)
    requires HexDigests(H) && ss != [] && ts != [] && Distinguishable(empty, Elements(ss) + Elements(ts))
    requires ListRoot(H, empty, ss) == ListRoot(H, empty, ts)
    ensures SameRow(ss, ts) || HashCollision(H, Hashed(H, empty, ss) + Hashed(H, empty, ts))
  {
    var both, pairs := Elements(ss) + Elements(ts), ListPairs(H, ss) + ListPairs(H, ts);
    RootBinding(H, Node(H), ss, ts);
    if Ambiguous(H, Node(H), both, pairs) {
      PairsOfDigests(H, ss);
      PairsOfDigests(H, ts);
      AmbiguityCollides(H, empty, both, pairs);
      HashedForBoth(H, empty, ss, ts);
      CollisionMore(H, both + Joined(pairs), Hashed(H, empty, ss) + Hashed(H, empty, ts));
    }
  }

  /** Two lists the root cannot tell apart. */
  ghost predicate Alike<E>(es: seq<E>, fs: seq<E>) { es == fs == [] || SameRow(es, fs) }

  /** Equal roots over any two lists, of whatever lengths: the lists are alike, or two of the
      strings hashed for the roots collide. */
  lemma ListBinding(H: HashFn, empty: string, ss: seq<string>, ts: seq<string>)
    requires HexDigests(H) && Distinguishable(empty, Elements(ss) + Elements(ts))
    requires ListRoot(H, empty, ss) == ListRoot(H, empty, ts)
    ensures Alike(ss, ts) || HashCollision(H, Hashed(H, empty, ss) + Hashed(H, empty, ts))
  {
    if ss != [] && ts != [] {
      NonEmptyBinding(H, empty, ss, ts);
    } else if ts != [] {
      EmptyListBinding(H, empty, ts);
    } else if ss != [] {
      EmptyListBinding(H, empty, ss);
      assert {empty} + Hashed(H, empty, ss) == Hashed(H, empty, ss) + {empty};
    }
  }

  /** And lists that are alike always have one root. */
  lemma AlikeRoots(H: HashFn, empty: string, ss: seq<string>, ts: seq<string>)
    requires Alike(ss, ts)
    ensures ListRoot(H, empty, ss) == ListRoot(H, empty, ts)
  {
    if ss != [] {
      RowDecidesRoot(H, Node(H), ss, ts);
    }
  }

  // ----- From texts to what they stand for -----

  /** No entry of one list is written like a different entry of the other. */
  ghost predicate Legible<E>(text: E -> string, es: seq<E>, fs: seq<E>) {
    forall i, j :: 0 <= i < |es| && 0 <= j < |fs| && text(es[i]) == text(fs[j]) ==> es[i] == fs[j]
  }

  lemma RowsLift<E>(text: E -> string, es: seq<E>, fs: seq<E>, h: nat)
    requires es != [] && fs != [] && Legible(text, es, fs)
    requires Map(text, Completed(es, 0, h)) == Map(text, Completed(fs, 0, h))
    ensures Completed(es, 0, h) == Completed(fs, 0, h)
  {
    var a, b := Completed(es, 0, h), Completed(fs, 0, h);
    assert |a| == |Map(text, a)| == |b|;
    CompletedRepeats(es, 0, h);
    CompletedRepeats(fs, 0, h);
    forall i | 0 <= i < |a| ensures a[i] == b[i] {
      assert a[i] in a && b[i] in b;
      var j :| 0 <= j < |es| && es[j] == a[i];
      var k :| 0 <= k < |fs| && fs[k] == b[i];
      assert text(es[j]) == Map(text, a)[i] == Map(text, b)[i] == text(fs[k]);
    }
  }

  /** Lists with alike texts are alike, if no text stands for two entries, one of each. */
  lemma AlikeLifts<E>(text: E -> string, es: seq<E>, fs: seq<E>)
    requires Legible(text, es, fs) && Alike(Map(text, es), Map(text, fs))
    ensures Alike(es, fs)
  {
    if es != [] {
      var h := Height(|es|);
      assert |fs| == |Map(text, fs)| > 0;
      CompletedMap(text, es, 0, h);
      CompletedMap(text, fs, 0, h);
      RowsLift(text, es, fs, h);
    }
  }

  lemma AlikeTexts<E>(text: E -> string, es: seq<E>, fs: seq<E>)
    requires Alike(es, fs)
    ensures Alike(Map(text, es), Map(text, fs))
  {
    if es != [] {
      CompletedMap(text, es, 0, Height(|es|));
      CompletedMap(text, fs, 0, Height(|es|));
    }
  }
}
