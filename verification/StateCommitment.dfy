/** The state root: the Merkle root over the hashes of `key:value`, in key order. */
module StateCommitment {
  import opened Basics
  import opened OrderedMap
  import opened MerkleTree
  import opened Merkle
  import opened ListCommitment
  import Text

  function LeafText(e: Entry): string { e.key + ":" + Text.Dec(e.value) }

  /** The digests of the entries, in order. */
  function Leaves(H: HashFn, es: seq<Entry>): seq<string> { Map(H, Map(LeafText, es)) }

  function RootOfEntries(H: HashFn, es: seq<Entry>): string { ListRoot(H, "empty_state", Map(LeafText, es)) }

  /** The commitment to a state, as a function of the map alone. */
  ghost function StateRoot(H: HashFn, m: State): string { RootOfEntries(H, Entries(m)) }

  /** Whatever sequence of insertions built the container, its root is that of its map. */
  lemma RootIsCanonical(H: HashFn, es: seq<Entry>)
    requires Sorted(es)
    ensures RootOfEntries(H, es) == StateRoot(H, ToMap(es))
  {
    Canonical(es, Entries(ToMap(es)));
  }

  method CollectLeaves(H: HashFn, state: BTreeMap) returns (leaves: seq<string>)
    ensures leaves == Leaves(H, Entries(state.Contents()))
  {
    var es := state.Iterate();
    ghost var all := Leaves(H, es);
    leaves := [];
    for i := 0 to |es|
      invariant leaves == all[..i]
    {
      TakeNext(all, i);
      leaves := leaves + [H(LeafText(es[i]))];
    }
    TakeAll(all);
  }

  /** `common::state_root`: collect first, then look whether there was anything. */
  method CommonStateRoot(H: HashFn, state: BTreeMap) returns (root: string)
    ensures root == StateRoot(H, state.Contents())
  {
    var leaves := CollectLeaves(H, state);
    if |leaves| == 0 {
      root := H("empty_state");
    } else {
      var r, _, _ := MerkleRoot(H, leaves);
      root := r;
    }
  }

  /** `compute_state_root`, in the trace builder and again in the guest. */
  method ComputeStateRoot(H: HashFn, state: BTreeMap) returns (root: string)
    ensures root == StateRoot(H, state.Contents())
  {
    var empty := state.IsEmpty();
    if empty {
      return H("empty_state");
    }
    var leaves := CollectLeaves(H, state);
    var r, _, _ := MerkleRoot(H, leaves);
    return r;
  }

  // ----- Small roots, written out -----

  lemma NoEntriesRoot(H: HashFn)
    ensures StateRoot(H, map[]) == H("empty_state") && Root(H, []) == H("empty")
  {
    RootIsCanonical(H, []);
  }

  lemma OneEntryRoot(H: HashFn, k: string, v: u64)
    ensures StateRoot(H, map[k := v]) == H(k + ":" + Text.Dec(v))
  {
    var es := [Entry(k, v)];
    assert es[1..] == [] && ToMap(es) == map[k := v];
    RootIsCanonical(H, es);
    assert Leaves(H, es) == [H(LeafText(es[0]))];
  }

  lemma TwoLeaves(H: HashFn, x: string, y: string)
    ensures Root(H, [x, y]) == H(x + y)
  {
    assert Height(2) == 1;
    assert Tree(Node(H), [x, y], 0, 1) == Node(H)(x, y);
  }

  /** Two accounts: the one whose key precedes the other's stands on the left. */
  lemma TwoEntriesRoot(H: HashFn, k: string, v: u64, l: string, w: u64)
    requires Precedes(k, l)
    ensures StateRoot(H, map[k := v, l := w]) == H(H(k + ":" + Text.Dec(v)) + H(l + ":" + Text.Dec(w)))
  {
    LessIsLexicographic(k, l);
    LessIsStrictOrder(k, l, "");
    var es := [Entry(k, v), Entry(l, w)];
    TwoSorted(es[0], es[1]);
    RootIsCanonical(H, es);
    assert Leaves(H, es) == [H(LeafText(es[0])), H(LeafText(es[1]))];
    TwoLeaves(H, H(LeafText(es[0])), H(LeafText(es[1])));
  }

  lemma TwoSorted(e: Entry, f: Entry)
    requires Less(e.key, f.key)
    ensures Sorted([e, f]) && (e.key != f.key ==> ToMap([e, f]) == map[e.key := e.value, f.key := f.value])
  {
    assert [e, f][1..] == [f] && [f][1..] == [];
    assert ToMap([f]) == map[f.key := f.value];
    assert Sorted([f]);
    assert ToMap([e, f]) == map[f.key := f.value][e.key := e.value];
  }

  // ----- Binding -----

  /** Every string hashed to compute a state's root. */
  ghost function HashedFor(H: HashFn, m: State): set<string> { Hashed(H, "empty_state", Map(LeafText, Entries(m))) }

  lemma LeafTextHasColon(e: Entry)
    ensures ':' in LeafText(e)
  {
    assert LeafText(e)[|e.key|] == ':';
  }

  lemma LeafTextsHaveColons(es: seq<Entry>)
    ensures forall t :: t in Map(LeafText, es) ==> ':' in t
  {
    forall t | t in Map(LeafText, es) ensures ':' in t {
      var i :| 0 <= i < |es| && Map(LeafText, es)[i] == t;
      LeafTextHasColon(es[i]);
    }
  }

  lemma EntriesLegible(es: seq<Entry>, fs: seq<Entry>)
    ensures Legible(LeafText, es, fs)
  {
    forall i, j | 0 <= i < |es| && 0 <= j < |fs| && LeafText(es[i]) == LeafText(fs[j]) ensures es[i] == fs[j] {
      Text.ColonSplit(es[i].key, es[i].value, fs[j].key, fs[j].value);
    }
  }

  lemma AlikeStates(es: seq<Entry>, fs: seq<Entry>)
    requires Sorted(es) && Sorted(fs) && Alike(es, fs)
    ensures es == fs
  {
    SortedDistinct(es);
    SortedDistinct(fs);
    if es != [] {
      if |es| <= |fs| {
        SameRowDistinct(es, fs);
      } else {
        SameRowDistinct(fs, es);
      }
    }
  }

  /** Two states with one root, of whatever sizes, are one state, or two of the strings hashed
      for their roots collide. */
  lemma StateRootBinding(H: HashFn, a: State, b: State)
    requires HexDigests(H) && StateRoot(H, a) == StateRoot(H, b)
    ensures a == b || HashCollision(H, HashedFor(H, a) + HashedFor(H, b))
  {
    var es, fs := Entries(a), Entries(b);
    LeafTextsHaveColons(es);
    LeafTextsHaveColons(fs);
    ListBinding(H, "empty_state", Map(LeafText, es), Map(LeafText, fs));
    if Alike(Map(LeafText, es), Map(LeafText, fs)) {
      EntriesLegible(es, fs);
      AlikeLifts(LeafText, es, fs);
      AlikeStates(es, fs);
    }
  }
}
