/** BLAKE3's tree of chaining values, merged flat or in groups (`hash.rs`), and the
    content hash tree of a file, which stores it in groups of 1024 (`hashtree.rs`). The two
    compressions are parameters. */
module HashTrees {
  import opened Bytes
  import opened Bitmap

  /** The position of the highest set bit. */
  function HighBit(n: nat): (k: nat)
    requires n > 0
    ensures Pow2(k) <= n < 2 * Pow2(k)
  {
    if n == 1 then 0 else 1 + HighBit(n / 2)
  }

  /** `left_count`: the largest power of two below the count. */
  function LeftCount(n: nat): (p: nat)
    requires n >= 2
    ensures 0 < p < n <= 2 * p
  {
    Pow2(HighBit(n - 1))
  }

  lemma {:induction false} Pow2Grows(a: nat, b: nat)
    requires a < b
    ensures 2 * Pow2(a) <= Pow2(b)
  {
    if a + 1 < b { Pow2Grows(a, b - 1); }
  }

  /** It is the only power of two with the count above it and at most at its double. */
  lemma LeftCountIs(n: nat, k: nat)
    requires Pow2(k) < n <= 2 * Pow2(k)
    ensures n >= 2 && LeftCount(n) == Pow2(k)
  {
    var h := HighBit(n - 1);
    if h < k { Pow2Grows(h, k); }
    if k < h { Pow2Grows(k, h); }
  }

  /** `blake3_merge_subtree` */
  function MergeSubtree<T>(merge: (T, T) -> T, cvs: seq<T>): T
    requires cvs != []
    decreases |cvs|
  {
    if |cvs| == 1 then cvs[0]
    else
      var left := LeftCount(|cvs|);
      merge(MergeSubtree(merge, cvs[..left]), MergeSubtree(merge, cvs[left..]))
  }

  /** `blake3_merge_as_root` */
  function MergeAsRoot<T>(merge: (T, T) -> T, mergeRoot: (T, T) -> T, cvs: seq<T>): T
    requires |cvs| >= 2
  {
    var left := LeftCount(|cvs|);
    mergeRoot(MergeSubtree(merge, cvs[..left]), MergeSubtree(merge, cvs[left..]))
  }

  // ---- the tree that is merged -------------------------------------------------------

  /** A tree of merges, its root told apart. */
  datatype Term<T> = Leaf(value: T) | Merge(left: Term<T>, right: Term<T>) | Root(left: Term<T>, right: Term<T>)

  /** The leaves from left to right. */
  function Leaves<T>(t: Term<T>): (s: seq<T>)
    ensures |s| > 0
  {
    match t
    case Leaf(v) => [v]
    case Merge(l, r) => Leaves(l) + Leaves(r)
    case Root(l, r) => Leaves(l) + Leaves(r)
  }

  /** `p` is the largest power of two below `n`. */
  ghost predicate LargestBelow(p: nat, n: nat) { exists k: nat :: Pow2(k) == p && p < n <= 2 * p }

  /** Section 2.1 of the BLAKE3 specification: the left part of every merge is the largest
      power of two below its number of leaves. There is no root inside. */
  ghost predicate Subtree<T>(t: Term<T>) {
    match t
    case Leaf(_) => true
    case Merge(l, r) => Subtree(l) && Subtree(r) && LargestBelow(|Leaves(l)|, |Leaves(t)|)
    case Root(_, _) => false
  }

  /** The whole tree: the same, with the root on top. */
  ghost predicate WholeTree<T>(t: Term<T>) {
    t.Root? && Subtree(t.left) && Subtree(t.right) && LargestBelow(|Leaves(t.left)|, |Leaves(t)|)
  }

  /** What such a tree comes to. */
  function Eval<T>(merge: (T, T) -> T, mergeRoot: (T, T) -> T, t: Term<T>): T {
    match t
    case Leaf(v) => v
    case Merge(l, r) => merge(Eval(merge, mergeRoot, l), Eval(merge, mergeRoot, r))
    case Root(l, r) => mergeRoot(Eval(merge, mergeRoot, l), Eval(merge, mergeRoot, r))
  }

  lemma LargestIs(p: nat, n: nat)
    requires LargestBelow(p, n)
    ensures n >= 2 && p == LeftCount(n)
  {
    var k: nat :| Pow2(k) == p && p < n <= 2 * p;
    LeftCountIs(n, k);
  }

  lemma LeftIsLargest(n: nat)
    requires n >= 2
    ensures LargestBelow(LeftCount(n), n)
  {
    assert Pow2(HighBit(n - 1)) == LeftCount(n);
  }

  lemma SplitLeaves<T>(a: seq<T>, b: seq<T>, n: nat)
    requires |a| == n
    ensures (a + b)[..n] == a && (a + b)[n..] == b
  {}

  /** There is one tree over given leaves, and `blake3_merge_subtree` is what it comes to. */
  lemma {:induction false} SubtreeMerges<T>(merge: (T, T) -> T, mergeRoot: (T, T) -> T, t: Term<T>)
    requires Subtree(t)
    ensures MergeSubtree(merge, Leaves(t)) == Eval(merge, mergeRoot, t)
  {
    if t.Merge? {
      LargestIs(|Leaves(t.left)|, |Leaves(t)|);
      SplitLeaves(Leaves(t.left), Leaves(t.right), |Leaves(t.left)|);
      SubtreeMerges(merge, mergeRoot, t.left);
      SubtreeMerges(merge, mergeRoot, t.right);
    }
  }

  /** `blake3_merge_as_root` is what the whole tree over the same leaves comes to. */
  lemma RootMerges<T>(merge: (T, T) -> T, mergeRoot: (T, T) -> T, t: Term<T>)
    requires WholeTree(t)
    ensures |Leaves(t)| >= 2 && MergeAsRoot(merge, mergeRoot, Leaves(t)) == Eval(merge, mergeRoot, t)
  {
    LargestIs(|Leaves(t.left)|, |Leaves(t)|);
    SplitLeaves(Leaves(t.left), Leaves(t.right), |Leaves(t.left)|);
    SubtreeMerges(merge, mergeRoot, t.left);
    SubtreeMerges(merge, mergeRoot, t.right);
  }

  lemma {:induction false} SubtreeExists<T>(cvs: seq<T>) returns (t: Term<T>)
    requires cvs != []
    ensures Subtree(t) && Leaves(t) == cvs
    decreases |cvs|
  {
    if |cvs| == 1 {
      t := Leaf(cvs[0]);
    } else {
      var left := LeftCount(|cvs|);
      LeftIsLargest(|cvs|);
      var l := SubtreeExists(cvs[..left]);
      var r := SubtreeExists(cvs[left..]);
      t := Merge(l, r);
      assert cvs[..left] + cvs[left..] == cvs;
    }
  }

  lemma WholeTreeExists<T>(cvs: seq<T>) returns (t: Term<T>)
    requires |cvs| >= 2
    ensures WholeTree(t) && Leaves(t) == cvs
  {
    var left := LeftCount(|cvs|);
    LeftIsLargest(|cvs|);
    var l := SubtreeExists(cvs[..left]);
    var r := SubtreeExists(cvs[left..]);
    t := Root(l, r);
    assert cvs[..left] + cvs[left..] == cvs;
  }

  lemma {:induction false} SubtreeUnique<T>(s: Term<T>, t: Term<T>)
    requires Subtree(s) && Subtree(t) && Leaves(s) == Leaves(t)
    ensures s == t
    decreases s
  {
    if s.Merge? {
      LargestIs(|Leaves(s.left)|, |Leaves(s)|);
      if t.Merge? {
        LargestIs(|Leaves(t.left)|, |Leaves(t)|);
        SplitLeaves(Leaves(s.left), Leaves(s.right), |Leaves(s.left)|);
        SplitLeaves(Leaves(t.left), Leaves(t.right), |Leaves(t.left)|);
        SubtreeUnique(s.left, t.left);
        SubtreeUnique(s.right, t.right);
      }
    }
  }

  /** The whole tree over given leaves is unique. */
  lemma WholeTreeUnique<T>(s: Term<T>, t: Term<T>)
    requires WholeTree(s) && WholeTree(t) && Leaves(s) == Leaves(t)
    ensures s == t
  {
    LargestIs(|Leaves(s.left)|, |Leaves(s)|);
    LargestIs(|Leaves(t.left)|, |Leaves(t)|);
    SplitLeaves(Leaves(s.left), Leaves(s.right), |Leaves(s.left)|);
    SplitLeaves(Leaves(t.left), Leaves(t.right), |Leaves(t.left)|);
    SubtreeUnique(s.left, t.left);
    SubtreeUnique(s.right, t.right);
  }

  // ---- groups ------------------------------------------------------------------------

  /** Consecutive groups of `g`, the last one maybe shorter. */
  function Groups<T>(s: seq<T>, g: nat): (r: seq<seq<T>>)
    requires g > 0 && s != []
    ensures r != [] && forall i :: 0 <= i < |r| ==> r[i] != []
    decreases |s|
  {
    if |s| <= g then [s] else [s[..g]] + Groups(s[g..], g)
  }

  lemma {:induction false} GroupCount<T>(s: seq<T>, g: nat)
    requires g > 0 && s != []
    ensures (|Groups(s, g)| - 1) * g < |s| <= |Groups(s, g)| * g
    decreases |s|
  {
    if |s| > g { GroupCount(s[g..], g); }
  }

  /** Cutting at a multiple of `g` cuts between groups. */
  lemma {:induction false} GroupsSplit<T>(s: seq<T>, g: nat, q: nat)
    requires g > 0 && 0 < q && q * g < |s|
    ensures var m := q * g; m > 0 && Groups(s, g) == Groups(s[..m], g) + Groups(s[m..], g) && |Groups(s[..m], g)| == q
    decreases q
  {
    var m := q * g;
    Multiple(q, g);
    if q == 1 {
      assert m == g;
    } else {
      var t := s[g..];
      var m' := (q - 1) * g;
      assert m' == m - g;
      Multiple(q - 1, g);
      GroupsSplit(t, g, q - 1);
      assert s[..m][g..] == t[..m'] && s[..m][..g] == s[..g] && t[m'..] == s[m..];
      assert [s[..g]] + (Groups(t[..m'], g) + Groups(t[m'..], g)) == ([s[..g]] + Groups(t[..m'], g)) + Groups(t[m'..], g);
    }
  }

  lemma Multiple(q: nat, g: nat)
    requires q > 0 && g > 0
    ensures q * g >= g > 0 && (q > 1 ==> q * g > g)
  {
    assert q * g == g + (q - 1) * g;
    if q > 1 { assert (q - 1) * g >= g by { assert (q - 1) * g == g + (q - 2) * g; } }
  }

  /** Each group merged on its own. */
  function MergeGroups<T>(merge: (T, T) -> T, gs: seq<seq<T>>): (r: seq<T>)
    requires forall i :: 0 <= i < |gs| ==> gs[i] != []
    ensures |r| == |gs|
  {
    seq(|gs|, i requires 0 <= i < |gs| => MergeSubtree(merge, gs[i]))
  }

  function Grouped<T>(merge: (T, T) -> T, cvs: seq<T>, g: nat): (r: seq<T>)
    requires g > 0 && cvs != []
    ensures |r| == |Groups(cvs, g)| > 0
  {
    MergeGroups(merge, Groups(cvs, g))
  }

  lemma {:induction false} Pow2Product(a: nat, b: nat)
    ensures Pow2(a + b) == Pow2(a) * Pow2(b)
  {
    if a > 0 {
      Pow2Product(a - 1, b);
      assert Pow2(a) * Pow2(b) == 2 * (Pow2(a - 1) * Pow2(b));
    }
  }

  lemma TimesGrows(a: nat, b: nat, g: nat)
    ensures a <= b ==> a * g <= b * g
  {}

  lemma Between(m: nat, q: nat, g: nat, n: nat)
    requires g > 0 && (m - 1) * g < n <= m * g && q * g < n <= 2 * (q * g)
    ensures q < m <= 2 * q
  {
    TimesGrows(m, q, g);
    if m > 0 { TimesGrows(2 * q, m - 1, g); }
  }

  /** More pieces than one group of 2^k split, as do their groups, at the same place. */
  lemma GroupedSplit<T>(merge: (T, T) -> T, cvs: seq<T>, k: nat) returns (q: nat)
    requires |cvs| > Pow2(k)
    ensures var left, r := LeftCount(|cvs|), Grouped(merge, cvs, Pow2(k));
      |r| >= 2 && LeftCount(|r|) == q && r[..q] == Grouped(merge, cvs[..left], Pow2(k)) && r[q..] == Grouped(merge, cvs[left..], Pow2(k))
  {
    var g, e := Pow2(k), HighBit(|cvs| - 1);
    var left, gs := LeftCount(|cvs|), Groups(cvs, g);
    if e < k { Pow2Grows(e, k); }
    Pow2Product(e - k, k);
    q := Pow2(e - k);
    assert left == q * g;
    GroupCount(cvs, g);
    Between(|gs|, q, g, |cvs|);
    LeftCountIs(|gs|, e - k);
    GroupsSplit(cvs, g, q);
    var a, b := Groups(cvs[..left], g), Groups(cvs[left..], g);
    assert gs[..q] == a && gs[q..] == b;
  }

  /** Merging in groups of any power of two and then merging the groups is the flat merge. */
  lemma {:induction false} GroupedSubtree<T>(merge: (T, T) -> T, cvs: seq<T>, k: nat)
    requires cvs != []
    ensures MergeSubtree(merge, Grouped(merge, cvs, Pow2(k))) == MergeSubtree(merge, cvs)
    decreases |cvs|
  {
    if |cvs| > Pow2(k) {
      var q := GroupedSplit(merge, cvs, k);
      var left := LeftCount(|cvs|);
      GroupedSubtree(merge, cvs[..left], k);
      GroupedSubtree(merge, cvs[left..], k);
    }
  }

  /** The same at the root, for every count above one group. */
  lemma GroupedRoot<T>(merge: (T, T) -> T, mergeRoot: (T, T) -> T, cvs: seq<T>, k: nat)
    requires |cvs| > Pow2(k)
    ensures var r := Grouped(merge, cvs, Pow2(k));
      |r| >= 2 && MergeAsRoot(merge, mergeRoot, r) == MergeAsRoot(merge, mergeRoot, cvs)
  {
    var q := GroupedSplit(merge, cvs, k);
    var left := LeftCount(|cvs|);
    GroupedSubtree(merge, cvs[..left], k);
    GroupedSubtree(merge, cvs[left..], k);
  }

  // ---- the hash tree of a file -----------------------------------------------------------

  /** A `ChunkHashList` is the list of its hashes. */
  datatype HashTree<T> = HashTree(root: T, level1: seq<seq<T>>, level2: seq<seq<T>>, level3: seq<seq<T>>)

  datatype HashTreeError = NoChunks | TooBig

  const GROUP := 1024

  lemma GroupIsPower()
    ensures GROUP == Pow2(10)
  {
    assert Pow2(5) == 32;
  }

  /** The groups from a position on. */
  ghost function GroupsFrom<T>(s: seq<T>, i: nat): seq<seq<T>> {
    if i < |s| then Groups(s[i..], GROUP) else []
  }

  lemma NextGroup<T>(s: seq<T>, i: nat)
    requires i < |s|
    ensures var n := if GROUP < |s| - i then GROUP else |s| - i;
      GroupsFrom(s, i) == [s[i..i + n]] + GroupsFrom(s, i + GROUP)
  {
    var t := s[i..];
    if |t| > GROUP {
      assert t[GROUP..] == s[i + GROUP..] && t[..GROUP] == s[i..i + GROUP];
    } else {
      assert t == s[i..i + |t|] && [t] + [] == [t];
    }
  }

  /** `build_level` */
  method BuildLevel<T>(hashes: seq<T>) returns (level: seq<seq<T>>)
    ensures hashes == [] ==> level == []
    ensures hashes != [] ==> level == Groups(hashes, 1024)
  {
    level := [];
    var i := 0;
    assert hashes[0..] == hashes;
    while i < |hashes|
      invariant level + GroupsFrom(hashes, i) == GroupsFrom(hashes, 0)
      decreases |hashes| - i
    {
      NextGroup(hashes, i);
      var n := if GROUP < |hashes| - i then GROUP else |hashes| - i;
      level := level + [hashes[i..i + n]];
      i := i + GROUP;
    }
  }

  /** `merge_blobs` */
  method MergeBlobs<T>(merge: (T, T) -> T, level: seq<seq<T>>) returns (cvs: seq<T>)
    requires forall i :: 0 <= i < |level| ==> level[i] != []
    ensures cvs == MergeGroups(merge, level)
  {
    cvs := seq(|level|, i requires 0 <= i < |level| => MergeSubtree(merge, level[i]));
  }

  lemma TreeComesTo<T(!new)>(merge: (T, T) -> T, mergeRoot: (T, T) -> T, cvs: seq<T>)
    ensures forall t :: WholeTree(t) && Leaves(t) == cvs ==> |cvs| >= 2 && Eval(merge, mergeRoot, t) == MergeAsRoot(merge, mergeRoot, cvs)
  {
    forall t | WholeTree(t) && Leaves(t) == cvs ensures |cvs| >= 2 && Eval(merge, mergeRoot, t) == MergeAsRoot(merge, mergeRoot, cvs) {
      RootMerges(merge, mergeRoot, t);
    }
  }

  /** The count of groups against the count of pieces. */
  lemma OneGroup<T>(s: seq<T>, limit: nat)
    requires s != []
    ensures |Groups(s, GROUP)| <= limit <==> |s| <= limit * GROUP
  {
    GroupCount(s, GROUP);
  }

  /** `build_blake3`: for every number of chunks it can hold, the root is what the file's own
      BLAKE3 tree over the chunks' chaining values comes to, however many levels it was
      built in. */
  method BuildBlake3<T(==, !new)>(merge: (T, T) -> T, mergeRoot: (T, T) -> T, cvs: seq<T>) returns (r: Result<HashTree<T>, HashTreeError>)
    ensures cvs == [] ==> r == Err(NoChunks)
    ensures |cvs| > 1024 * 1024 * 1024 ==> r == Err(TooBig)
    ensures 0 < |cvs| <= 1024 * 1024 * 1024 ==>
      && r.Ok? && (|cvs| == 1 ==> r.value.root == cvs[0])
      && (forall t :: WholeTree(t) && Leaves(t) == cvs ==> r.value.root == Eval(merge, mergeRoot, t))
      && r.value.level1 == Groups(cvs, 1024)
      && (r.value.level2 == if |cvs| <= 1024 then [] else Groups(Grouped(merge, cvs, 1024), 1024))
      && (r.value.level3 == if |cvs| <= 1024 * 1024 then [] else Groups(Grouped(merge, Grouped(merge, cvs, 1024), 1024), 1024))
  {
    if cvs == [] {
      return Err(NoChunks);
    }
    hide MergeAsRoot, Pow2;
    GroupIsPower();
    TreeComesTo(merge, mergeRoot, cvs);
    hide WholeTree, Eval, Leaves;
    var level1 := BuildLevel(cvs);
    if |cvs| == 1 {
      return Ok(HashTree(cvs[0], level1, [], []));
    }
    OneGroup(cvs, 1);
    if |level1| == 1 {
      return Ok(HashTree(MergeAsRoot(merge, mergeRoot, cvs), level1, [], []));
    }
    GroupedRoot(merge, mergeRoot, cvs, 10);
    var cvs2 := MergeBlobs(merge, level1);
    assert cvs2 == Grouped(merge, cvs, GROUP);
    var level2 := BuildLevel(cvs2);
    OneGroup(cvs2, 1);
    OneGroup(cvs, GROUP);
    if |level2| == 1 {
      return Ok(HashTree(MergeAsRoot(merge, mergeRoot, cvs2), level1, level2, []));
    }
    GroupedRoot(merge, mergeRoot, cvs2, 10);
    var cvs3 := MergeBlobs(merge, level2);
    assert cvs3 == Grouped(merge, cvs2, GROUP);
    var level3 := BuildLevel(cvs3);
    OneGroup(cvs3, 1);
    OneGroup(cvs2, GROUP);
    OneGroup(cvs, GROUP * GROUP);
    if |level3| == 1 {
      return Ok(HashTree(MergeAsRoot(merge, mergeRoot, cvs3), level1, level2, level3));
    }
    return Err(TooBig);
  }

  /** `branch` at level 1: the group of a chunk holds its value at its place in the group. */
  lemma {:induction false} InItsGroup<T>(cvs: seq<T>, i: nat)
    requires i < |cvs|
    ensures var gs := Groups(cvs, GROUP);
      i / GROUP < |gs| && i % GROUP < |gs[i / GROUP]| && gs[i / GROUP][i % GROUP] == cvs[i]
    decreases |cvs|
  {
    if |cvs| > GROUP && i >= GROUP {
      InItsGroup(cvs[GROUP..], i - GROUP);
      assert (i - GROUP) / GROUP == i / GROUP - 1 && (i - GROUP) % GROUP == i % GROUP;
    }
  }
}
