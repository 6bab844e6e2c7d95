/** The canonical tree of a mapping: the one node tree the champ code keeps for it. */
module CanonicalTree {
  import opened Bytes
  import opened Bitmap
  import opened Mask
  import opened ChampNode

  /** What a champ stores. A key may be bound to null (`None`). */
  type Map = map<Key, Option<Value>>

  // ---- buckets ----------------------------------------------------------------

  ghost predicate Distinct(ms: seq<KeyElement>) {
    forall i, j :: 0 <= i < j < |ms| ==> ms[i].key != ms[j].key
  }

  ghost predicate Ordered(ms: seq<KeyElement>) {
    forall i, j :: 0 <= i < j < |ms| ==> Less(ms[i].key, ms[j].key)
  }

  /** `ms` lists the bindings of `m`, in any order. */
  ghost predicate Lists(ms: seq<KeyElement>, m: Map) {
    && (forall e :: e in ms ==> e.key in m && m[e.key] == e.value)
    && (forall k :: k in m ==> KeyElement(k, m[k]) in ms)
  }

  ghost predicate IsBucket(ms: seq<KeyElement>, m: Map) {
    Ordered(ms) && Lists(ms, m)
  }

  lemma OrderedDistinct(ms: seq<KeyElement>)
    requires Ordered(ms)
    ensures Distinct(ms)
  {
    forall i, j | 0 <= i < j < |ms| ensures ms[i].key != ms[j].key {
      LessTotal(ms[i].key, ms[j].key);
    }
  }

  lemma {:induction false} InsertMembers(ms: seq<KeyElement>, e: KeyElement)
    ensures |Insert(ms, e)| == |ms| + 1
    ensures forall x :: x in Insert(ms, e) <==> x == e || x in ms
  {
    if ms == [] || Less(e.key, ms[0].key) {
    } else {
      InsertMembers(ms[1..], e);
      assert ms == [ms[0]] + ms[1..];
    }
  }

  lemma {:induction false} InsertOrdered(ms: seq<KeyElement>, e: KeyElement)
    requires Ordered(ms) && forall x :: x in ms ==> x.key != e.key
    ensures Ordered(Insert(ms, e))
  {
    if ms == [] {
    } else if Less(e.key, ms[0].key) {
      forall j | 0 <= j < |ms| ensures Less(e.key, ms[j].key) {
        if j > 0 { LessTransitive(e.key, ms[0].key, ms[j].key); }
      }
    } else {
      var rest := Insert(ms[1..], e);
      InsertOrdered(ms[1..], e);
      InsertMembers(ms[1..], e);
      LessTotal(e.key, ms[0].key);
      assert ms[0] in ms;
      forall j | 0 <= j < |rest| ensures Less(ms[0].key, rest[j].key) {
        assert rest[j] in rest;
        if rest[j] != e {
          var i :| 0 <= i < |ms[1..]| && ms[1..][i] == rest[j];
          assert ms[i + 1] == rest[j];
        }
      }
    }
  }

  lemma InsertBucket(ms: seq<KeyElement>, m: Map, e: KeyElement)
    requires IsBucket(ms, m) && e.key !in m
    ensures IsBucket(Insert(ms, e), m[e.key := e.value])
  {
    InsertOrdered(ms, e);
    InsertMembers(ms, e);
  }

  lemma {:induction false} BucketExists(m: Map) returns (ms: seq<KeyElement>)
    ensures IsBucket(ms, m) && |ms| == |m|
    decreases |m|
  {
    if m == map[] {
      ms := [];
    } else {
      var k :| k in m;
      var r := m - {k};
      var rest := BucketExists(r);
      InsertBucket(rest, r, KeyElement(k, m[k]));
      InsertMembers(rest, KeyElement(k, m[k]));
      assert r[k := m[k]] == m;
      ms := Insert(rest, KeyElement(k, m[k]));
    }
  }

  lemma {:induction false} BucketUnique(a: seq<KeyElement>, b: seq<KeyElement>, m: Map)
    requires IsBucket(a, m) && IsBucket(b, m)
    ensures a == b
  {
    BucketSize(a, m);
    BucketSize(b, m);
    if a != [] {
      SameFirst(a, b, m);
      TailBucket(a, m);
      TailBucket(b, m);
      BucketUnique(a[1..], b[1..], m - {a[0].key});
      assert a == [a[0]] + a[1..] && b == [b[0]] + b[1..];
    }
  }

  lemma BucketSize(ms: seq<KeyElement>, m: Map)
    requires IsBucket(ms, m)
    ensures |ms| == |m|
  {
    OrderedDistinct(ms);
    ListsSize(ms, m);
  }

  lemma SameFirst(a: seq<KeyElement>, b: seq<KeyElement>, m: Map)
    requires IsBucket(a, m) && IsBucket(b, m) && a != [] && b != []
    ensures a[0] == b[0]
  {
    FirstIsLeast(a, b, m);
    FirstIsLeast(b, a, m);
    LessTotal(a[0].key, b[0].key);
    assert a[0] in a && b[0] in b;
  }

  lemma FirstIsLeast(a: seq<KeyElement>, b: seq<KeyElement>, m: Map)
    requires IsBucket(a, m) && IsBucket(b, m) && a != [] && b != []
    ensures a[0].key == b[0].key || Less(a[0].key, b[0].key)
  {
    assert b[0] in b;
    assert b[0] in a;
  }

  lemma TailBucket(a: seq<KeyElement>, m: Map)
    requires IsBucket(a, m) && a != []
    ensures IsBucket(a[1..], m - {a[0].key})
  {
    OrderedDistinct(a);
    var t, r := a[1..], m - {a[0].key};
    forall e | e in t ensures e.key in r && r[e.key] == e.value {
      var i :| 0 <= i < |t| && t[i] == e;
      assert a[i + 1] == e;
    }
    forall k | k in r ensures KeyElement(k, r[k]) in t {
      var i :| 0 <= i < |a| && a[i] == KeyElement(k, m[k]);
      assert t[i - 1] == a[i];
    }
  }

  /** The sorted bucket of a mapping. */
  ghost function BucketOf(m: Map): (ms: seq<KeyElement>)
    ensures IsBucket(ms, m) && |ms| == |m|
  {
    assert exists ms :: IsBucket(ms, m) && |ms| == |m| by { var ms := BucketExists(m); }
    var ms :| IsBucket(ms, m) && |ms| == |m|;
    ms
  }

  lemma {:induction false} SortBucket(ms: seq<KeyElement>, m: Map)
    requires Distinct(ms) && Lists(ms, m)
    ensures Sort(ms) == BucketOf(m)
  {
    SortIsBucket(ms, m);
    BucketUnique(Sort(ms), BucketOf(m), m);
  }

  lemma {:induction false} SortIsBucket(ms: seq<KeyElement>, m: Map)
    requires Distinct(ms) && Lists(ms, m)
    ensures IsBucket(Sort(ms), m)
  {
    if ms != [] {
      var e := InitListing(ms, m);
      var r, t := m - {e.key}, ms[..|ms| - 1];
      SortIsBucket(t, r);
      InsertBucket(Sort(t), r, e);
      assert r[e.key := e.value] == m;
    }
  }

  /** A listing without its last element lists the mapping without that key. */
  lemma InitListing(ms: seq<KeyElement>, m: Map) returns (e: KeyElement)
    requires Distinct(ms) && Lists(ms, m) && ms != []
    ensures e == ms[|ms| - 1] && e.key in m && m[e.key] == e.value
    ensures Distinct(ms[..|ms| - 1]) && Lists(ms[..|ms| - 1], m - {e.key})
  {
    e := ms[|ms| - 1];
    assert e in ms;
    var r, t := m - {e.key}, ms[..|ms| - 1];
    forall x | x in t ensures x.key in r && r[x.key] == x.value {
      var i :| 0 <= i < |t| && t[i] == x;
      assert ms[i] == x && ms[i] in ms;
    }
    forall k | k in r ensures KeyElement(k, r[k]) in t {
      var i :| 0 <= i < |ms| && ms[i] == KeyElement(k, m[k]);
      assert t[i] == ms[i];
    }
  }

  lemma {:induction false} ListsSize(ms: seq<KeyElement>, m: Map)
    requires Distinct(ms) && Lists(ms, m)
    ensures |ms| == |m|
  {
    if ms == [] {
      NothingListed(m);
    } else {
      var e := InitListing(ms, m);
      ListsSize(ms[..|ms| - 1], m - {e.key});
      hide *;
      assert m.Keys == (m - {e.key}).Keys + {e.key};
    }
  }

  lemma NothingListed(m: Map)
    requires Lists([], m)
    ensures m == map[]
  {}

  /** A listing decides membership of a key by one search. */
  lemma FindInListing(ms: seq<KeyElement>, m: Map, key: Key)
    requires Lists(ms, m)
    ensures Find(ms, key) < |ms| <==> key in m
    ensures key in m ==> ms[Find(ms, key)] == KeyElement(key, m[key])
  {
    var j := Find(ms, key);
    if key in m {
      var i :| 0 <= i < |ms| && ms[i] == KeyElement(key, m[key]);
    }
    if j < |ms| {
      assert ms[j] in ms;
    }
  }

  lemma FindInBucket(m: Map, key: Key)
    ensures var ms := BucketOf(m); var j := Find(ms, key);
      (j < |ms| <==> key in m) && (key in m ==> ms[j] == KeyElement(key, m[key]))
  {
    FindInListing(BucketOf(m), m, key);
  }

  // ---- the part of a mapping in one slot --------------------------------------

  ghost function Sub(m: Map, d: nat, i: nat): Map {
    map k | k in m && Slot(k, d) == i :: m[k]
  }

  lemma SubPut(m: Map, d: nat, k: Key, v: Option<Value>)
    ensures Sub(m[k := v], d, Slot(k, d)) == Sub(m, d, Slot(k, d))[k := v]
    ensures forall i :: i != Slot(k, d) ==> Sub(m[k := v], d, i) == Sub(m, d, i)
  {}

  lemma SubRemove(m: Map, d: nat, k: Key)
    ensures Sub(m - {k}, d, Slot(k, d)) == Sub(m, d, Slot(k, d)) - {k}
    ensures forall i :: i != Slot(k, d) ==> Sub(m - {k}, d, i) == Sub(m, d, i)
  {}

  /** The number of keys in the slots below `n`. */
  ghost function SumBelow(m: Map, d: nat, n: nat): nat {
    if n == 0 then 0 else SumBelow(m, d, n - 1) + |Sub(m, d, n - 1)|
  }

  lemma {:induction false} SumBelowCounts(m: Map, d: nat, n: nat)
    ensures SumBelow(m, d, n) == |set k | k in m && Slot(k, d) < n|
  {
    if n == 0 {
      assert (set k | k in m && Slot(k, d) < n) == {};
    } else {
      hide Slot;
      SumBelowCounts(m, d, n - 1);
      var a := set k | k in m && Slot(k, d) < n - 1;
      var b := Sub(m, d, n - 1).Keys;
      assert a !! b && (set k | k in m && Slot(k, d) < n) == a + b;
    }
  }

  /** The slots of a node partition its keys. */
  lemma SlotsPartition(m: Map, d: nat)
    ensures SumBelow(m, d, SLOTS) == |m|
  {
    SumBelowCounts(m, d, SLOTS);
    assert (set k | k in m && Slot(k, d) < SLOTS) == m.Keys;
  }

  lemma SubIsSmaller(m: Map, d: nat, i: nat)
    ensures |Sub(m, d, i)| <= |m|
    ensures |Sub(m, d, i)| == |m| ==> Sub(m, d, i) == m
  {
    SubsetSize(Sub(m, d, i).Keys, m.Keys);
  }

  lemma SubsetSize<T>(a: set<T>, b: set<T>)
    requires a <= b
    ensures |a| <= |b|
    ensures |a| == |b| ==> a == b
  {
    assert b == a + (b - a);
  }

  // ---- the canonical tree -----------------------------------------------------

  /** No five keys of `m` share a slot at every depth from `d` to 31. */
  ghost predicate Fits(m: Map, d: nat)
    decreases HASH_CODE_LENGTH - d
  {
    d < HASH_CODE_LENGTH && forall i :: 0 <= i < SLOTS && |Sub(m, d, i)| > MAX_COLLISIONS ==> Fits(Sub(m, d, i), d + 1)
  }

  /** Two of the keys part at some depth from `d` to 31. */
  ghost predicate Part(ks: set<Key>, d: nat) {
    exists a, b, e :: a in ks && b in ks && d <= e < 32 && Slot(a, e) != Slot(b, e)
  }

  /** A mapping fits exactly if of any five of its keys two part. */
  lemma FitsExactly(m: Map, d: nat)
    ensures Fits(m, d) <==> d < 32 && forall ks: set<Key> :: ks <= m.Keys && |ks| == 5 ==> Part(ks, d)
  {
    hide Part;
    if Fits(m, d) {
      forall ks: set<Key> | ks <= m.Keys && |ks| == 5 ensures Part(ks, d) { FivePart(m, d, ks); }
    } else if d < 32 {
      var ks := FiveTogether(m, d);
    }
  }

  lemma {:induction false} FivePart(m: Map, d: nat, ks: set<Key>)
    requires Fits(m, d) && ks <= m.Keys && |ks| == 5
    ensures Part(ks, d)
    decreases 32 - d
  {
    var a :| a in ks;
    if b :| b in ks && Slot(b, d) != Slot(a, d) {
    } else {
      var s := Sub(m, d, Slot(a, d));
      SubsetSize(ks, s.Keys);
      FivePart(s, d + 1, ks);
    }
  }

  lemma {:induction false} FiveTogether(m: Map, d: nat) returns (ks: set<Key>)
    requires !Fits(m, d) && d < 32
    ensures ks <= m.Keys && |ks| == 5 && !Part(ks, d)
    decreases 32 - d
  {
    var i :| 0 <= i < SLOTS && |Sub(m, d, i)| > MAX_COLLISIONS && !Fits(Sub(m, d, i), d + 1);
    var s := Sub(m, d, i);
    if d + 1 < 32 {
      ks := FiveTogether(s, d + 1);
    } else {
      ks := SomeOf(s.Keys, 5);
    }
    assert forall k :: k in ks ==> k in s && Slot(k, d) == i;
  }

  lemma {:induction false} SomeOf<T>(all: set<T>, n: nat) returns (some: set<T>)
    requires n <= |all|
    ensures some <= all && |some| == n
  {
    some := {};
    if n > 0 {
      var x :| x in all;
      some := SomeOf(all - {x}, n - 1);
      some := some + {x};
    }
  }

  lemma FitsDepth(m: Map, d: nat)
    requires Fits(m, d)
    ensures d < HASH_CODE_LENGTH
  {}

  ghost function SlotAt(m: Map, d: nat, bat: Bat, i: nat): SlotView
    requires Fits(m, d) && i < SLOTS
    decreases HASH_CODE_LENGTH - d, 0
  {
    var s := Sub(m, d, i);
    if |s| == 0 then Empty
    else if |s| <= MAX_COLLISIONS then Bucket(BucketOf(s))
    else Shard(CidOf(Canon(s, d + 1, bat)))
  }

  ghost function Slots(m: Map, d: nat, bat: Bat): (s: seq<SlotView>)
    requires Fits(m, d)
    ensures |s| == SLOTS
    decreases HASH_CODE_LENGTH - d, 1
  {
    seq(SLOTS, i requires 0 <= i < SLOTS => SlotAt(m, d, bat, i))
  }

  /** The node that stores `m` at depth `d`: a slot of at most four keys is a
      bucket, a fuller one a link to the canonical node of its keys. */
  ghost function Canon(m: Map, d: nat, bat: Bat): Champ
    requires Fits(m, d)
    decreases HASH_CODE_LENGTH - d, 2
  {
    NodeOf(Slots(m, d, bat), bat)
  }

  lemma SmallFits(m: Map, d: nat)
    requires |m| <= MAX_COLLISIONS && d < HASH_CODE_LENGTH
    ensures Fits(m, d)
  {
    forall i | 0 <= i < SLOTS ensures |Sub(m, d, i)| <= MAX_COLLISIONS {
      SubIsSmaller(m, d, i);
    }
  }

  /** Fewer keys fit where more do; the values play no part. */
  lemma {:induction false} FitsMono(m: Map, m': Map, d: nat)
    requires Fits(m, d) && m'.Keys <= m.Keys
    ensures Fits(m', d)
    decreases HASH_CODE_LENGTH - d
  {
    forall i | 0 <= i < SLOTS && |Sub(m', d, i)| > MAX_COLLISIONS
      ensures Fits(Sub(m', d, i), d + 1)
    {
      SubsetSize(Sub(m', d, i).Keys, Sub(m, d, i).Keys);
      FitsMono(Sub(m, d, i), Sub(m', d, i), d + 1);
    }
  }

  /** Putting a key touches its slot only, and fits exactly when its slot does. */
  lemma FitsPut(m: Map, d: nat, k: Key, v: Option<Value>)
    requires Fits(m, d)
    ensures var s := Sub(m, d, Slot(k, d))[k := v];
      Fits(m[k := v], d) <==> (|s| > MAX_COLLISIONS ==> Fits(s, d + 1))
  {
    var at, m' := Slot(k, d), m[k := v];
    SubPut(m, d, k, v);
    var s := Sub(m', d, at);
    if |s| > MAX_COLLISIONS ==> Fits(s, d + 1) {
      forall i | 0 <= i < SLOTS && |Sub(m', d, i)| > MAX_COLLISIONS ensures Fits(Sub(m', d, i), d + 1) {
        if i != at {
          assert Sub(m', d, i) == Sub(m, d, i);
        }
      }
    }
  }

  lemma PutSlots(m: Map, d: nat, bat: Bat, k: Key, v: Option<Value>)
    requires Fits(m, d) && Fits(m[k := v], d)
    ensures Slots(m[k := v], d, bat) == Slots(m, d, bat)[Slot(k, d) := SlotAt(m[k := v], d, bat, Slot(k, d))]
  {
    hide BucketOf, IsBucket, Sub, Canon, Slot;
    SubPut(m, d, k, v);
    var s, t, at := Slots(m, d, bat), Slots(m[k := v], d, bat), Slot(k, d);
    forall i | 0 <= i < SLOTS && i != at ensures t[i] == s[i] {
      assert t[i] == SlotAt(m[k := v], d, bat, i) && s[i] == SlotAt(m, d, bat, i);
    }
  }

  lemma RemoveSlots(m: Map, d: nat, bat: Bat, k: Key)
    requires Fits(m, d) && Fits(m - {k}, d)
    ensures Slots(m - {k}, d, bat) == Slots(m, d, bat)[Slot(k, d) := SlotAt(m - {k}, d, bat, Slot(k, d))]
  {
    hide BucketOf, IsBucket, Sub, Canon, Slot;
    SubRemove(m, d, k);
    var s, t, at := Slots(m, d, bat), Slots(m - {k}, d, bat), Slot(k, d);
    forall i | 0 <= i < SLOTS && i != at ensures t[i] == s[i] {
      assert t[i] == SlotAt(m - {k}, d, bat, i) && s[i] == SlotAt(m, d, bat, i);
    }
  }

  /** The canonical tree determines its mapping. */
  lemma {:induction false} CanonInjective(a: Map, b: Map, d: nat, bat: Bat)
    requires Fits(a, d) && Fits(b, d) && Canon(a, d, bat) == Canon(b, d, bat)
    ensures a == b
    decreases HASH_CODE_LENGTH - d, 1
  {
    forall i: nat | i < SLOTS ensures Sub(a, d, i) == Sub(b, d, i) {
      NodeOfInjective(Slots(a, d, bat), Slots(b, d, bat), bat, i);
      SlotInjective(a, b, d, bat, i);
    }
    forall k | k in a ensures k in b && a[k] == b[k] { assert k in Sub(a, d, Slot(k, d)); }
    forall k | k in b ensures k in a { assert k in Sub(b, d, Slot(k, d)); }
  }

  lemma {:induction false} SlotInjective(a: Map, b: Map, d: nat, bat: Bat, i: nat)
    requires Fits(a, d) && Fits(b, d) && i < SLOTS && SlotAt(a, d, bat, i) == SlotAt(b, d, bat, i)
    ensures Sub(a, d, i) == Sub(b, d, i)
    decreases HASH_CODE_LENGTH - d, 0
  {
    var s, t := Sub(a, d, i), Sub(b, d, i);
    if |s| > MAX_COLLISIONS {
      assert |t| > MAX_COLLISIONS && Canon(s, d + 1, bat) == Canon(t, d + 1, bat);
      CanonInjective(s, t, d + 1, bat);
    } else if |s| > 0 {
      assert 0 < |t| <= MAX_COLLISIONS && BucketOf(s) == BucketOf(t);
      ListsUnique(BucketOf(s), s, t);
    } else {
      assert s == map[] && t == map[];
    }
  }

  lemma ListsUnique(ms: seq<KeyElement>, a: Map, b: Map)
    requires Lists(ms, a) && Lists(ms, b)
    ensures a == b
  {
    forall k | k in a ensures k in b && a[k] == b[k] { assert KeyElement(k, a[k]) in ms; }
    forall k | k in b ensures k in a { assert KeyElement(k, b[k]) in ms; }
  }
}
