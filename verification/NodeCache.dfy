/** The cache of decrypted nodes (`cache.rs`): a tick-stamped LRU that behaves as a
    recency list, and a two-level cache that never answers with a stale node. */
module NodeCache {
  import opened Bytes

  // ---- the LRU ---------------------------------------------------------------------------

  /** The map holds each value with the tick of its last use. */
  datatype Lru<K(==), V> = Lru(entries: map<K, (nat, V)>, tick: nat, cap: nat)

  function NewLru<K, V>(cap: nat): Lru<K, V> { Lru(map[], 0, if cap == 0 then 1 else cap) }

  /** `get` and `get_mut`: the value, and the map with its tick renewed. */
  function Touch<K, V>(l: Lru<K, V>, k: K): (Lru<K, V>, Option<V>) {
    var t := l.tick + 1;
    if k in l.entries then (l.(tick := t, entries := l.entries[k := (t, l.entries[k].1)]), Some(l.entries[k].1))
    else (l.(tick := t), None)
  }

  function Removed<K, V>(l: Lru<K, V>, k: K): Lru<K, V> { l.(entries := l.entries - {k}) }

  /** `iter().min_by_key` on the ticks, in whatever order the map has. */
  method Oldest<K(==), V>(l: Lru<K, V>) returns (k: K)
    requires l.entries.Keys != {}
    ensures k in l.entries && forall x :: x in l.entries ==> l.entries[k].0 <= l.entries[x].0
  {
    var todo := l.entries.Keys;
    k :| k in todo;
    while todo != {}
      invariant todo <= l.entries.Keys && k in l.entries
      invariant forall x :: x in l.entries && x !in todo ==> l.entries[k].0 <= l.entries[x].0
    {
      var x :| x in todo;
      if l.entries[x].0 < l.entries[k].0 {
        k := x;
      }
      todo := todo - {x};
    }
  }

  // ---- the recency list it stands for ------------------------------------------------------

  /** Keys and values, the most recently used first. */
  type Recency<K, V> = seq<(K, V)>

  /** `list` is these entries, newest tick first, the newest below `top`. */
  ghost predicate Descends<K, V>(entries: map<K, (nat, V)>, list: Recency<K, V>, top: nat) {
    if list == [] then entries == map[]
    else
      var (k, v) := list[0];
      k in entries && entries[k].1 == v && entries[k].0 < top && Descends(entries - {k}, list[1..], entries[k].0)
  }

  ghost predicate Lists<K, V>(l: Lru<K, V>, list: Recency<K, V>) {
    Descends(l.entries, list, l.tick + 1) && |list| <= l.cap && l.cap > 0
  }

  ghost function Lookup<K, V>(list: Recency<K, V>, k: K): Option<V> {
    if list == [] then None else if list[0].0 == k then Some(list[0].1) else Lookup(list[1..], k)
  }

  ghost function Without<K, V>(list: Recency<K, V>, k: K): Recency<K, V> {
    if list == [] then [] else if list[0].0 == k then list[1..] else [list[0]] + Without(list[1..], k)
  }

  /** A use moves the key to the front. */
  ghost function Used<K, V>(list: Recency<K, V>, k: K): Recency<K, V> {
    match Lookup(list, k)
    case Some(v) => [(k, v)] + Without(list, k)
    case None => list
  }

  /** A new key goes to the front, and pushes the last one out of a full list. */
  ghost function Added<K, V>(list: Recency<K, V>, k: K, v: V, cap: nat): Recency<K, V> {
    if Lookup(list, k).None? && |list| >= cap && list != [] then [(k, v)] + list[..|list| - 1] else [(k, v)] + Without(list, k)
  }

  lemma {:induction false} DescendsAre<K, V>(entries: map<K, (nat, V)>, list: Recency<K, V>, top: nat, k: K)
    requires Descends(entries, list, top)
    ensures Lookup(list, k) == if k in entries then Some(entries[k].1) else None
    ensures k in entries ==> entries[k].0 < top
    ensures |list| == |entries|
  {
    if list != [] {
      var h := list[0].0;
      DescendsAre(entries - {h}, list[1..], entries[h].0, k);
      assert entries.Keys == (entries - {h}).Keys + {h};
    }
  }

  lemma Raise<K, V>(entries: map<K, (nat, V)>, list: Recency<K, V>, top: nat, more: nat)
    requires Descends(entries, list, top) && top <= more
    ensures Descends(entries, list, more)
  {}

  /** Taking a key out of the map takes it out of the list. */
  lemma {:induction false} RemoveRefines<K, V>(entries: map<K, (nat, V)>, list: Recency<K, V>, top: nat, k: K)
    requires Descends(entries, list, top)
    ensures Descends(entries - {k}, Without(list, k), top)
    ensures |Without(list, k)| == if k in entries then |list| - 1 else |list|
  {
    if list != [] {
      var h := list[0].0;
      if h == k {
        Raise(entries - {k}, list[1..], entries[k].0, top);
      } else {
        RemoveRefines(entries - {h}, list[1..], entries[h].0, k);
        assert entries - {h} - {k} == entries - {k} - {h};
        var rest := Without(list[1..], k);
        assert ([list[0]] + rest)[1..] == rest;
      }
    } else {
      assert entries - {k} == map[];
    }
  }

  /** A key not in the map, put there with the newest tick, heads the list. */
  lemma PushRefines<K, V>(entries: map<K, (nat, V)>, list: Recency<K, V>, top: nat, k: K, v: V)
    requires Descends(entries, list, top) && k !in entries
    ensures Descends(entries[k := (top, v)], [(k, v)] + list, top + 1)
  {
    assert entries[k := (top, v)] - {k} == entries;
    assert ([(k, v)] + list)[1..] == list;
  }

  lemma PutRefines<K, V>(entries: map<K, (nat, V)>, list: Recency<K, V>, top: nat, k: K, v: V)
    requires Descends(entries, list, top)
    ensures Descends(entries[k := (top, v)], [(k, v)] + Without(list, k), top + 1)
  {
    RemoveRefines(entries, list, top, k);
    PushRefines(entries - {k}, Without(list, k), top, k, v);
    assert (entries - {k})[k := (top, v)] == entries[k := (top, v)];
  }

  /** Reading answers as the list does, and moves the key to its front. */
  lemma TouchRefines<K, V>(l: Lru<K, V>, list: Recency<K, V>, k: K)
    requires Lists(l, list)
    ensures Lists(Touch(l, k).0, Used(list, k)) && Touch(l, k).1 == Lookup(list, k)
  {
    DescendsAre(l.entries, list, l.tick + 1, k);
    RemoveRefines(l.entries, list, l.tick + 1, k);
    if k in l.entries {
      PutRefines(l.entries, list, l.tick + 1, k, l.entries[k].1);
    } else {
      Raise(l.entries, list, l.tick + 1, l.tick + 2);
    }
  }

  /** The oldest entry is the last of the list. */
  lemma {:induction false} OldestIsLast<K, V>(entries: map<K, (nat, V)>, list: Recency<K, V>, top: nat, k: K)
    requires Descends(entries, list, top) && k in entries && forall x :: x in entries ==> entries[k].0 <= entries[x].0
    ensures list != [] && Without(list, k) == list[..|list| - 1]
  {
    var h := list[0].0;
    if |list| == 1 {
      DescendsAre(entries - {h}, list[1..], entries[h].0, k);
      assert list[..0] == list[1..];
    } else {
      var x := list[1].0;
      DescendsAre(entries - {h}, list[1..], entries[h].0, x);
      assert x in entries && k != h;
      OldestIsLast(entries - {h}, list[1..], entries[h].0, k);
      assert [list[0]] + list[1..][..|list| - 2] == list[..|list| - 1];
    }
  }

  /** `x` is pushed out when `k` goes into a full map: the least recently used entry. */
  ghost predicate Evicted<K, V>(l: Lru<K, V>, k: K, x: K) {
    k !in l.entries && |l.entries| >= l.cap && x in l.entries && forall y :: y in l.entries ==> l.entries[x].0 <= l.entries[y].0
  }

  /** But for `k`, exactly the entries are there that were, less the one it pushes out. */
  ghost predicate Stays<K, V>(before: Lru<K, V>, k: K, after: Lru<K, V>) {
    && (forall x :: x in before.entries && x != k && !Evicted(before, k, x) ==> x in after.entries)
    && (forall x :: x in after.entries && x != k ==> x in before.entries && after.entries[x] == before.entries[x])
  }

  lemma PutStays<K, V>(l: Lru<K, V>, k: K, t: nat, v: V)
    ensures Stays(l, k, l.(tick := t, entries := l.entries[k := (t, v)]))
  {
    hide Evicted;
  }

  lemma EvictStays<K, V>(l: Lru<K, V>, k: K, t: nat, v: V, oldest: K)
    requires Evicted(l, k, oldest)
    ensures Stays(l, k, l.(tick := t, entries := (l.entries - {oldest})[k := (t, v)]))
  {
    hide Evicted;
  }

  /** The most recently used. */
  ghost predicate Newest<K, V>(l: Lru<K, V>, k: K) {
    k in l.entries && forall x :: x in l.entries && x != k ==> l.entries[x].0 < l.entries[k].0
  }

  /** The key with the next tick is the newest of the list. */
  lemma NextIsNewest<K, V>(l: Lru<K, V>, list: Recency<K, V>, entries: map<K, (nat, V)>, k: K, v: V)
    requires Lists(l, list) && forall x :: x in entries ==> x in l.entries && entries[x] == l.entries[x]
    ensures Newest(l.(tick := l.tick + 1, entries := entries[k := (l.tick + 1, v)]), k)
  {
    forall x | x in entries ensures entries[x].0 < l.tick + 1 { DescendsAre(l.entries, list, l.tick + 1, x); }
  }

  ghost predicate Inserted<K, V>(l: Lru<K, V>, list: Recency<K, V>, k: K, v: V, after: Lru<K, V>) {
    && Lists(after, Added(list, k, v, l.cap)) && after.cap == l.cap
    && k in after.entries && after.entries[k].1 == v && Stays(l, k, after) && Newest(after, k)
  }

  function WithNew<K, V>(l: Lru<K, V>, entries: map<K, (nat, V)>, k: K, v: V): Lru<K, V> {
    l.(tick := l.tick + 1, entries := entries[k := (l.tick + 1, v)])
  }

  lemma InsertFull<K, V>(l: Lru<K, V>, list: Recency<K, V>, k: K, v: V, oldest: K)
    requires Lists(l, list) && Evicted(l, k, oldest)
    ensures Inserted(l, list, k, v, WithNew(l, l.entries - {oldest}, k, v))
  {
    DescendsAre(l.entries, list, l.tick + 1, k);
    OldestIsLast(l.entries, list, l.tick + 1, oldest);
    RemoveRefines(l.entries, list, l.tick + 1, oldest);
    EvictStays(l, k, l.tick + 1, v, oldest);
    PushRefines(l.entries - {oldest}, list[..|list| - 1], l.tick + 1, k, v);
    NextIsNewest(l, list, l.entries - {oldest}, k, v);
    hide Descends, Stays, Newest, Evicted;
  }

  lemma InsertRoom<K, V>(l: Lru<K, V>, list: Recency<K, V>, k: K, v: V)
    requires Lists(l, list) && (k in l.entries || |l.entries| < l.cap)
    ensures Inserted(l, list, k, v, WithNew(l, l.entries, k, v))
  {
    DescendsAre(l.entries, list, l.tick + 1, k);
    RemoveRefines(l.entries, list, l.tick + 1, k);
    PutStays(l, k, l.tick + 1, v);
    PutRefines(l.entries, list, l.tick + 1, k, v);
    NextIsNewest(l, list, l.entries, k, v);
    hide Descends, Stays, Newest;
  }

  /** `insert`, against the list: to the front, the last one out if there is no room. */
  method Insert<K(==), V>(l: Lru<K, V>, k: K, v: V, ghost list: Recency<K, V>) returns (after: Lru<K, V>)
    requires Lists(l, list)
    ensures Inserted(l, list, k, v, after)
  {
    assert l.cap > 0 && |l.entries| == |l.entries.Keys|;
    hide Lists, Inserted;
    if k !in l.entries && |l.entries| >= l.cap {
      assert l.entries.Keys != {};
      var oldest := Oldest(l);
      InsertFull(l, list, k, v, oldest);
      after := WithNew(l, l.entries - {oldest}, k, v);
    } else {
      InsertRoom(l, list, k, v);
      after := WithNew(l, l.entries, k, v);
    }
  }

  // ---- the cache -----------------------------------------------------------------------------

  type Root = seq<byte>
  type MapKey = seq<byte>
  type SymmetricKey = seq<byte>

  /** A node, or its known absence, and the key it was parsed with if it was parsed. */
  datatype Entry<Node> = Entry(parsedWith: Option<SymmetricKey>, node: Option<Node>)

  type Group<Node> = Lru<MapKey, Entry<Node>>

  /** What a fresh lookup under this root gives, by map key and the key it is read with. */
  type Lookups<!Node> = (Root, MapKey, SymmetricKey) -> Option<Node>

  ghost predicate IsLru<K(!new), V(!new)>(l: Lru<K, V>) { exists list :: Lists(l, list) }

  /** The group has an entry for this map key that may be handed to this key. */
  predicate ServedFor<Node>(g: Group<Node>, k: MapKey, key: SymmetricKey) {
    k in g.entries && (g.entries[k].1.parsedWith == None || g.entries[k].1.parsedWith == Some(key))
  }

  /** The entry says what a fresh lookup would, for every key it may be handed to. */
  ghost predicate Holds<Node>(truth: Lookups<Node>, root: Root, k: MapKey, e: Entry<Node>) {
    forall key :: e.parsedWith == None || e.parsedWith == Some(key) ==> truth(root, k, key) == e.node
  }

  ghost predicate GroupHolds<Node(!new)>(truth: Lookups<Node>, root: Root, g: Group<Node>) {
    IsLru(g) && forall k :: k in g.entries ==> Holds(truth, root, k, g.entries[k].1)
  }

  /** The two roots agree on every map key but these. */
  ghost predicate AgreeExcept<Node>(truth: Lookups<Node>, prior: Root, root: Root, changed: seq<MapKey>) {
    forall k, key :: k !in changed ==> truth(prior, k, key) == truth(root, k, key)
  }

  lemma {:induction false} ReplaceKeepsTicks<K, V>(entries: map<K, (nat, V)>, list: Recency<K, V>, top: nat, k: K, v: V) returns (after: Recency<K, V>)
    requires Descends(entries, list, top) && k in entries
    ensures Descends(entries[k := (entries[k].0, v)], after, top) && |after| == |list|
  {
    var h := list[0].0;
    if h == k {
      after := [(k, v)] + list[1..];
      assert entries[k := (entries[k].0, v)] - {k} == entries - {k} && after[1..] == list[1..];
    } else {
      var rest := ReplaceKeepsTicks(entries - {h}, list[1..], entries[h].0, k, v);
      after := [list[0]] + rest;
      assert entries[k := (entries[k].0, v)] - {h} == (entries - {h})[k := (entries[k].0, v)] && after[1..] == rest;
    }
  }

  /** The value in place of another, as through `get_mut`. */
  function Replaced<K, V>(l: Lru<K, V>, k: K, v: V): Lru<K, V>
    requires k in l.entries
  {
    l.(entries := l.entries[k := (l.entries[k].0, v)])
  }

  lemma ReplacedIsLru<K(!new), V(!new)>(l: Lru<K, V>, k: K, v: V)
    requires IsLru(l) && k in l.entries
    ensures IsLru(Replaced(l, k, v))
  {
    var list :| Lists(l, list);
    var after := ReplaceKeepsTicks(l.entries, list, l.tick + 1, k, v);
    assert Lists(Replaced(l, k, v), after);
  }

  lemma TouchedIsLru<K(!new), V(!new)>(l: Lru<K, V>, k: K)
    requires IsLru(l)
    ensures IsLru(Touch(l, k).0)
  {
    var list :| Lists(l, list);
    TouchRefines(l, list, k);
  }

  lemma RemovedIsLru<K(!new), V(!new)>(l: Lru<K, V>, k: K)
    requires IsLru(l)
    ensures IsLru(Removed(l, k))
  {
    var list :| Lists(l, list);
    RemoveRefines(l.entries, list, l.tick + 1, k);
    assert Lists(Removed(l, k), Without(list, k));
  }

  lemma NewIsLru<K(!new), V(!new)>(cap: nat)
    ensures IsLru(NewLru<K, V>(cap))
  {
    assert Lists(NewLru<K, V>(cap), []);
  }

  method InsertInto<K(==, !new), V(!new)>(l: Lru<K, V>, k: K, v: V) returns (after: Lru<K, V>)
    requires IsLru(l)
    ensures IsLru(after) && k in after.entries && after.entries[k].1 == v && Stays(l, k, after) && Newest(after, k) && after.cap == l.cap
  {
    hide Lists, Stays, Newest;
    ghost var list :| Lists(l, list);
    after := Insert(l, k, v, list);
  }

  /** All entries hold, but for those of one root at the map keys of a change that is
      being carried over. */
  lemma LruFits<K(!new), V(!new)>(l: Lru<K, V>, k: K)
    requires IsLru(l)
    ensures |l.entries| <= l.cap
  {
    var list :| Lists(l, list);
    DescendsAre(l.entries, list, l.tick + 1, k);
  }

  /** What putting `k` under a root leaves of the cache: of the other roots all but one
      pushed out, and of that root's entries all but one pushed out. */
  ghost predicate OthersStay<Node>(before: Lru<Root, Group<Node>>, root: Root, k: MapKey, after: Lru<Root, Group<Node>>) {
    && Stays(before, root, after) && root in after.entries
    && (root in before.entries ==> Stays(before.entries[root].1, k, after.entries[root].1))
  }

  /** The same keys, and the same values and ticks but for `k`. */
  ghost predicate SameBut<K, V>(a: Lru<K, V>, k: K, b: Lru<K, V>) {
    a.entries.Keys == b.entries.Keys && forall x :: x in a.entries && x != k ==> b.entries[x] == a.entries[x]
  }

  lemma SameStays<K, V>(before: Lru<K, V>, k: K, mid: Lru<K, V>, after: Lru<K, V>)
    requires SameBut(mid, k, after)
    ensures Stays(before, k, mid) ==> Stays(before, k, after)
    ensures SameBut(before, k, mid) ==> SameBut(before, k, after)
  {
    hide Evicted;
  }

  lemma SameIsStays<K, V>(before: Lru<K, V>, k: K, after: Lru<K, V>)
    requires SameBut(before, k, after)
    ensures Stays(before, k, after)
  {
    hide Evicted;
  }

  lemma TickedStays<K, V>(before: Lru<K, V>, t: nat, k: K, after: Lru<K, V>)
    requires Stays(before.(tick := t), k, after)
    ensures Stays(before, k, after)
  {}

  lemma TouchNewest<K(!new), V(!new)>(l: Lru<K, V>, k: K)
    requires IsLru(l) && k in l.entries
    ensures Newest(Touch(l, k).0, k)
  {
    var list :| Lists(l, list);
    NextIsNewest(l, list, l.entries, k, l.entries[k].1);
  }

  lemma ReplacedNewest<K, V>(l: Lru<K, V>, k: K, v: V)
    requires Newest(l, k)
    ensures Newest(Replaced(l, k, v), k)
  {}

  /** At most four roots are kept, and as many nodes under each as the cache was made for. */
  ghost predicate Bounded<Node>(byRoot: Lru<Root, Group<Node>>, cap: nat) {
    byRoot.cap == 4 && cap > 0 && forall r :: r in byRoot.entries ==> byRoot.entries[r].1.cap == cap
  }

  lemma TouchBounded<Node>(byRoot: Lru<Root, Group<Node>>, root: Root, cap: nat)
    requires Bounded(byRoot, cap)
    ensures Bounded(Touch(byRoot, root).0, cap)
  {}

  lemma ReplacedBounded<Node>(byRoot: Lru<Root, Group<Node>>, root: Root, g: Group<Node>, cap: nat)
    requires Bounded(byRoot, cap) && root in byRoot.entries && g.cap == cap
    ensures Bounded(Replaced(byRoot, root, g), cap)
  {}

  lemma InsertBounded<Node>(byRoot: Lru<Root, Group<Node>>, root: Root, after: Lru<Root, Group<Node>>, cap: nat)
    requires Bounded(byRoot, cap) && Stays(byRoot, root, after) && after.cap == byRoot.cap && root in after.entries && after.entries[root].1.cap == cap
    ensures Bounded(after, cap)
  {
    hide Evicted;
  }

  lemma TouchSame<K, V>(l: Lru<K, V>, k: K)
    ensures SameBut(l, k, Touch(l, k).0) && (k in l.entries ==> Touch(l, k).0.entries[k].1 == l.entries[k].1)
  {}

  lemma ReplacedSame<K, V>(l: Lru<K, V>, k: K, v: V)
    requires k in l.entries
    ensures SameBut(l, k, Replaced(l, k, v))
  {}

  ghost predicate AllHoldBut<Node(!new)>(truth: Lookups<Node>, byRoot: Lru<Root, Group<Node>>, root: Root, changed: seq<MapKey>) {
    && IsLru(byRoot)
    && (forall r :: r in byRoot.entries && r != root ==> GroupHolds(truth, r, byRoot.entries[r].1))
    && (root in byRoot.entries ==> GroupHoldsBut(truth, root, byRoot.entries[root].1, changed))
  }

  ghost predicate GroupHoldsBut<Node(!new)>(truth: Lookups<Node>, root: Root, g: Group<Node>, changed: seq<MapKey>) {
    IsLru(g) && forall k :: k in g.entries && k !in changed ==> Holds(truth, root, k, g.entries[k].1)
  }

  ghost predicate AllHold<Node(!new)>(truth: Lookups<Node>, byRoot: Lru<Root, Group<Node>>) {
    IsLru(byRoot) && forall r :: r in byRoot.entries ==> GroupHolds(truth, r, byRoot.entries[r].1)
  }

  lemma HoldBut<Node(!new)>(truth: Lookups<Node>, byRoot: Lru<Root, Group<Node>>, root: Root, changed: seq<MapKey>)
    requires AllHold(truth, byRoot)
    ensures AllHoldBut(truth, byRoot, root, changed)
  {
    hide IsLru, Holds;
  }

  lemma TouchHolds<Node(!new)>(truth: Lookups<Node>, byRoot: Lru<Root, Group<Node>>, root: Root, changed: seq<MapKey>)
    requires AllHoldBut(truth, byRoot, root, changed)
    ensures AllHoldBut(truth, Touch(byRoot, root).0, root, changed)
  {
    hide IsLru, GroupHolds, GroupHoldsBut;
    TouchedIsLru(byRoot, root);
  }

  lemma ReplaceHolds<Node(!new)>(truth: Lookups<Node>, byRoot: Lru<Root, Group<Node>>, root: Root, changed: seq<MapKey>, g: Group<Node>)
    requires AllHoldBut(truth, byRoot, root, changed) && root in byRoot.entries && GroupHolds(truth, root, g)
    ensures AllHold(truth, Replaced(byRoot, root, g))
  {
    hide IsLru, GroupHolds, GroupHoldsBut;
    ReplacedIsLru(byRoot, root, g);
  }

  /** A group that held under the prior root holds under the new one but for the change. */
  lemma CarriedHolds<Node(!new)>(truth: Lookups<Node>, prior: Root, root: Root, changed: seq<MapKey>, g: Group<Node>)
    requires GroupHolds(truth, prior, g) && AgreeExcept(truth, prior, root, changed)
    ensures GroupHoldsBut(truth, root, g, changed)
  {
    hide IsLru;
    forall k | k in g.entries && k !in changed ensures Holds(truth, root, k, g.entries[k].1) {
      assert Holds(truth, prior, k, g.entries[k].1);
    }
  }

  lemma NoGroup<Node(!new)>(truth: Lookups<Node>, byRoot: Lru<Root, Group<Node>>, root: Root, changed: seq<MapKey>)
    requires AllHoldBut(truth, byRoot, root, changed) && root !in byRoot.entries
    ensures AllHold(truth, byRoot)
  {}

  /** Exactly the entries that no change touches, as they were. */
  ghost predicate Kept<K(!new), V>(l: Lru<K, V>, changed: seq<K>, after: Lru<K, V>) {
    && (forall k :: k in after.entries <==> k in l.entries && k !in changed)
    && (forall k :: k in after.entries ==> after.entries[k] == l.entries[k])
  }

  method RemoveAll<K(==, !new), V(!new)>(l: Lru<K, V>, keys: seq<K>) returns (after: Lru<K, V>)
    requires IsLru(l)
    ensures IsLru(after) && Kept(l, keys, after) && after.cap == l.cap
  {
    hide IsLru;
    after := l;
    for i := 0 to |keys|
      invariant IsLru(after) && after.cap == l.cap && forall k :: k in after.entries <==> k in l.entries && k !in keys[..i]
      invariant forall k :: k in after.entries ==> after.entries[k] == l.entries[k]
    {
      RemovedIsLru(after, keys[i]);
      after := Removed(after, keys[i]);
    }
  }

  lemma NewNodeHolds<Node>(truth: Lookups<Node>, root: Root, k: MapKey, val: Option<Node>)
    requires forall key :: truth(root, k, key) == val
    ensures Holds(truth, root, k, Entry(None, val))
  {}

  /** Nothing is pushed out by a key that was there. */
  lemma StaysThere<K, V>(before: Lru<K, V>, k: K, after: Lru<K, V>)
    requires Stays(before, k, after) && k in before.entries
    ensures forall x :: x != k ==> (x in after.entries <==> x in before.entries) && (x in after.entries ==> after.entries[x] == before.entries[x])
  {}

  /** Nothing is pushed out of a map with room. */
  lemma RoomStays<K, V>(before: Lru<K, V>, k: K, after: Lru<K, V>)
    requires Stays(before, k, after) && |before.entries| < before.cap
    ensures forall x :: x != k ==> (x in after.entries <==> x in before.entries) && (x in after.entries ==> after.entries[x] == before.entries[x])
  {}

  lemma TouchKeeps<K, V>(l: Lru<K, V>, k: K)
    ensures k in l.entries ==> k in Touch(l, k).0.entries && Touch(l, k).0.entries[k].1 == l.entries[k].1
  {}

  lemma HeldLru<Node(!new)>(truth: Lookups<Node>, byRoot: Lru<Root, Group<Node>>, root: Root, changed: seq<MapKey>)
    requires AllHoldBut(truth, byRoot, root, changed)
    ensures IsLru(byRoot)
  {}

  lemma GroupOf<Node(!new)>(truth: Lookups<Node>, byRoot: Lru<Root, Group<Node>>, root: Root, changed: seq<MapKey>)
    requires AllHoldBut(truth, byRoot, root, changed) && root in byRoot.entries
    ensures GroupHoldsBut(truth, root, byRoot.entries[root].1, changed) && IsLru(byRoot.entries[root].1)
  {}

  /** A new, empty group holds. */
  lemma NewGroupHolds<Node(!new)>(truth: Lookups<Node>, before: Lru<Root, Group<Node>>, root: Root, k: MapKey, after: Lru<Root, Group<Node>>, cap: nat)
    requires AllHoldBut(truth, before, root, [k]) && IsLru(after) && Stays(before, root, after)
    requires root in after.entries && after.entries[root].1 == NewLru(cap) && IsLru(after.entries[root].1)
    ensures AllHoldBut(truth, after, root, [k])
  {
    hide IsLru, Holds, Evicted;
  }

  /** An entry that holds, put where nothing else is stale. */
  lemma PutHolds<Node(!new)>(truth: Lookups<Node>, root: Root, k: MapKey, g: Group<Node>, after: Group<Node>, e: Entry<Node>)
    requires GroupHoldsBut(truth, root, g, [k]) && Holds(truth, root, k, e)
    requires IsLru(after) && k in after.entries && after.entries[k].1 == e && Stays(g, k, after)
    ensures GroupHolds(truth, root, after)
  {
    hide IsLru, Holds, Evicted;
  }

  lemma BoundedCap<Node>(byRoot: Lru<Root, Group<Node>>, cap: nat)
    requires Bounded(byRoot, cap)
    ensures cap > 0
  {}

  lemma GroupCap<Node>(byRoot: Lru<Root, Group<Node>>, root: Root, cap: nat)
    requires Bounded(byRoot, cap)
    ensures root in byRoot.entries ==> byRoot.entries[root].1.cap == cap
  {}

  /** A read leaves every entry, and makes the root and the node it finds the newest. */
  ghost predicate OnlyTouched<Node>(before: Lru<Root, Group<Node>>, root: Root, k: MapKey, after: Lru<Root, Group<Node>>) {
    && SameBut(before, root, after)
    && (root in before.entries && root in after.entries ==>
          var g, g' := before.entries[root].1, after.entries[root].1;
          Newest(after, root) && SameBut(g, k, g') && (k in g.entries && k in g'.entries ==> g'.entries[k].1 == g.entries[k].1 && Newest(g', k)))
  }

  const MAX_ROOTS := 4

  /** `CryptreeCache`: groups of entries by champ root. */
  class CryptreeCache<Node(!new)> {
    var byRoot: Lru<Root, Group<Node>>
    const cap: nat
    ghost const truth: Lookups<Node>

    /** Every entry agrees with a fresh lookup, and there are not too many. */
    ghost predicate Valid()
      reads this
    {
      AllHold(truth, byRoot) && Bounded(byRoot, cap)
    }

    /** `with_capacity` */
    constructor (cap: nat, ghost truth: Lookups<Node>)
      ensures Valid() && this.truth == truth && byRoot.entries == map[] && this.cap == if cap == 0 then 1 else cap
    {
      byRoot := NewLru(MAX_ROOTS);
      this.cap := if cap == 0 then 1 else cap;
      this.truth := truth;
      NewIsLru<Root, Group<Node>>(MAX_ROOTS);
    }

    /** `get`: an answer is what a fresh lookup under that root and key would give. */
    method Get(root: Root, k: MapKey, key: SymmetricKey) returns (r: Option<Option<Node>>)
      requires Valid()
      modifies this
      ensures Valid()
      ensures r.Some? ==> r.value == truth(root, k, key)
      ensures r.Some? <==> root in old(byRoot).entries && ServedFor(old(byRoot).entries[root].1, k, key)
      ensures OnlyTouched(old(byRoot), root, k, byRoot)
    {
      hide IsLru, Descends, Newest, SameBut, Bounded;
      TouchBounded(byRoot, root, cap);
      TouchSame(byRoot, root);
      GroupCap(byRoot, root, cap);
      if root in byRoot.entries { TouchNewest(byRoot, root); }
      HoldBut(truth, byRoot, root, []);
      TouchHolds(truth, byRoot, root, []);
      var (touched, group) := Touch(byRoot, root);
      byRoot := touched;
      if group == None {
        NoGroup(truth, byRoot, root, []);
        return None;
      }
      TouchedIsLru(group.value, k);
      var (g, e) := Touch(group.value, k);
      if e.Some? {
        assert Holds(truth, root, k, e.value);
        TouchNewest(group.value, k);
      }
      ReplaceHolds(truth, byRoot, root, [], g);
      ReplacedBounded(byRoot, root, g, cap);
      ReplacedNewest(byRoot, root, g);
      ReplacedSame(byRoot, root, g);
      SameStays(old(byRoot), root, byRoot, Replaced(byRoot, root, g));
      TouchSame(group.value, k);
      byRoot := Replaced(byRoot, root, g);
      r := if e.Some? && (e.value.parsedWith == None || e.value.parsedWith == Some(key)) then Some(e.value.node) else None;
    }

    /** `for_root(root).insert(k, e)`, for an entry that holds. */
    method PutEntry(root: Root, k: MapKey, e: Entry<Node>)
      requires AllHoldBut(truth, byRoot, root, [k]) && Holds(truth, root, k, e) && Bounded(byRoot, cap)
      modifies this
      ensures Valid()
      ensures root in byRoot.entries && k in byRoot.entries[root].1.entries && byRoot.entries[root].1.entries[k].1 == e
      ensures OthersStay(old(byRoot), root, k, byRoot) && Newest(byRoot, root) && Newest(byRoot.entries[root].1, k)
    {
      hide IsLru, Descends, Holds, Stays, SameBut, AllHoldBut, AllHold, GroupHoldsBut, GroupHolds, Newest, Bounded;
      ForRoot(root, k);
      GroupCap(byRoot, root, cap);
      var g := byRoot.entries[root].1;
      GroupOf(truth, byRoot, root, [k]);
      var g' := InsertInto(g, k, e);
      PutHolds(truth, root, k, g, g', e);
      ReplaceHolds(truth, byRoot, root, [k], g');
      ReplacedSame(byRoot, root, g');
      ReplacedNewest(byRoot, root, g');
      ReplacedBounded(byRoot, root, g', cap);
      SameStays(old(byRoot), root, byRoot, Replaced(byRoot, root, g'));
      byRoot := Replaced(byRoot, root, g');
    }

    /** `for_root`: the group of a root, a new one if there was none. */
    method ForRoot(root: Root, ghost k: MapKey)
      requires AllHoldBut(truth, byRoot, root, [k]) && Bounded(byRoot, cap)
      modifies this
      ensures AllHoldBut(truth, byRoot, root, [k]) && Newest(byRoot, root) && Bounded(byRoot, cap) && root in byRoot.entries
      ensures Stays(old(byRoot), root, byRoot)
      ensures root in old(byRoot).entries ==> byRoot.entries[root].1 == old(byRoot).entries[root].1
    {
      hide IsLru, Descends, Holds, Stays, SameBut, AllHoldBut, Newest, Bounded;
      TouchHolds(truth, byRoot, root, [k]);
      TouchBounded(byRoot, root, cap);
      TouchSame(byRoot, root);
      var (touched, group) := Touch(byRoot, root);
      SameIsStays(byRoot, root, touched);
      byRoot := touched;
      if group == None {
        NewIsLru<MapKey, Entry<Node>>(cap);
        BoundedCap(byRoot, cap);
        HeldLru(truth, byRoot, root, [k]);
        byRoot := InsertInto(byRoot, root, NewLru(cap));
        TickedStays(old(byRoot), touched.tick, root, byRoot);
        InsertBounded(touched, root, byRoot, cap);
        NewGroupHolds(truth, touched, root, k, byRoot, cap);
      }
      TouchHolds(truth, byRoot, root, [k]);
      TouchSame(byRoot, root);
      SameStays(old(byRoot), root, byRoot, Touch(byRoot, root).0);
      TouchKeeps(byRoot, root);
      TouchBounded(byRoot, root, cap);
      HeldLru(truth, byRoot, root, [k]);
      TouchNewest(byRoot, root);
      byRoot := Touch(byRoot, root).0;
    }

    /** `put_parsed` */
    method PutParsed(root: Root, k: MapKey, key: SymmetricKey, node: Node)
      requires Valid() && truth(root, k, key) == Some(node)
      modifies this
      ensures Valid()
      ensures root in byRoot.entries && k in byRoot.entries[root].1.entries && byRoot.entries[root].1.entries[k].1 == Entry(Some(key), Some(node))
      ensures OthersStay(old(byRoot), root, k, byRoot) && Newest(byRoot, root) && Newest(byRoot.entries[root].1, k)
    {
      HoldBut(truth, byRoot, root, [k]);
      PutEntry(root, k, Entry(Some(key), Some(node)));
    }

    /** `put_absent` */
    method PutAbsent(root: Root, k: MapKey)
      requires Valid() && forall key :: truth(root, k, key) == None
      modifies this
      ensures Valid()
      ensures root in byRoot.entries && k in byRoot.entries[root].1.entries && byRoot.entries[root].1.entries[k].1 == Entry(None, None)
      ensures OthersStay(old(byRoot), root, k, byRoot) && Newest(byRoot, root) && Newest(byRoot.entries[root].1, k)
    {
      HoldBut(truth, byRoot, root, [k]);
      PutEntry(root, k, Entry(None, None));
    }

    /** `carry_over`: the group moves to the new root, and only what the change touched
        may be stale there. */
    method CarryOver(prior: Root, root: Root, ghost changed: seq<MapKey>)
      requires Valid() && AgreeExcept(truth, prior, root, changed)
      modifies this
      ensures AllHoldBut(truth, byRoot, root, changed) && Bounded(byRoot, cap)
      ensures prior != root && prior in old(byRoot).entries ==>
        prior !in byRoot.entries && root in byRoot.entries && byRoot.entries[root].1 == old(byRoot).entries[prior].1
      ensures prior == root || prior !in old(byRoot).entries ==> byRoot == old(byRoot)
      ensures forall r :: r in old(byRoot).entries && r != prior && r != root ==> r in byRoot.entries && byRoot.entries[r] == old(byRoot).entries[r]
      ensures forall r :: r in byRoot.entries && r != root ==> r in old(byRoot).entries
    {
      hide IsLru, Descends, GroupHolds, GroupHoldsBut;
      HoldBut(truth, byRoot, root, changed);
      if prior == root {
        return;
      }
      if prior in byRoot.entries {
        var carried := byRoot.entries[prior].1;
        CarriedHolds(truth, prior, root, changed, carried);
        RemovedIsLru(byRoot, prior);
        LruFits(byRoot, prior);
        assert byRoot.entries.Keys == (byRoot.entries - {prior}).Keys + {prior};
        byRoot := Removed(byRoot, prior);
        ghost var rest := byRoot;
        byRoot := InsertInto(byRoot, root, carried);
        RoomStays(rest, root, byRoot);
        InsertBounded(rest, root, byRoot, cap);
      }
    }

    /** `update`: a write stored `val` at `k`. */
    method Update(prior: Option<Root>, root: Root, k: MapKey, val: Option<Node>)
      requires Valid() && forall key :: truth(root, k, key) == val
      requires prior.Some? ==> AgreeExcept(truth, prior.value, root, [k])
      modifies this
      ensures Valid()
      ensures root in byRoot.entries && k in byRoot.entries[root].1.entries && byRoot.entries[root].1.entries[k].1 == Entry(None, val)
      ensures prior.Some? && prior.value != root && prior.value in old(byRoot).entries ==>
        && prior.value !in byRoot.entries && Stays(old(byRoot).entries[prior.value].1, k, byRoot.entries[root].1)
        && forall r :: r in old(byRoot).entries && r != prior.value && r != root ==> r in byRoot.entries && byRoot.entries[r] == old(byRoot).entries[r]
      ensures prior == None || prior.value == root || prior.value !in old(byRoot).entries ==> OthersStay(old(byRoot), root, k, byRoot)
    {
      HoldBut(truth, byRoot, root, [k]);
      hide AllHold, AllHoldBut, Stays, Holds, Newest, Bounded;
      NewNodeHolds(truth, root, k, val);
      if prior.Some? {
        CarryOver(prior.value, root, [k]);
      }
      ghost var carried := byRoot;
      PutEntry(root, k, Entry(None, val));
      if root in carried.entries { StaysThere(carried, root, byRoot); }
    }

    /** `migrate`: what the commit did not change moves along, what it changed is dropped. */
    method Migrate(prior: Root, root: Root, changed: seq<MapKey>)
      requires Valid() && AgreeExcept(truth, prior, root, changed)
      modifies this
      ensures Valid()
      ensures root in byRoot.entries <==> prior in old(byRoot).entries || root in old(byRoot).entries
      ensures root in byRoot.entries ==>
        && Newest(byRoot, root)
        && Kept(old(byRoot).entries[if prior in old(byRoot).entries then prior else root].1, changed, byRoot.entries[root].1)
      ensures forall r :: r in byRoot.entries && r != root ==> r in old(byRoot).entries && (r == prior ==> prior !in old(byRoot).entries)
      ensures forall r :: r in old(byRoot).entries && r != prior && r != root ==> r in byRoot.entries && byRoot.entries[r] == old(byRoot).entries[r]
    {
      hide IsLru, Descends, Holds, AgreeExcept, Newest, Bounded;
      CarryOver(prior, root, changed);
      TouchBounded(byRoot, root, cap);
      GroupCap(byRoot, root, cap);
      if root in byRoot.entries { TouchNewest(byRoot, root); }
      TouchHolds(truth, byRoot, root, changed);
      var (touched, group) := Touch(byRoot, root);
      byRoot := touched;
      if group == None {
        NoGroup(truth, byRoot, root, changed);
        return;
      }
      var g := RemoveAll(group.value, changed);
      assert GroupHolds(truth, root, g);
      ReplacedBounded(byRoot, root, g, cap);
      ReplacedNewest(byRoot, root, g);
      ReplaceHolds(truth, byRoot, root, changed, g);
      byRoot := Replaced(byRoot, root, g);
    }
  }
}
