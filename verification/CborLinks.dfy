/** The Merkle links of a value (`links`), which reachability follows. */
module CborLinks {
  import opened Bytes
  import opened CborValue

  function Links(o: Cbor): seq<seq<byte>>
    decreases o
  {
    match o
    case MerkleLink(cid) => [cid]
    case List(items) => ItemLinks(items)
    case Map(m) => EntryLinks(m)
    case _ => []
  }

  function ItemLinks(items: seq<Cbor>): seq<seq<byte>>
    decreases items
  {
    if items == [] then [] else Links(items[0]) + ItemLinks(items[1..])
  }

  function EntryLinks(m: seq<Entry>): seq<seq<byte>>
    decreases m
  {
    if m == [] then [] else Links(m[0].value) + EntryLinks(m[1..])
  }

  // ---- what the links are --------------------------------------------------------------

  /** The value at the end of a path of list indices and map positions. */
  ghost function ValueAt(o: Cbor, path: seq<nat>): Option<Cbor>
    decreases |path|
  {
    if path == [] then Some(o)
    else
      match o
      case List(items) => if path[0] < |items| then ValueAt(items[path[0]], path[1..]) else None
      case Map(m) => if path[0] < |m| then ValueAt(m[path[0]].value, path[1..]) else None
      case _ => None
  }

  lemma {:induction false} InItemLinks(items: seq<Cbor>, cid: seq<byte>)
    ensures cid in ItemLinks(items) <==> exists i :: 0 <= i < |items| && cid in Links(items[i])
  {
    hide Links;
    if items != [] {
      InItemLinks(items[1..], cid);
      if i :| 0 <= i < |items| && cid in Links(items[i]) && i > 0 {
        assert items[1..][i - 1] == items[i];
      }
    }
  }

  lemma {:induction false} InEntryLinks(m: seq<Entry>, cid: seq<byte>)
    ensures cid in EntryLinks(m) <==> exists i :: 0 <= i < |m| && cid in Links(m[i].value)
  {
    hide Links;
    if m != [] {
      InEntryLinks(m[1..], cid);
      if i :| 0 <= i < |m| && cid in Links(m[i].value) && i > 0 {
        assert m[1..][i - 1] == m[i];
      }
    }
  }

  /** A link found by following a path is listed. */
  lemma {:induction false} LinkAtIsListed(o: Cbor, path: seq<nat>, cid: seq<byte>)
    requires ValueAt(o, path) == Some(MerkleLink(cid))
    ensures cid in Links(o)
    decreases |path|
  {
    if path != [] {
      match o
      case List(items) =>
        LinkAtIsListed(items[path[0]], path[1..], cid);
        InItemLinks(items, cid);
      case Map(m) =>
        LinkAtIsListed(m[path[0]].value, path[1..], cid);
        InEntryLinks(m, cid);
    }
  }

  /** A listed link is found by following a path. */
  lemma {:induction false} ListedLinkHasPath(o: Cbor, cid: seq<byte>) returns (path: seq<nat>)
    requires cid in Links(o)
    ensures ValueAt(o, path) == Some(MerkleLink(cid))
    decreases o
  {
    match o
    case MerkleLink(_) => path := [];
    case List(items) =>
      InItemLinks(items, cid);
      var i :| 0 <= i < |items| && cid in Links(items[i]);
      var rest := ListedLinkHasPath(items[i], cid);
      path := [i] + rest;
      assert path[1..] == rest;
    case Map(m) =>
      InEntryLinks(m, cid);
      var i :| 0 <= i < |m| && cid in Links(m[i].value);
      var rest := ListedLinkHasPath(m[i].value, cid);
      path := [i] + rest;
      assert path[1..] == rest;
  }

  // ---- in the order of their places, each once -------------------------------------------

  ghost predicate PathLess(a: seq<nat>, b: seq<nat>) {
    a != [] && b != [] && (a[0] < b[0] || (a[0] == b[0] && PathLess(a[1..], b[1..])))
  }

  /** `paths` are the places of the links of `o`, all of them, in order. */
  ghost predicate LinkPaths(o: Cbor, paths: seq<seq<nat>>) {
    && |paths| == |Links(o)|
    && (forall i :: 0 <= i < |paths| ==> ValueAt(o, paths[i]) == Some(MerkleLink(Links(o)[i])))
    && (forall i, j :: 0 <= i < j < |paths| ==> PathLess(paths[i], paths[j]))
    && (forall p, cid :: ValueAt(o, p) == Some(MerkleLink(cid)) ==> p in paths)
  }

  /** The value at a path that starts inside one of the parts from the `n`-th on. */
  ghost function PartAt(parts: seq<Cbor>, n: nat, p: seq<nat>): Option<Cbor> {
    if p != [] && n <= p[0] < |parts| then ValueAt(parts[p[0]], p[1..]) else None
  }

  ghost predicate PartPaths(parts: seq<Cbor>, n: nat, links: seq<seq<byte>>, paths: seq<seq<nat>>) {
    && |paths| == |links|
    && (forall i :: 0 <= i < |paths| ==> PartAt(parts, n, paths[i]) == Some(MerkleLink(links[i])))
    && (forall i, j :: 0 <= i < j < |paths| ==> PathLess(paths[i], paths[j]))
    && (forall p, cid :: PartAt(parts, n, p) == Some(MerkleLink(cid)) ==> p in paths)
  }

  ghost function Prefixed(n: nat, paths: seq<seq<nat>>): (r: seq<seq<nat>>)
    ensures |r| == |paths| && forall i :: 0 <= i < |r| ==> r[i] == [n] + paths[i]
  {
    seq(|paths|, i requires 0 <= i < |paths| => [n] + paths[i])
  }

  lemma PrefixedAt(parts: seq<Cbor>, n: nat, p: seq<nat>)
    requires n < |parts|
    ensures PartAt(parts, n, [n] + p) == ValueAt(parts[n], p)
  {
    assert ([n] + p)[1..] == p;
  }

  lemma PrefixedLess(n: nat, a: seq<nat>, b: seq<nat>)
    requires PathLess(a, b)
    ensures PathLess([n] + a, [n] + b)
  {
    assert ([n] + a)[1..] == a && ([n] + b)[1..] == b;
  }

  /** The places in one more part come before those in the later parts. */
  lemma NextPaths(parts: seq<Cbor>, n: nat, links: seq<seq<byte>>, paths: seq<seq<nat>>, first: seq<seq<nat>>)
    requires n < |parts| && PartPaths(parts, n + 1, links, paths) && LinkPaths(parts[n], first)
    ensures PartPaths(parts, n, Links(parts[n]) + links, Prefixed(n, first) + paths)
  {
    hide Links, ValueAt;
    var all, cids := Prefixed(n, first) + paths, Links(parts[n]) + links;
    forall i | 0 <= i < |all| ensures PartAt(parts, n, all[i]) == Some(MerkleLink(cids[i])) {
      if i < |first| { PrefixedAt(parts, n, first[i]); }
    }
    forall i, j | 0 <= i < j < |all| ensures PathLess(all[i], all[j]) {
      if j < |first| {
        PrefixedLess(n, first[i], first[j]);
      } else {
        assert PartAt(parts, n + 1, paths[j - |first|]).Some?;
      }
    }
    forall p, cid | PartAt(parts, n, p) == Some(MerkleLink(cid)) ensures p in all {
      if p[0] == n {
        var i :| 0 <= i < |first| && first[i] == p[1..];
        assert all[i] == [n] + p[1..] == p;
      } else {
        assert PartAt(parts, n + 1, p) == Some(MerkleLink(cid));
        assert p in paths;
      }
    }
  }

  /** The links are listed in the order of their places, each place once. */
  lemma {:induction false} LinksInOrder(o: Cbor) returns (paths: seq<seq<nat>>)
    ensures LinkPaths(o, paths)
    decreases o
  {
    paths := [];
    match o
    case MerkleLink(cid) => paths := [[]];
    case List(items) =>
      for i := |items| downto 0
        invariant PartPaths(items, i, ItemLinks(items[i..]), paths)
      {
        var first := LinksInOrder(items[i]);
        NextPaths(items, i, ItemLinks(items[i + 1..]), paths, first);
        assert items[i..][1..] == items[i + 1..];
        paths := Prefixed(i, first) + paths;
      }
      assert items[0..] == items;
      WholePaths(o, items, ItemLinks(items), paths);
    case Map(m) =>
      var parts := seq(|m|, i requires 0 <= i < |m| => m[i].value);
      for i := |m| downto 0
        invariant PartPaths(parts, i, EntryLinks(m[i..]), paths)
      {
        var first := LinksInOrder(m[i].value);
        NextPaths(parts, i, EntryLinks(m[i + 1..]), paths, first);
        assert m[i..][1..] == m[i + 1..];
        paths := Prefixed(i, first) + paths;
      }
      assert m[0..] == m;
      WholePaths(o, parts, EntryLinks(m), paths);
    case _ =>
      assert forall p :: p != [] ==> ValueAt(o, p) == None;
  }

  lemma WholePaths(o: Cbor, parts: seq<Cbor>, links: seq<seq<byte>>, paths: seq<seq<nat>>)
    requires PartPaths(parts, 0, links, paths) && Links(o) == links && !o.MerkleLink?
    requires forall p :: p != [] ==> ValueAt(o, p) == PartAt(parts, 0, p)
    ensures LinkPaths(o, paths)
  {
    hide Links;
    forall p, cid | ValueAt(o, p) == Some(MerkleLink(cid)) ensures p in paths {
      assert p != [];
    }
  }

  // ---- collect_links -------------------------------------------------------------------

  class LinkList {
    var cids: seq<seq<byte>>

    constructor ()
      ensures cids == []
    {
      cids := [];
    }

    /** `collect_links` */
    method Collect(o: Cbor)
      modifies this
      ensures cids == old(cids) + Links(o)
      decreases o
    {
      match o
      case MerkleLink(cid) => cids := cids + [cid];
      case List(items) =>
        for i := 0 to |items|
          invariant cids + ItemLinks(items[i..]) == old(cids) + ItemLinks(items)
        {
          Collect(items[i]);
          assert items[i..][1..] == items[i + 1..];
        }
      case Map(m) =>
        for i := 0 to |m|
          invariant cids + EntryLinks(m[i..]) == old(cids) + EntryLinks(m)
        {
          Collect(m[i].value);
          assert m[i..][1..] == m[i + 1..];
        }
      case _ =>
    }
  }
}
