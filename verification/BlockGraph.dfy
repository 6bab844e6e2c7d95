/** The buffered blocks as a graph: reachability from roots, and the assignment of
    blocks to the first root that reaches them (`buffered.rs`). */
module BlockGraph {
  import opened Bytes

  /** A CID, and a public key hash, as opaque identifiers. */
  type Id = nat
  type KeyHash = nat

  /** A block waiting to be written. `links` is what parsing `data` as CBOR finds;
      the links of a raw block are never followed. */
  datatype BufferedBlock = BufferedBlock(data: seq<byte>, owner: KeyHash, writer: KeyHash, isRaw: bool, links: seq<Id>)

  type Buffer = map<Id, BufferedBlock>

  function Outgoing(b: BufferedBlock): seq<Id> { if b.isRaw then [] else b.links }

  /** `p` follows links through buffered blocks. */
  ghost predicate IsPath(buf: Buffer, p: seq<Id>) {
    && p != [] && (forall i :: 0 <= i < |p| ==> p[i] in buf)
    && forall i :: 0 <= i < |p| - 1 ==> !buf[p[i]].isRaw && p[i + 1] in buf[p[i]].links
  }

  ghost predicate PathTo(buf: Buffer, p: seq<Id>, root: Id, c: Id) {
    IsPath(buf, p) && p[0] == root && p[|p| - 1] == c
  }

  ghost predicate Reaches(buf: Buffer, root: Id, c: Id) {
    exists p :: PathTo(buf, p, root, c)
  }

  ghost predicate ReachedFrom(buf: Buffer, roots: seq<Id>, c: Id) {
    exists r :: r in roots && Reaches(buf, r, c)
  }

  lemma ReachesSelf(buf: Buffer, c: Id)
    requires c in buf
    ensures Reaches(buf, c, c)
  {
    assert PathTo(buf, [c], c, c);
  }

  lemma ReachesLink(buf: Buffer, root: Id, c: Id, l: Id)
    requires Reaches(buf, root, c) && c in buf && l in buf && l in Outgoing(buf[c])
    ensures Reaches(buf, root, l)
  {
    var p :| PathTo(buf, p, root, c);
    assert PathTo(buf, p + [l], root, l);
  }

  lemma ReachesTransitive(buf: Buffer, a: Id, b: Id, c: Id)
    requires Reaches(buf, a, b) && Reaches(buf, b, c)
    ensures Reaches(buf, a, c)
  {
    var p :| PathTo(buf, p, a, b);
    var q :| PathTo(buf, q, b, c);
    var w := p + q[1..];
    forall i | 0 <= i < |w| - 1 ensures w[i + 1] in Outgoing(buf[w[i]]) {
      if i >= |p| - 1 {
        var k := i - |p| + 1;
        assert w[i] == q[k] && w[i + 1] == q[k + 1];
      }
    }
    assert PathTo(buf, w, a, c);
  }

  /** A set closed under buffered links that holds the start of a path holds all of it. */
  lemma {:induction false} ClosedHoldsPath(buf: Buffer, keep: set<Id>, p: seq<Id>, i: nat)
    requires IsPath(buf, p) && i < |p| && p[0] in keep && keep <= buf.Keys
    requires forall c, l :: c in keep && l in Outgoing(buf[c]) && l in buf ==> l in keep
    ensures p[i] in keep
  {
    if i > 0 {
      ClosedHoldsPath(buf, keep, p, i - 1);
    }
  }

  // ---- reachable ----------------------------------------------------------------------

  /** The state of the search: everything found or queued is reached, and every root
      and every link out of what is found is found, queued or out of the buffer. */
  ghost predicate Searching(buf: Buffer, roots: seq<Id>, keep: set<Id>, stack: seq<Id>) {
    && keep <= buf.Keys
    && (forall c :: c in keep ==> ReachedFrom(buf, roots, c))
    && AllReached(buf, roots, stack)
    && (forall c :: c in roots && c in buf ==> c in keep || c in stack)
    && (forall c, l :: c in keep && l in Outgoing(buf[c]) && l in buf ==> l in keep || l in stack)
  }

  ghost predicate AllReached(buf: Buffer, roots: seq<Id>, ids: seq<Id>) {
    forall c :: c in ids && c in buf ==> ReachedFrom(buf, roots, c)
  }

  lemma SearchStart(buf: Buffer, roots: seq<Id>)
    ensures Searching(buf, roots, {}, roots)
  {
    forall c | c in roots && c in buf ensures ReachedFrom(buf, roots, c) { ReachesSelf(buf, c); }
  }

  lemma SearchSkip(buf: Buffer, roots: seq<Id>, keep: set<Id>, rest: seq<Id>, cid: Id)
    requires Searching(buf, roots, keep, rest + [cid]) && (cid in keep || cid !in buf)
    ensures Searching(buf, roots, keep, rest)
  {
    hide ReachedFrom, Outgoing;
    assert forall c :: c in rest + [cid] <==> c in rest || c == cid;
  }

  lemma SearchVisit(buf: Buffer, roots: seq<Id>, keep: set<Id>, rest: seq<Id>, cid: Id)
    requires Searching(buf, roots, keep, rest + [cid]) && cid !in keep && cid in buf
    ensures Searching(buf, roots, keep + {cid}, rest + Outgoing(buf[cid]))
  {
    var links := Outgoing(buf[cid]);
    assert cid in rest + [cid];
    LinksReached(buf, roots, cid, links);
    hide ReachedFrom, Outgoing;
    assert forall c :: c in rest + [cid] <==> c in rest || c == cid;
    assert forall c :: c in rest + links <==> c in rest || c in links;
  }

  lemma SearchDone(buf: Buffer, roots: seq<Id>, keep: set<Id>, c: Id)
    requires Searching(buf, roots, keep, [])
    ensures c in keep <==> ReachedFrom(buf, roots, c)
  {
    if ReachedFrom(buf, roots, c) {
      var r :| r in roots && Reaches(buf, r, c);
      var p :| PathTo(buf, p, r, c);
      hide ReachedFrom, Reaches;
      ClosedHoldsPath(buf, keep, p, |p| - 1);
    }
  }

  /** `reachable`: exactly the buffered blocks some root leads to. */
  method Reachable(buf: Buffer, roots: seq<Id>) returns (keep: set<Id>)
    ensures keep <= buf.Keys
    ensures forall c :: c in keep <==> ReachedFrom(buf, roots, c)
  {
    hide ReachedFrom, Outgoing, AllReached;
    keep := {};
    var stack := roots;
    SearchStart(buf, roots);
    while stack != []
      invariant Searching(buf, roots, keep, stack)
      decreases |buf.Keys - keep|, |stack|
    {
      hide Searching;
      var n := |stack| - 1;
      var cid, rest := stack[n], stack[..n];
      assert stack == rest + [cid];
      if cid in keep || cid !in buf {
        SearchSkip(buf, roots, keep, rest, cid);
        stack := rest;
      } else {
        SearchVisit(buf, roots, keep, rest, cid);
        assert buf.Keys - keep == (buf.Keys - (keep + {cid})) + {cid};
        keep := keep + {cid};
        stack := rest + Outgoing(buf[cid]);
      }
    }
    forall c ensures c in keep <==> ReachedFrom(buf, roots, c) { SearchDone(buf, roots, keep, c); }
  }

  lemma LinksReached(buf: Buffer, roots: seq<Id>, c: Id, links: seq<Id>)
    requires ReachedFrom(buf, roots, c) && c in buf && links == Outgoing(buf[c])
    ensures AllReached(buf, roots, links)
  {
    forall l | l in links && l in buf ensures ReachedFrom(buf, roots, l) {
      var r :| r in roots && Reaches(buf, r, c);
      ReachesLink(buf, r, c, l);
    }
  }

  // ---- partition_by_root -----------------------------------------------------------------

  /** Root `i` leads to `c`. */
  ghost predicate RootReaches(buf: Buffer, roots: seq<Option<Id>>, i: nat, c: Id) {
    i < |roots| && roots[i].Some? && Reaches(buf, roots[i].value, c)
  }

  /** Root `i` is the first to lead to `c`, which is the owner's. */
  ghost predicate FirstReaches(buf: Buffer, owner: KeyHash, roots: seq<Option<Id>>, i: nat, c: Id) {
    && c in buf && buf[c].owner == owner && RootReaches(buf, roots, i, c)
    && forall j: nat :: j < i ==> !RootReaches(buf, roots, j, c)
  }

  ghost predicate DistinctIds(part: seq<(Id, BufferedBlock)>) {
    forall i, j :: 0 <= i < j < |part| ==> part[i].0 != part[j].0
  }

  /** A part lists the blocks `ids`, each once, with its buffered content. */
  ghost predicate PartLists(buf: Buffer, part: seq<(Id, BufferedBlock)>, ids: iset<Id>) {
    && DistinctIds(part)
    && (forall e :: e in part ==> e.0 in ids && e.0 in buf && e.1 == buf[e.0])
    && (forall c :: c in ids && c in buf ==> (c, buf[c]) in part)
  }

  /** `partition_by_root`: every reachable block of the owner goes to the part of the
      first root that reaches it, once. */
  method PartitionByRoot(buf: Buffer, owner: KeyHash, roots: seq<Option<Id>>) returns (parts: seq<seq<(Id, BufferedBlock)>>)
    ensures |parts| == |roots|
    ensures forall i :: 0 <= i < |roots| ==> PartLists(buf, parts[i], iset c | FirstReaches(buf, owner, roots, i, c))
  {
    var claimed: set<Id> := {};
    parts := [];
    for i := 0 to |roots|
      invariant |parts| == i
      invariant forall k :: 0 <= k < i ==> PartLists(buf, parts[k], iset c | FirstReaches(buf, owner, roots, k, c))
      invariant forall c :: c in claimed <==> c in buf && buf[c].owner == owner && exists j: nat :: j < i && RootReaches(buf, roots, j, c)
    {
      hide PartLists, Reaches;
      var reachable := {};
      match roots[i] {
        case Some(r) =>
          reachable := Reachable(buf, [r]);
          SingleRoot(buf, r);
        case None =>
      }
      assert forall c :: c in reachable <==> RootReaches(buf, roots, i, c);
      var part;
      part, claimed := ClaimPart(buf, owner, reachable, claimed, iset c | FirstReaches(buf, owner, roots, i, c));
      parts := parts + [part];
    }
  }

  lemma SingleRoot(buf: Buffer, r: Id)
    ensures forall c :: ReachedFrom(buf, [r], c) <==> Reaches(buf, r, c)
  {
    assert r in [r];
  }

  /** The loop over one root's reachable set, which a hash set yields in any order. */
  method ClaimPart(buf: Buffer, owner: KeyHash, reachable: set<Id>, claimed0: set<Id>, ghost ids: iset<Id>)
    returns (part: seq<(Id, BufferedBlock)>, claimed: set<Id>)
    requires reachable <= buf.Keys
    requires forall c :: c in ids <==> c in reachable && buf[c].owner == owner && c !in claimed0
    ensures PartLists(buf, part, ids)
    ensures forall c :: c in claimed <==> c in claimed0 || (c in reachable && buf[c].owner == owner)
  {
    part, claimed := [], claimed0;
    var todo := reachable;
    while todo != {}
      invariant todo <= reachable
      invariant DistinctIds(part)
      invariant forall e :: e in part ==> e.0 in ids && e.0 !in todo && e.0 in buf && e.1 == buf[e.0]
      invariant forall c :: c in ids && c !in todo ==> (c, buf[c]) in part
      invariant forall c :: c in claimed <==> c in claimed0 || (c in reachable && c !in todo && buf[c].owner == owner)
    {
      var cid :| cid in todo;
      todo := todo - {cid};
      if buf[cid].owner == owner && cid !in claimed {
        claimed := claimed + {cid};
        part := part + [(cid, buf[cid])];
      }
    }
  }

  /** Every part is self-contained: the path that joins a block to its root lies in
      the same part. All that the roots reach belongs to the one owner. */
  lemma PartIsSelfContained(buf: Buffer, owner: KeyHash, roots: seq<Option<Id>>, i: nat, c: Id) returns (p: seq<Id>)
    requires FirstReaches(buf, owner, roots, i, c)
    requires forall j: nat, x :: RootReaches(buf, roots, j, x) && x in buf ==> buf[x].owner == owner
    ensures PathTo(buf, p, roots[i].value, c)
    ensures forall k :: 0 <= k < |p| ==> FirstReaches(buf, owner, roots, i, p[k])
  {
    p :| PathTo(buf, p, roots[i].value, c);
    forall k | 0 <= k < |p| ensures FirstReaches(buf, owner, roots, i, p[k]) {
      assert PathTo(buf, p[..k + 1], roots[i].value, p[k]);
      assert PathTo(buf, p[k..], p[k], c);
      assert RootReaches(buf, roots, i, p[k]);
      forall j: nat | j < i ensures !RootReaches(buf, roots, j, p[k]) {
        RootReachesOn(buf, roots, j, p[k], c);
      }
    }
  }

  lemma RootReachesOn(buf: Buffer, roots: seq<Option<Id>>, j: nat, x: Id, c: Id)
    requires Reaches(buf, x, c)
    ensures RootReaches(buf, roots, j, x) ==> RootReaches(buf, roots, j, c)
  {
    if RootReaches(buf, roots, j, x) {
      ReachesTransitive(buf, roots[j].value, x, c);
    }
  }
}
