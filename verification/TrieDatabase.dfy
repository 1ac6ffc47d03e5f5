/**
 The trie database: a write-back cache of collapsed trie nodes in front of the disk.

 Nodes live in `dirties` until they are garbage collected (`Dereference`), flushed in age
 order (`Cap`) or written out with everything below them (`Commit`).  The meta-root, stored
 under the zero hash, holds the references that keep whole tries alive.
 */
module TrieDatabase {
  import opened Common
  import opened NodeStore

  const HASH_LENGTH := 32
  const MAX_UINT32 := 0xFFFF_FFFF

  /** A collapsed trie node, or an opaque blob such as contract code. */
  datatype RawNode =
    | Empty
    | Blob(data: seq<int>)
    | Value(data: seq<int>)
    | HashRef(hash: Hash)
    | RawShort(key: seq<int>, val: RawNode)
    | RawFull(nodes: seq<RawNode>)

  datatype Entry = Entry(node: RawNode, size: nat, parents: nat, children: map<Hash, nat>,
                         prev: Hash, next: Hash)

  /** The hash children embedded in a collapsed node, with repetitions. */
  function Gather(n: RawNode): (hs: seq<Hash>) {
    match n
    case HashRef(h) => [h]
    case RawShort(_, val) => Gather(val)
    case RawFull(nodes) => GatherUpTo(n, if |nodes| < 16 then |nodes| else 16)
    case _ => []
  }

  function GatherUpTo(n: RawNode, k: nat): (hs: seq<Hash>)
    requires n.RawFull? && k <= |n.nodes|
    decreases n, k
  {
    if k == 0 then [] else GatherUpTo(n, k - 1) + Gather(n.nodes[k - 1])
  }

  ghost function View(e: Entry): Core {
    Core(multiset(Gather(e.node)), e.parents, e.children)
  }

  ghost function Views(d: map<Hash, Entry>): map<Hash, Core> {
    map h | h in d :: View(d[h])
  }

  // ---------------------------------------------------------------- the flush-list

  /** The entry at position `i` of the flush-list points at its neighbours.  The `prev` link
      of the head is never read by the code and may be stale. */
  ghost predicate Threaded(d: map<Hash, Entry>, order: seq<Hash>, i: nat)
    requires i < |order|
  {
    && order[i] in d && order[i] != ZERO
    && d[order[i]].next == (if i + 1 < |order| then order[i + 1] else ZERO)
    && (i > 0 ==> d[order[i]].prev == order[i - 1])
  }

  /** The doubly linked flush-list spells out `order`; `newest` may be stale when it is empty. */
  ghost predicate Linked(d: map<Hash, Entry>, oldest: Hash, newest: Hash, order: seq<Hash>) {
    && (forall i: nat {:trigger Threaded(d, order, i)} :: i < |order| ==> Threaded(d, order, i))
    && (forall i, j :: 0 <= i < j < |order| ==> order[i] != order[j])
    && (if |order| == 0 then oldest == ZERO else oldest == order[0] && newest == order[|order| - 1])
  }

  /** The flush-list visits every live node exactly once, oldest first. */
  ghost predicate Listed(live: set<Hash>, stamp: map<Hash, nat>, order: seq<Hash>) {
    && (forall h :: h in order <==> h in live)
    && (forall i :: 0 <= i < |order| ==> order[i] in stamp)
    && (forall i, j :: 0 <= i < j < |order| ==> stamp[order[i]] < stamp[order[j]])
  }

  ghost function Without(order: seq<Hash>, k: nat): seq<Hash>
    requires k < |order|
  {
    order[..k] + order[k + 1..]
  }

  /** Two caches that differ at most in their flush links. */
  ghost predicate SameData(d: map<Hash, Entry>, e: map<Hash, Entry>) {
    && d.Keys == e.Keys
    && forall h :: h in d ==> e[h] == d[h].(prev := e[h].prev, next := e[h].next)
  }

  lemma SameViews(d: map<Hash, Entry>, e: map<Hash, Entry>)
    requires SameData(d, e)
    ensures Views(d) == Views(e)
  {
    forall h | h in d ensures View(d[h]) == View(e[h]) {}
  }

  lemma WithoutAt(order: seq<Hash>, k: nat, i: nat)
    requires k < |order| && i < |order| - 1
    ensures Without(order, k)[i] == if i < k then order[i] else order[i + 1]
  {
  }

  /** `e` is `d` with the neighbours of position `k` linked to each other. */
  ghost predicate Bridged(d: map<Hash, Entry>, e: map<Hash, Entry>, order: seq<Hash>, k: nat, h: Hash)
    requires k < |order| && order[k] in d
  {
    h in d ==> && h in e
               && e[h].next == (if k > 0 && h == order[k - 1] then d[order[k]].next else d[h].next)
               && (k > 0 ==> e[h].prev == if k + 1 < |order| && h == order[k + 1] then d[order[k]].prev else d[h].prev)
               && (k == 0 ==> e[h].prev == d[h].prev || (|order| > 1 && h == order[1]))
  }

  lemma BridgeAt(d: map<Hash, Entry>, e: map<Hash, Entry>, oldest: Hash, newest: Hash, order: seq<Hash>, k: nat, i: nat)
    requires Linked(d, oldest, newest, order) && k < |order| && order[k] in d && i < |order| - 1
    requires Bridged(d, e, order, k, Without(order, k)[i])
    ensures Threaded(e, Without(order, k), i)
  {
    var w := Without(order, k);
    var o := if i < k then i else i + 1;
    WithoutAt(order, k, i);
    assert Threaded(d, order, o) && Threaded(d, order, k);
    if i + 1 < |w| { WithoutAt(order, k, i + 1); }
    if i > 0 { WithoutAt(order, k, i - 1); }
  }

  lemma Bridge(d: map<Hash, Entry>, e: map<Hash, Entry>, oldest: Hash, newest: Hash, order: seq<Hash>, k: nat)
    requires Linked(d, oldest, newest, order) && k < |order| && order[k] in d
    requires forall h {:trigger Bridged(d, e, order, k, h)} :: h in order && h != order[k] ==>
               Bridged(d, e, order, k, h)
    ensures Linked(e, if k == 0 then d[order[0]].next else oldest,
                   if 0 < k == |order| - 1 then d[order[k]].prev else newest, Without(order, k))
  {
    var w := Without(order, k);
    assert Threaded(d, order, k);
    forall i: nat {:trigger Threaded(e, w, i)} | i < |w|
      ensures Threaded(e, w, i)
    {
      WithoutAt(order, k, i);
      assert Bridged(d, e, order, k, w[i]);
      BridgeAt(d, e, oldest, newest, order, k, i);
    }
    forall i, j | 0 <= i < j < |w|
      ensures w[i] != w[j]
    {
      WithoutAt(order, k, i);
      WithoutAt(order, k, j);
    }
    if |w| > 0 {
      WithoutAt(order, k, 0);
      WithoutAt(order, k, |w| - 1);
    }
  }

  lemma ListedWithout(live: set<Hash>, stamp: map<Hash, nat>, order: seq<Hash>, k: nat)
    requires Listed(live, stamp, order) && k < |order|
    ensures Listed(live - {order[k]}, stamp, Without(order, k))
  {
    var w := Without(order, k);
    forall i, j | 0 <= i < j < |w|
      ensures w[i] in stamp && w[j] in stamp && stamp[w[i]] < stamp[w[j]]
    {
      WithoutAt(order, k, i);
      WithoutAt(order, k, j);
    }
    forall h | h in live - {order[k]}
      ensures h in w
    {
      var i :| 0 <= i < |order| && order[i] == h;
      WithoutAt(order, k, if i < k then i else i - 1);
    }
    forall i | 0 <= i < |w|
      ensures w[i] in live - {order[k]} && w[i] in stamp
    {
      WithoutAt(order, k, i);
      assert order[if i < k then i else i + 1] in live;
    }
  }

  // ---------------------------------------------------------------- contents and sizes

  /** Every hash stands for the node first inserted under it, in the cache and on disk, and the
      recorded children of a stored node include those embedded in it. */
  ghost predicate Content(d: map<Hash, Entry>, disk: map<Hash, RawNode>, origin: map<Hash, RawNode>,
                          links: map<Hash, set<Hash>>) {
    && (forall h :: h in d && h != ZERO ==> h in origin && origin[h] == d[h].node)
    && (forall h :: h in disk ==> h in origin && origin[h] == disk[h])
    && (forall h, c :: h in disk && h in links && c in Gather(disk[h]) ==> c in links[h])
  }

  /** `weights` counts the tracked bytes of every cached node. */
  ghost predicate Sized(d: map<Hash, Entry>, weights: multiset<Hash>) {
    forall h :: weights[h] == if h in d && h != ZERO then HASH_LENGTH + d[h].size else 0
  }

  lemma SameDataKeeps(d: map<Hash, Entry>, e: map<Hash, Entry>, disk: map<Hash, RawNode>, origin: map<Hash, RawNode>,
                      links: map<Hash, set<Hash>>, weights: multiset<Hash>)
    requires SameData(d, e) && Content(d, disk, origin, links) && Sized(d, weights)
    ensures Content(e, disk, origin, links) && Sized(e, weights)
  {
  }

  /** All tracked children of a node: its external ones in any order, then the embedded ones. */
  method Childs(e: Entry) returns (kids: seq<Hash>)
    ensures multiset(kids) == multiset(e.children.Keys) + multiset(Gather(e.node))
  {
    kids := [];
    var left := e.children.Keys;
    while left != {}
      invariant left <= e.children.Keys
      invariant multiset(kids) == multiset(e.children.Keys) - multiset(left)
    {
      var c :| c in left;
      kids := kids + [c];
      left := left - {c};
    }
    kids := kids + Gather(e.node);
  }

  // ---------------------------------------------------------------- the whole store as a value

  /** The cache proper. */
  datatype Cache = Cache(dirties: map<Hash, Entry>, oldest: Hash, newest: Hash, dirtiesSize: int)

  /** The disk, with the children each node had when it got there. */
  datatype Disk = Disk(nodes: map<Hash, RawNode>, links: map<Hash, set<Hash>>)

  /** Bookkeeping of past insertions: first contents, insertion times, how often the 16-bit
      size addition wrapped, and the rank of each hash. */
  datatype Past = Past(origin: map<Hash, RawNode>, stamp: map<Hash, nat>, clock: nat, wraps: nat, rank: Hash -> nat)

  /** Bookkeeping that follows the cache: the flush-list, the reference index, tracked bytes. */
  datatype Index = Index(order: seq<Hash>, refBy: map<Hash, multiset<Hash>>, weights: multiset<Hash>)

  ghost function Abs(s: Cache, g: Index, w: Disk, f: Past): State {
    State(Views(s.dirties), w.nodes.Keys, w.links, g.refBy, f.stamp, f.rank)
  }

  /** The flush-list, the contents and the size of the cache are in order. */
  ghost predicate Tidy(s: Cache, g: Index, w: Disk, f: Past, x: set<Hash>) {
    && Linked(s.dirties, s.oldest, s.newest, g.order)
    && Listed(s.dirties.Keys - x - {ZERO}, f.stamp, g.order)
    && Content(s.dirties, w.nodes, f.origin, w.links)
    && Sized(s.dirties, g.weights) && s.dirtiesSize == |g.weights| - 0x1_0000 * f.wraps
    && (forall h :: h in f.stamp ==> f.stamp[h] < f.clock)
  }

  /** The invariant while the nodes in `x` are being removed and `debt` is still owed. */
  ghost predicate Good(s: Cache, g: Index, w: Disk, f: Past, x: set<Hash>, debt: multiset<Hash>) {
    Inv(Abs(s, g, w, f), x, debt) && Tidy(s, g, w, f, x)
  }

  // ---------------------------------------------------------------- garbage collection

  /** Unlinks a node from the flush-list. */
  method Unlink(s: Cache, h: Hash, ghost order: seq<Hash>, ghost k: nat) returns (t: Cache)
    requires Linked(s.dirties, s.oldest, s.newest, order) && ZERO in s.dirties
    requires k < |order| && order[k] == h
    ensures t.dirtiesSize == s.dirtiesSize
    ensures Linked(t.dirties, t.oldest, t.newest, Without(order, k))
    ensures SameData(s.dirties, t.dirties)
  {
    assert Threaded(s.dirties, order, k);
    assert k > 0 ==> Threaded(s.dirties, order, k - 1);
    assert k + 1 < |order| ==> Threaded(s.dirties, order, k + 1);
    var node := s.dirties[h];
    t := s;
    if h == t.oldest {
      t := t.(oldest := node.next);
      t := t.(dirties := t.dirties[node.next := t.dirties[node.next].(prev := ZERO)]);
    } else if h == t.newest {
      t := t.(newest := node.prev);
      t := t.(dirties := t.dirties[node.prev := t.dirties[node.prev].(next := ZERO)]);
    } else {
      t := t.(dirties := t.dirties[node.prev := t.dirties[node.prev].(next := node.next)]);
      t := t.(dirties := t.dirties[node.next := t.dirties[node.next].(prev := node.prev)]);
    }
    Bridge(s.dirties, t.dirties, s.oldest, s.newest, order, k);
  }

  lemma FindPosition(s: Cache, g: Index, w: Disk, f: Past, x: set<Hash>, debt: multiset<Hash>, v: Hash) returns (k: nat)
    requires Good(s, g, w, f, x, debt) && v in s.dirties && v != ZERO && v !in x
    ensures Linked(s.dirties, s.oldest, s.newest, g.order) && ZERO in s.dirties
    ensures k < |g.order| && g.order[k] == v
  {
    assert v in s.dirties.Keys - x - {ZERO};
    k :| k < |g.order| && g.order[k] == v;
  }

  lemma RetireStep(s: Cache, t: Cache, g: Index, w: Disk, f: Past, x: set<Hash>, v: Hash, debt: multiset<Hash>,
                   kids: multiset<Hash>, k: nat)
    requires Good(s, g, w, f, x, debt) && Removable(Abs(s, g, w, f), x, v) && Kids(Views(s.dirties)[v], kids)
    requires k < |g.order| && g.order[k] == v && t.dirtiesSize == s.dirtiesSize
    requires SameData(s.dirties, t.dirties) && Linked(t.dirties, t.oldest, t.newest, Without(g.order, k))
    ensures Good(t, Index(Without(g.order, k), Forget(g.refBy, v), g.weights), w, f, x + {v}, debt + kids)
  {
    Condemn(Abs(s, g, w, f), x, v, debt, kids);
    SameViews(s.dirties, t.dirties);
    SameDataKeeps(s.dirties, t.dirties, w.nodes, f.origin, w.links, g.weights);
    ListedWithout(s.dirties.Keys - x - {ZERO}, f.stamp, g.order, k);
    assert t.dirties.Keys - (x + {v}) - {ZERO} == s.dirties.Keys - x - {ZERO} - {v};
  }

  /** An entry with the same content and the same explicit references. */
  ghost predicate SameEntry(d: map<Hash, Entry>, e: map<Hash, Entry>, h: Hash)
    requires h in d && h in e
  {
    e[h].node == d[h].node && e[h].children == d[h].children
  }

  /** `e` has no entry that `d` lacks, no entry lost its last reference without being removed, and
      those that stay refer to what they referred to, but for nodes under removal. */
  ghost predicate Fewer(d: map<Hash, Entry>, e: map<Hash, Entry>, x: set<Hash>) {
    && e.Keys <= d.Keys && (ZERO in d ==> ZERO in e)
    && (forall h {:trigger e[h]} :: h in e && e[h].parents == 0 ==> d[h].parents == 0)
    && (forall h {:trigger SameEntry(d, e, h)} :: h in e && h !in x ==> SameEntry(d, e, h))
  }

  lemma FewerMore(d: map<Hash, Entry>, e: map<Hash, Entry>, k: map<Hash, Entry>, x: set<Hash>)
    requires Fewer(d, e, x) && Fewer(e, k, x)
    ensures Fewer(d, k, x)
  {
    forall h | h in k && h !in x ensures SameEntry(d, k, h) { assert SameEntry(d, e, h) && SameEntry(e, k, h); }
  }

  lemma FewerSame(d: map<Hash, Entry>, e: map<Hash, Entry>, x: set<Hash>)
    requires SameData(d, e)
    ensures Fewer(d, e, x)
  {
  }

  lemma FewerUnder(d: map<Hash, Entry>, e: map<Hash, Entry>, x: set<Hash>, v: Hash)
    requires Fewer(d, e, x)
    ensures Fewer(d, e, x + {v})
  {
    forall h | h in e && h !in x + {v} ensures SameEntry(d, e, h) { assert h !in x; }
  }

  /** A node under removal is gone. */
  lemma FewerWithout(d: map<Hash, Entry>, e: map<Hash, Entry>, x: set<Hash>, v: Hash)
    requires Fewer(d, e, x + {v}) && v != ZERO
    ensures Fewer(d, e - {v}, x)
  {
    forall h | h in e - {v} && h !in x ensures SameEntry(d, e - {v}, h) { assert SameEntry(d, e, h); }
  }

  /** Takes a removable node off the flush-list; what it references becomes debt. */
  method Retire(s: Cache, ghost g: Index, ghost w: Disk, ghost f: Past, v: Hash, ghost x: set<Hash>,
                ghost debt: multiset<Hash>, ghost kids: multiset<Hash>)
    returns (t: Cache, ghost g': Index)
    requires Good(s, g, w, f, x, debt) && Removable(Abs(s, g, w, f), x, v) && Kids(Views(s.dirties)[v], kids)
    ensures Good(t, g', w, f, x + {v}, debt + kids)
    ensures Fewer(s.dirties, t.dirties, x) && v in t.dirties
  {
    ghost var k := FindPosition(s, g, w, f, x, debt, v);
    t := Unlink(s, v, g.order, k);
    g' := Index(Without(g.order, k), Forget(g.refBy, v), g.weights);
    RetireStep(s, t, g, w, f, x, v, debt, kids, k);
    FewerSame(s.dirties, t.dirties, x);
  }

  lemma DiscardListed(s: Cache, order: seq<Hash>, stamp: map<Hash, nat>, x: set<Hash>, v: Hash)
    requires Linked(s.dirties, s.oldest, s.newest, order)
    requires Listed(s.dirties.Keys - x - {ZERO}, stamp, order) && v in x
    ensures Linked(s.dirties - {v}, s.oldest, s.newest, order)
    ensures Listed((s.dirties - {v}).Keys - (x - {v}) - {ZERO}, stamp, order)
  {
    assert (s.dirties - {v}).Keys - (x - {v}) - {ZERO} == s.dirties.Keys - x - {ZERO};
    forall i: nat {:trigger Threaded(s.dirties - {v}, order, i)} | i < |order|
      ensures Threaded(s.dirties - {v}, order, i)
    {
      assert Threaded(s.dirties, order, i);
      assert order[i] in order;
    }
  }

  lemma DiscardData(d: map<Hash, Entry>, v: Hash, w: Disk, f: Past, weights: multiset<Hash>)
    requires Content(d, w.nodes, f.origin, w.links) && Sized(d, weights) && v in d && v != ZERO
    ensures Views(d - {v}) == Views(d) - {v}
    ensures Content(d - {v}, w.nodes, f.origin, w.links) && Sized(d - {v}, weights[v := 0])
    ensures |weights[v := 0]| == |weights| - (HASH_LENGTH + d[v].size)
  {
    assert weights[v] == HASH_LENGTH + d[v].size;
  }

  /** The cache without a node. */
  function Discard(s: Cache, v: Hash): Cache
    requires v in s.dirties
  {
    s.(dirties := s.dirties - {v}, dirtiesSize := s.dirtiesSize - (HASH_LENGTH + s.dirties[v].size))
  }

  lemma DiscardStep(s: Cache, g: Index, w: Disk, f: Past, x: set<Hash>, v: Hash, debt: multiset<Hash>)
    requires Good(s, g, w, f, x + {v}, debt) && v !in x && v in s.dirties
    ensures Good(Discard(s, v), g.(weights := g.weights[v := 0]), w, f, x, debt)
  {
    assert x + {v} - {v} == x;
    Delete(Abs(s, g, w, f), x + {v}, v, debt);
    assert v != ZERO;
    DiscardData(s.dirties, v, w, f, g.weights);
    DiscardListed(s, g.order, f.stamp, x + {v}, v);
  }

  lemma AmendLinks(d: map<Hash, Entry>, oldest: Hash, newest: Hash, order: seq<Hash>, h: Hash, e: Entry)
    requires Linked(d, oldest, newest, order)
    requires h in d && e.prev == d[h].prev && e.next == d[h].next
    ensures Linked(d[h := e], oldest, newest, order)
  {
    forall i: nat {:trigger Threaded(d[h := e], order, i)} | i < |order|
      ensures Threaded(d[h := e], order, i)
    {
      assert Threaded(d, order, i);
    }
  }

  lemma AmendData(d: map<Hash, Entry>, w: Disk, f: Past, weights: multiset<Hash>, h: Hash, e: Entry)
    requires Content(d, w.nodes, f.origin, w.links) && Sized(d, weights)
    requires h in d && e.node == d[h].node && e.size == d[h].size
    ensures Content(d[h := e], w.nodes, f.origin, w.links) && Sized(d[h := e], weights)
  {
  }

  lemma AmendViews(d: map<Hash, Entry>, h: Hash, e: Entry)
    requires h in d && e == d[h].(parents := e.parents, children := e.children)
    ensures Views(d[h := e]) == Views(d)[h := Views(d)[h].(parents := e.parents, children := e.children)]
  {
    hide Gather;
    forall k | k in d && k != h ensures Views(d[h := e])[k] == Views(d)[k] {}
  }

  /** Changing the counter or the external children of one entry. */
  lemma Amend(s: Cache, g: Index, w: Disk, f: Past, x: set<Hash>, h: Hash, e: Entry)
    requires Tidy(s, g, w, f, x)
    requires h in s.dirties && e == s.dirties[h].(parents := e.parents, children := e.children)
    ensures Tidy(s.(dirties := s.dirties[h := e]), g, w, f, x)
    ensures Views(s.dirties[h := e])
            == Views(s.dirties)[h := Views(s.dirties)[h].(parents := e.parents, children := e.children)]
  {
    AmendLinks(s.dirties, s.oldest, s.newest, g.order, h, e);
    AmendData(s.dirties, w, f, g.weights, h, e);
    AmendViews(s.dirties, h, e);
    assert s.dirties[h := e].Keys == s.dirties.Keys;
  }

  /** A root may be dereferenced when the meta-root holds it; otherwise only when it is on disk
      or not cached at all. */
  ghost predicate MayDereference(s: Cache, disk: map<Hash, RawNode>, child: Hash) {
    child in disk || child !in s.dirties || (ZERO in s.dirties && child in s.dirties[ZERO].children)
  }

  /** The parent gives up one explicit reference to the child, if it has one. */
  function LetGo(s: Cache, child: Hash, parent: Hash): Cache
    requires parent in s.dirties
  {
    var node := s.dirties[parent];
    s.(dirties := s.dirties[parent := node.(children := Decremented(node.children, child))])
  }

  lemma ChildCounts(s: Cache, g: Index, w: Disk, f: Past, x: set<Hash>, debt: multiset<Hash>, p: Hash, c: Hash)
    requires Good(s, g, w, f, x, debt) && p in s.dirties && c in s.dirties[p].children
    ensures s.dirties[p].children[c] > 0
    ensures p != ZERO ==> s.dirties[p].children[c] == 1
  {
    assert c in Views(s.dirties)[p].children;
  }

  lemma LetGoRoot(s: Cache, g: Index, w: Disk, f: Past, child: Hash) returns (refBy: map<Hash, multiset<Hash>>)
    requires Good(s, g, w, f, {}, multiset{}) && ZERO in s.dirties && MayDereference(s, w.nodes, child)
    ensures Good(LetGo(s, child, ZERO), g.(refBy := refBy), w, f, {}, multiset{child})
  {
    var e := s.dirties[ZERO].(children := Decremented(s.dirties[ZERO].children, child));
    Amend(s, g, w, f, {}, ZERO, e);
    if child in s.dirties[ZERO].children {
      ChildCounts(s, g, w, f, {}, multiset{}, ZERO, child);
      refBy := if child in g.refBy then g.refBy[child := g.refBy[child] - multiset{ZERO}] else g.refBy;
      Release(Abs(s, g, w, f), child, e.children);
    } else {
      refBy := g.refBy;
      assert s.dirties[ZERO := e] == s.dirties;
      Incur(Abs(s, g, w, f), child);
    }
  }

  lemma LetGoRetired(s: Cache, g: Index, w: Disk, f: Past, x: set<Hash>, debt: multiset<Hash>, child: Hash, p: Hash)
    requires Good(s, g, w, f, x, debt) && p in x && p in s.dirties
    ensures Good(LetGo(s, child, p), g, w, f, x, debt)
  {
    var e := s.dirties[p].(children := Decremented(s.dirties[p].children, child));
    if child in s.dirties[p].children { ChildCounts(s, g, w, f, x, debt, p, child); }
    assert e.children == s.dirties[p].children - {child};
    Amend(s, g, w, f, x, p, e);
    Strip(Abs(s, g, w, f), x, p, child, debt);
  }

  /** One reference to the child fewer is counted, but never fewer than none. */
  function Settle(s: Cache, child: Hash): Cache
    requires child in s.dirties
  {
    var node := s.dirties[child];
    s.(dirties := s.dirties[child := node.(parents := if node.parents > 0 then node.parents - 1 else 0)])
  }

  lemma SettleStep(s: Cache, g: Index, w: Disk, f: Past, x: set<Hash>, debt: multiset<Hash>, child: Hash)
    requires Good(s, g, w, f, x, debt) && child in s.dirties && child != ZERO && child !in x && child in debt
    ensures Good(Settle(s, child), g, w, f, x, debt - multiset{child})
    ensures Settle(s, child).dirties[child].parents == 0 ==> Removable(Abs(Settle(s, child), g, w, f), x, child)
  {
    var e := Settle(s, child).dirties[child];
    if child !in w.nodes { assert Tracked(Abs(s, g, w, f), x, child); }
    Amend(s, g, w, f, x, child, e);
    Pay(Abs(s, g, w, f), x, child, debt, e.parents);
  }

  ghost predicate Below(f: Past, h: Hash, x: set<Hash>) {
    forall y :: y in x ==> f.rank(h) < f.rank(y)
  }

  lemma KidsOf(s: Cache, g: Index, w: Disk, f: Past, x: set<Hash>, debt: multiset<Hash>, v: Hash, kids: seq<Hash>)
    requires Good(s, g, w, f, x, debt) && v in s.dirties && v != ZERO && Below(f, v, x)
    requires multiset(kids) == multiset(s.dirties[v].children.Keys) + multiset(Gather(s.dirties[v].node))
    ensures Kids(Views(s.dirties)[v], multiset(kids))
    ensures forall i :: 0 <= i < |kids| ==> kids[i] != ZERO && Below(f, kids[i], x + {v})
  {
    hide Gather;
    var e := Views(s.dirties)[v];
    forall c ensures multiset(kids)[c] == Refs(e, c)
    {
      if c in e.children { ChildCounts(s, g, w, f, x, debt, v, c); }
    }
    forall i | 0 <= i < |kids|
      ensures kids[i] != ZERO && Below(f, kids[i], x + {v})
    {
      assert kids[i] in multiset(kids);
      assert Edge(Views(s.dirties), v, kids[i]);
    }
  }

  lemma NextKid(kids: seq<Hash>, i: nat, debt: multiset<Hash>)
    requires i < |kids|
    ensures kids[i] in debt + multiset(kids[i..])
    ensures debt + multiset(kids[i..]) - multiset{kids[i]} == debt + multiset(kids[i + 1..])
  {
    assert kids[i..] == [kids[i]] + kids[i + 1..];
  }

  /**
   Removes one reference from `parent` to `child`; a node that loses its last reference is
   deleted and its own references are removed in turn.
   */
  method DereferenceFrom(s: Cache, ghost g: Index, ghost w: Disk, ghost f: Past, child: Hash, parent: Hash,
                         ghost x: set<Hash>, ghost debt: multiset<Hash>)
    returns (t: Cache, ghost g': Index)
    requires Good(s, g, w, f, x, debt) && parent in s.dirties && parent in x && child != ZERO && child in debt
             && Below(f, child, x)
    ensures Good(t, g', w, f, x, debt - multiset{child})
    ensures Fewer(s.dirties, t.dirties, x) && parent in t.dirties
    decreases f.rank(child), 3
  {
    hide Good, Fewer;
    t, g' := LetGo(s, child, parent), g;
    LetGoRetired(s, g, w, f, x, debt, child, parent);
    FewerLetGo(s, g, w, f, child, parent, x, debt);
    t, g' := DropCount(t, g, w, f, child, x, debt);
    FewerMore(s.dirties, LetGo(s, child, parent).dirties, t.dirties, x);
  }

  /** Counts one reference to the child fewer, and deletes it with the last one. */
  method DropCount(s: Cache, ghost g: Index, ghost w: Disk, ghost f: Past, child: Hash, ghost x: set<Hash>,
                   ghost debt: multiset<Hash>)
    returns (t: Cache, ghost g': Index)
    requires Good(s, g, w, f, x, debt) && child != ZERO && child in debt && Below(f, child, x)
    ensures Good(t, g', w, f, x, debt - multiset{child})
    ensures Fewer(s.dirties, t.dirties, x) && x <= t.dirties.Keys
    decreases f.rank(child), 2
  {
    hide Good, Fewer;
    t, g' := s, g;
    FewerSame(s.dirties, s.dirties, x);
    UnderRemoval(s, g, w, f, x, debt, child);
    if child in s.dirties {
      SettleStep(s, g, w, f, x, debt, child);
      t := Settle(s, child);
      FewerSettle(s, child, x);
      if t.dirties[child].parents == 0 {
        ghost var m := t;
        t, g' := RemoveCascading(t, g, w, f, child, x, debt - multiset{child});
        FewerSettled(s, child, t.dirties, x);
        UnderRemoval(t, g', w, f, x, debt - multiset{child}, child);
      }
    }
  }

  /** Nodes under removal are still cached; nothing is owed to a child that is not. */
  lemma UnderRemoval(s: Cache, g: Index, w: Disk, f: Past, x: set<Hash>, debt: multiset<Hash>, child: Hash)
    requires Good(s, g, w, f, x, debt)
    ensures x <= s.dirties.Keys && ZERO !in x
    ensures child !in s.dirties && child in debt ==> Good(s, g, w, f, x, debt - multiset{child})
  {
    if child !in s.dirties && child in debt { Waive(Abs(s, g, w, f), x, child, debt); }
  }

  lemma FewerLetGo(s: Cache, g: Index, w: Disk, f: Past, child: Hash, parent: Hash, x: set<Hash>, debt: multiset<Hash>)
    requires Good(s, g, w, f, x, debt) && parent in s.dirties && parent in x
    ensures Fewer(s.dirties, LetGo(s, child, parent).dirties, x)
  {
    hide Good;
    UnderRemoval(s, g, w, f, x, debt, child);
  }

  lemma FewerSettle(s: Cache, child: Hash, x: set<Hash>)
    requires child in s.dirties
    ensures Settle(s, child).dirties[child].parents > 0 ==> Fewer(s.dirties, Settle(s, child).dirties, x)
  {
  }

  lemma FewerSettled(s: Cache, child: Hash, e: map<Hash, Entry>, x: set<Hash>)
    requires child in s.dirties && Fewer(Settle(s, child).dirties, e, x) && child !in e
    ensures Fewer(s.dirties, e, x)
  {
    var m := Settle(s, child).dirties;
    forall h | h in e && h !in x ensures SameEntry(s.dirties, e, h) { assert SameEntry(m, e, h); }
  }

  /** Dereferences the children of a retired node one by one. */
  method DereferenceAll(s: Cache, ghost g: Index, ghost w: Disk, ghost f: Past, v: Hash, kids: seq<Hash>,
                        ghost x: set<Hash>, ghost debt: multiset<Hash>)
    returns (t: Cache, ghost g': Index)
    requires Good(s, g, w, f, x, debt + multiset(kids)) && v in x && v in s.dirties
    requires forall i :: 0 <= i < |kids| ==> kids[i] != ZERO && Below(f, kids[i], x)
    ensures Good(t, g', w, f, x, debt) && v in t.dirties
    ensures Fewer(s.dirties, t.dirties, x)
    decreases f.rank(v), 0
  {
    hide Good, Fewer;
    t, g' := s, g;
    FewerSame(s.dirties, s.dirties, x);
    assert kids[0..] == kids;
    for i := 0 to |kids|
      invariant Good(t, g', w, f, x, debt + multiset(kids[i..])) && v in t.dirties
      invariant Fewer(s.dirties, t.dirties, x)
    {
      NextKid(kids, i, debt);
      assert Below(f, kids[i], x);
      ghost var d := t.dirties;
      t, g' := DereferenceFrom(t, g', w, f, kids[i], v, x, debt + multiset(kids[i..]));
      FewerMore(s.dirties, d, t.dirties, x);
    }
    assert debt + multiset(kids[|kids|..]) == debt;
  }

  /** Unlinks a node nobody references, dereferences its children and deletes it. */
  method RemoveCascading(s: Cache, ghost g: Index, ghost w: Disk, ghost f: Past, v: Hash, ghost x: set<Hash>,
                         ghost debt: multiset<Hash>)
    returns (t: Cache, ghost g': Index)
    requires Good(s, g, w, f, x, debt) && Removable(Abs(s, g, w, f), x, v) && Below(f, v, x)
    ensures Good(t, g', w, f, x, debt)
    ensures Fewer(s.dirties, t.dirties, x) && v !in t.dirties
    decreases f.rank(v), 1
  {
    hide Good, Fewer;
    var kids := Childs(s.dirties[v]);
    KidsOf(s, g, w, f, x, debt, v, kids);
    t, g' := Retire(s, g, w, f, v, x, debt, multiset(kids));
    FewerUnder(s.dirties, t.dirties, x, v);
    ghost var d := t.dirties;
    t, g' := DereferenceAll(t, g', w, f, v, kids, x + {v}, debt);
    FewerMore(s.dirties, d, t.dirties, x + {v});
    FewerWithout(s.dirties, t.dirties, x, v);
    DiscardStep(t, g', w, f, x, v, debt);
    t, g' := Discard(t, v), g'.(weights := g'.weights[v := 0]);
  }

  /** Releases one reference of the meta-root to a root, and collects what is left without
      references. */
  method DereferenceRoot(s: Cache, ghost g: Index, ghost w: Disk, ghost f: Past, root: Hash)
    returns (t: Cache, ghost g': Index)
    requires Good(s, g, w, f, {}, multiset{}) && ZERO in s.dirties && root != ZERO && MayDereference(s, w.nodes, root)
    ensures Good(t, g', w, f, {}, multiset{}) && Fewer(LetGo(s, root, ZERO).dirties, t.dirties, {})
  {
    hide Good;
    ghost var refBy := LetGoRoot(s, g, w, f, root);
    t, g' := LetGo(s, root, ZERO), g.(refBy := refBy);
    t, g' := DropCount(t, g', w, f, root, {}, multiset{root});
    assert multiset{root} - multiset{root} == multiset{};
  }

  // ---------------------------------------------------------------- insertion

  /** `d` with every counter raised by the multiplicity of its hash in `kids`. */
  ghost function Bumped(d: map<Hash, Entry>, kids: multiset<Hash>): map<Hash, Entry> {
    map h | h in d :: d[h].(parents := d[h].parents + kids[h])
  }

  lemma BumpOne(d: map<Hash, Entry>, kids: seq<Hash>, i: nat)
    requires i < |kids|
    ensures var e := Bumped(d, multiset(kids[..i])); var h := kids[i];
            Bumped(d, multiset(kids[..i + 1]))
            == if h in e then e[h := e[h].(parents := e[h].parents + 1)] else e
  {
    assert kids[..i + 1] == kids[..i] + [kids[i]];
  }

  /** Counts the references of a new node in its cached children. */
  method Bump(d: map<Hash, Entry>, kids: seq<Hash>) returns (e: map<Hash, Entry>)
    ensures e == Bumped(d, multiset(kids))
  {
    e := d;
    assert kids[..0] == [] && e == Bumped(d, multiset(kids[..0]));
    for i := 0 to |kids|
      invariant e == Bumped(d, multiset(kids[..i]))
    {
      BumpOne(d, kids, i);
      if kids[i] in e {
        e := e[kids[i] := e[kids[i]].(parents := e[kids[i]].parents + 1)];
      }
    }
    assert kids[..|kids|] == kids;
  }

  /** The caller's side of content addressing: a hash never changes its content, content is
      acyclic, and children are stored or cached before their parents. */
  ghost predicate CanInsert(s: Cache, w: Disk, f: Past, hash: Hash, node: RawNode) {
    && hash != ZERO
    && (hash in f.origin ==> f.origin[hash] == node)
    && forall c :: c in Gather(node) ==>
         c != ZERO && f.rank(c) < f.rank(hash) && (c in s.dirties || c in w.nodes)
  }

  /** The cache after appending a fresh entry to the flush-list. */
  function Appended(s: Cache, hash: Hash, entry: Entry): Cache
    requires s.oldest != ZERO ==> s.newest in s.dirties && s.newest != hash
  {
    var d := s.dirties[hash := entry];
    if s.oldest == ZERO then s.(dirties := d, oldest := hash, newest := hash)
    else s.(dirties := d[s.newest := d[s.newest].(next := hash)], newest := hash)
  }

  ghost function Remembered(f: Past, hash: Hash, node: RawNode, size: nat): Past {
    f.(origin := f.origin[hash := node], stamp := f.stamp[hash := f.clock], clock := f.clock + 1,
       wraps := f.wraps + (if HASH_LENGTH + size > MAX_UINT16 then 1 else 0))
  }

  ghost function Enrolled(g: Index, hash: Hash, kids: multiset<Hash>, size: nat): Index {
    Index(g.order + [hash], Credit(g.refBy, hash, kids)[hash := multiset{}], g.weights[hash := HASH_LENGTH + size])
  }

  lemma AppendedLinked(s: Cache, order: seq<Hash>, hash: Hash, entry: Entry)
    requires Linked(s.dirties, s.oldest, s.newest, order) && hash !in s.dirties && hash != ZERO
    requires entry.prev == s.newest && entry.next == ZERO
    ensures s.oldest != ZERO ==> s.newest in s.dirties && s.newest != hash && s.newest != ZERO
    ensures var t := Appended(s, hash, entry); Linked(t.dirties, t.oldest, t.newest, order + [hash])
  {
    var n := |order|;
    if n > 0 {
      assert Threaded(s.dirties, order, n - 1) && Threaded(s.dirties, order, 0);
    }
    var t := Appended(s, hash, entry);
    forall i: nat {:trigger Threaded(t.dirties, order + [hash], i)} | i < n + 1
      ensures Threaded(t.dirties, order + [hash], i)
    {
      if i < n { assert Threaded(s.dirties, order, i); }
    }
    forall i, j | 0 <= i < j < n + 1
      ensures (order + [hash])[i] != (order + [hash])[j]
    {
      assert Threaded(s.dirties, order, i);
    }
  }

  lemma AppendedData(s: Cache, w: Disk, f: Past, weights: multiset<Hash>, hash: Hash, entry: Entry)
    requires Content(s.dirties, w.nodes, f.origin, w.links) && Sized(s.dirties, weights)
    requires hash !in s.dirties && hash != ZERO && (hash in f.origin ==> f.origin[hash] == entry.node)
    requires s.oldest != ZERO ==> s.newest in s.dirties
    ensures var t := Appended(s, hash, entry);
            && Content(t.dirties, w.nodes, f.origin[hash := entry.node], w.links)
            && Sized(t.dirties, weights[hash := HASH_LENGTH + entry.size])
            && |weights[hash := HASH_LENGTH + entry.size]| == |weights| + HASH_LENGTH + entry.size
  {
    hide Gather, Content, Sized;
    AppendedContent(s, w, f, hash, entry);
    AppendedSized(s, weights, hash, entry);
  }

  lemma AppendedContent(s: Cache, w: Disk, f: Past, hash: Hash, entry: Entry)
    requires Content(s.dirties, w.nodes, f.origin, w.links)
    requires hash !in s.dirties && hash != ZERO && (hash in f.origin ==> f.origin[hash] == entry.node)
    requires s.oldest != ZERO ==> s.newest in s.dirties
    ensures Content(Appended(s, hash, entry).dirties, w.nodes, f.origin[hash := entry.node], w.links)
  {
    hide Gather;
  }

  lemma AppendedSized(s: Cache, weights: multiset<Hash>, hash: Hash, entry: Entry)
    requires Sized(s.dirties, weights) && hash !in s.dirties && hash != ZERO
    requires s.oldest != ZERO ==> s.newest in s.dirties
    ensures Sized(Appended(s, hash, entry).dirties, weights[hash := HASH_LENGTH + entry.size])
    ensures |weights[hash := HASH_LENGTH + entry.size]| == |weights| + HASH_LENGTH + entry.size
  {
    assert weights[hash] == 0;
  }

  lemma AppendedListed(live: set<Hash>, stamp: map<Hash, nat>, order: seq<Hash>, hash: Hash, now: nat)
    requires Listed(live, stamp, order) && hash !in live
    requires forall h :: h in stamp ==> stamp[h] < now
    ensures Listed(live + {hash}, stamp[hash := now], order + [hash])
  {
    var longer := order + [hash];
    forall i | 0 <= i < |order| ensures order[i] != hash && longer[i] == order[i] {
      assert order[i] in order;
    }
    forall h | h in live + {hash} ensures h in longer {
      if h != hash { assert h in order; }
    }
  }

  lemma BumpedViews(d: map<Hash, Entry>, kids: multiset<Hash>)
    ensures Views(Bumped(d, kids)) == Raise(Views(d), kids)
  {
    hide Gather;
    forall h | h in d ensures Views(Bumped(d, kids))[h] == Raise(Views(d), kids)[h] {}
  }

  lemma AppendedViews(s: Cache, hash: Hash, entry: Entry)
    requires hash !in s.dirties && (s.oldest != ZERO ==> s.newest in s.dirties)
    ensures Views(Appended(s, hash, entry).dirties) == Views(s.dirties)[hash := View(entry)]
  {
    hide Gather;
    var t := Appended(s, hash, entry);
    forall h | h in s.dirties
      ensures h in t.dirties && View(t.dirties[h]) == View(s.dirties[h])
    {
    }
    assert t.dirties.Keys == s.dirties.Keys + {hash};
    assert View(t.dirties[hash]) == View(entry);
  }

  /** The cache after inserting an entry; the size addition is the source's 16-bit one. */
  function Landed(s: Cache, d: map<Hash, Entry>, hash: Hash, entry: Entry): Cache
    requires s.oldest != ZERO ==> s.newest in d && s.newest != hash
  {
    Appended(s.(dirties := d), hash, entry)
    .(dirtiesSize := s.dirtiesSize + (HASH_LENGTH + entry.size) % 0x1_0000)
  }

  /** Appending an entry keeps the list, the contents and the size in order. */
  lemma AppendedTidy(s: Cache, d: map<Hash, Entry>, g: Index, w: Disk, f: Past, hash: Hash, entry: Entry,
                     kids: multiset<Hash>)
    requires Tidy(s.(dirties := d), g, w, f, {}) && hash !in d && hash != ZERO
    requires entry.prev == s.newest && entry.next == ZERO && entry.size <= MAX_UINT16
    requires hash in f.origin ==> f.origin[hash] == entry.node
    ensures s.oldest != ZERO ==> s.newest in d && s.newest != hash && s.newest != ZERO
    ensures Tidy(Landed(s, d, hash, entry), Enrolled(g, hash, kids, entry.size), w,
                 Remembered(f, hash, entry.node, entry.size), {})
  {
    hide Gather, Content, Sized, Linked, Listed;
    var m := s.(dirties := d);
    AppendedLinked(m, g.order, hash, entry);
    AppendedData(m, w, f, g.weights, hash, entry);
    AppendedListed(d.Keys - {} - {ZERO}, f.stamp, g.order, hash, f.clock);
    assert Appended(m, hash, entry).dirties.Keys - {} - {ZERO} == d.Keys - {} - {ZERO} + {hash};
  }

  lemma BumpedTidy(s: Cache, g: Index, w: Disk, f: Past, kids: multiset<Hash>)
    requires Tidy(s, g, w, f, {})
    ensures Tidy(s.(dirties := Bumped(s.dirties, kids)), g, w, f, {})
  {
    var d := Bumped(s.dirties, kids);
    assert d.Keys == s.dirties.Keys;
    forall i: nat {:trigger Threaded(d, g.order, i)} | i < |g.order|
      ensures Threaded(d, g.order, i)
    {
      assert Threaded(s.dirties, g.order, i);
    }
  }

  lemma CanInsertMeans(s: Cache, g: Index, w: Disk, f: Past, hash: Hash, node: RawNode)
    requires Good(s, g, w, f, {}, multiset{}) && hash !in s.dirties && CanInsert(s, w, f, hash, node)
    ensures Insertable(Abs(s, g, w, f), hash, multiset(Gather(node)), f.clock)
  {
    hide Gather, Linked, Sized, Indexed, Counted, Acyclic;
    var kids := Gather(node);
    forall c | c in multiset(kids) && c !in w.nodes
      ensures hash !in w.nodes && c in s.dirties && c in f.stamp
    {
      assert c in kids;
      assert c in s.dirties.Keys - {} - {ZERO};
      assert c in g.order;
    }
  }

  lemma InsertInv(s: Cache, g: Index, w: Disk, f: Past, hash: Hash, entry: Entry, kids: multiset<Hash>)
    requires Good(s, g, w, f, {}, multiset{}) && hash !in s.dirties && CanInsert(s, w, f, hash, entry.node)
    requires kids == multiset(Gather(entry.node)) && entry.parents == 0 && entry.children == map[]
    requires s.oldest != ZERO ==> s.newest in s.dirties && s.newest != hash
    ensures Inv(Abs(Landed(s, Bumped(s.dirties, kids), hash, entry), Enrolled(g, hash, kids, entry.size), w,
                    Remembered(f, hash, entry.node, entry.size)), {}, multiset{})
  {
    CanInsertMeans(s, g, w, f, hash, entry.node);
    Insert(Abs(s, g, w, f), hash, kids, f.clock);
    BumpedViews(s.dirties, kids);
    AppendedViews(s.(dirties := Bumped(s.dirties, kids)), hash, entry);
  }

  lemma AppendStep(s: Cache, g: Index, w: Disk, f: Past, hash: Hash, entry: Entry, kids: multiset<Hash>)
    requires Good(s, g, w, f, {}, multiset{}) && hash !in s.dirties && CanInsert(s, w, f, hash, entry.node)
    requires entry.prev == s.newest && entry.next == ZERO && entry.size <= MAX_UINT16
    requires kids == multiset(Gather(entry.node)) && entry.parents == 0 && entry.children == map[]
    ensures s.oldest != ZERO ==> s.newest in s.dirties && s.newest != hash
    ensures Good(Landed(s, Bumped(s.dirties, kids), hash, entry), Enrolled(g, hash, kids, entry.size), w,
                 Remembered(f, hash, entry.node, entry.size), {}, multiset{})
  {
    BumpedTidy(s, g, w, f, kids);
    AppendedTidy(s, Bumped(s.dirties, kids), g, w, f, hash, entry, kids);
    InsertInv(s, g, w, f, hash, entry, kids);
  }

  /** Caches a fresh collapsed node. */
  method Append(s: Cache, ghost g: Index, ghost w: Disk, ghost f: Past, hash: Hash, entry: Entry)
    returns (t: Cache, ghost g': Index)
    requires Good(s, g, w, f, {}, multiset{}) && hash !in s.dirties && CanInsert(s, w, f, hash, entry.node)
    requires entry.prev == s.newest && entry.next == ZERO && entry.size <= MAX_UINT16
    requires entry.parents == 0 && entry.children == map[]
    ensures Good(t, g', w, Remembered(f, hash, entry.node, entry.size), {}, multiset{})
    ensures t.dirties.Keys == s.dirties.Keys + {hash} && t.dirties[hash].node == entry.node
            && Keeps(s.dirties, t.dirties)
  {
    hide Good, CanInsert, Keeps;
    AppendStep(s, g, w, f, hash, entry, multiset(Gather(entry.node)));
    var d := Bump(s.dirties, Gather(entry.node));
    t := Landed(s, d, hash, entry);
    g' := Enrolled(g, hash, multiset(Gather(entry.node)), entry.size);
    LandedKeeps(s, multiset(Gather(entry.node)), hash, entry);
  }

  /** Entries keep their content and their explicit references. */
  ghost predicate Keeps(d: map<Hash, Entry>, e: map<Hash, Entry>) {
    d.Keys <= e.Keys && forall h {:trigger SameEntry(d, e, h)} :: h in d ==> SameEntry(d, e, h)
  }

  lemma LandedKeeps(s: Cache, kids: multiset<Hash>, hash: Hash, entry: Entry)
    requires hash !in s.dirties && (s.oldest != ZERO ==> s.newest in s.dirties && s.newest != hash)
    ensures Keeps(s.dirties, Landed(s, Bumped(s.dirties, kids), hash, entry).dirties)
    ensures Landed(s, Bumped(s.dirties, kids), hash, entry).dirties[hash].node == entry.node
  {
  }

  /** Caches a collapsed node of `length` encoded bytes unless it is cached already. */
  method InsertNode(s: Cache, ghost g: Index, ghost w: Disk, ghost f: Past, hash: Hash, length: nat, node: RawNode)
    returns (t: Cache, ghost g': Index, ghost f': Past)
    requires Good(s, g, w, f, {}, multiset{}) && CanInsert(s, w, f, hash, node)
    ensures Good(t, g', w, f', {}, multiset{})
    ensures t.dirties.Keys == s.dirties.Keys + {hash}
    ensures Keeps(s.dirties, t.dirties)
    ensures if hash in s.dirties then f' == f && t == s else f' == Remembered(f, hash, node, length % 0x1_0000)
    ensures hash in f'.origin && f'.origin[hash] == node && t.dirties[hash].node == node
  {
    hide Good;
    CachedContent(s, g, w, f, hash);
    t, g', f' := s, g, f;
    if hash !in s.dirties {
      f' := Remembered(f, hash, node, length % 0x1_0000);
      t, g' := Append(s, g, w, f, hash, Entry(node, length % 0x1_0000, 0, map[], s.newest, ZERO));
    }
  }

  lemma CachedContent(s: Cache, g: Index, w: Disk, f: Past, h: Hash)
    requires Good(s, g, w, f, {}, multiset{})
    ensures h in s.dirties && h != ZERO ==> h in f.origin && f.origin[h] == s.dirties[h].node
  {
  }

  // ---------------------------------------------------------------- external references

  /** The caller's side of `Reference`: the parent is cached; a root is held fewer than 65535
      times; and the child of any other parent is on disk, or older than a parent that is not. */
  ghost predicate CanReference(s: Cache, w: Disk, f: Past, child: Hash, parent: Hash) {
    && parent in s.dirties && child != ZERO && child != parent
    && (parent == ZERO && child in s.dirties[ZERO].children ==> s.dirties[ZERO].children[child] < MAX_UINT16)
    && (parent != ZERO ==> f.rank(child) < f.rank(parent))
    && (parent != ZERO && child !in w.nodes ==>
          parent !in w.nodes && child in f.stamp && parent in f.stamp && f.stamp[child] < f.stamp[parent])
  }

  /** The cache after counting one more reference, with the source's 16-bit counter. */
  function Referenced(s: Cache, child: Hash, parent: Hash): Cache
    requires child in s.dirties && parent in s.dirties && child != parent
  {
    var node := s.dirties[child];
    var top := s.dirties[parent];
    var count := if child in top.children then top.children[child] else 0;
    s.(dirties := s.dirties[child := node.(parents := node.parents + 1)]
                           [parent := top.(children := top.children[child := (count + 1) % 0x1_0000])])
  }

  lemma ReferencedTidy(s: Cache, g: Index, w: Disk, f: Past, child: Hash, parent: Hash)
    requires Tidy(s, g, w, f, {}) && child in s.dirties && parent in s.dirties && child != parent
    ensures Tidy(Referenced(s, child, parent), g, w, f, {})
    ensures Views(Referenced(s, child, parent).dirties)
            == Linking(Abs(s, g, w, f), child, parent,
                       Referenced(s, child, parent).dirties[parent].children[child]).cache
  {
    hide Gather, Tidy;
    var t := Referenced(s, child, parent);
    Amend(s, g, w, f, {}, child, t.dirties[child]);
    Amend(s.(dirties := s.dirties[child := t.dirties[child]]), g, w, f, {}, parent, t.dirties[parent]);
  }

  lemma ReferencedLinkable(s: Cache, g: Index, w: Disk, f: Past, child: Hash, parent: Hash)
    requires Good(s, g, w, f, {}, multiset{}) && CanReference(s, w, f, child, parent) && child in s.dirties
    requires parent == ZERO || child !in s.dirties[parent].children
    ensures child in Referenced(s, child, parent).dirties[parent].children
    ensures Linkable(Abs(s, g, w, f), child, parent, Referenced(s, child, parent).dirties[parent].children[child])
  {
    hide Good, Gather;
  }

  lemma ReferenceStep(s: Cache, g: Index, w: Disk, f: Past, child: Hash,
                      parent: Hash) returns (refBy: map<Hash, multiset<Hash>>)
    requires Good(s, g, w, f, {}, multiset{}) && CanReference(s, w, f, child, parent) && child in s.dirties
    requires parent == ZERO || child !in s.dirties[parent].children
    ensures Good(Referenced(s, child, parent), g.(refBy := refBy), w, f, {}, multiset{})
  {
    refBy := if child in g.refBy then g.refBy[child := g.refBy[child] + multiset{parent}] else g.refBy;
    ReferencedTidy(s, g, w, f, child, parent);
    ReferencedLinkable(s, g, w, f, child, parent);
    Link(Abs(s, g, w, f), child, parent, Referenced(s, child, parent).dirties[parent].children[child]);
  }

  /** Adds a reference from a parent to a child; only the meta-root may repeat one. */
  method ReferenceNode(s: Cache, ghost g: Index, ghost w: Disk, ghost f: Past, child: Hash, parent: Hash)
    returns (t: Cache, ghost g': Index)
    requires Good(s, g, w, f, {}, multiset{}) && CanReference(s, w, f, child, parent)
    ensures Good(t, g', w, f, {}, multiset{})
    ensures t == if child in s.dirties && (parent == ZERO || child !in s.dirties[parent].children)
                 then Referenced(s, child, parent) else s
  {
    t, g' := s, g;
    // a child that is not cached was pulled from disk; other parents hold a child only once
    if child in s.dirties && (child !in s.dirties[parent].children || parent == ZERO) {
      ghost var refBy := ReferenceStep(s, g, w, f, child, parent);
      t, g' := Referenced(s, child, parent), g.(refBy := refBy);
    }
  }

  // ---------------------------------------------------------------- uncaching

  lemma RetireStoredStep(s: Cache, t: Cache, g: Index, w: Disk, f: Past, x: set<Hash>, v: Hash, debt: multiset<Hash>,
                         k: nat)
    requires Good(s, g, w, f, x, debt) && v in s.dirties && v != ZERO && v !in x && v in w.nodes
    requires k < |g.order| && g.order[k] == v && t.dirtiesSize == s.dirtiesSize
    requires SameData(s.dirties, t.dirties) && Linked(t.dirties, t.oldest, t.newest, Without(g.order, k))
    ensures Good(t, Index(Without(g.order, k), g.refBy, g.weights), w, f, x + {v}, debt)
  {
    CondemnStored(Abs(s, g, w, f), x, v, debt);
    SameViews(s.dirties, t.dirties);
    SameDataKeeps(s.dirties, t.dirties, w.nodes, f.origin, w.links, g.weights);
    ListedWithout(s.dirties.Keys - x - {ZERO}, f.stamp, g.order, k);
    assert t.dirties.Keys - (x + {v}) - {ZERO} == s.dirties.Keys - x - {ZERO} - {v};
  }

  /** Takes a node that is on disk off the flush-list. */
  method RetireStored(s: Cache, ghost g: Index, ghost w: Disk, ghost f: Past, v: Hash, ghost x: set<Hash>)
    returns (t: Cache, ghost g': Index)
    requires Good(s, g, w, f, x, multiset{}) && v in s.dirties && v != ZERO && v !in x && v in w.nodes
    ensures Good(t, g', w, f, x + {v}, multiset{})
    ensures SameData(s.dirties, t.dirties) && x + {v} <= t.dirties.Keys
  {
    ghost var k := FindPosition(s, g, w, f, x, multiset{}, v);
    t := Unlink(s, v, g.order, k);
    g' := Index(Without(g.order, k), g.refBy, g.weights);
    RetireStoredStep(s, t, g, w, f, x, v, multiset{}, k);
  }

  lemma StoredKids(s: Cache, g: Index, w: Disk, f: Past, x: set<Hash>, v: Hash, kids: seq<Hash>)
    requires Good(s, g, w, f, x, multiset{}) && v in s.dirties && v != ZERO && v !in x && v in w.nodes && Below(f, v, x)
    requires multiset(kids) == multiset(s.dirties[v].children.Keys) + multiset(Gather(s.dirties[v].node))
    ensures forall i :: 0 <= i < |kids| ==> kids[i] != ZERO && kids[i] in w.nodes && Below(f, kids[i], x + {v})
  {
    KidsOf(s, g, w, f, x, multiset{}, v, kids);
    forall i | 0 <= i < |kids|
      ensures kids[i] in w.nodes
    {
      assert kids[i] in multiset(kids);
      assert Edge(Views(s.dirties), v, kids[i]);
    }
  }

  /** `e` is `d` without some nodes, all of which are on disk; the others refer to what they referred to. */
  ghost predicate OnlyStoredLeft(d: map<Hash, Entry>, e: map<Hash, Entry>, disk: map<Hash, RawNode>) {
    && e.Keys <= d.Keys && (ZERO in d ==> ZERO in e)
    && (forall h :: h in d && h !in e ==> h in disk)
    && (forall h {:trigger SameEntry(d, e, h)} :: h in e ==> SameEntry(d, e, h))
  }

  lemma LeftMore(d: map<Hash, Entry>, e: map<Hash, Entry>, k: map<Hash, Entry>, disk: map<Hash, RawNode>)
    requires OnlyStoredLeft(d, e, disk) && OnlyStoredLeft(e, k, disk)
    ensures OnlyStoredLeft(d, k, disk)
  {
    forall h | h in k ensures SameEntry(d, k, h) { assert SameEntry(d, e, h) && SameEntry(e, k, h); }
  }

  lemma LeftSame(d: map<Hash, Entry>, e: map<Hash, Entry>, disk: map<Hash, RawNode>)
    requires SameData(d, e)
    ensures OnlyStoredLeft(d, e, disk)
  {
  }

  lemma LeftWithout(d: map<Hash, Entry>, e: map<Hash, Entry>, disk: map<Hash, RawNode>, v: Hash)
    requires OnlyStoredLeft(d, e, disk) && v in disk && v != ZERO
    ensures OnlyStoredLeft(d, e - {v}, disk)
  {
    forall h | h in e - {v} ensures SameEntry(d, e - {v}, h) { assert SameEntry(d, e, h); }
  }

  /** Removes a persisted node and everything cached below it. */
  method Uncache(s: Cache, ghost g: Index, ghost w: Disk, ghost f: Past, v: Hash, ghost x: set<Hash>)
    returns (t: Cache, ghost g': Index)
    requires Good(s, g, w, f, x, multiset{}) && v != ZERO && Below(f, v, x) && v in w.nodes
    ensures Good(t, g', w, f, x, multiset{}) && v !in t.dirties
    ensures OnlyStoredLeft(s.dirties, t.dirties, w.nodes) && x <= t.dirties.Keys
    decreases f.rank(v), 2
  {
    hide Good, OnlyStoredLeft;
    t, g' := s, g;
    LeftSame(s.dirties, s.dirties, w.nodes);
    UnderRemoval(s, g, w, f, x, multiset{}, v);
    if v in s.dirties {
      t, g' := UncacheCached(s, g, w, f, v, x);
    }
  }

  method UncacheCached(s: Cache, ghost g: Index, ghost w: Disk, ghost f: Past, v: Hash, ghost x: set<Hash>)
    returns (t: Cache, ghost g': Index)
    requires Good(s, g, w, f, x, multiset{}) && v != ZERO && v !in x && Below(f, v, x) && v in w.nodes && v in s.dirties
    ensures Good(t, g', w, f, x, multiset{}) && v !in t.dirties
    ensures OnlyStoredLeft(s.dirties, t.dirties, w.nodes) && x <= t.dirties.Keys
    decreases f.rank(v), 1
  {
    hide Good, OnlyStoredLeft;
    var kids := Childs(s.dirties[v]);
    StoredKids(s, g, w, f, x, v, kids);
    t, g' := RetireStored(s, g, w, f, v, x);
    LeftSame(s.dirties, t.dirties, w.nodes);
    ghost var d := t.dirties;
    t, g' := UncacheAll(t, g', w, f, v, kids, x + {v});
    LeftMore(s.dirties, d, t.dirties, w.nodes);
    LeftWithout(s.dirties, t.dirties, w.nodes, v);
    DiscardStep(t, g', w, f, x, v, multiset{});
    t, g' := Discard(t, v), g'.(weights := g'.weights[v := 0]);
  }

  method UncacheAll(s: Cache, ghost g: Index, ghost w: Disk, ghost f: Past, ghost v: Hash, kids: seq<Hash>,
                    ghost x: set<Hash>)
    returns (t: Cache, ghost g': Index)
    requires Good(s, g, w, f, x, multiset{}) && v in x && x <= s.dirties.Keys
    requires forall i :: 0 <= i < |kids| ==> kids[i] != ZERO && kids[i] in w.nodes && Below(f, kids[i], x)
    ensures Good(t, g', w, f, x, multiset{})
    ensures OnlyStoredLeft(s.dirties, t.dirties, w.nodes) && x <= t.dirties.Keys
    decreases f.rank(v), 0
  {
    hide Good, OnlyStoredLeft;
    t, g' := s, g;
    LeftSame(s.dirties, s.dirties, w.nodes);
    for i := 0 to |kids|
      invariant Good(t, g', w, f, x, multiset{})
      invariant OnlyStoredLeft(s.dirties, t.dirties, w.nodes) && x <= t.dirties.Keys
    {
      ghost var d := t.dirties;
      t, g' := Uncache(t, g', w, f, kids[i], x);
      LeftMore(s.dirties, d, t.dirties, w.nodes);
    }
  }

  // ---------------------------------------------------------------- writing to disk

  /** The disk together with the batch being assembled. */
  datatype Out = Out(disk: map<Hash, RawNode>, batch: map<Hash, RawNode>)

  /** Bookkeeping of writes: the children of stored nodes, and every image of the disk so far. */
  datatype Trail = Trail(links: map<Hash, set<Hash>>, images: seq<Disk>)

  /** A disk image without dangling children. */
  ghost predicate ClosedDisk(w: Disk) {
    && (forall h, c :: h in w.nodes && c in Gather(w.nodes[h]) ==> c in w.nodes)
    && (forall h, c :: h in w.links && c in w.links[h] ==> c in w.nodes)
  }

  ghost predicate AllClosed(images: seq<Disk>) {
    forall i :: 0 <= i < |images| ==> ClosedDisk(images[i])
  }

  ghost predicate Within(a: map<Hash, RawNode>, b: map<Hash, RawNode>) {
    forall h :: h in a ==> h in b && b[h] == a[h]
  }

  /** Every image of the disk is closed and holds what the ones before it held; the last is `w`. */
  ghost predicate History(images: seq<Disk>, w: Disk) {
    && AllClosed(images) && |images| > 0 && images[|images| - 1] == w
    && forall i, j :: 0 <= i <= j < |images| ==> Within(images[i].nodes, images[j].nodes)
  }

  /** The images of one trail are the first of the other. */
  ghost predicate Longer(z: Trail, z': Trail) {
    |z.images| <= |z'.images| && forall i :: 0 <= i < |z.images| ==> z'.images[i] == z.images[i]
  }

  lemma HistoryMore(images: seq<Disk>, w: Disk, w': Disk)
    requires History(images, w) && ClosedDisk(w') && Within(w.nodes, w'.nodes)
    ensures History(images + [w'], w')
  {
    hide ClosedDisk;
    var more := images + [w'];
    forall i, j | 0 <= i <= j < |more| ensures Within(more[i].nodes, more[j].nodes) {
      if i < j == |images| { assert Within(more[i].nodes, w.nodes) by { assert more[i] == images[i]; } }
    }
  }

  /** The batch holds cached nodes, and may be written at any moment. */
  ghost predicate Ready(s: Cache, g: Index, f: Past, o: Out, z: Trail) {
    && Good(s, g, Disk(o.disk, z.links), f, {}, multiset{})
    && (forall h :: h in o.batch ==> h in s.dirties && o.batch[h] == s.dirties[h].node)
    && Writable(Abs(s, g, Disk(o.disk, z.links), f), o.batch.Keys)
    && History(z.images, Disk(o.disk, z.links))
  }

  /** What is on disk or about to be. */
  ghost function Sent(o: Out): set<Hash> {
    o.disk.Keys + o.batch.Keys
  }

  /** Nothing that is on disk or about to be gets lost, and what reaches the disk has all it refers
      to there. */
  ghost predicate Grows(cache: map<Hash, Core>, o: Out, o': Out) {
    && o.disk.Keys <= o'.disk.Keys && Sent(o) <= Sent(o')
    && forall h, c {:trigger Edge(cache, h, c)} :: Edge(cache, h, c) && h in o'.disk && h !in o.disk ==> c in o'.disk
  }

  lemma GrowsDisk(cache: map<Hash, Core>, o: Out, o': Out)
    requires Grows(cache, o, o')
    ensures o.disk.Keys <= o'.disk.Keys
  {
  }

  lemma GrowsNot(cache: map<Hash, Core>, o: Out)
    ensures Grows(cache, o, o)
  {
  }

  /** A batch whose nodes have their children on disk or in it. */
  lemma GrowsByBatch(s: Cache, g: Index, f: Past, o: Out, z: Trail)
    requires Ready(s, g, f, o, z)
    ensures Grows(Views(s.dirties), o, Out(o.disk + o.batch, map[])) && o.batch.Keys <= s.dirties.Keys
  {
    hide Gather, Good;
  }

  lemma GrowsMore(cache: map<Hash, Core>, o: Out, o1: Out, o2: Out)
    requires Grows(cache, o, o1) && Grows(cache, o1, o2)
    ensures Grows(cache, o, o2)
  {
  }

  lemma GoodIsClosed(s: Cache, g: Index, w: Disk, f: Past)
    requires Good(s, g, w, f, {}, multiset{})
    ensures ClosedDisk(w)
  {
    forall h, c | h in w.nodes && c in Gather(w.nodes[h])
      ensures c in w.nodes
    {
      assert c in w.links[h];
    }
  }

  ghost function NewLinks(s: Cache, g: Index, w: Disk, f: Past, batch: set<Hash>): map<Hash, set<Hash>>
    requires batch <= s.dirties.Keys
  {
    Written(Abs(s, g, w, f), batch).links
  }

  lemma WriteContent(s: Cache, g: Index, w: Disk, f: Past, batch: map<Hash, RawNode>)
    requires Content(s.dirties, w.nodes, f.origin, w.links) && ZERO !in batch
    requires forall h :: h in batch ==> h in s.dirties && batch[h] == s.dirties[h].node
    ensures Content(s.dirties, w.nodes + batch, f.origin, NewLinks(s, g, w, f, batch.Keys))
  {
    hide Gather, NewLinks;
    var links := NewLinks(s, g, w, f, batch.Keys);
    forall h, c | h in w.nodes + batch && h in links && c in Gather((w.nodes + batch)[h])
      ensures c in links[h]
    {
      LinkedChild(s, g, w, f, batch.Keys, h, c);
    }
  }

  lemma LinkedChild(s: Cache, g: Index, w: Disk, f: Past, batch: set<Hash>, h: Hash, c: Hash)
    requires batch <= s.dirties.Keys && h in NewLinks(s, g, w, f, batch)
    ensures h in w.links && c in w.links[h] ==> c in NewLinks(s, g, w, f, batch)[h]
    ensures h in batch && c in Gather(s.dirties[h].node) ==> c in NewLinks(s, g, w, f, batch)[h]
    ensures h !in batch ==> h in w.links
  {
    hide Gather;
    if h in batch && c in Gather(s.dirties[h].node) { assert c in ChildSet(Views(s.dirties)[h]); }
  }

  lemma WriteStep(s: Cache, g: Index, f: Past, o: Out, z: Trail)
    requires Ready(s, g, f, o, z)
    ensures Good(s, g, Disk(o.disk + o.batch, NewLinks(s, g, Disk(o.disk, z.links), f, o.batch.Keys)), f, {},
                 multiset{})
  {
    var w := Disk(o.disk, z.links);
    Write(Abs(s, g, w, f), o.batch.Keys);
    assert (o.disk + o.batch).Keys == o.disk.Keys + o.batch.Keys;
    WriteContent(s, g, w, f, o.batch);
  }

  /** Writes the batch and resets it.  The write may fail, and then changes nothing. */
  method WriteBatch(s: Cache, ghost g: Index, ghost f: Past, o: Out, ghost z: Trail)
    returns (ok: bool, o': Out, ghost z': Trail)
    requires Ready(s, g, f, o, z)
    ensures Ready(s, g, f, o', z')
    ensures ok ==> o' == Out(o.disk + o.batch, map[]) && |z'.images| == |z.images| + 1
    ensures !ok ==> o' == o && z' == z
    ensures Grows(Views(s.dirties), o, o') && Longer(z, z')
  {
    hide Ready, Grows, Views, Good;
    ok, o', z' := *, o, z;
    GrowsNot(Views(s.dirties), o);
    if ok {
      GrowsByBatch(s, g, f, o, z);
      ghost var links := NewLinks(s, g, Disk(o.disk, z.links), f, o.batch.Keys);
      WriteStep(s, g, f, o, z);
      o' := Out(o.disk + o.batch, map[]);
      GoodIsClosed(s, g, Disk(o'.disk, links), f);
      z' := Trail(links, z.images + [Disk(o'.disk, links)]);
      ReadyWritten(s, g, f, o, z, links);
    }
  }

  lemma ReadyWritten(s: Cache, g: Index, f: Past, o: Out, z: Trail, links: map<Hash, set<Hash>>)
    requires Ready(s, g, f, o, z) && Good(s, g, Disk(o.disk + o.batch, links), f, {}, multiset{})
    requires ClosedDisk(Disk(o.disk + o.batch, links))
    ensures Ready(s, g, f, Out(o.disk + o.batch, map[]),
                  Trail(links, z.images + [Disk(o.disk + o.batch, links)]))
  {
    hide Good, Gather, History, ClosedDisk;
    BatchAgrees(s, g, f, o, z);
    HistoryMore(z.images, Disk(o.disk, z.links), Disk(o.disk + o.batch, links));
  }

  lemma BatchAgrees(s: Cache, g: Index, f: Past, o: Out, z: Trail)
    requires Ready(s, g, f, o, z)
    ensures Within(o.disk, o.disk + o.batch)
  {
    hide Gather, Inv, Linked, Listed, Sized, History;
    forall h | h in o.disk && h in o.batch ensures o.batch[h] == o.disk[h] {
      assert h in s.dirties && h != ZERO;
    }
  }

  lemma PutStep(s: Cache, g: Index, f: Past, o: Out, z: Trail, h: Hash)
    requires Ready(s, g, f, o, z) && h in s.dirties && h != ZERO
    requires forall c {:trigger Edge(Views(s.dirties), h, c)} :: Edge(Views(s.dirties), h, c) ==> c in Sent(o)
    ensures Ready(s, g, f, o.(batch := o.batch[h := s.dirties[h].node]), z)
  {
    hide Gather, History, Tidy;
  }

  /** Adds a node to the batch; a full batch is written at once.  When a batch counts as full
      is left open. */
  method Put(s: Cache, ghost g: Index, ghost f: Past, o: Out, ghost z: Trail, h: Hash)
    returns (ok: bool, o': Out, ghost z': Trail)
    requires Ready(s, g, f, o, z) && h in s.dirties && h != ZERO
    requires forall c {:trigger Edge(Views(s.dirties), h, c)} :: Edge(Views(s.dirties), h, c) ==> c in Sent(o)
    ensures Ready(s, g, f, o', z') && Grows(Views(s.dirties), o, o') && h in Sent(o') && Longer(z, z')
  {
    hide Ready;
    PutStep(s, g, f, o, z, h);
    ok, o', z' := true, o.(batch := o.batch[h := s.dirties[h].node]), z;
    assert Grows(Views(s.dirties), o, o');
    var full: bool := *;
    if full {
      ghost var o1 := o';
      ok, o', z' := WriteBatch(s, g, f, o', z');
      GrowsMore(Views(s.dirties), o, o1, o');
    }
  }

  lemma CommitKids(s: Cache, g: Index, f: Past, o: Out, z: Trail, h: Hash, kids: seq<Hash>)
    requires Ready(s, g, f, o, z) && h in s.dirties && h != ZERO
    requires multiset(kids) == multiset(s.dirties[h].children.Keys) + multiset(Gather(s.dirties[h].node))
    ensures forall i :: 0 <= i < |kids| ==>
              kids[i] != ZERO && f.rank(kids[i]) < f.rank(h) && (kids[i] in s.dirties || kids[i] in o.disk)
    ensures forall c {:trigger Edge(Views(s.dirties), h, c)} :: Edge(Views(s.dirties), h, c) ==> c in kids
  {
    forall i | 0 <= i < |kids|
      ensures kids[i] != ZERO && f.rank(kids[i]) < f.rank(h) && (kids[i] in s.dirties || kids[i] in o.disk)
    {
      assert kids[i] in multiset(kids);
      assert Edge(Views(s.dirties), h, kids[i]);
    }
    forall c {:trigger Edge(Views(s.dirties), h, c)} | Edge(Views(s.dirties), h, c)
      ensures c in kids
    {
      assert c in multiset(kids);
    }
  }

  /** Puts a cached node into the batch after everything below it. */
  method CommitNode(s: Cache, ghost g: Index, ghost f: Past, o: Out, ghost z: Trail, h: Hash)
    returns (ok: bool, o': Out, ghost z': Trail)
    requires Ready(s, g, f, o, z) && h != ZERO
    ensures Ready(s, g, f, o', z') && Grows(Views(s.dirties), o, o') && Longer(z, z')
    ensures ok && h in s.dirties ==> h in Sent(o')
    decreases f.rank(h)
  {
    hide Ready;
    ok, o', z' := true, o, z;
    if h !in s.dirties {
      return;  // committed before
    }
    var kids := Childs(s.dirties[h]);
    CommitKids(s, g, f, o, z, h, kids);
    for i := 0 to |kids|
      invariant Ready(s, g, f, o', z') && Grows(Views(s.dirties), o, o') && Longer(z, z')
      invariant forall j :: 0 <= j < i ==> kids[j] in Sent(o')
    {
      ghost var o1 := o';
      ok, o', z' := CommitNode(s, g, f, o', z', kids[i]);
      GrowsMore(Views(s.dirties), o, o1, o');
      if !ok {
        return;
      }
    }
    ghost var o1 := o';
    ok, o', z' := Put(s, g, f, o', z', h);
    GrowsMore(Views(s.dirties), o, o1, o');
  }

  // ---------------------------------------------------------------- capping the cache

  /** The hash at a position of the flush-list, or the end marker. */
  ghost function At(order: seq<Hash>, i: nat): Hash {
    if i < |order| then order[i] else ZERO
  }

  /** Memory accounted to the cache: tracked bytes plus two links per node. */
  function TotalSize(s: Cache): int {
    s.dirtiesSize + (|s.dirties| - 1) * 2 * HASH_LENGTH
  }

  /** What the first `n` nodes of the flush-list contribute to `TotalSize`. */
  ghost function Cost(d: map<Hash, Entry>, order: seq<Hash>, n: nat): int
    requires n <= |order| && forall i :: 0 <= i < n ==> order[i] in d
  {
    if n == 0 then 0 else Cost(d, order, n - 1) + 3 * HASH_LENGTH + d[order[n - 1]].size
  }

  ghost predicate FlushedUpTo(o: Out, order: seq<Hash>, n: nat)
    requires n <= |order|
  {
    forall i :: 0 <= i < n ==> order[i] in Sent(o)
  }

  lemma OldestIsListed(s: Cache, g: Index, w: Disk, f: Past, i: nat)
    requires Good(s, g, w, f, {}, multiset{})
    ensures forall j :: 0 <= j < |g.order| ==> g.order[j] in s.dirties && g.order[j] != ZERO
    ensures s.oldest == At(g.order, 0)
    ensures i < |g.order| ==> s.dirties[g.order[i]].next == At(g.order, i + 1)
  {
    forall j | 0 <= j < |g.order| ensures g.order[j] in s.dirties && g.order[j] != ZERO {
      assert Threaded(s.dirties, g.order, j);
    }
    if i < |g.order| { assert Threaded(s.dirties, g.order, i); }
  }

  /** Children precede parents in the flush-list, so a flushed prefix can always be extended. */
  lemma OldestKids(s: Cache, g: Index, f: Past, o: Out, z: Trail, i: nat)
    requires Ready(s, g, f, o, z) && i < |g.order| && FlushedUpTo(o, g.order, i)
    ensures forall c {:trigger Edge(Views(s.dirties), g.order[i], c)} ::
              Edge(Views(s.dirties), g.order[i], c) ==> c in Sent(o)
  {
    var w := Disk(o.disk, z.links);
    OldestIsListed(s, g, w, f, i);
    forall c {:trigger Edge(Views(s.dirties), g.order[i], c)} | Edge(Views(s.dirties), g.order[i], c)
      ensures c in Sent(o)
    {
      if c !in o.disk {
        assert Older(Abs(s, g, w, f), c, g.order[i]);
        assert c in s.dirties.Keys - {} - {ZERO};
        var j :| 0 <= j < |g.order| && g.order[j] == c;
        assert j < i;
      }
    }
  }

  lemma FlushStart(s: Cache, g: Index, f: Past, o: Out, z: Trail)
    requires Ready(s, g, f, o, z)
    ensures forall j :: 0 <= j < |g.order| ==> g.order[j] in s.dirties && g.order[j] != ZERO
    ensures s.oldest == At(g.order, 0) && FlushedUpTo(o, g.order, 0) && Grows(Views(s.dirties), o, o)
  {
    OldestIsListed(s, g, Disk(o.disk, z.links), f, 0);
  }

  lemma FlushOne(cache: map<Hash, Core>, o: Out, o1: Out, o2: Out, order: seq<Hash>, n: nat)
    requires n < |order| && FlushedUpTo(o1, order, n) && Grows(cache, o, o1) && Grows(cache, o1, o2)
             && order[n] in Sent(o2)
    ensures FlushedUpTo(o2, order, n + 1) && Grows(cache, o, o2)
  {
  }

  lemma FlushRest(cache: map<Hash, Core>, o: Out, o1: Out, o2: Out, order: seq<Hash>, n: nat)
    requires n <= |order| && FlushedUpTo(o1, order, n) && Grows(cache, o, o1) && Grows(cache, o1, o2)
    ensures FlushedUpTo(o2, order, n) && Grows(cache, o, o2)
  {
  }

  /** Writes nodes in flush-list order until what would remain fits the limit. */
  method FlushOldest(s: Cache, ghost g: Index, ghost f: Past, o: Out, ghost z: Trail, limit: int)
    returns (ok: bool, o': Out, ghost z': Trail, stop: Hash, ghost n: nat)
    requires Ready(s, g, f, o, z)
    ensures Ready(s, g, f, o', z') && Grows(Views(s.dirties), o, o') && Longer(z, z')
    ensures n <= |g.order| && stop == At(g.order, n)
    ensures forall j :: 0 <= j < |g.order| ==> g.order[j] in s.dirties
    ensures ok ==> o'.batch == map[] && FlushedUpTo(o', g.order, n)
    ensures ok ==> TotalSize(s) - Cost(s.dirties, g.order, n) <= limit || n == |g.order|
  {
    hide Ready, Grows, FlushedUpTo, Sent, TotalSize;
    FlushStart(s, g, f, o, z);
    ok, o', z', stop, n := true, o, z, s.oldest, 0;
    var size := TotalSize(s);
    while size > limit && stop != ZERO
      invariant Ready(s, g, f, o', z') && Grows(Views(s.dirties), o, o') && Longer(z, z')
      invariant n <= |g.order| && stop == At(g.order, n) && FlushedUpTo(o', g.order, n)
      invariant size == TotalSize(s) - Cost(s.dirties, g.order, n)
      decreases |g.order| - n
    {
      NextOldest(s, g, f, o', z', n);
      var node := s.dirties[stop];
      ghost var o1 := o';
      ok, o', z' := Put(s, g, f, o', z', stop);
      FlushOne(Views(s.dirties), o, o1, o', g.order, n);
      n := n + 1;
      size := size - (3 * HASH_LENGTH + node.size);
      stop := node.next;
      if !ok {
        return;
      }
    }
    ghost var o1 := o';
    ok, o', z' := WriteBatch(s, g, f, o', z');
    FlushRest(Views(s.dirties), o, o1, o', g.order, n);
  }

  lemma NextOldest(s: Cache, g: Index, f: Past, o: Out, z: Trail, n: nat)
    requires Ready(s, g, f, o, z) && n < |g.order| && FlushedUpTo(o, g.order, n)
    ensures g.order[n] in s.dirties && g.order[n] != ZERO && s.dirties[g.order[n]].next == At(g.order, n + 1)
    ensures forall c {:trigger Edge(Views(s.dirties), g.order[n], c)} ::
              Edge(Views(s.dirties), g.order[n], c) ==> c in Sent(o)
  {
    OldestIsListed(s, g, Disk(o.disk, z.links), f, n);
    OldestKids(s, g, f, o, z, n);
  }

  /** The cache without the oldest node; the new head keeps its stale back link. */
  function Popped(s: Cache): Cache
    requires s.oldest in s.dirties
  {
    Discard(s.(oldest := s.dirties[s.oldest].next), s.oldest)
  }

  lemma PopLinked(s: Cache, order: seq<Hash>)
    requires Linked(s.dirties, s.oldest, s.newest, order) && |order| > 0
    ensures s.oldest == order[0] && order[0] in s.dirties && order[0] != ZERO
            && s.dirties[order[0]].next == At(order, 1)
    ensures Without(order, 0) == order[1..]
    ensures Linked(s.dirties, s.dirties[order[0]].next, s.newest, order[1..])
  {
    assert Threaded(s.dirties, order, 0);
    forall i: nat {:trigger Threaded(s.dirties, order[1..], i)} | i < |order| - 1
      ensures Threaded(s.dirties, order[1..], i)
    {
      assert Threaded(s.dirties, order, i + 1);
    }
  }

  lemma GoodLinked(s: Cache, g: Index, w: Disk, f: Past)
    requires Good(s, g, w, f, {}, multiset{})
    ensures Linked(s.dirties, s.oldest, s.newest, g.order)
  {
  }

  lemma PopStep(s: Cache, g: Index, w: Disk, f: Past)
    requires Good(s, g, w, f, {}, multiset{}) && |g.order| > 0 && g.order[0] in w.nodes
    ensures s.oldest in s.dirties && s.oldest == g.order[0] && s.oldest != ZERO
    ensures Good(Popped(s), Index(g.order[1..], g.refBy, g.weights[s.oldest := 0]), w, f, {}, multiset{})
    ensures TotalSize(Popped(s)) == TotalSize(s) - (3 * HASH_LENGTH + s.dirties[s.oldest].size)
    ensures Popped(s).oldest == At(g.order, 1)
  {
    hide Good;
    GoodLinked(s, g, w, f);
    PopLinked(s, g.order);
    var v := g.order[0];
    var t := s.(oldest := s.dirties[v].next);
    RetireStoredStep(s, t, g, w, f, {}, v, multiset{}, 0);
    assert {} + {v} == {v};
    DiscardStep(t, Index(g.order[1..], g.refBy, g.weights), w, f, {}, v, multiset{});
    assert (s.dirties - {v}).Keys == s.dirties.Keys - {v};
  }

  lemma CostTail(d: map<Hash, Entry>, order: seq<Hash>, j: nat)
    requires j < |order| && forall i :: 0 <= i <= j ==> order[i] in d
    ensures Cost(d, order, j + 1) == Cost(d, order, j) + 3 * HASH_LENGTH + d[order[j]].size
  {
  }

  /** `t` is `s` without the first `j` nodes of `order`. */
  ghost predicate Remaining(s: Cache, t: Cache, order: seq<Hash>, j: nat)
    requires j <= |order|
  {
    && (forall h :: h in t.dirties <==> h in s.dirties && h !in order[..j])
    && (forall h :: h in t.dirties ==> t.dirties[h] == s.dirties[h])
  }

  lemma RemainingStep(s: Cache, t: Cache, order: seq<Hash>, j: nat)
    requires j < |order| && Remaining(s, t, order, j) && t.oldest == order[j] && t.oldest in t.dirties
    ensures Remaining(s, Popped(t), order, j + 1)
    ensures order[j] in s.dirties && t.dirties[order[j]].size == s.dirties[order[j]].size
  {
    assert order[..j + 1] == order[..j] + [order[j]];
  }

  /** `t` is reached from `s` by dropping the first `j` nodes of the flush-list. */
  ghost predicate Dropped(s: Cache, g: Index, t: Cache, g': Index, w: Disk, f: Past, j: nat) {
    && j <= |g.order| && (forall i :: 0 <= i < |g.order| ==> g.order[i] in s.dirties)
    && Good(t, g', w, f, {}, multiset{}) && g'.order == g.order[j..] && t.oldest == At(g.order, j)
    && TotalSize(t) == TotalSize(s) - Cost(s.dirties, g.order, j)
    && Remaining(s, t, g.order, j)
  }

  lemma DropStart(s: Cache, g: Index, w: Disk, f: Past)
    requires Good(s, g, w, f, {}, multiset{})
    ensures Dropped(s, g, s, g, w, f, 0)
  {
    OldestIsListed(s, g, w, f, 0);
    assert g.order[0..] == g.order && g.order[..0] == [];
  }

  lemma DropStep(s: Cache, g: Index, t: Cache, g': Index, w: Disk, f: Past, j: nat)
    requires Dropped(s, g, t, g', w, f, j) && j < |g.order| && g.order[j] in w.nodes
    ensures t.oldest in t.dirties && |g'.order| > 0
    ensures Dropped(s, g, Popped(t), Index(g'.order[1..], g'.refBy, g'.weights[t.oldest := 0]), w, f, j + 1)
  {
    hide Good;
    assert g'.order[0] == g.order[j] && g'.order[1..] == g.order[j + 1..];
    PopStep(t, g', w, f);
    RemainingStep(s, t, g.order, j);
    CostTail(s.dirties, g.order, j);
  }

  lemma DropStops(s: Cache, g: Index, t: Cache, g': Index, w: Disk, f: Past, j: nat, n: nat)
    requires Good(s, g, w, f, {}, multiset{}) && Dropped(s, g, t, g', w, f, j) && j <= n <= |g.order|
    ensures t.oldest == At(g.order, n) <==> j == n
  {
    OldestIsListed(s, g, w, f, 0);
  }

  /** Uncaches the flushed nodes at the front of the flush-list. */
  method DropFlushed(s: Cache, ghost g: Index, ghost w: Disk, ghost f: Past, stop: Hash, ghost n: nat)
    returns (t: Cache, ghost g': Index)
    requires Good(s, g, w, f, {}, multiset{}) && n <= |g.order| && stop == At(g.order, n)
    requires forall i :: 0 <= i < n ==> g.order[i] in w.nodes
    ensures Dropped(s, g, t, g', w, f, n)
  {
    hide Good, Dropped, Popped;
    t, g' := s, g;
    ghost var j: nat := 0;
    DropStart(s, g, w, f);
    DropStops(s, g, t, g', w, f, 0, n);
    while t.oldest != stop
      invariant j <= n && Dropped(s, g, t, g', w, f, j)
      invariant t.oldest == stop <==> j == n
      decreases n - j
    {
      DropStep(s, g, t, g', w, f, j);
      t, g', j := Popped(t), Index(g'.order[1..], g'.refBy, g'.weights[t.oldest := 0]), j + 1;
      DropStops(s, g, t, g', w, f, j, n);
    }
  }

  lemma HeadStep(s: Cache, g: Index, w: Disk, f: Past)
    requires Good(s, g, w, f, {}, multiset{}) && s.oldest != ZERO
    ensures s.oldest in s.dirties
    ensures Good(s.(dirties := s.dirties[s.oldest := s.dirties[s.oldest].(prev := ZERO)]), g, w, f, {}, multiset{})
  {
    hide Gather, View, Inv;
    OldestIsListed(s, g, w, f, 0);
    var d := s.dirties[s.oldest := s.dirties[s.oldest].(prev := ZERO)];
    SameViews(s.dirties, d);
    SameDataKeeps(s.dirties, d, w.nodes, f.origin, w.links, g.weights);
    assert d.Keys == s.dirties.Keys;
    forall i: nat {:trigger Threaded(d, g.order, i)} | i < |g.order|
      ensures Threaded(d, g.order, i)
    {
      assert Threaded(s.dirties, g.order, i);
    }
  }

  lemma DroppedMeans(s: Cache, g: Index, t: Cache, g': Index, o: Out, z: Trail, f: Past, n: nat)
    requires Ready(s, g, f, o, z) && o.batch == map[]
    requires Dropped(s, g, t, g', Disk(o.disk, z.links), f, n) && FlushedUpTo(o, g.order, n)
    ensures Ready(t, g', f, o, z) && OnlyStoredLeft(s.dirties, t.dirties, o.disk)
  {
    hide Good, Cost, TotalSize;
    assert Out(o.disk, map[]) == o;
    ReadyIsGood(s, g, f, o.disk, z);
    OldestIsListed(s, g, Disk(o.disk, z.links), f, 0);
    RemainingLeft(s, t, g.order, o, n);
    ReadyAfter(t, g', f, o, z);
  }

  lemma ReadyAfter(t: Cache, g: Index, f: Past, o: Out, z: Trail)
    requires Good(t, g, Disk(o.disk, z.links), f, {}, multiset{}) && o.batch == map[]
             && History(z.images, Disk(o.disk, z.links))
    ensures Ready(t, g, f, o, z)
  {
    hide Good, History;
    assert Out(o.disk, map[]) == o;
    GoodIsReady(t, g, f, o.disk, z);
  }

  lemma RemainingLeft(s: Cache, t: Cache, order: seq<Hash>, o: Out, n: nat)
    requires n <= |order| && Remaining(s, t, order, n) && FlushedUpTo(o, order, n) && o.batch == map[] && ZERO !in order
    ensures OnlyStoredLeft(s.dirties, t.dirties, o.disk)
  {
    forall h | h in s.dirties && h !in t.dirties ensures h in o.disk {
      assert h in order[..n];
    }
  }

  /** Flushes the oldest nodes and drops them from the cache once everything is written. */
  method CapCache(s: Cache, ghost g: Index, ghost f: Past, disk: map<Hash, RawNode>, ghost z: Trail, limit: int)
    returns (ok: bool, t: Cache, ghost g': Index, o: Out, ghost z': Trail)
    requires Ready(s, g, f, Out(disk, map[]), z)
    ensures Ready(s, g, f, o, z') && disk.Keys <= o.disk.Keys && Grows(Views(s.dirties), Out(disk, map[]), o)
    ensures Longer(z, z')
    ensures ok ==> Ready(t, g', f, o, z') && o.batch == map[]
    ensures ok ==> OnlyStoredLeft(s.dirties, t.dirties, o.disk)
    ensures ok ==> TotalSize(t) <= limit || |g'.order| == 0
    ensures !ok ==> t == s && g' == g
  {
    hide Ready, Good, Grows, Cost, TotalSize, OnlyStoredLeft, Dropped, FlushedUpTo;
    var stop;
    ghost var n;
    ok, o, z', stop, n := FlushOldest(s, g, f, Out(disk, map[]), z, limit);
    GrowsDisk(Views(s.dirties), Out(disk, map[]), o);
    t, g' := s, g;
    if ok {
      assert Out(o.disk, map[]) == o;
      ReadyIsGood(s, g, f, o.disk, z');
      AllFlushed(o, g.order, n);
      t, g' := DropFlushed(s, g, Disk(o.disk, z'.links), f, stop, n);
      DroppedMeans(s, g, t, g', o, z', f, n);
      DroppedSize(s, g, t, g', Disk(o.disk, z'.links), f, n);
      ghost var d := t.dirties;
      t := MendHead(t, g', f, o, z');
      LeftSame(d, t.dirties, o.disk);
      LeftMore(s.dirties, d, t.dirties, o.disk);
    }
  }

  lemma AllFlushed(o: Out, order: seq<Hash>, n: nat)
    requires n <= |order| && FlushedUpTo(o, order, n) && o.batch == map[]
    ensures forall i :: 0 <= i < n ==> order[i] in o.disk
  {
    forall i | 0 <= i < n ensures order[i] in o.disk { assert order[i] in Sent(o); }
  }

  lemma DroppedSize(s: Cache, g: Index, t: Cache, g': Index, w: Disk, f: Past, n: nat)
    requires Dropped(s, g, t, g', w, f, n)
    ensures n <= |g.order| && g'.order == g.order[n..] && (forall i :: 0 <= i < |g.order| ==> g.order[i] in s.dirties)
    ensures TotalSize(t) == TotalSize(s) - Cost(s.dirties, g.order, n)
  {
    hide Good;
  }

  lemma MendStep(s: Cache, g: Index, f: Past, o: Out, z: Trail)
    requires Ready(s, g, f, o, z) && o.batch == map[] && s.oldest != ZERO
    ensures s.oldest in s.dirties
    ensures Ready(s.(dirties := s.dirties[s.oldest := s.dirties[s.oldest].(prev := ZERO)]), g, f, o, z)
  {
    hide Good;
    HeadStep(s, g, Disk(o.disk, z.links), f);
  }

  /** Clears the back link of the new head. */
  method MendHead(s: Cache, ghost g: Index, ghost f: Past, o: Out, ghost z: Trail) returns (t: Cache)
    requires Ready(s, g, f, o, z) && o.batch == map[]
    ensures Ready(t, g, f, o, z)
    ensures SameData(s.dirties, t.dirties) && TotalSize(t) == TotalSize(s)
  {
    hide Ready;
    t := s;
    if s.oldest != ZERO {
      MendStep(s, g, f, o, z);
      t := s.(dirties := s.dirties[s.oldest := s.dirties[s.oldest].(prev := ZERO)]);
      assert t.dirties.Keys == s.dirties.Keys;
    }
  }

  // ---------------------------------------------------------------- the database

  /** Whatever a held root reaches can be read back, and reads back as it was first inserted. */
  lemma Retrievable(s: Cache, g: Index, w: Disk, f: Past, path: seq<Hash>, i: nat)
    requires Good(s, g, w, f, {}, multiset{}) && Chain(Abs(s, g, w, f), path) && i < |path|
    ensures path[i] in f.origin && path[i] != ZERO
    ensures if path[i] in s.dirties then s.dirties[path[i]].node == f.origin[path[i]]
            else path[i] in w.nodes && w.nodes[path[i]] == f.origin[path[i]]
  {
    var a := Abs(s, g, w, f);
    NothingLost(a, path);
    if i > 0 { assert Leads(a, path[i - 1], path[i]); }
  }

  lemma ReadyIsGood(s: Cache, g: Index, f: Past, disk: map<Hash, RawNode>, z: Trail)
    requires Ready(s, g, f, Out(disk, map[]), z)
    ensures Good(s, g, Disk(disk, z.links), f, {}, multiset{}) && History(z.images, Disk(disk, z.links))
            && ZERO in s.dirties
  {
    hide History;
  }

  lemma GoodIsReady(s: Cache, g: Index, f: Past, disk: map<Hash, RawNode>, z: Trail)
    requires Good(s, g, Disk(disk, z.links), f, {}, multiset{}) && History(z.images, Disk(disk, z.links))
    ensures Ready(s, g, f, Out(disk, map[]), z)
  {
    hide History;
  }

  // ---------------------------------------------------------------- what operations promise over runs

  /** Entries that stay keep their content and their explicit references, but for some; the
      meta-root stays. */
  ghost predicate SameLinks(d: map<Hash, Entry>, e: map<Hash, Entry>, but: set<Hash>) {
    && (ZERO in d ==> ZERO in e)
    && forall h :: h in d && h in e && h !in but ==> e[h].node == d[h].node && e[h].children == d[h].children
  }

  lemma KeepsLinks(d: map<Hash, Entry>, e: map<Hash, Entry>)
    requires Keeps(d, e)
    ensures SameLinks(d, e, {})
  {
    assert ZERO in d ==> SameEntry(d, e, ZERO);
    forall h | h in d ensures e[h].node == d[h].node && e[h].children == d[h].children { assert SameEntry(d, e, h); }
  }

  lemma LeftLinks(d: map<Hash, Entry>, e: map<Hash, Entry>, disk: map<Hash, RawNode>)
    requires OnlyStoredLeft(d, e, disk)
    ensures SameLinks(d, e, {})
  {
    forall h | h in e ensures e[h].node == d[h].node && e[h].children == d[h].children { assert SameEntry(d, e, h); }
  }

  lemma FewerLinks(s: Cache, e: map<Hash, Entry>, root: Hash)
    requires ZERO in s.dirties && Fewer(LetGo(s, root, ZERO).dirties, e, {})
    ensures SameLinks(s.dirties, e, {ZERO}) && ZERO in e
            && e[ZERO].children == Decremented(s.dirties[ZERO].children, root)
  {
    var m := LetGo(s, root, ZERO).dirties;
    assert SameEntry(m, e, ZERO);
    forall h | h in e && h != ZERO ensures e[h].node == s.dirties[h].node && e[h].children == s.dirties[h].children {
      assert SameEntry(m, e, h);
    }
  }

  lemma SameIsLinked(d: map<Hash, Entry>, but: set<Hash>)
    ensures SameLinks(d, d, but)
  {
  }

  lemma SameViewRefs(d: map<Hash, Entry>, e: map<Hash, Entry>, but: set<Hash>)
    requires SameLinks(d, e, but)
    ensures SameRefs(Views(d), Views(e), but) && Views(d).Keys == d.Keys && Views(e).Keys == e.Keys
  {
    hide Gather;
  }

  lemma InsertIsStep(s: Cache, g: Index, w: Disk, f: Past, t: Cache, g': Index, f': Past, hash: Hash)
    requires Good(s, g, w, f, {}, multiset{}) && Good(t, g', w, f', {}, multiset{})
    requires t.dirties.Keys == s.dirties.Keys + {hash} && Keeps(s.dirties, t.dirties)
    ensures Step(Abs(s, g, w, f), Inserts(hash), Abs(t, g', w, f'))
  {
    hide Inv, Tidy, Views, SameRefs, SameLinks;
    KeepsLinks(s.dirties, t.dirties);
    SameViewRefs(s.dirties, t.dirties, {});
  }

  lemma ReferenceIsStep(s: Cache, g: Index, w: Disk, f: Past, t: Cache, g': Index, child: Hash, parent: Hash)
    requires Good(s, g, w, f, {}, multiset{}) && Good(t, g', w, f, {}, multiset{})
             && CanReference(s, w, f, child, parent)
    requires t == if child in s.dirties && (parent == ZERO || child !in s.dirties[parent].children)
                  then Referenced(s, child, parent) else s
    ensures Step(Abs(s, g, w, f), Refers(child, parent), Abs(t, g', w, f))
  {
    hide Inv, Tidy, Gather, View, Step;
    var a, b := Abs(s, g, w, f), Abs(t, g', w, f);
    ViewOf(s.dirties, parent);
    if child in s.dirties && (parent == ZERO || child !in s.dirties[parent].children) {
      var count := t.dirties[parent].children[child];
      ReferencedTidy(s, g, w, f, child, parent);
      LinkingIsStep(a, b, child, parent, count);
    } else {
      SameIsReferred(a, b, child, parent);
    }
  }

  lemma ViewOf(d: map<Hash, Entry>, h: Hash)
    requires h in d
    ensures h in Views(d) && Views(d)[h].children == d[h].children
  {
  }

  lemma SameIsReferred(a: State, b: State, c: Hash, p: Hash)
    requires Inv(a, {}, multiset{}) && Inv(b, {}, multiset{}) && p in a.cache && b.cache == a.cache
             && b.stored == a.stored
    requires c !in a.cache || (p != ZERO && c in a.cache[p].children)
    ensures Step(a, Refers(c, p), b)
  {
    hide Inv;
  }

  lemma LinkingIsStep(a: State, b: State, c: Hash, p: Hash, count: nat)
    requires Inv(a, {}, multiset{}) && Inv(b, {}, multiset{}) && c in a.cache && p in a.cache && c != p
    requires b.cache == Linking(a, c, p, count).cache && b.stored == a.stored
             && (p == ZERO || c !in a.cache[p].children)
    requires count == (if c in a.cache[p].children then a.cache[p].children[c] else 0) + 1
    ensures Step(a, Refers(c, p), b)
  {
    hide Inv;
  }

  lemma DereferenceIsStep(s: Cache, g: Index, w: Disk, f: Past, t: Cache, g': Index, root: Hash)
    requires Good(s, g, w, f, {}, multiset{}) && Good(t, g', w, f, {}, multiset{})
    requires ZERO in s.dirties && Fewer(LetGo(s, root, ZERO).dirties, t.dirties, {})
    ensures Step(Abs(s, g, w, f), Releases(root), Abs(t, g', w, f))
  {
    hide Inv, Tidy, SameRefs, SameLinks, Gather;
    FewerLinks(s, t.dirties, root);
    SameViewRefs(s.dirties, t.dirties, {ZERO});
    assert SameEntry(LetGo(s, root, ZERO).dirties, t.dirties, ZERO);
  }

  lemma StoreIsStep(s: Cache, g: Index, w: Disk, f: Past, t: Cache, g': Index, w': Disk)
    requires Good(s, g, w, f, {}, multiset{}) && Good(t, g', w', f, {}, multiset{})
    requires OnlyStoredLeft(s.dirties, t.dirties, w'.nodes)
    requires Grows(Views(s.dirties), Out(w.nodes, map[]), Out(w'.nodes, map[]))
    ensures Step(Abs(s, g, w, f), Stores, Abs(t, g', w', f))
  {
    hide Inv, Tidy, Views, SameRefs, SameLinks;
    LeftLinks(s.dirties, t.dirties, w'.nodes);
    SameViewRefs(s.dirties, t.dirties, {});
  }

  /** A path through contents: each node is referred to in the content of the one before. */
  ghost predicate ContentPath(origin: map<Hash, RawNode>, path: seq<Hash>) {
    forall i {:trigger path[i]} :: 0 < i < |path| ==> path[i - 1] in origin && path[i] in Gather(origin[path[i - 1]])
  }

  /** A node is there, with the content that was inserted. */
  ghost predicate Found(s: Cache, w: Disk, f: Past, h: Hash) {
    && h in f.origin && h != ZERO
    && if h in s.dirties then s.dirties[h].node == f.origin[h] else h in w.nodes && w.nodes[h] == f.origin[h]
  }

  lemma FoundFirst(s: Cache, g: Index, w: Disk, f: Past, h: Hash)
    requires Good(s, g, w, f, {}, multiset{}) && (h in w.nodes || Holds(Abs(s, g, w, f), h) > 0)
    ensures Found(s, w, f, h)
  {
    hide Indexed, Counted, Gather, Linked, Listed, Sized;
    if h !in w.nodes { assert Edge(Abs(s, g, w, f).cache, ZERO, h); }
  }

  lemma FoundNext(s: Cache, g: Index, w: Disk, f: Past, p: Hash, c: Hash)
    requires Good(s, g, w, f, {}, multiset{}) && Found(s, w, f, p) && c in Gather(f.origin[p])
    ensures Found(s, w, f, c)
  {
    hide Indexed, Counted, Gather, Linked, Listed, Sized;
    if p in s.dirties { assert Edge(Abs(s, g, w, f).cache, p, c); } else { assert c in w.links[p]; }
  }

  /** What is below a root that is held or on disk, by content, is found with its content. */
  lemma {:induction false} StillFound(s: Cache, g: Index, w: Disk, f: Past, path: seq<Hash>, i: nat)
    requires Good(s, g, w, f, {}, multiset{}) && ContentPath(f.origin, path) && i < |path|
    requires path[0] in w.nodes || Holds(Abs(s, g, w, f), path[0]) > 0
    ensures Found(s, w, f, path[i])
  {
    hide Good, Found, Holds;
    if i == 0 {
      FoundFirst(s, g, w, f, path[0]);
    } else {
      StillFound(s, g, w, f, path, i - 1);
      FoundNext(s, g, w, f, path[i - 1], path[i]);
    }
  }

  /** The state of the store at some time. */
  datatype Moment = Moment(cache: Cache, index: Index, disk: Disk, past: Past)

  ghost function Seen(m: Moment): State {
    Abs(m.cache, m.index, m.disk, m.past)
  }

  /** Over any run of operations: whatever is below a root that has been referenced more often than
      dereferenced, while it was available, is found at the end, with the content that was inserted. */
  lemma RunKeeps(moments: seq<Moment>, ops: seq<Op>, path: seq<Hash>, i: nat)
    requires |moments| == |ops| + 1 && Run(seq(|moments|, k requires 0 <= k < |moments| => Seen(moments[k])), ops)
    requires i < |path| && Net(ops, path[0]) > 0
    requires forall k :: 0 <= k < |ops| && ops[k] == Refers(path[0], ZERO) ==>
               path[0] in moments[k].cache.dirties || path[0] in moments[k].disk.nodes
    requires var m := moments[|ops|];
             Good(m.cache, m.index, m.disk, m.past, {}, multiset{}) && ContentPath(m.past.origin, path)
    ensures Found(moments[|ops|].cache, moments[|ops|].disk, moments[|ops|].past, path[i])
  {
    hide Good, Run, Net, Holds, ContentPath;
    var states := seq(|moments|, k requires 0 <= k < |moments| => Seen(moments[k]));
    RunHolds(states, ops, path[0]);
    var m := moments[|ops|];
    StillFound(m.cache, m.index, m.disk, m.past, path, i);
  }

  /** The children that are embedded in the nodes on disk. */
  ghost function Embedded(disk: map<Hash, RawNode>): map<Hash, set<Hash>> {
    map h | h in disk :: set c | c in Gather(disk[h])
  }

  /** A cache with nothing but the meta-root, in front of a closed disk. */
  lemma StartsGood(disk: map<Hash, RawNode>, rank: Hash -> nat)
    requires ZERO !in disk && forall h, c :: h in disk && c in Gather(disk[h]) ==> c in disk
    ensures var s := Cache(map[ZERO := Entry(Empty, 0, 0, map[], ZERO, ZERO)], ZERO, ZERO, 0);
            Good(s, Index([], map[], multiset{}), Disk(disk, Embedded(disk)), Past(disk, map[], 0, 0, rank), {},
                 multiset{})
    ensures History([Disk(disk, Embedded(disk))], Disk(disk, Embedded(disk)))
  {
    hide Inv, Tidy, Gather;
    StartsInv(disk, rank);
    StartsTidy(disk, rank);
  }

  lemma StartsInv(disk: map<Hash, RawNode>, rank: Hash -> nat)
    requires ZERO !in disk && forall h, c :: h in disk && c in Gather(disk[h]) ==> c in disk
    ensures var s := Cache(map[ZERO := Entry(Empty, 0, 0, map[], ZERO, ZERO)], ZERO, ZERO, 0);
            Inv(Abs(s, Index([], map[], multiset{}), Disk(disk, Embedded(disk)), Past(disk, map[], 0, 0, rank)), {},
                multiset{})
  {
    hide Gather;
    assert Gather(Empty) == [] by { NoneGathered(); }
  }

  lemma NoneGathered()
    ensures Gather(Empty) == []
  {
  }

  lemma StartsTidy(disk: map<Hash, RawNode>, rank: Hash -> nat)
    ensures var s := Cache(map[ZERO := Entry(Empty, 0, 0, map[], ZERO, ZERO)], ZERO, ZERO, 0);
            Tidy(s, Index([], map[], multiset{}), Disk(disk, Embedded(disk)), Past(disk, map[], 0, 0, rank), {})
  {
    hide Gather;
  }

  /** What is below a node of a closed image, by content, is in it, with its content. */
  lemma {:induction false} ImageHolds(w: Disk, origin: map<Hash, RawNode>, path: seq<Hash>, k: nat)
    requires ClosedDisk(w) && Within(w.nodes, origin) && ContentPath(origin, path) && k < |path| && path[0] in w.nodes
    ensures path[k] in w.nodes && path[k] in origin && w.nodes[path[k]] == origin[path[k]]
  {
    if k > 0 { ImageHolds(w, origin, path, k - 1); }
  }

  /** The disk after a crash in the past `j` has what it had at an earlier time `i`. */
  lemma ImageKeeps(s: Cache, g: Index, f: Past, disk: map<Hash, RawNode>, z: Trail, i: nat, j: nat)
    requires Ready(s, g, f, Out(disk, map[]), z) && i <= j < |z.images|
    ensures z.images[i].nodes.Keys <= z.images[j].nodes.Keys && Within(z.images[j].nodes, f.origin)
    ensures ZERO !in z.images[j].nodes && ClosedDisk(z.images[j]) && z.images[|z.images| - 1].nodes == disk
  {
    hide Gather, Linked, Listed, Sized, Indexed, Counted, Ordered, Acyclic, Closed, ClosedDisk;
    assert Within(z.images[i].nodes, z.images[j].nodes) && Within(z.images[j].nodes, z.images[|z.images| - 1].nodes);
  }

  class Database {
    var dirties: map<Hash, Entry>
    var oldest: Hash
    var newest: Hash
    var dirtiesSize: int
    var disk: map<Hash, RawNode>

    ghost var index: Index
    ghost var past: Past
    ghost var trail: Trail

    /** The cache and the disk satisfy every invariant, and so did the disk after every single
        batch write so far. */
    ghost predicate Valid()
      reads this
    {
      Ready(Contents(), index, past, Out(disk, map[]), trail)
    }

    function Contents(): Cache
      reads this
    {
      Cache(dirties, oldest, newest, dirtiesSize)
    }

    ghost function Stored(): Disk
      reads this
    {
      Disk(disk, trail.links)
    }

    /** What the invariants and the promises speak about. */
    ghost function Now(): State
      reads this
    {
      Abs(Contents(), index, Stored(), past)
    }

    /** An empty cache in front of a disk without dangling children. */
    constructor (disk: map<Hash, RawNode>, ghost rank: Hash -> nat)
      requires ZERO !in disk && forall h, c :: h in disk && c in Gather(disk[h]) ==> c in disk
      ensures Valid() && this.disk == disk && dirties.Keys == {ZERO} && past.rank == rank && past.origin == disk
    {
      dirties := map[ZERO := Entry(Empty, 0, 0, map[], ZERO, ZERO)];
      oldest, newest, dirtiesSize, this.disk := ZERO, ZERO, 0, disk;
      index := Index([], map[], multiset{});
      past := Past(disk, map[], 0, 0, rank);
      trail := Trail(Embedded(disk), [Disk(disk, Embedded(disk))]);
      new;
      hide Good, History, Gather;
      StartsGood(disk, rank);
      GoodIsReady(Contents(), index, past, disk, trail);
    }

    /** Reads a node, from the cache or else from disk.  Whatever a held root reaches is found,
        and is what was first inserted under that hash. */
    method Node(hash: Hash) returns (r: Option<RawNode>)
      requires Valid() && hash != ZERO
      ensures forall path :: Chain(Abs(Contents(), index, Stored(), past), path) && hash in path ==>
                hash in past.origin && r == Some(past.origin[hash])
    {
      if hash in dirties {
        r := Some(dirties[hash].node);
      } else if hash in disk {
        r := Some(disk[hash]);
      } else {
        r := None;
      }
      ReadyIsGood(Contents(), index, past, disk, trail);
      forall path | Chain(Abs(Contents(), index, Stored(), past), path) && hash in path
        ensures hash in past.origin && r == Some(past.origin[hash])
      {
        var i :| 0 <= i < |path| && path[i] == hash;
        Retrievable(Contents(), index, Stored(), past, path, i);
      }
    }

    method Insert(hash: Hash, length: nat, node: RawNode)
      requires Valid() && CanInsert(Contents(), Stored(), past, hash, node)
      modifies this`dirties, this`oldest, this`newest, this`dirtiesSize, this`index, this`past
      ensures Valid() && dirties.Keys == old(dirties.Keys) + {hash} && dirties[hash].node == node
      ensures if hash in old(dirties) then past == old(past) && Contents() == old(Contents())
              else past == Remembered(old(past), hash, node, length % 0x1_0000)
      ensures SameLinks(old(dirties), dirties, {}) && Step(old(Now()), Inserts(hash), Now())
    {
      hide Ready, Good, CanInsert, Step, Keeps, Remembered, SameLinks, Gather;
      ReadyIsGood(Contents(), index, past, disk, trail);
      ghost var g, f;
      var t;
      t, g, f := InsertNode(Contents(), index, Stored(), past, hash, length, node);
      InsertIsStep(Contents(), index, Stored(), past, t, g, f, hash);
      KeepsLinks(dirties, t.dirties);
      GoodIsReady(t, g, f, disk, trail);
      dirties, oldest, newest, dirtiesSize, index, past := t.dirties, t.oldest, t.newest, t.dirtiesSize, g, f;
    }

    method Reference(child: Hash, parent: Hash)
      requires Valid() && CanReference(Contents(), Stored(), past, child, parent)
      modifies this`dirties, this`oldest, this`newest, this`dirtiesSize, this`index
      ensures Valid()
      ensures Contents() == if child in old(dirties) && (parent == ZERO || child !in old(dirties[parent].children))
                            then Referenced(old(Contents()), child, parent) else old(Contents())
      ensures Step(old(Now()), Refers(child, parent), Now())
    {
      hide Ready, Good, CanReference, Step, Referenced;
      ReadyIsGood(Contents(), index, past, disk, trail);
      ghost var g;
      var t;
      t, g := ReferenceNode(Contents(), index, Stored(), past, child, parent);
      ReferenceIsStep(Contents(), index, Stored(), past, t, g, child, parent);
      GoodIsReady(t, g, past, disk, trail);
      dirties, oldest, newest, dirtiesSize, index := t.dirties, t.oldest, t.newest, t.dirtiesSize, g;
    }

    /** Releases one reference of the meta-root to `root`; nodes left without references are
        removed, and no others. */
    method Dereference(root: Hash)
      requires Valid() && MayDereference(Contents(), disk, root)
      modifies this`dirties, this`oldest, this`newest, this`dirtiesSize, this`index
      ensures Valid() && (root == ZERO ==> Contents() == old(Contents()))
      ensures root != ZERO ==> ZERO in old(dirties) && Fewer(LetGo(old(Contents()), root, ZERO).dirties, dirties, {})
      ensures SameLinks(old(dirties), dirties, {ZERO})
      ensures root != ZERO ==> dirties[ZERO].children == Decremented(old(dirties)[ZERO].children, root)
      ensures root != ZERO ==> Step(old(Now()), Releases(root), Now())
    {
      hide Ready, Good, MayDereference, Step, Fewer, LetGo, SameLinks, Decremented, Abs, Views;
      SameIsLinked(dirties, {ZERO});
      if root != ZERO {
        ReadyIsGood(Contents(), index, past, disk, trail);
        ghost var g;
        var t;
        t, g := DereferenceRoot(Contents(), index, Stored(), past, root);
        DereferenceIsStep(Contents(), index, Stored(), past, t, g, root);
        FewerLinks(Contents(), t.dirties, root);
        GoodIsReady(t, g, past, disk, trail);
        dirties, oldest, newest, dirtiesSize, index := t.dirties, t.oldest, t.newest, t.dirtiesSize, g;
      }
    }

    /** Flushes the oldest nodes until the cache fits the limit or is empty.  A failed write
        leaves the cache alone; what it already put on disk stays there. */
    method Cap(limit: int) returns (ok: bool)
      requires Valid()
      modifies this
      ensures Valid() && past == old(past) && old(disk.Keys) <= disk.Keys && Longer(old(trail), trail)
      ensures ok ==> TotalSize(Contents()) <= limit || dirties.Keys == {ZERO}
      ensures ok ==> OnlyStoredLeft(old(dirties), dirties, disk)
      ensures !ok ==> Contents() == old(Contents())
      ensures SameLinks(old(dirties), dirties, {}) && Step(old(Now()), Stores, Now())
    {
      hide Ready, Good, Step, Grows, TotalSize, OnlyStoredLeft, Longer, SameLinks, Gather;
      ghost var g, z;
      var t, o;
      ok, t, g, o, z := CapCache(Contents(), index, past, disk, trail, limit);
      if ok {
        EmptyListMeans(t, g, past, o, z);
      } else {
        LeftSame(dirties, dirties, o.disk);
        DropBatch(t, g, past, o, z);
      }
      Stepped(Contents(), index, past, disk, trail, t, g, o, z);
      LeftLinks(dirties, t.dirties, o.disk);
      dirties, oldest, newest, dirtiesSize, disk := t.dirties, t.oldest, t.newest, t.dirtiesSize, o.disk;
      index, trail := g, z;
    }

    /** Writes a node and everything below it to disk, then removes all of it from the cache. */
    method Commit(node: Hash) returns (ok: bool)
      requires Valid() && node != ZERO
      modifies this
      ensures Valid() && past == old(past) && old(disk.Keys) <= disk.Keys && Longer(old(trail), trail)
      ensures ok && node in old(dirties) ==> node in disk && node in trail.images[|trail.images| - 1].nodes
      ensures ok ==> node !in dirties && OnlyStoredLeft(old(dirties), dirties, disk)
      ensures !ok ==> Contents() == old(Contents())
      ensures SameLinks(old(dirties), dirties, {}) && Step(old(Now()), Stores, Now())
    {
      hide Ready, Good, Step, Grows, OnlyStoredLeft, Longer, SameLinks, Gather;
      ghost var g, z;
      var t, o;
      ok, t, g, o, z := CommitCache(Contents(), index, past, disk, trail, node);
      DropBatch(t, g, past, o, z);
      LastImage(t, g, past, o, z);
      if !ok { LeftSame(dirties, dirties, o.disk); }
      Stepped(Contents(), index, past, disk, trail, t, g, o, z);
      LeftLinks(dirties, t.dirties, o.disk);
      dirties, oldest, newest, dirtiesSize, disk := t.dirties, t.oldest, t.newest, t.dirtiesSize, o.disk;
      index, trail := g, z;
    }
  }

  /** A new database over the disk as it was left by a crash, which is one of the images that it has
      had: it is in order, and reads back with its content whatever is below a node that was in this
      image or an earlier one. */
  method Restart(db: Database, disk: map<Hash, RawNode>, ghost j: nat) returns (again: Database)
    requires db.Valid() && j < |db.trail.images| && disk == db.trail.images[j].nodes
    ensures fresh(again) && again.Valid() && again.disk == disk && again.past.rank == db.past.rank
    ensures forall i: nat, path: seq<Hash>, k: nat ::
              i <= j && k < |path| && path[0] in db.trail.images[i].nodes && ContentPath(db.past.origin, path) ==>
                && Found(again.Contents(), again.Stored(), again.past, path[k])
                && path[k] in db.past.origin && again.past.origin[path[k]] == db.past.origin[path[k]]
  {
    hide Ready, Gather, ContentPath;
    ghost var z, f := db.trail, db.past;
    ImageKeeps(db.Contents(), db.index, f, db.disk, z, j, j);
    again := new Database(disk, f.rank);
    forall i: nat, path: seq<Hash>, k: nat |
      i <= j && k < |path| && path[0] in z.images[i].nodes && ContentPath(f.origin, path)
      ensures Found(again.Contents(), again.Stored(), again.past, path[k])
      ensures path[k] in f.origin && again.past.origin[path[k]] == f.origin[path[k]]
    {
      ImageKeeps(db.Contents(), db.index, f, db.disk, z, i, j);
      ImageHolds(z.images[j], f.origin, path, k);
    }
  }

  lemma Stepped(s: Cache, g: Index, f: Past, disk: map<Hash, RawNode>, z: Trail, t: Cache, g': Index, o: Out, z': Trail)
    requires Ready(s, g, f, Out(disk, map[]), z) && Ready(t, g', f, Out(o.disk, map[]), z')
    requires OnlyStoredLeft(s.dirties, t.dirties, o.disk) && Grows(Views(s.dirties), Out(disk, map[]), o)
    ensures Step(Abs(s, g, Disk(disk, z.links), f), Stores, Abs(t, g', Disk(o.disk, z'.links), f))
  {
    hide Good, Ready, Step;
    ReadyIsGood(s, g, f, disk, z);
    ReadyIsGood(t, g', f, o.disk, z');
    StoreIsStep(s, g, Disk(disk, z.links), f, t, g', Disk(o.disk, z'.links));
  }

  lemma EmptyListMeans(s: Cache, g: Index, f: Past, o: Out, z: Trail)
    requires Ready(s, g, f, o, z) && o.batch == map[]
    ensures Ready(s, g, f, Out(o.disk, map[]), z)
    ensures |g.order| == 0 ==> s.dirties.Keys == {ZERO}
  {
    hide Acyclic, Ordered, Indexed, Counted, Closed, Linked, Content, Sized, History, Writable;
    assert Out(o.disk, map[]) == o;
    if |g.order| == 0 {
      forall h | h in s.dirties ensures h == ZERO {
        assert h == ZERO || h in g.order;
      }
    }
  }

  lemma LastImage(s: Cache, g: Index, f: Past, o: Out, z: Trail)
    requires Ready(s, g, f, o, z)
    ensures |z.images| > 0 && z.images[|z.images| - 1].nodes == o.disk
  {
    hide Good, AllClosed;
  }

  lemma DropBatch(s: Cache, g: Index, f: Past, o: Out, z: Trail)
    requires Ready(s, g, f, o, z)
    ensures Ready(s, g, f, Out(o.disk, map[]), z)
  {
    ReadyOutIsGood(s, g, f, o, z);
    GoodIsReady(s, g, f, o.disk, z);
  }

  lemma ReadyOutIsGood(s: Cache, g: Index, f: Past, o: Out, z: Trail)
    requires Ready(s, g, f, o, z)
    ensures Good(s, g, Disk(o.disk, z.links), f, {}, multiset{}) && History(z.images, Disk(o.disk, z.links))
  {
  }

  /** The two phases of a commit: write everything, then uncache it. */
  method CommitCache(s: Cache, ghost g: Index, ghost f: Past, disk: map<Hash, RawNode>, ghost z: Trail, node: Hash)
    returns (ok: bool, t: Cache, ghost g': Index, o: Out, ghost z': Trail)
    requires Ready(s, g, f, Out(disk, map[]), z) && node != ZERO
    ensures Ready(t, g', f, o, z') && disk.Keys <= o.disk.Keys && Grows(Views(s.dirties), Out(disk, map[]), o)
    ensures Longer(z, z')
    ensures ok && node in s.dirties ==> node in o.disk
    ensures ok ==> node !in t.dirties && OnlyStoredLeft(s.dirties, t.dirties, o.disk)
    ensures !ok ==> t == s
  {
    hide Ready, Good, Grows;
    t, g' := s, g;
    ok, o, z' := CommitNode(s, g, f, Out(disk, map[]), z, node);
    if ok {
      ghost var o1 := o;
      ok, o, z' := WriteBatch(s, g, f, o, z');
      GrowsMore(Views(s.dirties), Out(disk, map[]), o1, o);
      if ok && node in s.dirties {
        ReadyIsGood(s, g, f, o.disk, z');
        t, g' := Uncache(s, g, Disk(o.disk, z'.links), f, node, {});
        GoodIsReady(t, g', f, o.disk, z');
      }
    }
    GrowsDisk(Views(s.dirties), Out(disk, map[]), o);
  }
}
