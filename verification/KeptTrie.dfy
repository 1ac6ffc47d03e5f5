/**
 From the cache to the trie: a trie that has been committed, and whose root is held by references
 or on disk, can be opened by its root hash, whatever has been inserted, released, flushed or
 collected meanwhile.
 */
module KeptTrie {
  import opened Common
  import opened Rlp
  import opened MerkleTrie
  import opened HexPrefix
  import opened TrieNode
  import opened LazyTrie
  import opened TrieHasher
  import opened StoredForm
  import opened TrieHandle
  import Synced = SyncedTrie
  import N = NodeStore
  import D = TrieDatabase

  /** A hash as a number, which is how the cache knows it. */
  function Number(h: Bytes): nat {
    if h == [] then 0 else Number(h[..|h| - 1]) * 256 + h[|h| - 1]
  }

  lemma {:induction false} NumberIsName(a: Bytes, b: Bytes)
    requires |a| == |b| && Number(a) == Number(b)
    ensures a == b
  {
    if a != [] {
      NumberIsName(a[..|a| - 1], b[..|b| - 1]);
      assert a == a[..|a| - 1] + [a[|a| - 1]] && b == b[..|b| - 1] + [b[|b| - 1]];
    }
  }

  /** A collapsed node as the cache has it. */
  function Cached(r: Raw): D.RawNode {
    match r
    case RawNil => D.Empty
    case RawValue(v) => D.Value(v)
    case RawHash(h) => D.HashRef(Number(h))
    case RawShort(key, val) => D.RawShort(key, Cached(val))
    case RawFull(ch) => D.RawFull(seq(|ch|, i requires 0 <= i < |ch| => Cached(ch[i])))
  }

  lemma {:induction false} UpToHas(n: D.RawNode, k: nat, i: nat, h: N.Hash)
    requires n.RawFull? && i < k <= |n.nodes| && h in D.Gather(n.nodes[i])
    ensures h in D.GatherUpTo(n, k)
  {
    if i < k - 1 { UpToHas(n, k - 1, i, h); }
  }

  /** A large child of a node is among the references of what is cached for it. */
  lemma ChildIsGathered(H: Hasher, c: Node, t: Trie, u: Trie)
    requires Wf(t) && Inner(t) && NodeForm(H, c, t) && Wf(u) && Inner(u) && |Enc(H, u)| >= HASH_LEN
    requires if t.Short? then u == t.val else u in t.children
    ensures Number(H(Enc(H, u))) in D.Gather(Cached(Simplify(c)))
  {
    hide Number, Encode, NodeItem, D.Gather, Cached, Simplify;
    var h := H(Enc(H, u));
    if t.Full? {
      var i :| 0 <= i < 17 && t.children[i] == u;
      assert RefForm(H, c.children[i], u);
      CachedFullHas(c, i, h);
    } else {
      assert RefForm(H, c.val, u);
      CachedShortHas(c, h);
    }
  }

  lemma CachedShortHas(c: Node, h: Bytes)
    requires c.ShortNode? && c.val == HashNode(h)
    ensures Number(h) in D.Gather(Cached(Simplify(c)))
  {
    hide Number;
    assert Cached(Simplify(c)) == D.RawShort(c.key, D.HashRef(Number(h)));
  }

  lemma CachedFullHas(c: Node, i: nat, h: Bytes)
    requires c.FullNode? && |c.children| == 17 && i < 16 && c.children[i] == HashNode(h)
    ensures Number(h) in D.Gather(Cached(Simplify(c)))
  {
    hide Number;
    var r := Simplify(c);
    var n := Cached(r);
    assert r.children[i] == Simplify(c.children[i]);
    assert n.nodes[i] == Cached(r.children[i]);
    UpToHas(n, 16, i, Number(h));
  }

  /** A node has been inserted under its hash, collapsed. */
  ghost predicate HeldAs(H: Hasher, origin: map<N.Hash, D.RawNode>, t: Trie)
    requires Wf(t) && Inner(t)
  {
    var h := Number(H(Enc(H, t)));
    h in origin && exists c :: NodeForm(H, c, t) && origin[h] == Cached(Simplify(c))
  }

  /** All nodes below this one that are referred to by hash have been inserted. */
  ghost predicate Committed(H: Hasher, origin: map<N.Hash, D.RawNode>, t: Trie)
    requires Wf(t)
  {
    match t
    case Short(_, val) => (Inner(val) && |Enc(H, val)| >= HASH_LEN ==> HeldAs(H, origin, val))
    && Committed(H, origin, val)
    case Full(ch) =>
      forall i :: 0 <= i < |ch| ==> (Inner(ch[i]) && |Enc(H, ch[i])| >= HASH_LEN ==> HeldAs(H, origin, ch[i]))
                                    && Committed(H, origin, ch[i])
    case _ => true
  }

  /** All references of a node are hashes of full length. */
  ghost predicate FullHashes(r: Raw) {
    match r
    case RawHash(h) => |h| == HASH_LEN
    case RawShort(_, val) => FullHashes(val)
    case RawFull(ch) => forall i :: 0 <= i < |ch| ==> FullHashes(ch[i])
    case _ => true
  }

  /** The cache tells such nodes apart. */
  lemma {:induction false} CachedOnce(r: Raw, r': Raw)
    requires FullHashes(r) && FullHashes(r') && Cached(r) == Cached(r')
    ensures r == r'
  {
    match r
    case RawHash(h) => NumberIsName(h, r'.hash);
    case RawShort(_, val) => CachedOnce(val, r'.val);
    case RawFull(ch) =>
      forall i | 0 <= i < |ch| ensures ch[i] == r'.children[i] {
        assert Cached(r).nodes[i] == Cached(ch[i]) && Cached(r').nodes[i] == Cached(r'.children[i]);
        CachedOnce(ch[i], r'.children[i]);
      }
    case _ =>
  }

  lemma {:induction false} RefIsHashed(H: Hasher, c: Node, t: Trie)
    requires Digest(H) && Wf(t) && RefForm(H, c, t)
    ensures FullHashes(Simplify(c))
    decreases t, 1
  {
    if Inner(t) && |Enc(H, t)| < HASH_LEN { NodeIsHashed(H, c, t); }
  }

  /** Collapsed nodes are such nodes. */
  lemma {:induction false} NodeIsHashed(H: Hasher, c: Node, t: Trie)
    requires Digest(H) && Wf(t) && Inner(t) && NodeForm(H, c, t)
    ensures FullHashes(Simplify(c))
    decreases t, 0
  {
    match t
    case Short(_, val) => RefIsHashed(H, c.val, val);
    case Full(ch) =>
      var r := Simplify(c);
      forall i | 0 <= i < 17 ensures FullHashes(r.children[i]) {
        RefIsHashed(H, c.children[i], ch[i]);
      }
  }

  /** What is cached or on disk can be read, encoded, under its hash. */
  ghost predicate Shows(s: D.Cache, w: D.Disk, store: Store) {
    forall h, r :: Holds(s, w, h, r) ==> h in store && store[h] == Encode(RawItem(r))
  }

  /** A node is cached or on disk under a hash. */
  ghost predicate Holds(s: D.Cache, w: D.Disk, h: Bytes, r: Raw) {
    |h| == HASH_LEN && Number(h) != N.ZERO && FullHashes(r) && Has(s, w, Number(h), Cached(r))
  }

  lemma HeldOnce(s: D.Cache, w: D.Disk, h: Bytes, r: Raw, h': Bytes, r': Raw)
    requires Holds(s, w, h, r) && Holds(s, w, h', r') && Number(h) == Number(h')
    ensures h == h' && r == r'
  {
    hide Number, Cached, FullHashes;
    NumberIsName(h, h');
    CachedOnce(r, r');
  }

  /** There always is a store that shows a database; and it is addressed by content if the database is. */
  lemma {:induction false} ShownStore(s: D.Cache, w: D.Disk, keys: set<N.Hash>) returns (store: Store)
    ensures forall h, r :: Holds(s, w, h, r) && Number(h) in keys ==> h in store && store[h] == Encode(RawItem(r))
    ensures forall h :: h in store ==>
              Number(h) in keys && exists r :: Holds(s, w, h, r) && store[h] == Encode(RawItem(r))
    decreases |keys|
  {
    hide Holds, Number, Encode, RawItem;
    if keys == {} {
      return map[];
    }
    var n :| n in keys;
    var rest := ShownStore(s, w, keys - {n});
    if h, r :| Holds(s, w, h, r) && Number(h) == n {
      store := rest[h := Encode(RawItem(r))];
      forall h', r' | Holds(s, w, h', r') && Number(h') in keys
        ensures h' in store && store[h'] == Encode(RawItem(r'))
      {
        if Number(h') == n { HeldOnce(s, w, h, r, h', r'); }
      }
    } else {
      store := rest;
    }
  }

  lemma ShowsSome(H: Hasher, known: set<Bytes>, s: D.Cache, w: D.Disk) returns (store: Store)
    ensures Shows(s, w, store)
    ensures (forall h, r :: Holds(s, w, h, r) ==> Encode(RawItem(r)) in known && H(Encode(RawItem(r))) == h) ==>
              Addressed(H, known, store)
  {
    hide Number, Encode, RawItem, Cached, FullHashes;
    store := ShownStore(s, w, s.dirties.Keys + w.nodes.Keys);
  }

  ghost predicate Has(s: D.Cache, w: D.Disk, h: N.Hash, n: D.RawNode) {
    if h in s.dirties then s.dirties[h].node == n else h in w.nodes && w.nodes[h] == n
  }

  /** A node that is found can be read. */
  lemma FoundIsShown(H: Hasher, s: D.Cache, w: D.Disk, f: D.Past, store: Store, t: Trie) returns (c: Node)
    requires Digest(H) && Wf(t) && Inner(t) && |Enc(H, t)| <= MAX_UINT64 && Shows(s, w, store)
    requires HeldAs(H, f.origin, t) && D.Found(s, w, f, Number(H(Enc(H, t))))
    ensures InStore(H, store, t) && NodeForm(H, c, t) && Number(H(Enc(H, t))) in f.origin
            && f.origin[Number(H(Enc(H, t)))] == Cached(Simplify(c))
  {
    hide Number, Cached, NodeForm, Encode, NodeItem, RawItem, Simplify, Revive, DecodeNode, Enc, FullHashes;
    var h := H(Enc(H, t));
    c :| NodeForm(H, c, t) && f.origin[Number(h)] == Cached(Simplify(c));
    CacheAgreesWithDisk(H, None, c, t, 0);
    NodeIsHashed(H, c, t);
    assert Holds(s, w, h, Simplify(c));
  }

  /** A committed trie whose root is found is found as a whole. */
  lemma {:induction false} WholeIsFound(H: Hasher, known: set<Bytes>, m: D.Moment, store: Store, t: Trie)
    requires Digest(H) && Wf(t) && Inner(t) && Known(H, known, t) && (forall b :: b in known ==> |b| <= MAX_UINT64)
    requires D.Good(m.cache, m.index, m.disk, m.past, {}, multiset{}) && Shows(m.cache, m.disk, store)
    requires HeldAs(H, m.past.origin, t) && Committed(H, m.past.origin, t)
    requires D.Found(m.cache, m.disk, m.past, Number(H(Enc(H, t))))
    ensures AllStored(H, store, t)
    decreases t, 1
  {
    hide D.Good, D.Found, HeldAs, Shows, NodeForm, Encode, NodeItem, Number, D.Gather;
    var c := FoundIsShown(H, m.cache, m.disk, m.past, store, t);
    match t
    case Short(_, val) => BelowIsFound(H, known, m, store, t, c, val);
    case Full(ch) =>
      forall i | 0 <= i < |ch| ensures RefStored(H, store, ch[i]) {
        BelowIsFound(H, known, m, store, t, c, ch[i]);
      }
  }

  lemma {:induction false} BelowIsFound(H: Hasher, known: set<Bytes>, m: D.Moment, store: Store, t: Trie, c: Node,
                                        u: Trie)
    requires Digest(H) && Wf(t) && Inner(t) && Known(H, known, t) && (forall b :: b in known ==> |b| <= MAX_UINT64)
    requires D.Good(m.cache, m.index, m.disk, m.past, {}, multiset{}) && Shows(m.cache, m.disk, store)
    requires Committed(H, m.past.origin, t) && NodeForm(H, c, t) && Number(H(Enc(H, t))) in m.past.origin
    requires m.past.origin[Number(H(Enc(H, t)))] == Cached(Simplify(c))
    requires D.Found(m.cache, m.disk, m.past, Number(H(Enc(H, t))))
    requires Wf(u) && u < t && Known(H, known, u) && if t.Short? then u == t.val else u in t.children
    ensures RefStored(H, store, u)
    decreases t, 0
  {
    hide D.Good, D.Found, HeldAs, Shows, NodeForm, Encode, NodeItem, Number, D.Gather;
    if Inner(u) && |Enc(H, u)| >= HASH_LEN {
      ChildIsGathered(H, c, t, u);
      D.FoundNext(m.cache, m.index, m.disk, m.past, Number(H(Enc(H, t))), Number(H(Enc(H, u))));
      WholeIsFound(H, known, m, store, u);
    } else {
      Synced.SmallIsWhole(H, store, u);
    }
  }

  /** Over any run of the database: a trie whose nodes have been inserted, and whose root has been
      referenced more often than dereferenced, is there as a whole in the end. */
  lemma KeptThrough(H: Hasher, known: set<Bytes>, moments: seq<D.Moment>, ops: seq<N.Op>, store: Store, t: Trie)
    requires Digest(H) && IsTrie(t) && t != Nil && Known(H, known, t) && (forall b :: b in known ==> |b| <= MAX_UINT64)
    requires |moments| == |ops| + 1 && N.Run(seq(|moments|, k requires 0 <= k < |moments| => D.Seen(moments[k])), ops)
    requires var m, root := moments[|ops|], Number(Root(H, t));
             && D.Good(m.cache, m.index, m.disk, m.past, {}, multiset{}) && Shows(m.cache, m.disk, store)
             && HeldAs(H, m.past.origin, t) && Committed(H, m.past.origin, t) && N.Net(ops, root) > 0
             && forall k :: 0 <= k < |ops| && ops[k] == N.Refers(root, N.ZERO) ==>
                  root in moments[k].cache.dirties || root in moments[k].disk.nodes
    ensures AllStored(H, store, t)
  {
    hide D.Good, D.Found, HeldAs, Shows, Committed, Encode, NodeItem, Number, N.Run, N.Net, D.Seen, Known;
    var root, m := Number(Root(H, t)), moments[|ops|];
    D.RunKeeps(moments, ops, [root], 0);
    WholeIsFound(H, known, m, store, t);
  }

  /** Such a trie is opened by its root hash, and is the trie that was committed. */
  method Reopen(H: Hasher, root: Bytes, store: Store, ghost w: World, ghost t: Trie, ghost moments: seq<D.Moment>,
                ghost ops: seq<N.Op>)
    returns (r: TrieObject?)
    requires IsTrie(t) && t != Nil && Sound(Env(H, 0, 0), w, store) && Trusted(H, w, t) && w.full && Root(H, t) == root
    requires |moments| == |ops| + 1 && N.Run(seq(|moments|, k requires 0 <= k < |moments| => D.Seen(moments[k])), ops)
    requires var m := moments[|ops|];
             && D.Good(m.cache, m.index, m.disk, m.past, {}, multiset{}) && Shows(m.cache, m.disk, store)
             && HeldAs(H, m.past.origin, t) && Committed(H, m.past.origin, t) && N.Net(ops, Number(root)) > 0
             && forall k :: 0 <= k < |ops| && ops[k] == N.Refers(Number(root), N.ZERO) ==>
                  Number(root) in moments[k].cache.dirties || Number(root) in moments[k].disk.nodes
    ensures r != null && fresh(r) && r.Valid(w) && r.trie == t
  {
    hide D.Good, HeldAs, Shows, Committed, Encode, NodeItem, Number, N.Run, N.Net, D.Seen, Known, AllStored;
    KeptThrough(H, w.known, moments, ops, store, t);
    r := TrieObject.Open(H, root, store, w, t);
  }
}
