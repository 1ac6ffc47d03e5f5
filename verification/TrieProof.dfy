/**
 Merkle proofs: the encodings of the nodes on the path of a key, from which the value, or its
 absence, can be checked against a root hash alone.
 */
module TrieProof {
  import opened Common
  import opened Rlp
  import opened MerkleTrie
  import opened HexPrefix
  import opened TrieNode
  import opened LazyTrie
  import opened TrieHasher

  // ---------------------------------------------------------------- the path of a key

  /** The short and full nodes that a key leads through, the node that refutes it included. */
  ghost function Path(t: Trie, k: Bytes): (ts: seq<Trie>)
    requires Asks(t, k)
    ensures ts != [] <==> Inner(t)
    ensures Inner(t) ==> ts[0] == t
    ensures forall i :: 0 <= i < |ts| ==> Wf(ts[i]) && Inner(ts[i])
  {
    match t
    case Nil => []
    case Value(_) => []
    case Short(key, val) =>
      if !StartsWith(k, key) then [t]
      else
        IntoShort(t, k);
        [t] + Path(val, k[|key|..])
    case Full(ch) =>
      IntoFull(t, k);
      [t] + Path(ch[k[0]], k[1..])
  }

  ghost predicate AllInner(ts: seq<Trie>) {
    forall i :: 0 <= i < |ts| ==> Wf(ts[i]) && Inner(ts[i])
  }

  /** The encodings that are referred to by hash. */
  ghost function Large(H: Hasher, ts: seq<Trie>): seq<Bytes>
    requires AllInner(ts)
  {
    if ts == [] then []
    else
      var rest := Large(H, ts[1..]);
      if |Enc(H, ts[0])| < HASH_LEN then rest else [Enc(H, ts[0])] + rest
  }

  /** The elements of a proof: the root, and every large node below it. */
  ghost function Elements(H: Hasher, ts: seq<Trie>): seq<Bytes>
    requires AllInner(ts)
  {
    if ts == [] then [] else [Enc(H, ts[0])] + Large(H, ts[1..])
  }

  ghost function Proof(H: Hasher, t: Trie, k: Bytes): seq<Bytes>
    requires Asks(t, k)
  {
    Elements(H, Path(t, k))
  }

  lemma {:induction false} LargeConcat(H: Hasher, a: seq<Trie>, b: seq<Trie>)
    requires AllInner(a) && AllInner(b)
    ensures AllInner(a + b) && Large(H, a + b) == Large(H, a) + Large(H, b)
  {
    hide Enc;
    if a == [] {
      assert a + b == b;
    } else {
      assert (a + b)[1..] == a[1..] + b && (a + b)[0] == a[0];
      LargeConcat(H, a[1..], b);
      assert [Enc(H, a[0])] + (Large(H, a[1..]) + Large(H, b)) == ([Enc(H, a[0])] + Large(H, a[1..])) + Large(H, b);
    }
  }

  /** Every element is in the store, under its hash. */
  ghost predicate Provided(H: Hasher, s: Store, bs: seq<Bytes>) {
    forall i :: 0 <= i < |bs| ==> H(bs[i]) in s
  }

  // ---------------------------------------------------------------- checking a proof

  /** A place within one loaded node: at its top, or at a child that is embedded or ends it. */
  ghost predicate Within(H: Hasher, top: Node, t: Trie, cld: Node, u: Trie) {
    && Wf(t) && Wf(u)
    && (if u == t then cld == top && Inner(t) && exists hash :: top == Loaded(H, hash, 0, t)
        else u < t && cld == Referred(H, 0, u))
  }

  /** What is still to be proved below a place. */
  ghost function Pending(H: Hasher, t: Trie, u: Trie, rest: Bytes): seq<Bytes>
    requires Asks(u, rest) && (u == t ==> Inner(t))
  {
    if u == t then Large(H, Path(u, rest)[1..]) else Large(H, Path(u, rest))
  }

  /** Below the top, what is in memory is embedded. */
  lemma Small(H: Hasher, top: Node, t: Trie, cld: Node, u: Trie)
    requires Within(H, top, t, cld, u) && (cld.ShortNode? || cld.FullNode?)
    ensures Inner(u) && (u != t ==> |Enc(H, u)| < HASH_LEN)
    ensures exists hash :: cld == Loaded(H, hash, 0, u)
  {
    if u != t {
      assert cld == Loaded(H, None, 0, u);
    }
  }

  lemma PathSteps(t: Trie, k: Bytes)
    requires Asks(t, k) && Inner(t)
    ensures t.Short? && !StartsWith(k, t.key) ==> Get(t, k) == None && Path(t, k) == [t]
    ensures t.Short? && StartsWith(k, t.key) ==>
              && Asks(t.val, k[|t.key|..]) && Get(t, k) == Get(t.val, k[|t.key|..])
              && Path(t, k) == [t] + Path(t.val, k[|t.key|..])
    ensures t.Full? ==>
              && |t.children| == 17 && |k| > 0 && k[0] <= 16 && Asks(t.children[k[0]], k[1..])
              && Get(t, k) == Get(t.children[k[0]], k[1..])
              && Path(t, k) == [t] + Path(t.children[k[0]], k[1..])
  {
    if t.Short? {
      if StartsWith(k, t.key) { IntoShort(t, k); }
    } else {
      IntoFull(t, k);
    }
  }

  /** An embedded node adds nothing to a proof. */
  lemma PendingStep(H: Hasher, t: Trie, u: Trie, k: Bytes, more: seq<Trie>)
    requires Asks(u, k) && Inner(u) && (u != t ==> |Enc(H, u)| < HASH_LEN)
    requires Path(u, k) == [u] + more && AllInner(more)
    ensures Pending(H, t, u, k) == Large(H, more)
  {
    hide Path;
    assert ([u] + more)[1..] == more;
  }

  lemma DownShort(H: Hasher, top: Node, t: Trie, cld: Node, u: Trie, k: Bytes)
    requires Within(H, top, t, cld, u) && Asks(u, k) && cld.ShortNode?
    ensures u.Short? && u.key == cld.key
    ensures !StartsWith(k, cld.key) ==> Get(u, k) == None && Pending(H, t, u, k) == []
    ensures StartsWith(k, cld.key) ==>
              && Asks(u.val, k[|cld.key|..]) && u.val < u && Within(H, top, t, cld.val, u.val)
              && Get(u, k) == Get(u.val, k[|cld.key|..])
              && Pending(H, t, u, k) == Pending(H, t, u.val, k[|cld.key|..])
  {
    hide Path, Large, Get;
    Small(H, top, t, cld, u);
    PathSteps(u, k);
    if StartsWith(k, u.key) {
      PendingStep(H, t, u, k, Path(u.val, k[|u.key|..]));
    } else {
      assert Path(u, k) == [u] + [];
      PendingStep(H, t, u, k, []);
      NoneLarge(H);
    }
  }

  lemma NoneLarge(H: Hasher)
    ensures Large(H, []) == []
  {
  }

  lemma DownFull(H: Hasher, top: Node, t: Trie, cld: Node, u: Trie, k: Bytes)
    requires Within(H, top, t, cld, u) && Asks(u, k) && cld.FullNode?
    ensures u.Full? && |cld.children| == |u.children| == 17 && |k| > 0 && k[0] <= 16
    ensures Asks(u.children[k[0]], k[1..]) && u.children[k[0]] < u
    ensures Within(H, top, t, cld.children[k[0]], u.children[k[0]])
    ensures Get(u, k) == Get(u.children[k[0]], k[1..])
    ensures Pending(H, t, u, k) == Pending(H, t, u.children[k[0]], k[1..])
  {
    hide Path, Large, Get;
    Small(H, top, t, cld, u);
    PathSteps(u, k);
    PendingStep(H, t, u, k, Path(u.children[k[0]], k[1..]));
  }

  lemma KnownKids(H: Hasher, known: set<Bytes>, t: Trie)
    requires Wf(t) && Inner(t) && Known(H, known, t)
    ensures t.Short? ==> Wf(t.val) && Known(H, known, t.val)
    ensures t.Full? ==> |t.children| == 17 &&
                        forall i :: 0 <= i < 17 ==> Wf(t.children[i]) && Known(H, known, t.children[i])
  {
  }

  lemma TopInner(H: Hasher, n: Node, t: Trie)
    requires Within(H, n, t, n, t)
    ensures Inner(t) && Wf(t)
  {
  }

  /** `get`: as far down as one loaded node goes. The rest of the way is that of the trie. */
  method Descend(n: Node, k: Bytes, ghost H: Hasher, ghost known: set<Bytes>, ghost t: Trie)
    returns (rest: Bytes, cld: Node, ghost u: Trie)
    requires Within(H, n, t, n, t) && Asks(t, k) && Known(H, known, t)
    ensures cld.NilNode? || cld.ValueNode? || cld.HashNode?
    ensures cld.NilNode? ==> Get(t, k) == None
    ensures cld.ValueNode? ==> Get(t, k) == Some(cld.v)
    ensures !cld.HashNode? ==> |Proof(H, t, k)| == 1
    ensures cld.HashNode? ==>
              && Asks(u, rest) && Inner(u) && u < t && cld.hash == H(Enc(H, u))
              && Get(u, rest) == Get(t, k) && Proof(H, t, k) == [Enc(H, t)] + Proof(H, u, rest)
              && Known(H, known, u)
  {
    hide Within, Path, Large, Get, Wf, Known;
    rest, cld, u := k, n, t;
    TopInner(H, n, t);
    while cld.ShortNode? || cld.FullNode?
      invariant Within(H, n, t, cld, u) && Asks(u, rest) && Get(u, rest) == Get(t, k)
      invariant Wf(u) && Known(H, known, u) && (u == t ==> Inner(t))
      invariant Pending(H, t, u, rest) == Pending(H, t, t, k)
      decreases u
    {
      if cld.ShortNode? {
        DownShort(H, n, t, cld, u, rest);
        KnownKids(H, known, u);
        if !StartsWith(rest, cld.key) {
          return [], NilNode, Nil;
        }
        rest, cld, u := rest[|cld.key|..], cld.val, u.val;
      } else {
        DownFull(H, n, t, cld, u, rest);
        KnownKids(H, known, u);
        rest, cld, u := rest[1..], cld.children[rest[0]], u.children[rest[0]];
      }
    }
    Bottom(H, n, t, cld, u, rest);
  }

  /** Where the descent ends. */
  lemma Bottom(H: Hasher, top: Node, t: Trie, cld: Node, u: Trie, k: Bytes)
    requires Within(H, top, t, cld, u) && Asks(u, k) && !cld.ShortNode? && !cld.FullNode?
    ensures u != t
    ensures cld.NilNode? ==> Get(u, k) == None && Pending(H, t, u, k) == []
    ensures cld.ValueNode? ==> Get(u, k) == Some(cld.v) && Pending(H, t, u, k) == []
    ensures cld.HashNode? ==>
              Inner(u) && u < t && cld.hash == H(Enc(H, u)) && Pending(H, t, u, k) == Proof(H, u, k)
  {
    if Inner(u) {
      var n := Loaded(H, None, 0, u);
      assert n.ShortNode? || n.FullNode?;
      var path := Path(u, k);
      assert Large(H, path) == [Enc(H, path[0])] + Large(H, path[1..]);
    } else {
      assert Path(u, k) == [];
    }
  }

  lemma RootAsks(t: Trie, k: Bytes)
    requires IsTrie(t) && t != Nil && IsKey(k)
    ensures Asks(t, k) && Inner(t) && Get(t, k) == Lookup(t, k)
  {
  }

  lemma ProofHead(H: Hasher, t: Trie, k: Bytes)
    requires Asks(t, k) && Inner(t)
    ensures |Proof(H, t, k)| > 0 && Proof(H, t, k)[0] == Enc(H, t)
  {
  }

  /** A blob under the hash of a node is that node. */
  lemma ProofNode(H: Hasher, w: World, s: Store, t: Trie)
    requires Sound(Env(H, 0, 0), w, s) && Wf(t) && Inner(t) && Known(H, w.known, t) && H(Enc(H, t)) in s
    ensures var h := H(Enc(H, t)); var n := DecodeNode(Some(h), s[h], 0);
            n.Some? && Within(H, n.value, t, n.value, t)
  {
    var h, e := H(Enc(H, t)), Env(H, 0, 0);
    ResolveRep(e, World(w.known, false), s, h, t, true);
    assert Resolve(e, s, h) == DecodeNode(Some(h), s[h], 0);
  }

  lemma NextElement(H: Hasher, s: Store, full: seq<Bytes>, i: nat, b: Bytes, more: seq<Bytes>)
    requires i <= |full| && full[i..] == [b] + more && Provided(H, s, full[..i]) && H(b) in s
    ensures i < |full| && full[i + 1..] == more && Provided(H, s, full[..i + 1])
    ensures more == [] ==> Provided(H, s, full) && |full| == i + 1
  {
    assert full[i..][1..] == full[i + 1..] && full[i..][0] == full[i];
    assert full[..i + 1] == full[..i] + [b];
    assert more == [] ==> full[..i + 1] == full;
  }

  /** `VerifyProof`: for any content-addressed set of blobs, it ends without an error exactly
      when the set has every element of the proof, and then the answer is that of the trie. */
  method VerifyProof(H: Hasher, rootHash: Bytes, key: Bytes, proofDb: Store, ghost w: World, ghost t: Trie)
    returns (value: Option<Bytes>, nodes: nat, ok: bool)
    requires Sound(Env(H, 0, 0), w, proofDb) && IsTrie(t) && t != Nil && Known(H, w.known, t)
    requires rootHash == Root(H, t)
    ensures ok <==> Provided(H, proofDb, Proof(H, t, KeyHex(key)))
    ensures ok ==> value == Lookup(t, KeyHex(key))
    ensures ok ==> nodes == |Proof(H, t, KeyHex(key))| - (if value == None then 1 else 0)
  {
    hide Within, Path, Elements, Large, Get, Wf, Known, Sound, Enc, DecodeNode, Proof, Lookup;
    var k, wantHash, i := KeyHex(key), rootHash, 0;
    ghost var u, full := t, Proof(H, t, k);
    RootAsks(t, k);
    while true
      invariant Asks(u, k) && Inner(u) && Wf(u) && Known(H, w.known, u) && wantHash == H(Enc(H, u))
      invariant Get(u, k) == Lookup(t, KeyHex(key))
      invariant i <= |full| && full[i..] == Proof(H, u, k)
      invariant Provided(H, proofDb, full[..i])
      decreases u
    {
      ProofHead(H, u, k);
      if wantHash !in proofDb {
        assert full[i] == full[i..][0] == Enc(H, u);
        return None, i, false;
      }
      var n := DecodeNode(Some(wantHash), proofDb[wantHash], 0);
      ProofNode(H, w, proofDb, u);
      var rest, cld, below := Descend(n.value, k, H, w.known, u);
      if cld.HashNode? {
        NextElement(H, proofDb, full, i, Enc(H, u), Proof(H, below, rest));
        k, wantHash, u := rest, cld.hash, below;
        i := i + 1;
      } else {
        assert Proof(H, u, k) == [Enc(H, u)] + [];
        NextElement(H, proofDb, full, i, Enc(H, u), []);
        if cld.NilNode? {
          return None, i, true;
        } else {
          return Some(cld.v), i + 1, true;
        }
      }
    }
  }

  // ---------------------------------------------------------------- making a proof

  /** Puts blobs under their hashes, in order. */
  function PutAll(H: Hasher, db: Store, bs: seq<Bytes>): Store {
    if bs == [] then db
    else
      var last := |bs| - 1;
      PutAll(H, db, bs[..last])[H(bs[last]) := bs[last]]
  }

  function Drop(bs: seq<Bytes>, n: nat): seq<Bytes> {
    if n <= |bs| then bs[n..] else []
  }

  /** What one more node on the path adds to the proof. */
  lemma {:induction false} LargeSnoc(H: Hasher, ts: seq<Trie>, t: Trie)
    requires AllInner(ts) && Wf(t) && Inner(t)
    ensures AllInner(ts + [t])
    ensures Large(H, ts + [t]) == if |Enc(H, t)| < HASH_LEN then Large(H, ts) else Large(H, ts) + [Enc(H, t)]
  {
    LargeConcat(H, ts, [t]);
    assert [t][1..] == [];
    assert Large(H, [t]) == if |Enc(H, t)| < HASH_LEN then [] else [Enc(H, t)];
  }

  lemma ElementsStep(H: Hasher, ts: seq<Trie>)
    requires AllInner(ts) && ts != []
    ensures AllInner(ts[1..]) && Elements(H, ts) == [Enc(H, ts[0])] + Large(H, ts[1..])
  {
    hide Large, Enc;
  }

  lemma ElementsSnoc(H: Hasher, ts: seq<Trie>, t: Trie)
    requires AllInner(ts) && Wf(t) && Inner(t)
    ensures AllInner(ts + [t])
    ensures Elements(H, ts + [t]) ==
            if |Enc(H, t)| < HASH_LEN && ts != [] then Elements(H, ts) else Elements(H, ts) + [Enc(H, t)]
  {
    hide Large, Enc, Elements, Wf;
    ElementsStep(H, ts + [t]);
    if ts == [] {
      NothingYet(H, map[], 0);
      NoneLarge(H);
      assert (ts + [t])[1..] == [];
    } else {
      ElementsStep(H, ts);
      assert (ts + [t])[1..] == ts[1..] + [t];
      LargeSnoc(H, ts[1..], t);
    }
  }

  lemma PutSnoc(H: Hasher, db: Store, bs: seq<Bytes>, b: Bytes, n: nat)
    ensures PutAll(H, db, Drop(bs + [b], n)) ==
            if n <= |bs| then PutAll(H, db, Drop(bs, n))[H(b) := b] else PutAll(H, db, Drop(bs, n))
  {
    if n <= |bs| {
      assert (bs + [b])[n..] == bs[n..] + [b];
      assert (bs[n..] + [b])[..|bs| - n] == bs[n..];
    }
  }

  /** What is put into a set of blobs is there, and the set stays addressed by content. */
  lemma {:induction false} PutProvides(H: Hasher, known: set<Bytes>, db: Store, bs: seq<Bytes>)
    requires Addressed(H, known, db) && forall i :: 0 <= i < |bs| ==> bs[i] in known
    ensures Provided(H, PutAll(H, db, bs), bs) && Addressed(H, known, PutAll(H, db, bs))
  {
    if bs != [] {
      PutProvides(H, known, db, bs[..|bs| - 1]);
    }
  }

  /** A node on the path, in memory. */
  ghost predicate OnPath(e: Env, w: World, s: Store, n: Node, t: Trie, root: bool) {
    Hashable(e, w, s, n, t, root) && (n.ShortNode? || n.FullNode?)
  }

  lemma AtAsks(e: Env, w: World, s: Store, n: Node, t: Trie, k: Bytes, root: bool)
    requires At(e, w, s, n, t, k, root)
    ensures Asks(t, k) && (|k| > 0 ==> !n.ValueNode?)
    ensures n.ShortNode? || n.FullNode? ==> Inner(t) && OnPath(e, w, s, n, t, root)
    ensures n.ShortNode? ==> t.Short? && t.key == n.key
    ensures n.FullNode? ==> t.Full?
  {
    hide Sound;
  }

  lemma AtNothing(e: Env, w: World, s: Store, n: Node, t: Trie, k: Bytes, root: bool)
    requires At(e, w, s, n, t, k, root) && n.ShortNode?
    ensures At(e, w, s, NilNode, Nil, k, false) && Path(Nil, k) == []
  {
    hide Sound;
  }

  lemma AtEnd(e: Env, w: World, s: Store, n: Node, t: Trie, k: Bytes, root: bool)
    requires At(e, w, s, n, t, k, root) && (k == [] || n == NilNode)
    ensures Path(t, k) == []
  {
    hide Sound;
  }

  /** One step of the first loop of `Prove`: past a node in memory. */
  method Advance(n: Node, k: Bytes, ghost e: Env, ghost w: World, ghost s: Store, ghost t: Trie, ghost first: bool)
    returns (n': Node, k': Bytes, ghost t': Trie)
    requires At(e, w, s, n, t, k, first) && |k| > 0 && (n.ShortNode? || n.FullNode?)
    ensures At(e, w, s, n', t', k', false) && Asks(t, k) && Asks(t', k') && Path(t, k) == [t] + Path(t', k')
  {
    hide At, Path, OnPath, Get, Asks;
    AtAsks(e, w, s, n, t, k, first);
    PathSteps(t, k);
    if n.ShortNode? {
      if |k| < |n.key| || n.key != k[..|n.key|] {
        AtNothing(e, w, s, n, t, k, first);
        n', k', t' := NilNode, k, Nil;
      } else {
        AtShort(e, w, s, n, t, k, first);
        n', k', t' := n.val, k[|n.key|..], t.val;
      }
    } else {
      AtFull(e, w, s, n, t, k, first);
      n', k', t' := n.children[k[0]], k[1..], t.children[k[0]];
    }
    AtAsks(e, w, s, n', t', k', false);
  }

  /** The first loop of `Prove`: the nodes that the key leads through. */
  method Collect(e: Env, s: Store, root: Node, key: Bytes, ghost w: World, ghost t: Trie)
    returns (nodes: seq<Node>, ok: bool)
    requires At(e, w, s, root, t, KeyHex(key), true)
    ensures w.full ==> ok
    ensures ok ==> |nodes| == |Path(t, KeyHex(key))|
    ensures ok ==> forall i :: 0 <= i < |nodes| ==> OnPath(e, w, s, nodes[i], Path(t, KeyHex(key))[i], i == 0)
  {
    hide At, Path, OnPath, Resolve, Get, Asks;
    AtAsks(e, w, s, root, t, KeyHex(key), true);
    nodes := [];
    var k, tn := KeyHex(key), root;
    ghost var u, ts: seq<Trie> := t, [];
    while |k| > 0 && tn != NilNode
      invariant At(e, w, s, tn, u, k, ts == []) && Asks(u, k)
      invariant ts + Path(u, k) == Path(t, KeyHex(key))
      invariant |nodes| == |ts|
      invariant forall i :: 0 <= i < |nodes| ==> OnPath(e, w, s, nodes[i], ts[i], i == 0)
      decreases |Path(u, k)|, tn.HashNode?
    {
      ghost var first := ts == [];
      AtAsks(e, w, s, tn, u, k, first);
      if tn.HashNode? {
        AtHash(e, w, s, tn, u, k, first);
        var c := Resolve(e, s, tn.hash);
        if c.None? {
          return [], false;
        }
        tn := c.value;
      } else {
        nodes := nodes + [tn];
        ghost var x, whole := u, Path(u, k);
        tn, k, u := Advance(tn, k, e, w, s, u, first);
        assert ts + whole == (ts + [x]) + Path(u, k);
        ts := ts + [x];
      }
    }
    AtEnd(e, w, s, tn, u, k, ts == []);
    ok := true;
  }

  /** The encoding of a node on the path, and whether it is referred to by hash. */
  lemma PathNode(e: Env, w: World, s: Store, n: Node, t: Trie, root: bool)
    requires OnPath(e, w, s, n, t, root)
    ensures Formed(n) && (n.ShortNode? || n.FullNode?) && Wf(t) && Inner(t)
    ensures var c := HashChildren(e, s, false, n);
            && Encode(ItemOf(c.hashed)) == Enc(e.H, t)
            && StoreNode(e, c.store, false, c.hashed, c.cached, false).hashed ==
               if |Enc(e.H, t)| < HASH_LEN then c.hashed else HashNode(e.H(Enc(e.H, t)))
  {
    hide Sound, Known, ItemOf, NodeItem, NodeForm;
    ChildrenAgree(e, w, s, false, n, t, root);
    NodeFormItem(e.H, HashChildren(e, s, false, n).hashed, t);
    FlagsOfRep(e, w, s, n, t, root);
  }

  /** `Prove`: the elements of the proof, less the first `fromLevel`, are put under their hashes. */
  method Prove(e: Env, s: Store, root: Node, key: Bytes, fromLevel: nat, proofDb: Store,
               ghost w: World, ghost t: Trie)
    returns (out: Store, ok: bool)
    requires At(e, w, s, root, t, KeyHex(key), true)
    ensures w.full ==> ok
    ensures ok ==> out == PutAll(e.H, proofDb, Drop(Proof(e.H, t, KeyHex(key)), fromLevel))
    ensures !ok ==> out == proofDb
  {
    hide At, OnPath, Path, Elements, PutAll, Encode, ItemOf, HashChildren, StoreNode, Enc, Asks, Drop, AllInner, Wf;
    AtAsks(e, w, s, root, t, KeyHex(key), true);
    out := proofDb;
    var nodes: seq<Node>;
    nodes, ok := Collect(e, s, root, key, w, t);
    if !ok {
      return;
    }
    ghost var ts := Path(t, KeyHex(key));
    var level, i := fromLevel, 0;
    NothingYet(e.H, proofDb, fromLevel);
    assert ts[..0] == [];
    while i < |nodes|
      invariant 0 <= i <= |nodes| == |ts| && AllInner(ts[..i])
      invariant level == if fromLevel > |Elements(e.H, ts[..i])| then fromLevel - |Elements(e.H, ts[..i])| else 0
      invariant out == PutAll(e.H, proofDb, Drop(Elements(e.H, ts[..i]), fromLevel))
    {
      PathNode(e, w, s, nodes[i], ts[i], i == 0);
      var c := HashChildren(e, s, false, nodes[i]);
      var hn := StoreNode(e, c.store, false, c.hashed, c.cached, false).hashed;
      assert ts[..i + 1] == ts[..i] + [ts[i]];
      ElementsSnoc(e.H, ts[..i], ts[i]);
      PutSnoc(e.H, proofDb, Elements(e.H, ts[..i]), Enc(e.H, ts[i]), fromLevel);
      if hn.HashNode? || i == 0 {
        if level > 0 {
          level := level - 1;
        } else {
          var enc := Encode(ItemOf(c.hashed));
          out := out[(if hn.HashNode? then hn.hash else e.H(enc)) := enc];
        }
      }
      i := i + 1;
    }
    assert ts[..i] == ts;
  }

  lemma NothingYet(H: Hasher, db: Store, n: nat)
    ensures AllInner([]) && Elements(H, []) == [] && PutAll(H, db, Drop([], n)) == db
  {
  }

  /** A proof made from the root on, alone or among other blobs, can be checked. */
  lemma ProofIsComplete(H: Hasher, w: World, db: Store, t: Trie, k: Bytes)
    requires Sound(Env(H, 0, 0), w, db) && Asks(t, k) && Known(H, w.known, t)
    ensures var out := PutAll(H, db, Drop(Proof(H, t, k), 0));
            Sound(Env(H, 0, 0), w, out) && Provided(H, out, Proof(H, t, k))
  {
    hide Path, Elements;
    var bs := Proof(H, t, k);
    assert Drop(bs, 0) == bs;
    PathKnown(H, w.known, t, k);
    PutProvides(H, w.known, db, bs);
  }

  lemma {:induction false} StepsKnown(H: Hasher, known: set<Bytes>, t: Trie, k: Bytes, i: nat)
    requires Asks(t, k) && Known(H, known, t) && i < |Path(t, k)|
    ensures Enc(H, Path(t, k)[i]) in known
  {
    hide Get, Path, Enc, Known;
    PathSteps(t, k);
    KnownKids(H, known, t);
    if i == 0 {
      TopKnown(H, known, t);
    } else if t.Full? {
      StepsKnown(H, known, t.children[k[0]], k[1..], i - 1);
    } else {
      StepsKnown(H, known, t.val, k[|t.key|..], i - 1);
    }
  }

  lemma TopKnown(H: Hasher, known: set<Bytes>, t: Trie)
    requires Wf(t) && Inner(t) && Known(H, known, t)
    ensures Enc(H, t) in known
  {
  }

  lemma {:induction false} LargeKnown(H: Hasher, known: set<Bytes>, ts: seq<Trie>)
    requires AllInner(ts) && forall i :: 0 <= i < |ts| ==> Enc(H, ts[i]) in known
    ensures forall i :: 0 <= i < |Large(H, ts)| ==> Large(H, ts)[i] in known
  {
    hide Enc;
    if ts != [] { LargeKnown(H, known, ts[1..]); }
  }

  lemma PathKnown(H: Hasher, known: set<Bytes>, t: Trie, k: Bytes)
    requires Asks(t, k) && Known(H, known, t)
    ensures forall i :: 0 <= i < |Proof(H, t, k)| ==> Proof(H, t, k)[i] in known
    ensures forall i :: 0 <= i < |Large(H, Path(t, k))| ==> Large(H, Path(t, k))[i] in known
  {
    hide Path, Enc, Large, Known;
    var ts := Path(t, k);
    forall i | 0 <= i < |ts| ensures Enc(H, ts[i]) in known { StepsKnown(H, known, t, k, i); }
    LargeKnown(H, known, ts);
    if ts != [] { LargeKnown(H, known, ts[1..]); }
  }
}
