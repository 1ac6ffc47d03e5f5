/**
 What a finished download means for a trie: every node of the trie whose root was asked for is
 in the store, so the trie can be opened and read.
 */
module SyncedTrie {
  import opened Common
  import opened Rlp
  import opened MerkleTrie
  import opened HexPrefix
  import opened TrieNode
  import opened LazyTrie
  import TrieSync

  /** A reference to a large node is longer than an embedded node may be. */
  lemma LargeRef(H: Hasher, t: Trie)
    requires Digest(H) && Wf(t) && Inner(t) && |Enc(H, t)| >= HASH_LEN
    ensures |Encode(RefItem(H, t))| > HASH_LEN
  {
  }

  /** An embedded node has nothing but embedded nodes below it. */
  lemma {:induction false} SmallIsWhole(H: Hasher, s: Store, t: Trie)
    requires Digest(H) && Wf(t) && (Inner(t) ==> |Enc(H, t)| < HASH_LEN)
    ensures RefStored(H, s, t)
  {
    match t
    case Short(key, val) =>
      SmallPart(H, t, 1);
      assert NodeItem(H, t).items[1] == RefItem(H, val);
      if Inner(val) && |Enc(H, val)| >= HASH_LEN { LargeRef(H, val); }
      SmallIsWhole(H, s, val);
    case Full(ch) =>
      forall i | 0 <= i < |ch| ensures RefStored(H, s, ch[i]) {
        SmallPart(H, t, i);
        if Inner(ch[i]) && |Enc(H, ch[i])| >= HASH_LEN { LargeRef(H, ch[i]); }
        SmallIsWhole(H, s, ch[i]);
      }
    case _ =>
  }

  lemma SmallPart(H: Hasher, t: Trie, i: nat)
    requires Wf(t) && Inner(t) && |Enc(H, t)| < HASH_LEN && i < |NodeItem(H, t).items|
    ensures |Encode(NodeItem(H, t).items[i])| < HASH_LEN
  {
    PartFits(NodeItem(H, t).items, i);
    SplitOfList(NodeItem(H, t).items, []);
  }

  /** The hash of a node of the trie, at its top or below. */
  ghost predicate NodeOf(H: Hasher, t: Trie, h: Bytes)
    requires Wf(t)
  {
    match t
    case Short(_, val) => h == H(Enc(H, t)) || NodeOf(H, val, h)
    case Full(ch) => h == H(Enc(H, t)) || exists i :: 0 <= i < |ch| && NodeOf(H, ch[i], h)
    case _ => false
  }

  /** Whatever a stored node of the trie refers to is stored. */
  ghost predicate KidsStored(H: Hasher, s: Store, t: Trie)
    requires Wf(t)
  {
    forall h {:trigger NodeOf(H, t, h)} :: NodeOf(H, t, h) && h in s ==> TrieSync.Kids(s[h]) <= s.Keys
  }

  lemma {:induction false} PresentHas(ch: seq<Node>, i: nat)
    requires i < |ch| && ch[i] != NilNode
    ensures ch[i] in TrieSync.Present(ch)
  {
    if i > 0 { PresentHas(ch[1..], i - 1); }
  }

  /** A large child of a stored node is among the hashes found in it. */
  lemma KidOfNode(H: Hasher, t: Trie, c: Trie)
    requires Digest(H) && Wf(t) && Inner(t) && |Enc(H, t)| <= MAX_UINT64
    requires Wf(c) && Inner(c) && |Enc(H, c)| >= HASH_LEN
    requires if t.Short? then c == t.val else c in t.children
    ensures H(Enc(H, c)) in TrieSync.Kids(Enc(H, t))
  {
    hide DecodeNode, TrieSync.ChildrenOf, Loaded, Encode;
    DecodeEnc(H, None, t, [], 0);
    assert Enc(H, t) + [] == Enc(H, t);
    KidLoaded(H, t, c);
  }

  lemma KidLoaded(H: Hasher, t: Trie, c: Trie)
    requires Wf(t) && Inner(t) && Wf(c) && Inner(c) && |Enc(H, c)| >= HASH_LEN
    requires if t.Short? then c == t.val else c in t.children
    ensures HashNode(H(Enc(H, c))) in TrieSync.ChildrenOf(Loaded(H, None, 0, t))
  {
    hide Encode, NodeItem;
    var n, k := Loaded(H, None, 0, t), Referred(H, 0, c);
    assert k == HashNode(H(Enc(H, c)));
    if t.Full? {
      var i :| 0 <= i < |t.children| && t.children[i] == c;
      assert n.children[i] == k;
      PresentHas(n.children, i);
    }
  }

  lemma {:induction false} PresentOnly(ch: seq<Node>, n: Node)
    requires n in TrieSync.Present(ch)
    ensures n in ch
  {
    if n !in TrieSync.Present(ch[1..]) { assert n == ch[0]; } else { PresentOnly(ch[1..], n); }
  }

  /** A hash found in an encoded node is that of a large child. */
  lemma ChildOfKid(H: Hasher, t: Trie, h: Bytes) returns (c: Trie)
    requires Digest(H) && Wf(t) && Inner(t) && |Enc(H, t)| <= MAX_UINT64 && h in TrieSync.Kids(Enc(H, t))
    ensures Wf(c) && Inner(c) && |Enc(H, c)| >= HASH_LEN && h == H(Enc(H, c))
    ensures if t.Short? then c == t.val else c in t.children
  {
    hide DecodeNode, Encode, Referred, Enc;
    DecodeEnc(H, None, t, [], 0);
    assert Enc(H, t) + [] == Enc(H, t);
    var n := Loaded(H, None, 0, t);
    assert HashNode(h) in TrieSync.ChildrenOf(n);
    if t.Short? {
      c := t.val;
    } else {
      PresentOnly(n.children, HashNode(h));
      var i :| 0 <= i < |n.children| && n.children[i] == HashNode(h);
      c := t.children[i];
    }
    ReferredByHash(H, c, h);
  }

  lemma ReferredByHash(H: Hasher, c: Trie, h: Bytes)
    requires Wf(c) && Referred(H, 0, c) == HashNode(h)
    ensures Inner(c) && |Enc(H, c)| >= HASH_LEN && h == H(Enc(H, c))
  {
    hide Encode, NodeItem;
  }

  /** A root in a store has its whole trie there, if all that stored nodes of the trie refer to is there. */
  lemma {:induction false} WholeTrie(e: Env, w: World, s: Store, t: Trie)
    requires Sound(e, w, s) && Wf(t) && Inner(t) && Known(e.H, w.known, t) && KidsStored(e.H, s, t)
    requires e.H(Enc(e.H, t)) in s
    ensures AllStored(e.H, s, t)
    decreases t, 1
  {
    var h := e.H(Enc(e.H, t));
    assert Enc(e.H, t) in w.known && s[h] == Enc(e.H, t);
    match t
    case Short(_, val) => WholeBelow(e, w, s, t, val);
    case Full(ch) =>
      forall i | 0 <= i < |ch| ensures RefStored(e.H, s, ch[i]) {
        WholeBelow(e, w, s, t, ch[i]);
      }
  }

  lemma {:induction false} WholeBelow(e: Env, w: World, s: Store, t: Trie, c: Trie)
    requires Sound(e, w, s) && Wf(t) && Inner(t) && Known(e.H, w.known, t) && KidsStored(e.H, s, t)
    requires InStore(e.H, s, t) && Wf(c) && c < t && Known(e.H, w.known, c)
    requires if t.Short? then c == t.val else c in t.children
    ensures RefStored(e.H, s, c)
    decreases t, 0
  {
    if Inner(c) && |Enc(e.H, c)| >= HASH_LEN {
      assert Enc(e.H, t) in w.known;
      KidOfNode(e.H, t, c);
      assert NodeOf(e.H, t, e.H(Enc(e.H, t)));
      BelowNodes(e.H, t, c);
      WholeTrie(e, w, s, c);
    } else {
      SmallIsWhole(e.H, s, c);
    }
  }

  lemma BelowNodes(H: Hasher, t: Trie, c: Trie)
    requires Wf(t) && Inner(t) && Wf(c) && if t.Short? then c == t.val else c in t.children
    ensures forall h :: NodeOf(H, c, h) ==> NodeOf(H, t, h)
  {
    if t.Full? {
      var i :| 0 <= i < |t.children| && t.children[i] == c;
      forall h | NodeOf(H, c, h) ensures NodeOf(H, t, h) { assert NodeOf(H, t.children[i], h); }
    }
  }

  /** A trie that is there has all that its nodes refer to. */
  lemma {:induction false} WholeHasKids(e: Env, w: World, s: Store, t: Trie, h: Bytes)
    requires Sound(e, w, s) && Wf(t) && Known(e.H, w.known, t) && RefStored(e.H, s, t) && NodeOf(e.H, t, h) && h in s
    ensures TrieSync.Kids(s[h]) <= s.Keys
  {
    if Inner(t) && h == e.H(Enc(e.H, t)) {
      assert Enc(e.H, t) in w.known && s[h] == Enc(e.H, t);
      forall x | x in TrieSync.Kids(s[h]) ensures x in s {
        var c := ChildOfKid(e.H, t, x);
        assert RefStored(e.H, s, c);
      }
    } else if t.Short? {
      WholeHasKids(e, w, s, t.val, h);
    } else {
      var i :| 0 <= i < |t.children| && NodeOf(e.H, t.children[i], h);
      WholeHasKids(e, w, s, t.children[i], h);
    }
  }

  /** What the hash vouches for: genuine content hashes to its hash, and is among what is considered. */
  ghost predicate Vouched(e: Env, w: World, content: TrieSync.Content) {
    && Digest(e.H) && CollisionFree(e.H, w.known) && (forall b :: b in w.known ==> |b| <= MAX_INT64)
    && forall h :: h in content.genuine ==> content.data(h) in w.known && e.H(content.data(h)) == h
  }

  /** No raw entry that is a node of the trie refers to anything missing. */
  ghost predicate RawsComplete(H: Hasher, s: Store, raws: set<Bytes>, t: Trie)
    requires Wf(t)
  {
    forall h {:trigger NodeOf(H, t, h)} :: NodeOf(H, t, h) && h in s && h in raws ==> TrieSync.Kids(s[h]) <= s.Keys
  }

  /** A finished download of genuine data has the whole trie that was asked for, if and only if no
      node of it that was stored as a raw entry lacks what it refers to. */
  lemma DownloadedTrie(sync: TrieSync.Sync, e: Env, w: World, t: Trie)
    requires sync.Valid() && sync.requests == map[] && Vouched(e, w, sync.content)
    requires IsTrie(t) && t != Nil && Known(e.H, w.known, t) && Root(e.H, t) in sync.wanted
    ensures AllStored(e.H, sync.database + sync.batch, t) <==>
            RawsComplete(e.H, sync.database + sync.batch, sync.content.raws, t)
  {
    hide TrieSync.Kids, NodeOf, Known, Enc, InStore, RefStored, TrieSync.Offered, TrieSync.Awaited, TrieSync.Open;
    sync.Done();
    var s := sync.database + sync.batch;
    forall h | h in s ensures TrieSync.Real(sync.content, h, s[h]) {
      Merged(sync.content, sync.database, sync.batch, sync.order, h);
    }
    assert Sound(e, w, s);
    if AllStored(e.H, s, t) {
      forall h | NodeOf(e.H, t, h) && h in s && h in sync.content.raws ensures TrieSync.Kids(s[h]) <= s.Keys {
        WholeHasKids(e, w, s, t, h);
      }
    }
    if RawsComplete(e.H, s, sync.content.raws, t) {
      forall h | NodeOf(e.H, t, h) && h in s ensures TrieSync.Kids(s[h]) <= s.Keys {
        if h !in sync.content.raws { assert TrieSync.Needs(sync.content, h) == TrieSync.Kids(s[h]); }
      }
      WholeTrie(e, w, s, t);
    }
  }

  lemma Merged(content: TrieSync.Content, database: Store, batch: Store, order: seq<Bytes>, h: Bytes)
    requires TrieSync.Tidy(content, database, batch, order) && h in database + batch
    ensures TrieSync.Real(content, h, (database + batch)[h])
  {
  }

  // ---------------------------------------------------------------- whole runs

  /** What the user of a scheduler does next. */
  datatype Act =
    | Ask(max: nat)
    | Take(results: seq<TrieSync.SyncResult>)
    | Flush
    | SubTrie(root: Bytes)
    | RawEntry(hash: Bytes)

  ghost predicate AllReal(content: TrieSync.Content, acts: seq<Act>) {
    forall i, j :: 0 <= i < |acts| && acts[i].Take? && 0 <= j < |acts[i].results| ==>
      TrieSync.Real(content, acts[i].results[j].hash, acts[i].results[j].data)
  }

  /** Any run of a scheduler with genuine data, in any order and with failing writes, which ends early
      if a leaf callback fails: when no request is open at its end, the trie is complete, but for what
      raw entries hide. Without raw entries it is complete. */
  method Download(root: Bytes, database: Store, emptyRoot: Bytes, emptyState: Bytes,
                  extras: Bytes -> Option<seq<TrieSync.Extra>>, acts: seq<Act>, ghost content: TrieSync.Content,
                  ghost e: Env, ghost w: World, ghost t: Trie)
    returns (sync: TrieSync.Sync, ok: bool)
    requires TrieSync.Genuine(content, database) && TrieSync.Closed(content, database.Keys)
    requires AllReal(content, acts) && Vouched(e, w, content)
    requires IsTrie(t) && t != Nil && Known(e.H, w.known, t) && root == Root(e.H, t) && root != emptyRoot
    ensures (forall v :: extras(v).Some?) ==> ok
    ensures ok ==> sync.Valid() && root in sync.wanted && TrieSync.Trusts(content, sync.content)
    ensures ok && sync.requests == map[] ==>
              (AllStored(e.H, sync.database + sync.batch, t) <==>
               RawsComplete(e.H, sync.database + sync.batch, sync.content.raws, t))
    ensures ok && sync.requests == map[] && sync.content.raws == {} ==> AllStored(e.H, sync.database + sync.batch, t)
  {
    hide TrieSync.Genuine, TrieSync.Closed, TrieSync.Sane, TrieSync.Offered, TrieSync.Awaited, TrieSync.Needs, Known,
         AllStored, RawsComplete, Vouched, TrieSync.Accepted;
    sync := new TrieSync.Sync(root, database, emptyRoot, emptyState, extras, content);
    var i := 0;
    while i < |acts|
      invariant 0 <= i <= |acts| && fresh(sync) && sync.Valid() && root in sync.wanted
      invariant TrieSync.Trusts(content, sync.content) && sync.extras == extras
    {
      match acts[i] {
        case Ask(max) => {
          var hashes := sync.Missing(max);
        }
        case Take(results) => {
          var committed, index, err := sync.Process(results);
          if err.BadLeaf? {
            return sync, false;
          }
        }
        case Flush => {
          var written, ok := sync.Commit();
        }
        case SubTrie(r) => {
          sync.AddSubTrie(r, 0, None, true, {});
        }
        case RawEntry(h) => {
          sync.AddRawEntry(h, 0, None, {});
        }
      }
      i := i + 1;
    }
    ok := true;
    if sync.requests == map[] {
      StillVouched(e, w, content, sync.content);
      DownloadedTrie(sync, e, w, t);
      NoRaws(e.H, sync.database + sync.batch, sync.content.raws, t);
    }
  }

  lemma StillVouched(e: Env, w: World, c0: TrieSync.Content, c1: TrieSync.Content)
    requires Vouched(e, w, c0) && TrieSync.Trusts(c0, c1)
    ensures Vouched(e, w, c1)
  {
  }

  lemma NoRaws(H: Hasher, s: Store, raws: set<Bytes>, t: Trie)
    requires Wf(t)
    ensures raws == {} ==> RawsComplete(H, s, raws, t)
  {
  }

  /** A raw entry that is a trie node hides what it refers to: it is stored without a look at it, and
      the trie with that root then counts as known. */
  method RawHides(hash: Bytes, data: Bytes, emptyRoot: Bytes, emptyState: Bytes, ghost child: Bytes,
                  ghost content: TrieSync.Content)
    returns (sync: TrieSync.Sync)
    requires TrieSync.Real(content, hash, data) && child in TrieSync.Kids(data) && child != hash
    requires hash != emptyRoot && hash != emptyState
    ensures sync.Valid() && sync.requests == map[] && hash in sync.wanted
    ensures hash in sync.batch && child in TrieSync.Kids(sync.batch[hash])
    ensures child !in sync.database && child !in sync.batch
  {
    hide TrieSync.Genuine, TrieSync.Sane, TrieSync.Offered, TrieSync.Awaited, TrieSync.Needs, TrieSync.Kids,
         TrieSync.Accepted, DecodeNode;
    NothingStored(content);
    sync := new TrieSync.Sync(emptyRoot, map[], emptyRoot, emptyState, _ => Some([]), content);
    sync.AddRawEntry(hash, 0, None, {});
    assert sync.requests.Keys == {hash};
    var committed, err := sync.Deliver(TrieSync.SyncResult(hash, data));
    Apart(sync);
    assert sync.requests.Keys == {};
    sync.AddSubTrie(hash, 0, None, true, {});
  }

  lemma NothingStored(content: TrieSync.Content)
    ensures TrieSync.Genuine(content, map[]) && TrieSync.Closed(content, {})
  {
  }

  /** What is stored is genuine, and not requested. */
  lemma Apart(sync: TrieSync.Sync)
    requires sync.Valid()
    ensures forall h :: h in sync.requests ==> h !in sync.batch
    ensures forall h :: h in sync.batch ==> sync.batch[h] == sync.content.data(h)
  {
    TrieSync.SaneKeys(sync.content, sync.database, sync.batch, sync.order, sync.requests, sync.b, multiset{}, {});
  }
}
