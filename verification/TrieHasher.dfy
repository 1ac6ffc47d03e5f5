/**
 Hashing and committing a trie: nodes are collapsed bottom-up, small ones stay embedded, large
 ones and the root are replaced by their hash and, in a commit, written to the store. The
 cached copy that replaces the node may drop whole subtries to their hashes.
 */
module TrieHasher {
  import opened Common
  import opened Rlp
  import opened MerkleTrie
  import opened HexPrefix
  import opened TrieNode
  import opened LazyTrie

  // ---------------------------------------------------------------- the code

  /** What the encoder writes for a collapsed node. */
  function ItemOf(n: Node): Item {
    match n
    case NilNode => Str([])
    case ValueNode(v) => Str(v)
    case HashNode(h) => Str(h)
    case ShortNode(key, val, _) => List([Str(key), ItemOf(val)])
    case FullNode(ch, _) => List(seq(|ch|, i requires 0 <= i < |ch| => ItemOf(ch[i])))
  }

  /** Keys are runs of nibbles and full nodes have seventeen entries. */
  ghost predicate Formed(p: Node) {
    match p
    case ShortNode(key, val, _) => Run(key) && Formed(val)
    case FullNode(ch, _) => |ch| == 17 && forall i :: 0 <= i < 17 ==> Formed(ch[i])
    case _ => true
  }

  const GENERATIONS := 0x1_0000

  /** `canUnload`: generations are 16-bit counters that wrap around. */
  predicate CanUnload(e: Env, fl: Flags) {
    !fl.dirty && (e.gen - fl.gen) % GENERATIONS >= e.limit
  }

  /** The store after hashing, what the parent refers to, and what stays in memory. */
  datatype Hashed = Hashed(store: Store, hashed: Node, cached: Node)

  /** `hash` */
  function HashAt(e: Env, s: Store, db: bool, p: Node, force: bool): Hashed
    requires Formed(p)
    decreases p, 1
  {
    if !p.ShortNode? && !p.FullNode? then Hashed(s, p, p)
    else if p.flags.hash.Some? && !db then Hashed(s, HashNode(p.flags.hash.value), p)
    else if p.flags.hash.Some? && CanUnload(e, p.flags) then
      Hashed(s, HashNode(p.flags.hash.value), HashNode(p.flags.hash.value))
    else if p.flags.hash.Some? && !p.flags.dirty then Hashed(s, HashNode(p.flags.hash.value), p)
    else
      var kids := HashChildren(e, s, db, p);
      StoreNode(e, kids.store, db, kids.hashed, kids.cached, force)
  }

  /** `hashChildren`: the collapsed node and the one to keep. */
  function HashChildren(e: Env, s: Store, db: bool, p: Node): (r: Hashed)
    requires Formed(p) && (p.ShortNode? || p.FullNode?)
    ensures r.hashed.ShortNode? || r.hashed.FullNode?
    ensures (r.cached.ShortNode? || r.cached.FullNode?) && r.cached.flags == p.flags == r.hashed.flags
    decreases p, 0
  {
    match p
    case ShortNode(key, val, fl) =>
      var r := if val.ValueNode? then Hashed(s, val, val) else HashAt(e, s, db, val, false);
      Hashed(r.store, ShortNode(Compact(key), r.hashed, fl), ShortNode(key, r.cached, fl))
    case FullNode(ch, fl) =>
      var r := HashEntries(e, s, db, p, 16);
      Hashed(r.store, FullNode(r.hashed + [ch[16]], fl), FullNode(r.cached + [ch[16]], fl))
  }

  datatype HashedAll = HashedAll(store: Store, hashed: seq<Node>, cached: seq<Node>)

  /** The first `n` entries of a full node, in order. */
  function HashEntries(e: Env, s: Store, db: bool, p: Node, n: nat): (r: HashedAll)
    requires Formed(p) && p.FullNode? && n <= 16
    ensures |r.hashed| == |r.cached| == n
    decreases p, 0, n
  {
    if n == 0 then HashedAll(s, [], [])
    else
      var before := HashEntries(e, s, db, p, n - 1);
      var c := p.children[n - 1];
      var r := if c.NilNode? then Hashed(before.store, c, c) else HashAt(e, before.store, db, c, false);
      HashedAll(r.store, before.hashed + [r.hashed], before.cached + [r.cached])
  }

  /** `store`, and the new flags of the node that stays in memory. */
  function StoreNode(e: Env, s: Store, db: bool, collapsed: Node, cached: Node, force: bool): Hashed
    requires (collapsed.ShortNode? || collapsed.FullNode?) && (cached.ShortNode? || cached.FullNode?)
  {
    var enc := Encode(ItemOf(collapsed));
    var small := |enc| < HASH_LEN && !force;
    var h := if collapsed.flags.hash.Some? then collapsed.flags.hash.value else e.H(enc);
    var s' := if db && !small then s[h := enc] else s;
    var fl := Flags(if small then None else Some(h), cached.flags.gen, cached.flags.dirty && !db);
    Hashed(s', if small then collapsed else HashNode(h), cached.(flags := fl))
  }

  /** The loop of `hashChildren` over the entries of a full node. */
  method HashLoop(e: Env, s: Store, db: bool, p: Node) returns (r: HashedAll)
    requires Formed(p) && p.FullNode?
    ensures r == HashEntries(e, s, db, p, 16)
  {
    r := HashedAll(s, [], []);
    for i := 0 to 16
      invariant r == HashEntries(e, s, db, p, i)
    {
      var c := p.children[i];
      if !c.NilNode? {
        var h := HashAt(e, r.store, db, c, false);
        r := HashedAll(h.store, r.hashed + [h.hashed], r.cached + [h.cached]);
      } else {
        r := HashedAll(r.store, r.hashed + [c], r.cached + [c]);
      }
    }
  }

  // ---------------------------------------------------------------- growing stores

  ghost predicate Grows(s: Store, s': Store) {
    forall h :: h in s ==> h in s' && s'[h] == s[h]
  }

  lemma {:induction false} RefStoredGrows(H: Hasher, s: Store, s': Store, t: Trie)
    requires Grows(s, s') && Wf(t) && RefStored(H, s, t)
    ensures RefStored(H, s', t)
  {
    match t
    case Short(_, val) => RefStoredGrows(H, s, s', val);
    case Full(ch) =>
      forall i | 0 <= i < |ch| ensures RefStored(H, s', ch[i]) { RefStoredGrows(H, s, s', ch[i]); }
    case _ =>
  }

  lemma StandsGrows(e: Env, w: World, s: Store, s': Store, h: Bytes, t: Trie, root: bool, stored: bool)
    requires Grows(s, s') && Wf(t) && Inner(t) && Stands(e, w, s, h, t, root, stored)
    ensures Stands(e, w, s', h, t, root, stored)
  {
    if w.full && stored {
      RefStoredGrows(e.H, s, s', t);
    }
  }

  /** Nothing that nodes rely on is lost when the store grows. */
  lemma {:induction false} RepGrows(e: Env, w: World, s: Store, s': Store, p: Node, t: Trie, root: bool)
    requires Grows(s, s') && Wf(t) && Rep(e, w, s, p, t, root)
    ensures Rep(e, w, s', p, t, root)
  {
    hide Stands, Grows;
    match p
    case ShortNode(_, val, fl) =>
      RepGrows(e, w, s, s', val, t.val, false);
      if fl.hash.Some? { StandsGrows(e, w, s, s', fl.hash.value, t, root, !fl.dirty); }
    case FullNode(ch, fl) =>
      forall i | 0 <= i < 17 ensures Rep(e, w, s', ch[i], t.children[i], false) {
        RepGrows(e, w, s, s', ch[i], t.children[i], false);
      }
      if fl.hash.Some? { StandsGrows(e, w, s, s', fl.hash.value, t, root, !fl.dirty); }
    case HashNode(h) => StandsGrows(e, w, s, s', h, t, root, true);
    case _ =>
  }

  lemma {:induction false} RepFormed(e: Env, w: World, s: Store, p: Node, t: Trie, root: bool)
    requires Wf(t) && Rep(e, w, s, p, t, root)
    ensures Formed(p)
  {
    match p
    case ShortNode(_, val, _) => RepFormed(e, w, s, val, t.val, false);
    case FullNode(ch, _) =>
      forall i | 0 <= i < 17 ensures Formed(ch[i]) { RepFormed(e, w, s, ch[i], t.children[i], false); }
    case _ =>
  }

  // ---------------------------------------------------------------- collapsed nodes

  /** A collapsed node as its parent has it: the empty node, a value, an embedded node or a hash. */
  ghost predicate RefForm(H: Hasher, c: Node, t: Trie)
    requires Wf(t)
    decreases t, 1
  {
    match t
    case Nil => c == NilNode
    case Value(v) => c == ValueNode(v)
    case _ => if |Enc(H, t)| < HASH_LEN then NodeForm(H, c, t) else c == HashNode(H(Enc(H, t)))
  }

  /** A collapsed node: its key is compact and its children are as above. */
  ghost predicate NodeForm(H: Hasher, c: Node, t: Trie)
    requires Wf(t) && Inner(t)
    decreases t, 0
  {
    match t
    case Short(key, val) => c.ShortNode? && c.key == Compact(key) && RefForm(H, c.val, val)
    case Full(ch) =>
      c.FullNode? && |c.children| == 17 && forall i :: 0 <= i < 17 ==> RefForm(H, c.children[i], ch[i])
  }

  /** Encoding a collapsed node gives the Merkle encoding. */
  lemma {:induction false} RefFormItem(H: Hasher, c: Node, t: Trie)
    requires Wf(t) && RefForm(H, c, t)
    ensures ItemOf(c) == RefItem(H, t)
    decreases t, 1
  {
    if Inner(t) && |Enc(H, t)| < HASH_LEN {
      NodeFormItem(H, c, t);
    }
  }

  lemma {:induction false} NodeFormItem(H: Hasher, c: Node, t: Trie)
    requires Wf(t) && Inner(t) && NodeForm(H, c, t)
    ensures ItemOf(c) == NodeItem(H, t)
    decreases t, 0
  {
    match t
    case Short(_, val) => RefFormItem(H, c.val, val);
    case Full(ch) =>
      forall i | 0 <= i < 17 ensures ItemOf(c.children[i]) == RefItem(H, ch[i]) {
        RefFormItem(H, c.children[i], ch[i]);
      }
  }

  // ---------------------------------------------------------------- hashing agrees

  /** The children of a node stand for the children of a trie. */
  ghost predicate KidsRep(e: Env, w: World, s: Store, n: Node, t: Trie)
    requires Wf(t)
  {
    match n
    case ShortNode(key, val, _) => t.Short? && t.key == key && Rep(e, w, s, val, t.val, false)
    case FullNode(ch, _) =>
      t.Full? && |ch| == 17 && forall i :: 0 <= i < 17 ==> Rep(e, w, s, ch[i], t.children[i], false)
    case _ => false
  }

  ghost predicate KidsStored(H: Hasher, s: Store, t: Trie)
    requires Wf(t) && Inner(t)
  {
    match t
    case Short(_, val) => RefStored(H, s, val)
    case Full(ch) => forall i :: 0 <= i < |ch| ==> RefStored(H, s, ch[i])
  }

  /** What hashing a node promises: the store only grows, and stays addressed by content; the
      parent gets exactly the reference the Merkle encoding has (a root gets its hash); the node
      kept in memory stands for the same trie; and a commit leaves everything stored. */
  ghost predicate HashFits(e: Env, w: World, s: Store, db: bool, t: Trie, force: bool, r: Hashed)
    requires Wf(t) && Inner(t)
  {
    && Grows(s, r.store) && (!db ==> r.store == s) && Sound(e, w, r.store)
    && Rep(e, w, r.store, r.cached, t, force)
    && (if force then r.hashed == HashNode(e.H(Enc(e.H, t))) else RefForm(e.H, r.hashed, t))
    && (db && w.full ==> RefStored(e.H, r.store, t) && (force ==> InStore(e.H, r.store, t)))
  }

  ghost predicate KidsFit(e: Env, w: World, s: Store, db: bool, t: Trie, r: Hashed)
    requires Wf(t) && Inner(t)
  {
    && Grows(s, r.store) && (!db ==> r.store == s) && Sound(e, w, r.store)
    && KidsRep(e, w, r.store, r.cached, t)
    && NodeForm(e.H, r.hashed, t)
    && (db && w.full ==> KidsStored(e.H, r.store, t))
  }

  ghost predicate Hashable(e: Env, w: World, s: Store, p: Node, t: Trie, force: bool) {
    Sound(e, w, s) && Wf(t) && Inner(t) && Known(e.H, w.known, t) && Rep(e, w, s, p, t, force)
  }

  /** A hash at hand is used as it is. */
  lemma HashReady(e: Env, w: World, s: Store, db: bool, t: Trie, force: bool, h: Bytes, cached: Node)
    requires Sound(e, w, s) && Wf(t) && Inner(t) && Stands(e, w, s, h, t, force, db)
    requires Rep(e, w, s, cached, t, force)
    ensures HashFits(e, w, s, db, t, force, Hashed(s, HashNode(h), cached))
  {
    hide Sound, Rep;
  }

  /** The encoding that is stored is that of the trie, under its hash, and replaces nothing. */
  lemma StoreFits(e: Env, w: World, s: Store, db: bool, p: Node, t: Trie, force: bool, kids: Hashed)
    requires Hashable(e, w, s, p, t, force) && (p.ShortNode? || p.FullNode?)
    requires KidsFit(e, w, s, db, t, kids)
    requires kids.hashed.ShortNode? || kids.hashed.FullNode?
    requires kids.cached.ShortNode? || kids.cached.FullNode?
    requires kids.hashed.flags == kids.cached.flags == p.flags
    requires db ==> p.flags.hash.None? || p.flags.dirty
    requires !db ==> p.flags.hash.None?
    ensures HashFits(e, w, s, db, t, force, StoreNode(e, kids.store, db, kids.hashed, kids.cached, force))
  {
    hide Sound, Rep, RefStored, ItemOf, NodeItem, NodeForm;
    NodeFormItem(e.H, kids.hashed, t);
    var enc := Enc(e.H, t);
    var r := StoreNode(e, kids.store, db, kids.hashed, kids.cached, force);
    FlagsOfRep(e, w, s, p, t, force);
    var small := |enc| < HASH_LEN && !force;
    assert !small ==> r.hashed == HashNode(e.H(enc));
    StoreGrows(e, w, kids.store, t, r.store);
    if db && w.full {
      KidsStoredGrows(e.H, kids.store, r.store, t);
      if !small { NowStored(e.H, r.store, t); } else { StaysSmall(e.H, r.store, t); }
    }
    NewFlags(e, w, kids.store, r.store, kids.cached, r.cached, t, force);
    RefOfNode(e.H, t);
  }

  lemma FlagsOfRep(e: Env, w: World, s: Store, p: Node, t: Trie, root: bool)
    requires Wf(t) && Rep(e, w, s, p, t, root) && (p.ShortNode? || p.FullNode?)
    ensures Inner(t) && FlagsOk(e, w, s, p.flags, t, root)
  {
  }

  lemma RefOfNode(H: Hasher, t: Trie)
    requires Wf(t) && Inner(t)
    ensures forall c :: RefForm(H, c, t) <==>
              if |Enc(H, t)| < HASH_LEN then NodeForm(H, c, t) else c == HashNode(H(Enc(H, t)))
  {
  }

  lemma StoreGrows(e: Env, w: World, s: Store, t: Trie, s': Store)
    requires Sound(e, w, s) && Wf(t) && Inner(t) && Known(e.H, w.known, t)
    requires s' == s || s' == s[e.H(Enc(e.H, t)) := Enc(e.H, t)]
    ensures Grows(s, s') && Sound(e, w, s')
  {
  }

  lemma KidsStoredGrows(H: Hasher, s: Store, s': Store, t: Trie)
    requires Grows(s, s') && Wf(t) && Inner(t) && KidsStored(H, s, t)
    ensures KidsStored(H, s', t)
  {
    hide Grows, RefStored;
    match t
    case Short(_, val) => RefStoredGrows(H, s, s', val);
    case Full(ch) =>
      forall i | 0 <= i < |ch| ensures RefStored(H, s', ch[i]) { RefStoredGrows(H, s, s', ch[i]); }
  }

  lemma NowStored(H: Hasher, s: Store, t: Trie)
    requires Wf(t) && Inner(t) && KidsStored(H, s, t) && InStore(H, s, t)
    ensures AllStored(H, s, t)
  {
  }

  lemma StaysSmall(H: Hasher, s: Store, t: Trie)
    requires Wf(t) && Inner(t) && KidsStored(H, s, t) && |Enc(H, t)| < HASH_LEN
    ensures RefStored(H, s, t)
  {
  }

  lemma NewFlags(e: Env, w: World, s: Store, s': Store, n: Node, n': Node, t: Trie, root: bool)
    requires Wf(t) && Inner(t) && Grows(s, s') && KidsRep(e, w, s, n, t)
    requires (n'.ShortNode? || n'.FullNode?) && n' == n.(flags := n'.flags)
    requires FlagsOk(e, w, s', n'.flags, t, root)
    ensures Rep(e, w, s', n', t, root)
  {
    hide Grows, FlagsOk;
    match n
    case ShortNode(_, val, _) => RepGrows(e, w, s, s', val, t.val, false);
    case FullNode(ch, _) =>
      forall i | 0 <= i < 17 ensures Rep(e, w, s', ch[i], t.children[i], false) {
        RepGrows(e, w, s, s', ch[i], t.children[i], false);
      }
  }

  /** The part of a full node that has been hashed. */
  ghost predicate EntriesFit(e: Env, w: World, s: Store, db: bool, t: Trie, n: nat, r: HashedAll)
    requires Wf(t) && t.Full? && n <= 16
  {
    && Grows(s, r.store) && (!db ==> r.store == s) && Sound(e, w, r.store)
    && |r.hashed| == |r.cached| == n
    && (forall i :: 0 <= i < n ==> Rep(e, w, r.store, r.cached[i], t.children[i], false))
    && (forall i :: 0 <= i < n ==> RefForm(e.H, r.hashed[i], t.children[i]))
    && (db && w.full ==> forall i :: 0 <= i < n ==> RefStored(e.H, r.store, t.children[i]))
  }

  /** One more entry. */
  lemma EntriesGrow(e: Env, w: World, s: Store, db: bool, t: Trie, n: nat, before: HashedAll, r: Hashed)
    requires Wf(t) && t.Full? && n < 16 && EntriesFit(e, w, s, db, t, n, before)
    requires Grows(before.store, r.store) && (!db ==> r.store == before.store) && Sound(e, w, r.store)
    requires Rep(e, w, r.store, r.cached, t.children[n], false)
    requires RefForm(e.H, r.hashed, t.children[n])
    requires db && w.full ==> RefStored(e.H, r.store, t.children[n])
    ensures EntriesFit(e, w, s, db, t, n + 1,
                       HashedAll(r.store, before.hashed + [r.hashed], before.cached + [r.cached]))
  {
    hide Sound, Rep, RefStored, RefForm, Wf;
    var cached := before.cached + [r.cached];
    ChildWf(t, 0);
    forall i | 0 <= i < n + 1 ensures Wf(t.children[i]) && Rep(e, w, r.store, cached[i], t.children[i], false) {
      ChildWf(t, i);
      if i < n { RepGrows(e, w, before.store, r.store, before.cached[i], t.children[i], false); }
    }
    if db && w.full {
      forall i | 0 <= i < n + 1 ensures RefStored(e.H, r.store, t.children[i]) {
        if i < n { RefStoredGrows(e.H, before.store, r.store, t.children[i]); }
      }
    }
  }

  lemma ChildWf(t: Trie, i: nat)
    requires Wf(t) && t.Full?
    ensures |t.children| == 17 && (i < 17 ==> Wf(t.children[i]))
    ensures i < 16 ==> !t.children[i].Value?
  {
  }

  /** An entry that is in use can be hashed in its turn. */
  lemma EntryHashable(e: Env, w: World, s: Store, p: Node, t: Trie, force: bool, s': Store, i: nat)
    requires Hashable(e, w, s, p, t, force) && p.FullNode? && Grows(s, s') && Sound(e, w, s') && i < 16
    ensures t.Full? && |p.children| == |t.children| == 17
    ensures Wf(t.children[i]) && Rep(e, w, s', p.children[i], t.children[i], false)
    ensures p.children[i].NilNode? ==> t.children[i] == Nil
    ensures !p.children[i].NilNode? ==> Hashable(e, w, s', p.children[i], t.children[i], false)
  {
    hide Sound, FlagsOk;
    RepGrows(e, w, s, s', p.children[i], t.children[i], false);
    NilRep(e, w, s, p.children[i], t.children[i], false);
  }

  lemma ValHashable(e: Env, w: World, s: Store, p: Node, t: Trie, force: bool)
    requires Hashable(e, w, s, p, t, force) && p.ShortNode?
    ensures t.Short? && (!p.val.ValueNode? ==> Hashable(e, w, s, p.val, t.val, false))
  {
    hide Sound, FlagsOk;
    var val, tv := p.val, t.val;
    assert Wf(tv) && Rep(e, w, s, val, tv, false) && (tv.Value? || tv.Full?);
    assert tv.Value? ==> val.ValueNode?;
  }

  lemma {:induction false} HashEntriesAgree(e: Env, w: World, s: Store, db: bool, p: Node, t: Trie, force: bool, n: nat)
    requires Hashable(e, w, s, p, t, force) && p.FullNode? && Formed(p) && n <= 16
    ensures t.Full? && EntriesFit(e, w, s, db, t, n, HashEntries(e, s, db, p, n))
    decreases p, 0, 0, n
  {
    hide Sound, RefStored, Rep, Known, RefForm, HashAt;
    EntryHashable(e, w, s, p, t, force, s, 0);
    if n > 0 {
      HashEntriesAgree(e, w, s, db, p, t, force, n - 1);
      var before := HashEntries(e, s, db, p, n - 1);
      EntryHashable(e, w, s, p, t, force, before.store, n - 1);
      var c, tc := p.children[n - 1], t.children[n - 1];
      if c.NilNode? {
        NilRefs(e.H, before.store);
        EntriesGrow(e, w, s, db, t, n - 1, before, Hashed(before.store, c, c));
      } else {
        HashAgrees(e, w, before.store, db, c, tc, false);
        EntriesGrow(e, w, s, db, t, n - 1, before, HashAt(e, before.store, db, c, false));
      }
    }
  }

  lemma NilRefs(H: Hasher, s: Store)
    ensures RefStored(H, s, Nil) && RefForm(H, NilNode, Nil)
  {
  }

  lemma ValueRefs(e: Env, w: World, s: Store, p: Node, t: Trie)
    requires Wf(t) && Rep(e, w, s, p, t, false) && (t.Value? || t == Nil)
    ensures RefStored(e.H, s, t) && RefForm(e.H, p, t)
  {
  }

  lemma FullKidsFit(e: Env, w: World, s: Store, db: bool, p: Node, t: Trie, force: bool, r: HashedAll)
    requires Hashable(e, w, s, p, t, force) && p.FullNode? && Formed(p) && t.Full?
    requires EntriesFit(e, w, s, db, t, 16, r)
    ensures KidsFit(e, w, s, db, t, Hashed(r.store, FullNode(r.hashed + [p.children[16]], p.flags),
                                           FullNode(r.cached + [p.children[16]], p.flags)))
  {
    hide Sound, FlagsOk, RefStored, RefForm;
    var last, tlast := p.children[16], t.children[16];
    RepGrows(e, w, s, r.store, last, tlast, false);
    ValueRefs(e, w, r.store, last, tlast);
  }

  lemma ShortKidsFit(e: Env, w: World, s: Store, db: bool, p: Node, t: Trie, force: bool)
    requires Hashable(e, w, s, p, t, force) && p.ShortNode? && Formed(p) && t.Short?
    requires !p.val.ValueNode? ==>
               Inner(t.val) && HashFits(e, w, s, db, t.val, false, HashAt(e, s, db, p.val, false))
    ensures KidsFit(e, w, s, db, t, HashChildren(e, s, db, p))
  {
    hide Sound, FlagsOk, HashAt, RefStored;
    if p.val.ValueNode? {
      ValueRefs(e, w, s, p.val, t.val);
    }
  }

  /** The three ways through `hash`. */
  lemma HashAtCases(e: Env, s: Store, db: bool, p: Node, force: bool)
    requires Formed(p)
    ensures p.HashNode? ==> HashAt(e, s, db, p, force) == Hashed(s, p, p)
    ensures p.ShortNode? || p.FullNode? ==>
              if p.flags.hash.Some? && (!db || !p.flags.dirty) then
                var h := HashNode(p.flags.hash.value);
                || HashAt(e, s, db, p, force) == Hashed(s, h, p)
                || (!p.flags.dirty && HashAt(e, s, db, p, force) == Hashed(s, h, h))
              else
                var kids := HashChildren(e, s, db, p);
                HashAt(e, s, db, p, force) == StoreNode(e, kids.store, db, kids.hashed, kids.cached, force)
  {
    hide HashChildren, StoreNode;
  }

  /** A hash at hand stands for the trie, as far as it will be relied on. */
  lemma HashAtHand(e: Env, w: World, s: Store, db: bool, p: Node, t: Trie, force: bool)
    requires Hashable(e, w, s, p, t, force)
    ensures p.HashNode? || p.ShortNode? || p.FullNode?
    ensures p.HashNode? ==> Stands(e, w, s, p.hash, t, force, db)
    ensures !p.HashNode? && p.flags.hash.Some? && (!db || !p.flags.dirty) ==>
              && Stands(e, w, s, p.flags.hash.value, t, force, db)
              && (!p.flags.dirty ==> Rep(e, w, s, HashNode(p.flags.hash.value), t, force))
    ensures Wf(t) && Inner(t) && Sound(e, w, s) && Rep(e, w, s, p, t, force)
  {
    hide Sound, Known;
  }

  /** Hashing and committing keep what nodes stand for, and give exactly the Merkle encoding. */
  lemma {:induction false} HashAgrees(e: Env, w: World, s: Store, db: bool, p: Node, t: Trie, force: bool)
    requires Hashable(e, w, s, p, t, force)
    ensures Formed(p) && HashFits(e, w, s, db, t, force, HashAt(e, s, db, p, force))
    decreases p, 1
  {
    hide Hashable, Sound, Rep, Stands, HashFits, KidsFit, HashAt, StoreNode, Formed;
    HashAtHand(e, w, s, db, p, t, force);
    RepFormed(e, w, s, p, t, force);
    HashAtCases(e, s, db, p, force);
    if p.HashNode? {
      HashReady(e, w, s, db, t, force, p.hash, p);
    } else if p.flags.hash.Some? && (!db || !p.flags.dirty) {
      var h := p.flags.hash.value;
      HashReady(e, w, s, db, t, force, h, p);
      if !p.flags.dirty { HashReady(e, w, s, db, t, force, h, HashNode(h)); }
    } else {
      ChildrenAgree(e, w, s, db, p, t, force);
      StoreFits(e, w, s, db, p, t, force, HashChildren(e, s, db, p));
    }
  }

  /** Collapsing the children of a node gives the list that its encoding has. */
  lemma {:induction false} ChildrenAgree(e: Env, w: World, s: Store, db: bool, p: Node, t: Trie, force: bool)
    requires Hashable(e, w, s, p, t, force) && (p.ShortNode? || p.FullNode?)
    ensures Formed(p) && KidsFit(e, w, s, db, t, HashChildren(e, s, db, p))
    decreases p, 0
  {
    hide Hashable, Sound, Rep, Stands, HashFits, KidsFit, HashAt, StoreNode, Formed;
    HashAtHand(e, w, s, db, p, t, force);
    RepFormed(e, w, s, p, t, force);
    if p.ShortNode? {
      ValHashable(e, w, s, p, t, force);
      if !p.val.ValueNode? {
        HashAgrees(e, w, s, db, p.val, t.val, false);
        HashAtHand(e, w, s, db, p.val, t.val, false);
      }
      ShortKidsFit(e, w, s, db, p, t, force);
    } else {
      HashEntriesAgree(e, w, s, db, p, t, force, 16);
      FullKidsFit(e, w, s, db, p, t, force, HashEntries(e, s, db, p, 16));
    }
  }
}
