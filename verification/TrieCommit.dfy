/**
 Commits that write into the database: every node that hashing replaces by its hash is inserted,
 children before parents, so that a committed trie is there as a whole from then on.
 */
module TrieCommit {
  import opened Common
  import opened Rlp
  import opened MerkleTrie
  import opened HexPrefix
  import opened TrieNode
  import opened LazyTrie
  import opened TrieHasher
  import opened StoredForm
  import opened TrieHandle
  import opened KeptTrie
  import N = NodeStore
  import D = TrieDatabase

  // ---------------------------------------------------------------- names

  /** A node of a trie whose encodings are among those considered. */
  ghost predicate Named(H: Hasher, known: set<Bytes>, t: Trie) {
    Wf(t) && Inner(t) && Known(H, known, t)
  }

  /** The number under which the database has a node. */
  ghost function Name(H: Hasher, t: Trie): N.Hash
    requires Wf(t) && Inner(t)
  {
    Number(H(Enc(H, t)))
  }

  /** A part of a trie. */
  ghost predicate Inside(u: Trie, t: Trie) {
    match t
    case Short(_, val) => u == val || Inside(u, val)
    case Full(ch) => exists i :: 0 <= i < |ch| && (u == ch[i] || Inside(u, ch[i]))
    case _ => false
  }

  /** Nodes have numbers other than that of the meta-root, and parts come before the whole. */
  ghost predicate Suits(H: Hasher, known: set<Bytes>, rank: N.Hash -> nat) {
    && (forall t :: Named(H, known, t) ==> Name(H, t) != N.ZERO)
    && (forall t, u :: Named(H, known, t) && Named(H, known, u) && Inside(u, t) ==> rank(Name(H, u)) < rank(Name(H, t)))
  }

  /** What the database has under the number of a node is that node. */
  ghost predicate Honest(H: Hasher, known: set<Bytes>, origin: map<N.Hash, D.RawNode>) {
    forall t :: Named(H, known, t) && Name(H, t) in origin ==> HeldAs(H, origin, t)
  }

  lemma SameName(H: Hasher, w: World, s: Trie, t: Trie)
    requires Sound(Env(H, 0, 0), w, map[]) && Named(H, w.known, s) && Named(H, w.known, t) && Name(H, s) == Name(H, t)
    ensures s == t
  {
    hide Number, Enc, Known;
    NumberIsName(H(Enc(H, s)), H(Enc(H, t)));
    KnownEnc(H, w.known, s);
    KnownEnc(H, w.known, t);
    SameEncoding(H, w, s, t);
  }

  lemma KnownEnc(H: Hasher, known: set<Bytes>, t: Trie)
    requires Named(H, known, t)
    ensures Enc(H, t) in known
  {
  }

  // ---------------------------------------------------------------- collapsed nodes

  lemma {:induction false} RefOnce(H: Hasher, c: Node, c': Node, t: Trie)
    requires Wf(t) && RefForm(H, c, t) && RefForm(H, c', t)
    ensures Simplify(c) == Simplify(c')
    decreases t, 1
  {
    if Inner(t) && |Enc(H, t)| < HASH_LEN { NodeOnce(H, c, c', t); }
  }

  /** A node is collapsed in one way only, but for flags. */
  lemma {:induction false} NodeOnce(H: Hasher, c: Node, c': Node, t: Trie)
    requires Wf(t) && Inner(t) && NodeForm(H, c, t) && NodeForm(H, c', t)
    ensures Simplify(c) == Simplify(c')
    decreases t, 0
  {
    hide Enc, Compact;
    match t
    case Short(_, val) => RefOnce(H, c.val, c'.val, val);
    case Full(ch) =>
      var r, r' := Simplify(c), Simplify(c');
      forall i | 0 <= i < 17 ensures r.children[i] == r'.children[i] {
        RefOnce(H, c.children[i], c'.children[i], ch[i]);
      }
  }

  lemma {:induction false} UpToIs(n: D.RawNode, k: nat, h: N.Hash) returns (i: nat)
    requires n.RawFull? && k <= |n.nodes| && h in D.GatherUpTo(n, k)
    ensures i < k && h in D.Gather(n.nodes[i])
  {
    if h in D.Gather(n.nodes[k - 1]) { i := k - 1; } else { i := UpToIs(n, k - 1, h); }
  }

  /** What a collapsed node refers to is a part of the trie that is stored. */
  ghost predicate Refers(H: Hasher, s: Store, h: N.Hash, u: Trie) {
    Wf(u) && Inner(u) && h == Name(H, u) && InStore(H, s, u)
  }

  lemma {:induction false} GatheredRef(H: Hasher, s: Store, c: Node, t: Trie, h: N.Hash) returns (u: Trie)
    requires Wf(t) && RefForm(H, c, t) && RefStored(H, s, t) && h in D.Gather(Cached(Simplify(c)))
    ensures Refers(H, s, h, u) && (u == t || Inside(u, t))
    decreases t, 1
  {
    hide Number, Enc;
    if |Enc(H, t)| < HASH_LEN {
      StoredKids(H, s, t);
      u := GatheredNode(H, s, c, t, h);
    } else {
      u := t;
    }
  }

  lemma StoredKids(H: Hasher, s: Store, t: Trie)
    requires Wf(t) && Inner(t) && RefStored(H, s, t)
    ensures KidsStored(H, s, t)
  {
  }

  lemma {:induction false} GatheredNode(H: Hasher, s: Store, c: Node, t: Trie, h: N.Hash) returns (u: Trie)
    requires Wf(t) && Inner(t) && NodeForm(H, c, t) && KidsStored(H, s, t) && h in D.Gather(Cached(Simplify(c)))
    ensures Refers(H, s, h, u) && Inside(u, t)
    decreases t, 0
  {
    hide Number, Enc, Compact, Refers, RefStored;
    match t
    case Short(_, val) =>
      u := GatheredRef(H, s, c.val, val, h);
    case Full(ch) =>
      var r := Simplify(c);
      var n := Cached(r);
      var i := UpToIs(n, 16, h);
      assert r.children[i] == Simplify(c.children[i]) && n.nodes[i] == Cached(r.children[i]);
      u := GatheredRef(H, s, c.children[i], ch[i], h);
  }

  lemma {:induction false} InsideKnown(H: Hasher, known: set<Bytes>, u: Trie, t: Trie)
    requires Wf(t) && Known(H, known, t) && Inside(u, t)
    ensures Wf(u) && Known(H, known, u)
  {
    match t
    case Short(_, val) => if u != val { InsideKnown(H, known, u, val); }
    case Full(ch) =>
      var i :| 0 <= i < |ch| && (u == ch[i] || Inside(u, ch[i]));
      if u != ch[i] { InsideKnown(H, known, u, ch[i]); }
  }

  // ---------------------------------------------------------------- one node

  /** What is stored is in the cache or on disk. */
  ghost predicate Backs(s: Store, cache: D.Cache, disk: map<N.Hash, D.RawNode>) {
    forall h :: h in s ==> Number(h) in cache.dirties || Number(h) in disk
  }

  /** A collapsed node whose children are stored may be inserted. */
  lemma MayInsert(H: Hasher, w: World, s: Store, cache: D.Cache, disk: D.Disk, f: D.Past, c: Node, t: Trie)
    requires Sound(Env(H, 0, 0), w, map[]) && Named(H, w.known, t) && NodeForm(H, c, t) && KidsStored(H, s, t)
    requires Suits(H, w.known, f.rank) && Honest(H, w.known, f.origin) && Backs(s, cache, disk.nodes)
    ensures D.CanInsert(cache, disk, f, Name(H, t), Cached(Simplify(c)))
  {
    hide Number, Enc, Known, NodeForm, KidsStored, Cached, Simplify, D.Gather, Sound, Inside;
    var hash, node := Name(H, t), Cached(Simplify(c));
    if hash in f.origin {
      assert HeldAs(H, f.origin, t);
      var c' :| NodeForm(H, c', t) && f.origin[hash] == Cached(Simplify(c'));
      NodeOnce(H, c, c', t);
    }
    forall k | k in D.Gather(node) ensures k != N.ZERO && f.rank(k) < f.rank(hash)
    && (k in cache.dirties || k in disk.nodes)
    {
      var u := GatheredNode(H, s, c, t, k);
      InsideKnown(H, w.known, u, t);
      assert Named(H, w.known, u);
    }
  }

  /** The database stays honest when a node is inserted under its own number. */
  lemma StaysHonest(H: Hasher, w: World, origin: map<N.Hash, D.RawNode>, c: Node, t: Trie)
    requires Sound(Env(H, 0, 0), w, map[]) && Named(H, w.known, t) && NodeForm(H, c, t) && Honest(H, w.known, origin)
    ensures Honest(H, w.known, origin[Name(H, t) := Cached(Simplify(c))])
  {
    hide Number, Enc, Known, NodeForm, Cached, Simplify, Sound;
    var origin' := origin[Name(H, t) := Cached(Simplify(c))];
    forall u | Named(H, w.known, u) && Name(H, u) in origin' ensures HeldAs(H, origin', u) {
      if Name(H, u) == Name(H, t) {
        SameName(H, w, u, t);
      } else {
        assert HeldAs(H, origin, u);
      }
    }
  }

  // ---------------------------------------------------------------- hashing into the database

  /** The database has what the store has, and under the right numbers. */
  ghost predicate Behind(H: Hasher, w: World, s: Store, db: D.Database)
    reads db
  {
    && db.Valid() && Backs(s, db.Contents(), db.disk) && Honest(H, w.known, db.past.origin)
    && Suits(H, w.known, db.past.rank)
  }

  /** What was first inserted stays so, nothing leaves the cache, and references stay. */
  ghost predicate Gains(f: D.Past, d: map<N.Hash, D.Entry>, f': D.Past, d': map<N.Hash, D.Entry>) {
    && D.Within(f.origin, f'.origin) && d.Keys <= d'.Keys && f'.rank == f.rank
    && forall h :: h in d ==> d'[h].node == d[h].node && d'[h].children == d[h].children
  }

  lemma GainsMore(f: D.Past, d: map<N.Hash, D.Entry>, f1: D.Past, d1: map<N.Hash, D.Entry>, f2: D.Past,
                  d2: map<N.Hash, D.Entry>)
    requires Gains(f, d, f1, d1) && Gains(f1, d1, f2, d2)
    ensures Gains(f, d, f2, d2)
  {
  }

  lemma GainsNothing(f: D.Past, d: map<N.Hash, D.Entry>)
    ensures Gains(f, d, f, d)
  {
  }

  lemma NothingReplaced(cache: D.Cache, disk: D.Disk, f: D.Past, hash: N.Hash, node: D.RawNode)
    requires D.CanInsert(cache, disk, f, hash, node)
    ensures D.Within(f.origin, f.origin[hash := node])
  {
    hide D.Gather;
  }

  /** `insert`, called by `store` for a collapsed node. */
  method InsertCollapsed(H: Hasher, db: D.Database, s: Store, h: Bytes, enc: Bytes, c: Node, ghost w: World,
                         ghost t: Trie)
    requires Sound(Env(H, 0, 0), w, map[]) && Named(H, w.known, t) && NodeForm(H, c, t) && KidsStored(H, s, t)
    requires Behind(H, w, s, db) && h == H(Enc(H, t))
    modifies db`dirties, db`oldest, db`newest, db`dirtiesSize, db`index, db`past
    ensures Behind(H, w, s[h := enc], db) && Gains(old(db.past), old(db.dirties), db.past, db.dirties)
  {
    hide Number, Enc, Known, NodeForm, KidsStored, Cached, Simplify, D.Gather, Sound, Named, Honest, Suits, D.CanInsert,
         D.Ready, N.Step;
    MayInsert(H, w, s, db.Contents(), db.Stored(), db.past, c, t);
    StaysHonest(H, w, db.past.origin, c, t);
    NothingReplaced(db.Contents(), db.Stored(), db.past, Number(h), Cached(Simplify(c)));
    db.Insert(Number(h), |enc|, Cached(Simplify(c)));
  }

  /** `hash` with a database: as without, and what is stored is inserted. */
  method HashInto(e: Env, db: D.Database, s: Store, p: Node, force: bool, ghost w: World, ghost t: Trie)
    returns (r: Hashed)
    requires Hashable(e, w, s, p, t, force) && Formed(p) && w.full && Behind(e.H, w, s, db)
    modifies db`dirties, db`oldest, db`newest, db`dirtiesSize, db`index, db`past
    ensures r == HashAt(e, s, true, p, force) && Behind(e.H, w, r.store, db)
    ensures Gains(old(db.past), old(db.dirties), db.past, db.dirties)
    decreases p, 1
  {
    hide Hashable, Sound, Rep, Stands, HashFits, KidsFit, HashAt, HashChildren, StoreNode, Formed, Behind, Gains;
    HashAtHand(e, w, s, true, p, t, force);
    HashAtExactly(e, s, p, force);
    GainsNothing(db.past, db.dirties);
    if !p.ShortNode? && !p.FullNode? {
      return Hashed(s, p, p);
    }
    if p.flags.hash.Some? {
      var h := HashNode(p.flags.hash.value);
      if CanUnload(e, p.flags) {
        return Hashed(s, h, h);
      }
      if !p.flags.dirty {
        return Hashed(s, h, p);
      }
    }
    var kids := ChildrenInto(e, db, s, p, force, w, t);
    ghost var f1, d1 := db.past, db.dirties;
    r := StoreNode(e, kids.store, true, kids.hashed, kids.cached, force);
    var enc := Encode(ItemOf(kids.hashed));
    var h := if kids.hashed.flags.hash.Some? then kids.hashed.flags.hash.value else e.H(enc);
    StoredAs(e, w, s, p, t, force, kids, h, enc);
    if |enc| >= HASH_LEN || force {
      InsertCollapsed(e.H, db, kids.store, h, enc, kids.hashed, w, t);
      GainsMore(old(db.past), old(db.dirties), f1, d1, db.past, db.dirties);
    }
  }

  /** What `store` writes, and that it may be inserted. */
  lemma StoredAs(e: Env, w: World, s: Store, p: Node, t: Trie, force: bool, kids: Hashed, h: Bytes, enc: Bytes)
    requires Hashable(e, w, s, p, t, force) && Formed(p) && (p.ShortNode? || p.FullNode?) && w.full
    requires kids == HashChildren(e, s, true, p) && (p.flags.hash.None? || p.flags.dirty)
    requires enc == Encode(ItemOf(kids.hashed))
             && h == if kids.hashed.flags.hash.Some? then kids.hashed.flags.hash.value else e.H(enc)
    ensures Sound(Env(e.H, 0, 0), w, map[]) && Named(e.H, w.known, t) && NodeForm(e.H, kids.hashed, t)
            && KidsStored(e.H, kids.store, t)
    ensures var r := StoreNode(e, kids.store, true, kids.hashed, kids.cached, force);
            if |enc| >= HASH_LEN || force then r.store == kids.store[h := enc] && h == e.H(Enc(e.H, t))
            else r.store == kids.store
  {
    hide Rep, ItemOf, NodeItem, NodeForm, HashChildren, KidsStored, KidsRep, RefStored, Known, Encode, Formed;
    ChildrenAgree(e, w, s, true, p, t, force);
    NodeFormItem(e.H, kids.hashed, t);
    FlagsOfRep(e, w, s, p, t, force);
  }

  /** `hashChildren` with a database. */
  method ChildrenInto(e: Env, db: D.Database, s: Store, p: Node, force: bool, ghost w: World, ghost t: Trie)
    returns (r: Hashed)
    requires Hashable(e, w, s, p, t, force) && Formed(p) && w.full && Behind(e.H, w, s, db)
    requires p.ShortNode? || p.FullNode?
    modifies db`dirties, db`oldest, db`newest, db`dirtiesSize, db`index, db`past
    ensures r == HashChildren(e, s, true, p) && Behind(e.H, w, r.store, db)
    ensures Gains(old(db.past), old(db.dirties), db.past, db.dirties)
    decreases p, 0
  {
    hide Hashable, Sound, Rep, HashAt, HashEntries, EntriesFit, Behind, Gains, Compact;
    GainsNothing(db.past, db.dirties);
    if p.ShortNode? {
      ValHashable(e, w, s, p, t, force);
      var v := Hashed(s, p.val, p.val);
      if !p.val.ValueNode? {
        v := HashInto(e, db, s, p.val, false, w, t.val);
      }
      return Hashed(v.store, ShortNode(Compact(p.key), v.hashed, p.flags), ShortNode(p.key, v.cached, p.flags));
    }
    var all := EntriesInto(e, db, s, p, force, w, t);
    return Hashed(all.store, FullNode(all.hashed + [p.children[16]], p.flags),
                  FullNode(all.cached + [p.children[16]], p.flags));
  }

  /** The loop of `hashChildren` with a database. */
  method EntriesInto(e: Env, db: D.Database, s: Store, p: Node, force: bool, ghost w: World, ghost t: Trie)
    returns (r: HashedAll)
    requires Hashable(e, w, s, p, t, force) && Formed(p) && w.full && Behind(e.H, w, s, db) && p.FullNode?
    modifies db`dirties, db`oldest, db`newest, db`dirtiesSize, db`index, db`past
    ensures r == HashEntries(e, s, true, p, 16) && Behind(e.H, w, r.store, db)
    ensures Gains(old(db.past), old(db.dirties), db.past, db.dirties)
    decreases p, 0, 0
  {
    hide Hashable, Sound, Rep, HashAt, EntriesFit, Behind, Gains;
    GainsNothing(db.past, db.dirties);
    r := HashedAll(s, [], []);
    for i := 0 to 16
      invariant r == HashEntries(e, s, true, p, i) && Behind(e.H, w, r.store, db)
      invariant Gains(old(db.past), old(db.dirties), db.past, db.dirties)
    {
      var c := p.children[i];
      if !c.NilNode? {
        ghost var f1, d1 := db.past, db.dirties;
        EntryReady(e, w, s, p, t, force, i);
        var h := HashInto(e, db, r.store, c, false, w, t.children[i]);
        GainsMore(old(db.past), old(db.dirties), f1, d1, db.past, db.dirties);
        r := HashedAll(h.store, r.hashed + [h.hashed], r.cached + [h.cached]);
      } else {
        r := HashedAll(r.store, r.hashed + [c], r.cached + [c]);
      }
    }
  }

  /** The next entry can be hashed once those before it are. */
  lemma EntryReady(e: Env, w: World, s: Store, p: Node, t: Trie, force: bool, i: nat)
    requires Hashable(e, w, s, p, t, force) && Formed(p) && p.FullNode? && i < 16 && !p.children[i].NilNode?
    ensures t.Full? && |t.children| == 17 && Formed(p.children[i])
    ensures Hashable(e, w, HashEntries(e, s, true, p, i).store, p.children[i], t.children[i], false)
  {
    hide Sound, Rep, HashAt, HashEntries, RefForm, RefStored, Known;
    HashEntriesAgree(e, w, s, true, p, t, force, i);
    EntryHashable(e, w, s, p, t, force, HashEntries(e, s, true, p, i).store, i);
  }

  /** The ways through `hash` when there is a database. */
  lemma HashAtExactly(e: Env, s: Store, p: Node, force: bool)
    requires Formed(p)
    ensures !p.ShortNode? && !p.FullNode? ==> HashAt(e, s, true, p, force) == Hashed(s, p, p)
    ensures p.ShortNode? || p.FullNode? ==>
              if p.flags.hash.Some? && CanUnload(e, p.flags) then
                var h := HashNode(p.flags.hash.value); HashAt(e, s, true, p, force) == Hashed(s, h, h)
              else if p.flags.hash.Some? && !p.flags.dirty then
                HashAt(e, s, true, p, force) == Hashed(s, HashNode(p.flags.hash.value), p)
              else
                var kids := HashChildren(e, s, true, p);
                HashAt(e, s, true, p, force) == StoreNode(e, kids.store, true, kids.hashed, kids.cached, force)
  {
    hide HashChildren, StoreNode;
  }

  // ---------------------------------------------------------------- commits

  lemma InOrigin(db: D.Database, n: N.Hash)
    requires db.Valid() && n != N.ZERO && (n in db.dirties || n in db.disk)
    ensures n in db.past.origin
  {
    hide N.Inv, D.Gather, D.Linked, D.Listed, D.Sized, D.History, N.Writable;
  }

  /** A node in the store has been inserted, collapsed. */
  lemma IsHeld(H: Hasher, w: World, s: Store, db: D.Database, t: Trie)
    requires Behind(H, w, s, db) && Named(H, w.known, t) && InStore(H, s, t)
    ensures HeldAs(H, db.past.origin, t) && Name(H, t) != N.ZERO && (Name(H, t) in db.dirties || Name(H, t) in db.disk)
  {
    hide D.Ready, Number, Enc, Known, HeldAs;
    InOrigin(db, Name(H, t));
  }

  lemma {:induction false} IsCommitted(H: Hasher, w: World, s: Store, db: D.Database, t: Trie)
    requires Behind(H, w, s, db) && Wf(t) && Known(H, w.known, t) && RefStored(H, s, t)
    ensures Committed(H, db.past.origin, t)
  {
    hide Behind, HeldAs, Enc;
    match t
    case Short(_, val) =>
      if Inner(val) && |Enc(H, val)| >= HASH_LEN { IsHeld(H, w, s, db, val); }
      IsCommitted(H, w, s, db, val);
    case Full(ch) =>
      forall i | 0 <= i < |ch| ensures Committed(H, db.past.origin, ch[i])
        ensures Inner(ch[i]) && |Enc(H, ch[i])| >= HASH_LEN ==> HeldAs(H, db.past.origin, ch[i])
      {
        if Inner(ch[i]) && |Enc(H, ch[i])| >= HASH_LEN { IsHeld(H, w, s, db, ch[i]); }
        IsCommitted(H, w, s, db, ch[i]);
      }
    case _ =>
  }

  /** `Commit` into a database: the trie is there as a whole, under the hash returned. */
  method CommitTo(tr: TrieObject, db: D.Database, ghost w: World) returns (h: Bytes)
    requires tr.Valid(w) && Trusted(tr.H, w, tr.trie) && w.full && Behind(tr.H, w, tr.store, db)
    modifies tr`root, tr`store, tr`cachegen
    modifies db`dirties, db`oldest, db`newest, db`dirtiesSize, db`index, db`past
    ensures tr.Valid(w) && h == Root(tr.H, tr.trie) && TrieHasher.Grows(old(tr.store), tr.store)
    ensures Behind(tr.H, w, tr.store, db) && Gains(old(db.past), old(db.dirties), db.past, db.dirties)
    ensures tr.trie != Nil ==>
              && HeldAs(tr.H, db.past.origin, tr.trie) && Committed(tr.H, db.past.origin, tr.trie)
              && Number(h) != N.ZERO && (Number(h) in db.dirties || Number(h) in db.disk)
  {
    hide CollisionFree, Addressed, Digest, Rep, HashAt, Gains, Behind, HeldAs, Committed, Number, Known;
    ghost var before := tr.Here();
    GainsNothing(db.past, db.dirties);
    if tr.root.NilNode? {
      h := tr.H(EMPTY);
      NilRep(before, w, tr.store, tr.root, tr.trie, true);
    } else {
      NilRep(before, w, tr.store, tr.root, tr.trie, true);
      HashAgrees(before, w, tr.store, true, tr.root, tr.trie, true);
      var r := HashInto(tr.Here(), db, tr.store, tr.root, true, w, tr.trie);
      tr.root, tr.store := r.cached, r.store;
      h := r.hashed.hash;
      IsHeld(tr.H, w, tr.store, db, tr.trie);
      IsCommitted(tr.H, w, tr.store, db, tr.trie);
    }
    tr.cachegen := (tr.cachegen + 1) % GENERATIONS;
    RepEnv(before, tr.Here(), w, tr.store, tr.root, tr.trie, true);
  }

  // ---------------------------------------------------------------- the assumptions can be met

  ghost function Height(t: Trie): nat
    decreases t, 1, 0
  {
    match t
    case Short(_, val) => 1 + Height(val)
    case Full(ch) => 1 + HeightUpTo(t, |ch|)
    case _ => 0
  }

  ghost function HeightUpTo(t: Trie, n: nat): nat
    requires t.Full? && n <= |t.children|
    decreases t, 0, n
  {
    if n == 0 then 0
    else
      var a, b := HeightUpTo(t, n - 1), Height(t.children[n - 1]);
      if a < b then b else a
  }

  lemma {:induction false} UpToHeight(t: Trie, n: nat, i: nat)
    requires t.Full? && i < n <= |t.children|
    ensures Height(t.children[i]) <= HeightUpTo(t, n)
  {
    if i < n - 1 { UpToHeight(t, n - 1, i); }
  }

  lemma {:induction false} InsideLower(u: Trie, t: Trie)
    requires Inside(u, t)
    ensures Height(u) < Height(t)
  {
    match t
    case Short(_, val) => if u != val { InsideLower(u, val); }
    case Full(ch) =>
      var i :| 0 <= i < |ch| && (u == ch[i] || Inside(u, ch[i]));
      UpToHeight(t, |ch|, i);
      if u != ch[i] { InsideLower(u, ch[i]); }
  }

  /** The height of the node that has this number. */
  ghost function Rank(H: Hasher, known: set<Bytes>, n: N.Hash): nat {
    if exists t :: Named(H, known, t) && Name(H, t) == n then
      var t :| Named(H, known, t) && Name(H, t) == n; Height(t)
    else 0
  }

  lemma RankIs(H: Hasher, w: World, t: Trie)
    requires Sound(Env(H, 0, 0), w, map[]) && Named(H, w.known, t)
    ensures Rank(H, w.known, Name(H, t)) == Height(t)
  {
    hide Sound, Known, Enc, Number, Height;
    var n := Name(H, t);
    assert exists u :: Named(H, w.known, u) && Name(H, u) == n;
    forall u | Named(H, w.known, u) && Name(H, u) == n ensures u == t { SameName(H, w, u, t); }
  }

  /** Heights make ranks, unless an encoding has the number of the meta-root. */
  lemma SuitsHeights(H: Hasher, w: World)
    requires Sound(Env(H, 0, 0), w, map[]) && forall b :: b in w.known ==> Number(H(b)) != N.ZERO
    ensures Suits(H, w.known, n => Rank(H, w.known, n))
  {
    hide Sound, Known, Enc, Number, Height, Rank, Inside;
    forall t | Named(H, w.known, t) ensures Name(H, t) != N.ZERO { KnownEnc(H, w.known, t); }
    forall t, u | Named(H, w.known, t) && Named(H, w.known, u) && Inside(u, t)
      ensures Rank(H, w.known, Name(H, u)) < Rank(H, w.known, Name(H, t))
    {
      RankIs(H, w, t);
      RankIs(H, w, u);
      InsideLower(u, t);
    }
  }

  /** An empty trie in front of an empty database. */
  method Begin(H: Hasher, ghost w: World) returns (tr: TrieObject, db: D.Database)
    requires Sound(Env(H, 0, 0), w, map[]) && forall b :: b in w.known ==> Number(H(b)) != N.ZERO
    ensures fresh(tr) && fresh(db) && tr.Valid(w) && tr.trie == Nil && tr.H == H && Behind(H, w, tr.store, db)
  {
    hide Sound, Rep, Suits, D.Ready, D.Gather, Number;
    SuitsHeights(H, w);
    tr := new TrieObject(H, map[], w);
    db := new D.Database(map[], n => Rank(H, w.known, n));
  }

  // ---------------------------------------------------------------- from a commit to a reopened trie

  lemma {:induction false} CommittedLater(H: Hasher, o: map<N.Hash, D.RawNode>, o': map<N.Hash, D.RawNode>, t: Trie)
    requires Wf(t) && D.Within(o, o') && Committed(H, o, t)
    ensures Committed(H, o', t) && (Inner(t) && HeldAs(H, o, t) ==> HeldAs(H, o', t))
  {
    hide Enc, Number, NodeForm, Cached, Simplify;
    match t
    case Short(_, val) => CommittedLater(H, o, o', val);
    case Full(ch) =>
      forall i | 0 <= i < |ch| ensures Committed(H, o', ch[i])
        ensures Inner(ch[i]) && HeldAs(H, o, ch[i]) ==> HeldAs(H, o', ch[i])
      {
        CommittedLater(H, o, o', ch[i]);
      }
    case _ =>
  }

  /** A trie that was committed at the first moment of a run, and whose root has been referenced
      more often than dereferenced in it, is opened by its root hash at the last. */
  method ReopenCommitted(H: Hasher, root: Bytes, store: Store, ghost w: World, ghost t: Trie,
                         ghost moments: seq<D.Moment>, ghost ops: seq<N.Op>)
    returns (r: TrieObject?)
    requires IsTrie(t) && t != Nil && Sound(Env(H, 0, 0), w, store) && Trusted(H, w, t) && w.full && Root(H, t) == root
    requires |moments| == |ops| + 1 && N.Run(seq(|moments|, k requires 0 <= k < |moments| => D.Seen(moments[k])), ops)
    requires HeldAs(H, moments[0].past.origin, t) && Committed(H, moments[0].past.origin, t)
    requires var m := moments[|ops|];
             && D.Good(m.cache, m.index, m.disk, m.past, {}, multiset{}) && Shows(m.cache, m.disk, store)
             && D.Within(moments[0].past.origin, m.past.origin) && N.Net(ops, Number(root)) > 0
             && forall k :: 0 <= k < |ops| && ops[k] == N.Refers(Number(root), N.ZERO) ==>
                  Number(root) in moments[k].cache.dirties || Number(root) in moments[k].disk.nodes
    ensures r != null && fresh(r) && r.Valid(w) && r.trie == t
  {
    hide D.Good, HeldAs, Shows, Committed, Number, N.Run, N.Net, D.Seen, Known, D.Within;
    CommittedLater(H, moments[0].past.origin, moments[|ops|].past.origin, t);
    r := Reopen(H, root, store, w, t, moments, ops);
  }

  ghost function This(db: D.Database): D.Moment
    reads db
  {
    D.Moment(db.Contents(), db.index, db.Stored(), db.past)
  }

  /** The meta-root can count one more reference. */
  ghost predicate MayHold(db: D.Database, n: N.Hash)
    reads db
  {
    N.ZERO in db.dirties && (n in db.dirties[N.ZERO].children ==> db.dirties[N.ZERO].children[n] < N.MAX_UINT16)
  }

  lemma HoldsMore(H: Hasher, w: World, s: Store, db: D.Database, f: D.Past, d: map<N.Hash, D.Entry>, n: N.Hash)
    requires Behind(H, w, s, db) && Gains(f, d, db.past, db.dirties) && n != N.ZERO
    requires N.ZERO in d && (n in d[N.ZERO].children ==> d[N.ZERO].children[n] < N.MAX_UINT16)
    ensures db.Valid() && D.CanReference(db.Contents(), db.Stored(), db.past, n, N.ZERO)
  {
    hide D.Ready, Honest, Suits, Backs;
  }

  /** The run that references a committed root and caps the cache. */
  lemma HeldThrough(e: Env, w: World, s: Store, m0: D.Moment, m1: D.Moment, m2: D.Moment, t: Trie)
    requires Sound(e, w, s) && IsTrie(t) && t != Nil && Known(e.H, w.known, t)
    requires HeldAs(e.H, m0.past.origin, t) && Committed(e.H, m0.past.origin, t) && m2.past.origin == m0.past.origin
    requires Number(Root(e.H, t)) in m0.cache.dirties || Number(Root(e.H, t)) in m0.disk.nodes
    requires N.Step(D.Seen(m0), N.Refers(Number(Root(e.H, t)), N.ZERO), D.Seen(m1))
             && N.Step(D.Seen(m1), N.Stores, D.Seen(m2))
    requires D.Good(m2.cache, m2.index, m2.disk, m2.past, {}, multiset{})
    ensures forall store :: Shows(m2.cache, m2.disk, store) ==> AllStored(e.H, store, t)
  {
    hide D.Good, HeldAs, Shows, Committed, Number, N.Step, D.Seen, Known, AllStored, Root;
    var moments, ops := [m0, m1, m2], [N.Refers(Number(Root(e.H, t)), N.ZERO), N.Stores];
    NetIsOne(Number(Root(e.H, t)));
    assert N.Run(seq(|moments|, k requires 0 <= k < |moments| => D.Seen(moments[k])), ops);
    forall store | Shows(m2.cache, m2.disk, store) ensures AllStored(e.H, store, t) {
      KeptThrough(e.H, w.known, moments, ops, store, t);
    }
  }

  lemma NetIsOne(n: N.Hash)
    ensures N.Net([N.Refers(n, N.ZERO), N.Stores], n) == 1
  {
    var ops := [N.Refers(n, N.ZERO), N.Stores];
    assert ops[..1] == [N.Refers(n, N.ZERO)] && [N.Refers(n, N.ZERO)][..0] == [];
    assert N.Net([N.Refers(n, N.ZERO)], n) == N.Net([], n) + 1;
  }

  /** A trie is committed, its root is referenced, and the cache is capped, which may fail: whatever
      store shows the database then has the trie as a whole. */
  method CommitAndHold(tr: TrieObject, db: D.Database, limit: int, ghost w: World) returns (h: Bytes, ok: bool)
    requires tr.Valid(w) && Trusted(tr.H, w, tr.trie) && tr.trie != Nil && w.full && Behind(tr.H, w, tr.store, db)
    requires MayHold(db, Number(Root(tr.H, tr.trie)))
    modifies tr, db
    ensures tr.Valid(w) && tr.trie == old(tr.trie) && h == Root(tr.H, tr.trie) && db.Valid()
    ensures forall store :: Shows(db.Contents(), db.Stored(), store) ==> AllStored(tr.H, store, tr.trie)
  {
    hide Sound, Rep, Behind, Gains, HeldAs, Committed, Number, Known, D.Ready, D.CanReference, D.Good, N.Step, Shows,
         AllStored, Root, D.Gather, D.OnlyStoredLeft, D.Longer, D.SameLinks, D.Within, D.Referenced;
    h := CommitTo(tr, db, w);
    HoldsMore(tr.H, w, tr.store, db, old(db.past), old(db.dirties), Number(h));
    ghost var m0 := This(db);
    db.Reference(Number(h), N.ZERO);
    ghost var m1 := This(db);
    ok := db.Cap(limit);
    D.ReadyIsGood(db.Contents(), db.index, db.past, db.disk, db.trail);
    HeldThrough(tr.Here(), w, tr.store, m0, m1, This(db), tr.trie);
  }
}
