/**
 The trie as the program holds it: nodes carry caching flags, parts may be present only by hash
 and are loaded from a store on demand, hashing collapses nodes bottom-up and a commit moves
 them to the store. Every operation is related to the fully loaded trie it stands for.
 */
module LazyTrie {
  import opened Common
  import opened Rlp
  import opened MerkleTrie
  import opened HexPrefix
  import opened TrieNode

  type Store = map<Bytes, Bytes>

  /** What operations depend on besides nodes and the store. */
  datatype Env = Env(H: Hasher, gen: nat, limit: nat)

  /** What the proofs are about: a set of encodings on which the hash is collision-free, and
      whether everything that is not in memory is known to be in the store. */
  datatype World = World(known: set<Bytes>, full: bool)

  ghost predicate CollisionFree(H: Hasher, known: set<Bytes>) {
    forall a, b :: a in known && b in known && H(a) == H(b) ==> a == b
  }

  /** Every stored blob lies under its own hash. */
  ghost predicate Addressed(H: Hasher, known: set<Bytes>, s: Store) {
    forall h :: h in s ==> s[h] in known && H(s[h]) == h
  }

  ghost predicate Sound(e: Env, w: World, s: Store) {
    && Digest(e.H) && CollisionFree(e.H, w.known) && Addressed(e.H, w.known, s)
    && (forall b :: b in w.known ==> |b| <= MAX_INT64)
  }

  // ---------------------------------------------------------------- representation

  /** All encodings that belong to a trie are among those considered. */
  ghost predicate Known(H: Hasher, known: set<Bytes>, t: Trie)
    requires Wf(t)
  {
    match t
    case Nil => true
    case Value(_) => true
    case Short(_, val) => Enc(H, t) in known && Known(H, known, val)
    case Full(ch) => Enc(H, t) in known && forall i :: 0 <= i < |ch| ==> Known(H, known, ch[i])
  }

  ghost predicate Inner(t: Trie) {
    t.Short? || t.Full?
  }

  /** The node itself is in the store. */
  ghost predicate InStore(H: Hasher, s: Store, t: Trie)
    requires Wf(t) && Inner(t)
  {
    H(Enc(H, t)) in s && s[H(Enc(H, t))] == Enc(H, t)
  }

  /** Whatever is reached by hash from a parent of this node is in the store. */
  ghost predicate RefStored(H: Hasher, s: Store, t: Trie)
    requires Wf(t)
  {
    match t
    case Nil => true
    case Value(_) => true
    case Short(_, val) =>
      (|Enc(H, t)| >= HASH_LEN ==> InStore(H, s, t)) && RefStored(H, s, val)
    case Full(ch) =>
      && (|Enc(H, t)| >= HASH_LEN ==> InStore(H, s, t))
      && forall i :: 0 <= i < |ch| ==> RefStored(H, s, ch[i])
  }

  /** The node and everything below it is in the store. */
  ghost predicate AllStored(H: Hasher, s: Store, t: Trie)
    requires Wf(t) && Inner(t)
  {
    InStore(H, s, t) && RefStored(H, s, t)
  }

  /** A hash that may stand for a node: only a root may be shorter than a hash. */
  ghost predicate Stands(e: Env, w: World, s: Store, h: Bytes, t: Trie, root: bool, stored: bool)
    requires Wf(t) && Inner(t)
  {
    && h == e.H(Enc(e.H, t)) && (root || |Enc(e.H, t)| >= HASH_LEN)
    && (w.full && stored ==> AllStored(e.H, s, t))
  }

  /** The cached hash of a node is right, an unmodified node with a hash is in the store, and an
      unmodified node without one is embedded in its parent. */
  ghost predicate FlagsOk(e: Env, w: World, s: Store, fl: Flags, t: Trie, root: bool)
    requires Wf(t) && Inner(t)
  {
    match fl.hash
    case Some(h) => Stands(e, w, s, h, t, root, !fl.dirty)
    case None => fl.dirty || (!root && |Enc(e.H, t)| < HASH_LEN)
  }

  /** A node in memory stands for a trie. */
  ghost predicate Rep(e: Env, w: World, s: Store, p: Node, t: Trie, root: bool)
    requires Wf(t)
  {
    match p
    case NilNode => t == Nil
    case ValueNode(v) => t == Value(v)
    case ShortNode(key, val, fl) =>
      t.Short? && t.key == key && Rep(e, w, s, val, t.val, false) && FlagsOk(e, w, s, fl, t, root)
    case FullNode(ch, fl) =>
      && t.Full? && |ch| == 17 && FlagsOk(e, w, s, fl, t, root)
      && forall i :: 0 <= i < 17 ==> Rep(e, w, s, ch[i], t.children[i], false)
    case HashNode(h) => Inner(t) && Stands(e, w, s, h, t, root, true)
  }

  // ---------------------------------------------------------------- loading

  /** `Database.node`, read through the RLP form; nothing when the hash is unknown. */
  function Resolve(e: Env, s: Store, h: Bytes): Option<Node> {
    if h in s then DecodeNode(Some(h), s[h], e.gen) else None
  }

  lemma {:induction false} ReferredRep(e: Env, w: World, s: Store, t: Trie)
    requires Wf(t) && (w.full ==> RefStored(e.H, s, t))
    ensures Rep(e, w, s, Referred(e.H, e.gen, t), t, false)
    decreases t, 1
  {
    if Inner(t) && |Enc(e.H, t)| < HASH_LEN {
      LoadedRep(e, w, s, t, None, false);
    }
  }

  lemma {:induction false} LoadedRep(e: Env, w: World, s: Store, t: Trie, hash: Option<Bytes>, root: bool)
    requires Wf(t) && Inner(t) && (w.full ==> RefStored(e.H, s, t))
    requires hash.Some? ==> Stands(e, w, s, hash.value, t, root, true)
    requires hash.None? ==> !root && |Enc(e.H, t)| < HASH_LEN
    ensures Rep(e, w, s, Loaded(e.H, hash, e.gen, t), t, root)
    decreases t, 0
  {
    match t
    case Short(key, val) =>
      ReferredRep(e, w, s, val);
    case Full(ch) =>
      forall i | 0 <= i < 17 ensures Rep(e, w, s, Referred(e.H, e.gen, ch[i]), ch[i], false) {
        ReferredRep(e, w, s, ch[i]);
      }
  }

  /** Loading a hash gives the node it stands for, if the store has anything under it. */
  lemma ResolveRep(e: Env, w: World, s: Store, h: Bytes, t: Trie, root: bool)
    requires Sound(e, w, s) && Wf(t) && Inner(t) && Known(e.H, w.known, t)
    requires Stands(e, w, s, h, t, root, true)
    ensures w.full ==> h in s
    ensures h in s ==> Resolve(e, s, h) == Some(Loaded(e.H, Some(h), e.gen, t))
    ensures h in s ==> Rep(e, w, s, Loaded(e.H, Some(h), e.gen, t), t, root)
  {
    if h in s {
      assert Enc(e.H, t) in w.known;
      assert s[h] == Enc(e.H, t);
      DecodeEnc(e.H, Some(h), t, [], e.gen);
      assert Enc(e.H, t) + [] == Enc(e.H, t);
      LoadedRep(e, w, s, t, Some(h), root);
    }
  }

  // ---------------------------------------------------------------- lookup

  datatype Got = Got(value: Option<Bytes>, node: Node, resolved: bool) | Missing

  /** Where a lookup or an update may stand. */
  ghost predicate At(e: Env, w: World, s: Store, p: Node, t: Trie, k: Bytes, root: bool) {
    Sound(e, w, s) && Asks(t, k) && Known(e.H, w.known, t) && Rep(e, w, s, p, t, root)
  }

  /** Down a short node whose run matches. */
  lemma AtShort(e: Env, w: World, s: Store, p: Node, t: Trie, k: Bytes, root: bool)
    requires At(e, w, s, p, t, k, root) && p.ShortNode? && StartsWith(k, p.key)
    ensures t.Short? && t.key == p.key && At(e, w, s, p.val, t.val, k[|p.key|..], false)
  {
    IntoShort(t, k);
  }

  lemma AtFull(e: Env, w: World, s: Store, p: Node, t: Trie, k: Bytes, root: bool)
    requires At(e, w, s, p, t, k, root) && p.FullNode?
    ensures t.Full? && |p.children| == |t.children| == 17 && |k| > 0 && k[0] <= 16
    ensures At(e, w, s, p.children[k[0]], t.children[k[0]], k[1..], false)
  {
    IntoFull(t, k);
  }

  lemma AtHash(e: Env, w: World, s: Store, p: Node, t: Trie, k: Bytes, root: bool)
    requires At(e, w, s, p, t, k, root) && p.HashNode?
    ensures w.full ==> Resolve(e, s, p.hash).Some?
    ensures Resolve(e, s, p.hash).Some? ==>
              && Resolve(e, s, p.hash).value == Loaded(e.H, Some(p.hash), e.gen, t)
              && At(e, w, s, Resolve(e, s, p.hash).value, t, k, root)
              && !Resolve(e, s, p.hash).value.HashNode?
  {
    ResolveRep(e, w, s, p.hash, t, root);
  }

  /** `tryGet`: the value, and the node with what was loaded on the way put in. */
  function TryGet(e: Env, s: Store, p: Node, k: Bytes, ghost w: World, ghost t: Trie, ghost root: bool): Got
    requires At(e, w, s, p, t, k, root)
    decreases t, p.HashNode?
  {
    match p
    case NilNode => Got(None, NilNode, false)
    case ValueNode(v) => Got(Some(v), p, false)
    case ShortNode(key, val, fl) =>
      if !StartsWith(k, key) then Got(None, p, false)
      else
        AtShort(e, w, s, p, t, k, root);
        var r := TryGet(e, s, val, k[|key|..], w, t.val, false);
        if r.Got? && r.resolved then Got(r.value, ShortNode(key, r.node, fl.(gen := e.gen)), true)
        else if r.Got? then Got(r.value, p, false)
        else Missing
    case FullNode(ch, fl) =>
      AtFull(e, w, s, p, t, k, root);
      var r := TryGet(e, s, ch[k[0]], k[1..], w, t.children[k[0]], false);
      if r.Got? && r.resolved then Got(r.value, FullNode(ch[k[0] := r.node], fl.(gen := e.gen)), true)
      else if r.Got? then Got(r.value, p, false)
      else Missing
    case HashNode(h) =>
      AtHash(e, w, s, p, t, k, root);
      var c := Resolve(e, s, h);
      if c.None? then Missing
      else
        var r := TryGet(e, s, c.value, k, w, t, root);
        if r.Got? then Got(r.value, r.node, true) else Missing
  }

  /** A lookup answers as the trie does and leaves a node that stands for the same trie; it
      cannot miss a node when all are there. */
  lemma {:induction false} TryGetAgrees(e: Env, w: World, s: Store, p: Node, t: Trie, k: Bytes, root: bool)
    requires At(e, w, s, p, t, k, root)
    ensures var r := TryGet(e, s, p, k, w, t, root);
            && (w.full ==> r.Got?)
            && (r.Got? ==> r.value == Get(t, k) && Rep(e, w, s, r.node, t, root))
            && (r.Got? && !r.resolved ==> r.node == p)
    decreases t, p.HashNode?
  {
    hide Sound, Known, Resolve, Loaded, Stands, DecodeNode;
    match p
    case NilNode =>
    case ValueNode(v) =>
    case ShortNode(key, val, fl) =>
      if StartsWith(k, key) {
        AtShort(e, w, s, p, t, k, root);
        TryGetAgrees(e, w, s, val, t.val, k[|key|..], false);
      }
    case FullNode(ch, fl) =>
      AtFull(e, w, s, p, t, k, root);
      TryGetAgrees(e, w, s, ch[k[0]], t.children[k[0]], k[1..], false);
    case HashNode(h) =>
      AtHash(e, w, s, p, t, k, root);
      if Resolve(e, s, h).Some? {
        TryGetAgrees(e, w, s, Resolve(e, s, h).value, t, k, root);
      }
  }

  // ---------------------------------------------------------------- insertion

  /** The outcome of an update: whether anything changed, and the node to use from now on. */
  datatype Changed = Changed(dirty: bool, node: Node) | Lost

  function NewFlag(e: Env): Flags {
    Flags(None, e.gen, true)
  }

  function NoChildren(): (r: seq<Node>)
    ensures |r| == 17 && forall i :: 0 <= i < 17 ==> r[i] == NilNode
  {
    seq(17, _ => NilNode)
  }

  /** What inserting into an empty place gives. */
  function NewLeaf(e: Env, key: Bytes, val: Node): Node {
    if key == [] then val else ShortNode(key, val, NewFlag(e))
  }

  /** A full node with two entries where two runs part. */
  function NewBranch(e: Env, a: Bytes, va: Node, b: Bytes, vb: Node): Node
    requires |a| > 0 && |b| > 0 && a[0] <= 16 && b[0] <= 16
  {
    FullNode(NoChildren()[a[0] := NewLeaf(e, a[1..], va)][b[0] := NewLeaf(e, b[1..], vb)], NewFlag(e))
  }

  /** The node that takes the place of a short node where a key leaves its run. */
  function BranchOut(e: Env, run: Bytes, val: Node, k: Bytes, v: Bytes): Node
    requires IsKey(k) && Run(run) && PrefixLen(k, run) < |run|
  {
    PartWays(k, run);
    var m := PrefixLen(k, run);
    var branch := NewBranch(e, run[m..], val, k[m..], ValueNode(v));
    if m == 0 then branch else ShortNode(k[..m], branch, NewFlag(e))
  }

  /** `insert` */
  function InsertAt(e: Env, s: Store, p: Node, k: Bytes, v: Bytes,
                    ghost w: World, ghost t: Trie, ghost root: bool): Changed
    requires At(e, w, s, p, t, k, root)
    decreases t, p.HashNode?
  {
    if k == [] then
      if p.ValueNode? then Changed(p.v != v, ValueNode(v)) else Changed(true, ValueNode(v))
    else
      match p
      case ShortNode(key, val, _) =>
        var m := PrefixLen(k, key);
        if m == |key| then
          AtShort(e, w, s, p, t, k, root);
          var r := InsertAt(e, s, val, k[m..], v, w, t.val, false);
          if r.Lost? then Lost
          else if !r.dirty then Changed(false, p)
          else Changed(true, ShortNode(key, r.node, NewFlag(e)))
        else Changed(true, BranchOut(e, key, val, k, v))
      case FullNode(ch, _) =>
        AtFull(e, w, s, p, t, k, root);
        var r := InsertAt(e, s, ch[k[0]], k[1..], v, w, t.children[k[0]], false);
        if r.Lost? then Lost
        else if !r.dirty then Changed(false, p)
        else Changed(true, FullNode(ch[k[0] := r.node], NewFlag(e)))
      case NilNode => Changed(true, ShortNode(k, ValueNode(v), NewFlag(e)))
      case HashNode(h) =>
        AtHash(e, w, s, p, t, k, root);
        var c := Resolve(e, s, h);
        if c.None? then Lost
        else
          var r := InsertAt(e, s, c.value, k, v, w, t, root);
          if r.Lost? then Lost
          else if !r.dirty then Changed(false, c.value)
          else Changed(true, r.node)
  }

  lemma FreshShort(e: Env, w: World, s: Store, key: Bytes, val: Node, tv: Trie, root: bool)
    requires Wf(Short(key, tv)) && Rep(e, w, s, val, tv, false)
    ensures Rep(e, w, s, ShortNode(key, val, NewFlag(e)), Short(key, tv), root)
  {
  }

  lemma FreshFull(e: Env, w: World, s: Store, ch: seq<Node>, tch: seq<Trie>, root: bool)
    requires Wf(Full(tch)) && |ch| == 17
    requires forall i :: 0 <= i < 17 ==> Rep(e, w, s, ch[i], tch[i], false)
    ensures Rep(e, w, s, FullNode(ch, NewFlag(e)), Full(tch), root)
  {
  }

  /** A full node with one entry replaced. */
  lemma FreshEntry(e: Env, w: World, s: Store, p: Node, t: Trie, i: nat, n: Node, tn: Trie, r: bool, root: bool)
    requires p.FullNode? && Wf(t) && Rep(e, w, s, p, t, r) && i < 17
    requires Wf(tn) && Rep(e, w, s, n, tn, false) && Wf(Full(t.children[i := tn]))
    ensures Rep(e, w, s, FullNode(p.children[i := n], NewFlag(e)), Full(t.children[i := tn]), root)
  {
    hide FlagsOk;
    var ch, tch := p.children[i := n], t.children[i := tn];
    forall j | 0 <= j < 17 ensures Rep(e, w, s, ch[j], tch[j], false) {
      assert j != i ==> Rep(e, w, s, p.children[j], t.children[j], false);
    }
    FreshFull(e, w, s, ch, tch, root);
  }

  /** A leaf made here stands for a leaf of the trie. */
  lemma NewLeafRep(e: Env, w: World, s: Store, run: Bytes, val: Node, tv: Trie)
    requires Wf(Short(run, tv)) && Rep(e, w, s, val, tv, false)
    ensures Wf(Leaf(run[1..], tv)) && Rep(e, w, s, NewLeaf(e, run[1..], val), Leaf(run[1..], tv), false)
  {
    LeafWf(run, tv);
  }

  lemma NewBranchRep(e: Env, w: World, s: Store, a: Bytes, va: Node, ta: Trie, b: Bytes, vb: Node, tb: Trie, root: bool)
    requires Wf(Short(a, ta)) && Rep(e, w, s, va, ta, false)
    requires Wf(Short(b, tb)) && Rep(e, w, s, vb, tb, false)
    requires a[0] != b[0]
    ensures a[0] <= 16 && b[0] <= 16 && Wf(Branch(a, ta, b, tb))
    ensures Rep(e, w, s, NewBranch(e, a, va, b, vb), Branch(a, ta, b, tb), root)
  {
    hide NewLeaf, Leaf, Rep, Wf;
    RunsOf(a, ta);
    RunsOf(b, tb);
    BranchWf(a, ta, b, tb);
    NewLeafRep(e, w, s, a, va, ta);
    NewLeafRep(e, w, s, b, vb, tb);
    var ch, tch := NewBranch(e, a, va, b, vb).children, Branch(a, ta, b, tb).children;
    forall i | 0 <= i < 17 ensures Wf(tch[i]) && Rep(e, w, s, ch[i], tch[i], false) {
      NothingRep(e, w, s);
      if i != a[0] && i != b[0] { assert ch[i] == NilNode && tch[i] == Nil; }
    }
    FreshFull(e, w, s, ch, tch, root);
  }

  lemma RunsOf(key: Bytes, val: Trie)
    requires Wf(Short(key, val))
    ensures Run(key) && |key| > 0 && Wf(val) && (if HasTerm(key) then val.Value? else val.Full?)
  {
  }

  lemma NothingRep(e: Env, w: World, s: Store)
    ensures Wf(Nil) && Rep(e, w, s, NilNode, Nil, false)
  {
  }

  lemma BranchOutRep(e: Env, w: World, s: Store, run: Bytes, val: Node, tv: Trie, k: Bytes, v: Bytes, root: bool)
    requires Wf(Short(run, tv)) && Rep(e, w, s, val, tv, false)
    requires IsKey(k) && |v| > 0 && PrefixLen(k, run) < |run|
    ensures Wf(Insert(Short(run, tv), k, v))
    ensures Rep(e, w, s, BranchOut(e, run, val, k, v), Insert(Short(run, tv), k, v), root)
  {
    hide Rep, NewBranch, Branch;
    var m := PrefixLen(k, run);
    PartedWf(run, tv, k, v);
    PartWays(k, run);
    RunDrop(run, m);
    RunDrop(k, m);
    assert Rep(e, w, s, ValueNode(v), Value(v), false) by { ValueRep(e, w, s, v); }
    NewBranchRep(e, w, s, run[m..], val, tv, k[m..], ValueNode(v), Value(v), if m == 0 then root else false);
    if m > 0 {
      FreshShort(e, w, s, k[..m], BranchOut(e, run, val, k, v).val, Insert(Short(run, tv), k, v).val, root);
    }
  }

  lemma ValueRep(e: Env, w: World, s: Store, v: Bytes)
    requires |v| > 0
    ensures forall root :: Rep(e, w, s, ValueNode(v), Value(v), root)
  {
  }

  /** An insertion commutes with what nodes stand for, reports a change exactly when the trie
      changes, and does not fail when all nodes are there. */
  ghost predicate InsertFits(e: Env, w: World, s: Store, t: Trie, k: Bytes, v: Bytes, root: bool, r: Changed)
    requires Asks(t, k)
  {
    var t' := Insert(t, k, v);
    && Wf(t')
    && (w.full ==> r.Changed?)
    && (r.Changed? ==> (r.dirty <==> t' != t) && Rep(e, w, s, r.node, t', root))
    && (r.Changed? && r.dirty ==> Rep(e, w, s, r.node, t', false))
  }

  lemma InsertShortStep(e: Env, w: World, s: Store, p: Node, t: Trie, k: Bytes, v: Bytes, root: bool)
    requires At(e, w, s, p, t, k, root) && p.ShortNode? && |v| > 0 && PrefixLen(k, p.key) == |p.key|
    requires At(e, w, s, p.val, t.val, k[|p.key|..], false)
    ensures Wf(t) && Rep(e, w, s, p, t, root) && t.Short? && t.key == p.key
    ensures Insert(t, k, v) == Short(p.key, Insert(t.val, k[|p.key|..], v))
    ensures var r := InsertAt(e, s, p.val, k[|p.key|..], v, w, t.val, false);
            InsertAt(e, s, p, k, v, w, t, root) ==
            if r.Lost? then Lost
            else if !r.dirty then Changed(false, p)
            else Changed(true, ShortNode(p.key, r.node, NewFlag(e)))
  {
    hide Sound, Known, Stands, FlagsOk;
    assert k != [];
  }

  lemma InsertShortCase(e: Env, w: World, s: Store, p: Node, t: Trie, k: Bytes, v: Bytes, root: bool)
    requires At(e, w, s, p, t, k, root) && p.ShortNode? && |v| > 0 && PrefixLen(k, p.key) == |p.key|
    requires At(e, w, s, p.val, t.val, k[|p.key|..], false)
    requires InsertFits(e, w, s, t.val, k[|p.key|..], v, false,
                        InsertAt(e, s, p.val, k[|p.key|..], v, w, t.val, false))
    ensures InsertFits(e, w, s, t, k, v, root, InsertAt(e, s, p, k, v, w, t, root))
  {
    hide Sound, Known, Rep, InsertAt, Insert, Asks, Wf;
    InsertShortStep(e, w, s, p, t, k, v, root);
    InsertWf(t, k, v);
    var r := InsertAt(e, s, p.val, k[|p.key|..], v, w, t.val, false);
    if r.Changed? && r.dirty {
      FreshShort(e, w, s, p.key, r.node, Insert(t.val, k[|p.key|..], v), false);
      FreshShort(e, w, s, p.key, r.node, Insert(t.val, k[|p.key|..], v), root);
    }
  }

  lemma InsertFullStep(e: Env, w: World, s: Store, p: Node, t: Trie, k: Bytes, v: Bytes, root: bool)
    requires At(e, w, s, p, t, k, root) && p.FullNode? && |v| > 0
    requires |p.children| == 17 && |k| > 0 && k[0] <= 16
    requires At(e, w, s, p.children[k[0]], t.children[k[0]], k[1..], false)
    ensures Wf(t) && Rep(e, w, s, p, t, root) && t.Full? && |t.children| == 17
    ensures Insert(t, k, v) == Full(t.children[k[0] := Insert(t.children[k[0]], k[1..], v)])
    ensures var r := InsertAt(e, s, p.children[k[0]], k[1..], v, w, t.children[k[0]], false);
            InsertAt(e, s, p, k, v, w, t, root) ==
            if r.Lost? then Lost
            else if !r.dirty then Changed(false, p)
            else Changed(true, FullNode(p.children[k[0] := r.node], NewFlag(e)))
  {
    hide Sound, Known, Stands, FlagsOk;
  }

  lemma InsertFullCase(e: Env, w: World, s: Store, p: Node, t: Trie, k: Bytes, v: Bytes, root: bool)
    requires At(e, w, s, p, t, k, root) && p.FullNode? && |v| > 0
    requires |p.children| == 17 && |k| > 0 && k[0] <= 16
    requires At(e, w, s, p.children[k[0]], t.children[k[0]], k[1..], false)
    requires InsertFits(e, w, s, t.children[k[0]], k[1..], v, false,
                        InsertAt(e, s, p.children[k[0]], k[1..], v, w, t.children[k[0]], false))
    ensures InsertFits(e, w, s, t, k, v, root, InsertAt(e, s, p, k, v, w, t, root))
  {
    hide Sound, Known, Rep, InsertAt, Insert, Asks, Wf;
    InsertFullStep(e, w, s, p, t, k, v, root);
    InsertWf(t, k, v);
    var r := InsertAt(e, s, p.children[k[0]], k[1..], v, w, t.children[k[0]], false);
    var tn := Insert(t.children[k[0]], k[1..], v);
    assert t.children[k[0] := tn][k[0]] == tn;
    assert tn == t.children[k[0]] ==> t.children[k[0] := tn] == t.children;
    if r.Changed? && r.dirty {
      FreshEntry(e, w, s, p, t, k[0], r.node, tn, root, false);
      FreshEntry(e, w, s, p, t, k[0], r.node, tn, root, root);
    }
  }

  lemma InsertEnds(e: Env, w: World, s: Store, p: Node, t: Trie, k: Bytes, v: Bytes, root: bool)
    requires At(e, w, s, p, t, k, root) && |v| > 0 && (k == [] || p.NilNode?)
    ensures InsertFits(e, w, s, t, k, v, root, InsertAt(e, s, p, k, v, w, t, root))
  {
    hide Sound, Known;
    InsertWf(t, k, v);
    ValueRep(e, w, s, v);
    if k != [] {
      FreshShort(e, w, s, k, ValueNode(v), Value(v), false);
      FreshShort(e, w, s, k, ValueNode(v), Value(v), root);
    }
  }

  lemma InsertHashCase(e: Env, w: World, s: Store, p: Node, t: Trie, k: Bytes, v: Bytes, root: bool)
    requires At(e, w, s, p, t, k, root) && p.HashNode? && |v| > 0 && Resolve(e, s, p.hash).Some?
    requires At(e, w, s, Resolve(e, s, p.hash).value, t, k, root) && !Resolve(e, s, p.hash).value.HashNode?
    requires InsertFits(e, w, s, t, k, v, root, InsertAt(e, s, Resolve(e, s, p.hash).value, k, v, w, t, root))
    ensures InsertFits(e, w, s, t, k, v, root, InsertAt(e, s, p, k, v, w, t, root))
  {
    hide Sound, Known, Stands, Resolve;
    assert Inner(t) && k != [];
  }

  lemma {:induction false} InsertAgrees(e: Env, w: World, s: Store, p: Node, t: Trie, k: Bytes, v: Bytes, root: bool)
    requires At(e, w, s, p, t, k, root) && |v| > 0
    ensures InsertFits(e, w, s, t, k, v, root, InsertAt(e, s, p, k, v, w, t, root))
    decreases t, p.HashNode?
  {
    hide Sound, Known, Resolve, Loaded, Stands, DecodeNode, BranchOut;
    if k == [] || p.NilNode? {
      InsertEnds(e, w, s, p, t, k, v, root);
    } else if p.ShortNode? {
      if PrefixLen(k, p.key) == |p.key| {
        AtShort(e, w, s, p, t, k, root);
        InsertAgrees(e, w, s, p.val, t.val, k[|p.key|..], v, false);
        InsertShortCase(e, w, s, p, t, k, v, root);
      } else {
        BranchOutRep(e, w, s, p.key, p.val, t.val, k, v, false);
        BranchOutRep(e, w, s, p.key, p.val, t.val, k, v, root);
        BranchesOut(t, k, v);
      }
    } else if p.FullNode? {
      AtFull(e, w, s, p, t, k, root);
      InsertAgrees(e, w, s, p.children[k[0]], t.children[k[0]], k[1..], v, false);
      InsertFullCase(e, w, s, p, t, k, v, root);
    } else {
      AtHash(e, w, s, p, t, k, root);
      if Resolve(e, s, p.hash).Some? {
        InsertAgrees(e, w, s, Resolve(e, s, p.hash).value, t, k, v, root);
        InsertHashCase(e, w, s, p, t, k, v, root);
      } else {
        InsertWf(t, k, v);
      }
    }
  }

  /** A key that leaves a run changes the node. */
  lemma BranchesOut(t: Trie, k: Bytes, v: Bytes)
    requires t.Short? && Asks(t, k) && PrefixLen(k, t.key) < |t.key|
    ensures Insert(t, k, v) != t
  {
  }

  // ---------------------------------------------------------------- deletion

  /** The only entry in use: -1 when there is none, -2 when there are several. */
  function LoneNode(ch: seq<Node>): (pos: int)
    ensures -2 <= pos < |ch|
  {
    if ch == [] then -1
    else
      var last := |ch| - 1;
      var pos := LoneNode(ch[..last]);
      if ch[last] == NilNode then pos else if pos == -1 then last else -2
  }

  /** The search loop of `delete`, which stops at the second entry in use. */
  method FindLone(ch: seq<Node>) returns (pos: int)
    ensures pos == LoneNode(ch)
  {
    pos := -1;
    var i := 0;
    while i < |ch|
      invariant 0 <= i <= |ch| && pos == LoneNode(ch[..i]) && pos >= -1
    {
      assert ch[..i + 1][..i] == ch[..i];
      if ch[i] != NilNode {
        if pos == -1 {
          pos := i;
        } else {
          pos := -2;
          SeveralStay(ch, i + 1);
          return;
        }
      }
      i := i + 1;
    }
    assert ch[..i] == ch;
  }

  lemma {:induction false} SeveralStay(ch: seq<Node>, i: nat)
    requires i <= |ch| && LoneNode(ch[..i]) == -2
    ensures LoneNode(ch) == -2
  {
    if i == |ch| {
      assert ch[..i] == ch;
    } else {
      assert ch[..|ch| - 1][..i] == ch[..i];
      SeveralStay(ch[..|ch| - 1], i);
    }
  }

  /** Puts a run above a node that is in memory, merging it with a short node. */
  function JoinNode(e: Env, key: Bytes, n: Node): Node {
    if n.ShortNode? then ShortNode(key + n.key, n.val, NewFlag(e)) else ShortNode(key, n, NewFlag(e))
  }

  /** `resolve` */
  function Load(e: Env, s: Store, n: Node): Option<Node> {
    if n.HashNode? then Resolve(e, s, n.hash) else Some(n)
  }

  /** Reduces a full node with one entry left; the entry is loaded to see whether it is short. */
  function CollapseAt(e: Env, s: Store, ch: seq<Node>): Changed
    requires |ch| == 17
  {
    var pos := LoneNode(ch);
    if pos < 0 then Changed(true, FullNode(ch, NewFlag(e)))
    else if pos == 16 then Changed(true, ShortNode([pos], ch[pos], NewFlag(e)))
    else
      var c := Load(e, s, ch[pos]);
      if c.None? then Lost
      else if c.value.ShortNode? then Changed(true, JoinNode(e, [pos], c.value))
      else Changed(true, ShortNode([pos], ch[pos], NewFlag(e)))
  }

  /** `delete` */
  function DeleteAt(e: Env, s: Store, p: Node, k: Bytes, ghost w: World, ghost t: Trie, ghost root: bool): Changed
    requires At(e, w, s, p, t, k, root)
    decreases t, p.HashNode?
  {
    hide Rep, Known, Sound, CollapseAt, JoinNode;
    match p
    case ShortNode(key, val, _) =>
      var m := PrefixLen(k, key);
      if m < |key| then Changed(false, p)
      else if m == |k| then Changed(true, NilNode)
      else
        AtShort(e, w, s, p, t, k, root);
        var r := DeleteAt(e, s, val, k[|key|..], w, t.val, false);
        if r.Lost? then Lost
        else if !r.dirty then Changed(false, p)
        else Changed(true, JoinNode(e, key, r.node))
    case FullNode(ch, _) =>
      AtFull(e, w, s, p, t, k, root);
      var r := DeleteAt(e, s, ch[k[0]], k[1..], w, t.children[k[0]], false);
      if r.Lost? then Lost
      else if !r.dirty then Changed(false, p)
      else CollapseAt(e, s, ch[k[0] := r.node])
    case ValueNode(_) => Changed(true, NilNode)
    case NilNode => Changed(false, NilNode)
    case HashNode(h) =>
      AtHash(e, w, s, p, t, k, root);
      var c := Resolve(e, s, h);
      if c.None? then Lost
      else
        var r := DeleteAt(e, s, c.value, k, w, t, root);
        if r.Lost? then Lost
        else if !r.dirty then Changed(false, c.value)
        else Changed(true, r.node)
  }

  // ---------------------------------------------------------------- deletion agrees

  lemma {:induction false} LoneAgrees(ch: seq<Node>, tch: seq<Trie>)
    requires |ch| == |tch| && forall i :: 0 <= i < |ch| ==> (ch[i] == NilNode <==> tch[i] == Nil)
    ensures LoneNode(ch) == Lone(tch)
  {
    if ch != [] {
      LoneAgrees(ch[..|ch| - 1], tch[..|tch| - 1]);
    }
  }

  lemma NilRep(e: Env, w: World, s: Store, p: Node, t: Trie, root: bool)
    requires Wf(t) && Rep(e, w, s, p, t, root)
    ensures p == NilNode <==> t == Nil
  {
  }

  lemma JoinRep(e: Env, w: World, s: Store, key: Bytes, n: Node, t: Trie, r: bool, root: bool)
    requires |key| > 0 && Run(key) && !HasTerm(key) && Wf(t) && Inner(t) && !n.HashNode?
    requires Rep(e, w, s, n, t, r) && (n.FullNode? ==> !r)
    ensures Wf(Join(key, t)) && Rep(e, w, s, JoinNode(e, key, n), Join(key, t), root)
  {
    JoinWf(key, t);
    if t.Short? {
      FreshShort(e, w, s, key + t.key, n.val, t.val, root);
    } else {
      FreshShort(e, w, s, key, n, t, root);
    }
  }

  /** The entries of a full node, some of which may be new. */
  ghost predicate EntriesRep(e: Env, w: World, s: Store, ch: seq<Node>, tch: seq<Trie>) {
    && Sound(e, w, s) && Entries(tch) && Used(tch) && |ch| == 17
    && (forall i :: 0 <= i < 17 ==> Rep(e, w, s, ch[i], tch[i], false))
    && (forall i :: 0 <= i < 17 && ch[i].HashNode? ==> Known(e.H, w.known, tch[i]))
  }

  lemma LoadRep(e: Env, w: World, s: Store, ch: seq<Node>, tch: seq<Trie>, i: nat)
    requires EntriesRep(e, w, s, ch, tch) && i < 16 && tch[i] != Nil
    ensures w.full ==> Load(e, s, ch[i]).Some?
    ensures Load(e, s, ch[i]).Some? ==>
              var c := Load(e, s, ch[i]).value;
              Rep(e, w, s, c, tch[i], false) && !c.HashNode? && Inner(tch[i])
  {
    assert Rep(e, w, s, ch[i], tch[i], false);
    if ch[i].HashNode? {
      ResolveRep(e, w, s, ch[i].hash, tch[i], false);
    }
  }

  lemma CollapseRep(e: Env, w: World, s: Store, ch: seq<Node>, tch: seq<Trie>, root: bool)
    requires EntriesRep(e, w, s, ch, tch)
    ensures var r := CollapseAt(e, s, ch);
            && Wf(Collapse(tch)) && (w.full ==> r.Changed?)
            && (r.Changed? ==> r.dirty && !r.node.HashNode? && Rep(e, w, s, r.node, Collapse(tch), root))
  {
    hide Sound, Known, Load, FlagsOk;
    CollapseWf(tch);
    forall i | 0 <= i < 17 ensures ch[i] == NilNode <==> tch[i] == Nil {
      NilRep(e, w, s, ch[i], tch[i], false);
    }
    LoneAgrees(ch, tch);
    var pos := Lone(tch);
    if pos < 0 {
      FreshFull(e, w, s, ch, tch, root);
    } else if pos == 16 {
      FreshShort(e, w, s, [pos], ch[pos], tch[pos], root);
    } else {
      LoadRep(e, w, s, ch, tch, pos);
      var c := Load(e, s, ch[pos]);
      if c.Some? {
        if c.value.ShortNode? {
          JoinRep(e, w, s, [pos], c.value, tch[pos], false, root);
        } else {
          FreshShort(e, w, s, [pos], ch[pos], tch[pos], root);
        }
      }
    }
  }

  /** A deletion commutes with what nodes stand for, reports a change exactly when the trie
      changes, and does not fail when all nodes are there. */
  ghost predicate DeleteFits(e: Env, w: World, s: Store, t: Trie, k: Bytes, root: bool, r: Changed)
    requires Asks(t, k)
  {
    var t' := Delete(t, k);
    && Wf(t')
    && (w.full ==> r.Changed?)
    && (r.Changed? ==> (r.dirty <==> t' != t) && Rep(e, w, s, r.node, t', root))
    && (r.Changed? && r.dirty ==> Rep(e, w, s, r.node, t', false))
    && (r.Changed? && r.dirty ==> !r.node.HashNode?)
  }

  lemma DeleteShortCase(e: Env, w: World, s: Store, p: Node, t: Trie, k: Bytes, root: bool)
    requires At(e, w, s, p, t, k, root) && p.ShortNode? && StartsWith(k, p.key) && |k| != |p.key|
    requires At(e, w, s, p.val, t.val, k[|p.key|..], false)
    requires DeleteFits(e, w, s, t.val, k[|p.key|..], false, DeleteAt(e, s, p.val, k[|p.key|..], w, t.val, false))
    ensures DeleteFits(e, w, s, t, k, root, DeleteAt(e, s, p, k, w, t, root))
  {
    hide Sound, Known, Rep, DeleteAt, Delete, PrefixLen, Asks, Run;
    DeleteShortStep(e, w, s, p, t, k, root);
    var r, tn := DeleteAt(e, s, p.val, k[|p.key|..], w, t.val, false), Delete(t.val, k[|p.key|..]);
    KeyAfter(k, p.key);
    DeleteWf(t.val, k[|p.key|..]);
    JoinWf(p.key, tn);
    if r.Changed? && r.dirty {
      NilRep(e, w, s, r.node, tn, false);
      JoinRep(e, w, s, p.key, r.node, tn, false, false);
      JoinRep(e, w, s, p.key, r.node, tn, false, root);
    }
  }

  lemma DeleteShortStep(e: Env, w: World, s: Store, p: Node, t: Trie, k: Bytes, root: bool)
    requires At(e, w, s, p, t, k, root) && p.ShortNode? && StartsWith(k, p.key) && |k| != |p.key|
    requires At(e, w, s, p.val, t.val, k[|p.key|..], false)
    ensures Wf(t) && IsKey(k) && Rep(e, w, s, p, t, root) && t.Short? && t.key == p.key
    ensures Delete(t, k) == Join(p.key, Delete(t.val, k[|p.key|..]))
    ensures var r := DeleteAt(e, s, p.val, k[|p.key|..], w, t.val, false);
            DeleteAt(e, s, p, k, w, t, root) ==
            if r.Lost? then Lost
            else if !r.dirty then Changed(false, p)
            else Changed(true, JoinNode(e, p.key, r.node))
  {
    hide Sound, Known, Stands, FlagsOk;
    WholeRun(k, p.key);
  }

  /** A key starts with a run exactly when all of the run is common. */
  lemma WholeRun(k: Bytes, run: Bytes)
    ensures StartsWith(k, run) <==> PrefixLen(k, run) == |run|
  {
    assert StartsWith(k, run) ==> forall i :: 0 <= i < |run| ==> run[i] == k[..|run|][i];
  }

  lemma DeleteFullStep(e: Env, w: World, s: Store, p: Node, t: Trie, k: Bytes, root: bool)
    requires At(e, w, s, p, t, k, root) && p.FullNode?
    requires |p.children| == 17 && |k| > 0 && k[0] <= 16
    requires At(e, w, s, p.children[k[0]], t.children[k[0]], k[1..], false)
    ensures Delete(t, k) == Collapse(t.children[k[0] := Delete(t.children[k[0]], k[1..])])
    ensures var r := DeleteAt(e, s, p.children[k[0]], k[1..], w, t.children[k[0]], false);
            DeleteAt(e, s, p, k, w, t, root) ==
            if r.Lost? then Lost
            else if !r.dirty then Changed(false, p)
            else CollapseAt(e, s, p.children[k[0] := r.node])
  {
    hide Sound, Known, Stands, FlagsOk;
  }

  lemma DeleteFullCase(e: Env, w: World, s: Store, p: Node, t: Trie, k: Bytes, root: bool)
    requires At(e, w, s, p, t, k, root) && p.FullNode?
    requires |p.children| == 17 && |k| > 0 && k[0] <= 16
    requires At(e, w, s, p.children[k[0]], t.children[k[0]], k[1..], false)
    requires DeleteFits(e, w, s, t.children[k[0]], k[1..], false,
                        DeleteAt(e, s, p.children[k[0]], k[1..], w, t.children[k[0]], false))
    ensures DeleteFits(e, w, s, t, k, root, DeleteAt(e, s, p, k, w, t, root))
  {
    var i, ch := k[0], t.children;
    var r, tn := DeleteAt(e, s, p.children[i], k[1..], w, ch[i], false), Delete(ch[i], k[1..]);
    DeleteWf(t, k);
    DeleteWf(ch[i], k[1..]);
    assert i == 16 ==> tn == Nil;
    StillUsed(ch, i, tn);
    DeleteFullStep(e, w, s, p, t, k, root);
    CollapseKeeps(ch, i, tn);
    if r.Changed? && r.dirty {
      EntrySet(e, w, s, p, t, i, r.node, tn, root);
      CollapseRep(e, w, s, p.children[i := r.node], ch[i := tn], false);
      CollapseRep(e, w, s, p.children[i := r.node], ch[i := tn], root);
    }
  }

  lemma EntrySet(e: Env, w: World, s: Store, p: Node, t: Trie, i: nat, n: Node, tn: Trie, root: bool)
    requires Sound(e, w, s) && p.FullNode? && Wf(t) && Known(e.H, w.known, t) && Rep(e, w, s, p, t, root)
    requires i < 17 && Wf(tn) && Rep(e, w, s, n, tn, false) && !n.HashNode?
    requires Entries(t.children[i := tn]) && Used(t.children[i := tn])
    ensures EntriesRep(e, w, s, p.children[i := n], t.children[i := tn])
  {
    hide Sound, FlagsOk, Entries, Used;
  }

  /** A full node is left as it is exactly when its entry is. */
  lemma CollapseKeeps(ch: seq<Trie>, i: nat, tn: Trie)
    requires Wf(Full(ch)) && i < 17
    ensures Collapse(ch[i := tn]) == Full(ch) <==> tn == ch[i]
  {
    if tn == ch[i] {
      assert ch[i := tn] == ch;
      assert Lone(ch) == -2;
    } else {
      assert ch[i := tn][i] != ch[i];
    }
  }

  lemma DeleteHashCase(e: Env, w: World, s: Store, p: Node, t: Trie, k: Bytes, root: bool)
    requires At(e, w, s, p, t, k, root) && p.HashNode? && Resolve(e, s, p.hash).Some?
    requires At(e, w, s, Resolve(e, s, p.hash).value, t, k, root) && !Resolve(e, s, p.hash).value.HashNode?
    requires Resolve(e, s, p.hash).value == Loaded(e.H, Some(p.hash), e.gen, t)
    requires DeleteFits(e, w, s, t, k, root, DeleteAt(e, s, Resolve(e, s, p.hash).value, k, w, t, root))
    ensures DeleteFits(e, w, s, t, k, root, DeleteAt(e, s, p, k, w, t, root))
  {
    hide Sound, Known, Stands, Resolve, Loaded;
  }

  lemma {:induction false} DeleteAgrees(e: Env, w: World, s: Store, p: Node, t: Trie, k: Bytes, root: bool)
    requires At(e, w, s, p, t, k, root)
    ensures DeleteFits(e, w, s, t, k, root, DeleteAt(e, s, p, k, w, t, root))
    decreases t, p.HashNode?
  {
    hide Sound, Known, Resolve, Loaded, Stands, DecodeNode;
    if p.ShortNode? {
      WholeRun(k, p.key);
      if StartsWith(k, p.key) && |k| != |p.key| {
        AtShort(e, w, s, p, t, k, root);
        DeleteAgrees(e, w, s, p.val, t.val, k[|p.key|..], false);
        DeleteShortCase(e, w, s, p, t, k, root);
      }
    } else if p.FullNode? {
      AtFull(e, w, s, p, t, k, root);
      DeleteAgrees(e, w, s, p.children[k[0]], t.children[k[0]], k[1..], false);
      DeleteFullCase(e, w, s, p, t, k, root);
    } else if p.HashNode? {
      AtHash(e, w, s, p, t, k, root);
      if Resolve(e, s, p.hash).Some? {
        DeleteAgrees(e, w, s, Resolve(e, s, p.hash).value, t, k, root);
        DeleteHashCase(e, w, s, p, t, k, root);
      } else {
        DeleteWf(t, k);
      }
    }
  }
}
