/**
 Nodes in the write-back cache and on disk. A cached node is a collapsed node stripped of its
 flags; reviving it gives what decoding its encoding gives, with the same references. A root hash
 identifies its trie.
 */
module StoredForm {
  import opened Common
  import opened Rlp
  import opened MerkleTrie
  import opened HexPrefix
  import opened TrieNode
  import opened LazyTrie
  import opened TrieHasher

  /** A node without flags. */
  datatype Raw =
    | RawNil
    | RawValue(v: Bytes)
    | RawHash(hash: Bytes)
    | RawShort(key: Bytes, val: Raw)
    | RawFull(children: seq<Raw>)

  /** `simplifyNode` */
  function Simplify(n: Node): Raw {
    match n
    case NilNode => RawNil
    case ValueNode(v) => RawValue(v)
    case HashNode(h) => RawHash(h)
    case ShortNode(key, val, _) => RawShort(key, Simplify(val))
    case FullNode(ch, _) => RawFull(seq(|ch|, i requires 0 <= i < |ch| => Simplify(ch[i])))
  }

  /** `expandNode`; a short node's key is never empty in compact form. */
  function Revive(hash: Option<Bytes>, r: Raw, gen: nat): Node
    decreases r
  {
    match r
    case RawNil => NilNode
    case RawValue(v) => ValueNode(v)
    case RawHash(h) => HashNode(h)
    case RawShort(key, val) =>
      ShortNode(if key == [] then [] else Expand(key), Revive(None, val, gen), Flags(hash, gen, false))
    case RawFull(ch) =>
      FullNode(seq(|ch|, i requires 0 <= i < |ch| => Revive(None, ch[i], gen)), Flags(hash, gen, false))
  }

  /** What the encoder writes for a node without flags. */
  function RawItem(r: Raw): Item {
    match r
    case RawNil => Str([])
    case RawValue(v) => Str(v)
    case RawHash(h) => Str(h)
    case RawShort(key, val) => List([Str(key), RawItem(val)])
    case RawFull(ch) => List(seq(|ch|, i requires 0 <= i < |ch| => RawItem(ch[i])))
  }

  lemma {:induction false} SimplifyItem(n: Node)
    ensures RawItem(Simplify(n)) == ItemOf(n)
  {
    match n
    case ShortNode(_, val, _) => SimplifyItem(val);
    case FullNode(ch, _) =>
      forall i | 0 <= i < |ch| ensures RawItem(Simplify(ch[i])) == ItemOf(ch[i]) { SimplifyItem(ch[i]); }
    case _ =>
  }

  lemma {:induction false} ReviveRef(H: Hasher, c: Node, t: Trie, gen: nat)
    requires Wf(t) && RefForm(H, c, t)
    ensures Revive(None, Simplify(c), gen) == Referred(H, gen, t)
    decreases t, 1
  {
    if Inner(t) && |Enc(H, t)| < HASH_LEN {
      ReviveNode(H, None, c, t, gen);
    }
  }

  lemma {:induction false} ReviveNode(H: Hasher, hash: Option<Bytes>, c: Node, t: Trie, gen: nat)
    requires Wf(t) && Inner(t) && NodeForm(H, c, t)
    ensures Revive(hash, Simplify(c), gen) == Loaded(H, hash, gen, t)
    decreases t, 0
  {
    hide Expand, Compact, RefForm, Enc, Encode;
    match t
    case Short(key, val) =>
      ExpandCompact(key);
      ReviveRef(H, c.val, val, gen);
    case Full(ch) =>
      var r := Simplify(c);
      forall i | 0 <= i < 17 ensures Revive(None, r.children[i], gen) == Referred(H, gen, ch[i]) {
        ReviveRef(H, c.children[i], ch[i], gen);
      }
      assert Revive(hash, r, gen).children == Loaded(H, hash, gen, t).children;
  }

  /** A node is the same whether it is revived from the cache or decoded from its encoding. */
  lemma CacheAgreesWithDisk(H: Hasher, hash: Option<Bytes>, c: Node, t: Trie, gen: nat)
    requires Digest(H) && Wf(t) && Inner(t) && NodeForm(H, c, t) && |Enc(H, t)| <= MAX_UINT64
    ensures Encode(RawItem(Simplify(c))) == Enc(H, t)
    ensures DecodeNode(hash, Encode(RawItem(Simplify(c))), gen) == Some(Revive(hash, Simplify(c), gen))
  {
    SimplifyItem(c);
    NodeFormItem(H, c, t);
    ReviveNode(H, hash, c, t, gen);
    DecodeEnc(H, hash, t, [], gen);
    assert Enc(H, t) + [] == Enc(H, t);
  }

  // ---------------------------------------------------------------- references

  /** `gatherChildren`: the hashes in a node, left to right. */
  function Gather(r: Raw): seq<Bytes> {
    match r
    case RawHash(h) => [h]
    case RawShort(_, val) => Gather(val)
    case RawFull(ch) => GatherFrom(r, 0)
    case _ => []
  }

  function GatherFrom(r: Raw, i: nat): seq<Bytes>
    requires r.RawFull?
    decreases r, 0, 16 - i
  {
    if i >= 16 || i >= |r.children| then []
    else Gather(r.children[i]) + GatherFrom(r, i + 1)
  }

  /** A node has the same references in the cache, revived, and so decoded. */
  lemma {:induction false} ReviveGather(hash: Option<Bytes>, r: Raw, gen: nat)
    ensures Gather(Simplify(Revive(hash, r, gen))) == Gather(r)
    decreases r, 1
  {
    match r
    case RawShort(_, val) => ReviveGather(None, val, gen);
    case RawFull(ch) => ReviveGatherFrom(hash, r, gen, 0);
    case _ =>
  }

  lemma {:induction false} ReviveGatherFrom(hash: Option<Bytes>, r: Raw, gen: nat, i: nat)
    requires r.RawFull?
    ensures GatherFrom(Simplify(Revive(hash, r, gen)), i) == GatherFrom(r, i)
    decreases r, 0, 16 - i
  {
    if i < 16 && i < |r.children| {
      ReviveGather(None, r.children[i], gen);
      ReviveGatherFrom(hash, r, gen, i + 1);
    }
  }

  // ---------------------------------------------------------------- roots identify tries

  /** What all tries in question are encoded as is free of collisions. */
  ghost predicate Comparable(H: Hasher, w: World, s: Trie, t: Trie)
    requires Wf(s) && Wf(t)
  {
    && Sound(Env(H, 0, 0), w, map[]) && Known(H, w.known, s) && Known(H, w.known, t)
  }

  lemma {:induction false} SameEncoding(H: Hasher, w: World, s: Trie, t: Trie)
    requires Wf(s) && Wf(t) && Comparable(H, w, s, t) && Inner(s) && Inner(t) && Enc(H, s) == Enc(H, t)
    ensures s == t
    decreases s, 1
  {
    assert Enc(H, s) in w.known;
    DecodeEnc(H, None, s, [], 0);
    DecodeEnc(H, None, t, [], 0);
    SameLoaded(H, w, s, t);
  }

  lemma {:induction false} SameLoaded(H: Hasher, w: World, s: Trie, t: Trie)
    requires Wf(s) && Wf(t) && Comparable(H, w, s, t) && Inner(s) && Inner(t)
    requires Loaded(H, None, 0, s) == Loaded(H, None, 0, t)
    ensures s == t
    decreases s, 0
  {
    var n := Loaded(H, None, 0, s);
    if s.Short? {
      SameReference(H, w, s.val, t.val);
    } else {
      forall i | 0 <= i < 17 ensures s.children[i] == t.children[i] {
        assert n.children[i] == Referred(H, 0, s.children[i]) == Referred(H, 0, t.children[i]);
        SameReference(H, w, s.children[i], t.children[i]);
      }
    }
  }

  lemma {:induction false} SameReference(H: Hasher, w: World, s: Trie, t: Trie)
    requires Wf(s) && Wf(t) && Comparable(H, w, s, t) && Referred(H, 0, s) == Referred(H, 0, t)
    ensures s == t
    decreases s, 2
  {
    if Inner(s) {
      assert Inner(t);
      if |Enc(H, s)| < HASH_LEN {
        SameLoaded(H, w, s, t);
      } else {
        SameEncoding(H, w, s, t);
      }
    }
  }

  /** No node is encoded as the empty string is. */
  lemma NotEmpty(H: Hasher, t: Trie)
    requires Wf(t) && Inner(t) && |Enc(H, t)| <= MAX_UINT64
    ensures Enc(H, t) != Encode(Str([]))
  {
    if Enc(H, t) == Encode(Str([])) {
      EncodingIsPrefixFree(NodeItem(H, t), Str([]), [], []);
    }
  }

  /** Two tries have the same root hash exactly when they have the same contents. */
  lemma RootIdentifies(H: Hasher, w: World, s: Trie, t: Trie)
    requires IsTrie(s) && IsTrie(t) && Comparable(H, w, s, t) && Encode(Str([])) in w.known
    ensures Root(H, s) == Root(H, t) <==> SameContents(s, t)
  {
    if SameContents(s, t) {
      Canonical(s, t);
    } else if Root(H, s) == Root(H, t) {
      if s != Nil { NotEmpty(H, s); }
      if t != Nil { NotEmpty(H, t); }
      assert s != Nil && t != Nil;
      SameEncoding(H, w, s, t);
    }
  }
}
