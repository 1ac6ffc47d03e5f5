/**
 Trie nodes as they are held in memory and in a store: the Merkle encoding of Appendix D of the
 Ethereum yellow paper, in which a child is embedded when its encoding is shorter than a hash
 and referred to by hash otherwise, and the decoder that reads one node back.
 */
module TrieNode {
  import opened Common
  import opened Rlp
  import opened MerkleTrie
  import opened HexPrefix

  const HASH_LEN := 32

  /** The hash function; only its output length is assumed here. */
  type Hasher = Bytes -> Bytes

  ghost predicate Digest(H: Hasher) {
    forall b :: |H(b)| == HASH_LEN
  }

  /** The caching fields of a node. */
  datatype Flags = Flags(hash: Option<Bytes>, gen: nat, dirty: bool)

  /** A node in memory. Parts of the trie may be present by hash only. */
  datatype Node =
    | NilNode
    | ValueNode(v: Bytes)
    | ShortNode(key: Bytes, val: Node, flags: Flags)
    | FullNode(children: seq<Node>, flags: Flags)
    | HashNode(hash: Bytes)

  // ---------------------------------------------------------------- Merkle encoding

  /** How a parent mentions a node. */
  function RefItem(H: Hasher, t: Trie): Item
    requires Wf(t)
    decreases t, 1
  {
    match t
    case Nil => Str([])
    case Value(v) => Str(v)
    case _ =>
      var x := NodeItem(H, t);
      if |Encode(x)| < HASH_LEN then x else Str(H(Encode(x)))
  }

  /** The list that stands for a node. */
  function NodeItem(H: Hasher, t: Trie): Item
    requires Wf(t) && (t.Short? || t.Full?)
    decreases t, 0
  {
    match t
    case Short(key, val) => List([Str(Compact(key)), RefItem(H, val)])
    case Full(ch) => List(seq(|ch|, i requires 0 <= i < |ch| => RefItem(H, ch[i])))
  }

  function Enc(H: Hasher, t: Trie): (b: Bytes)
    requires Wf(t) && (t.Short? || t.Full?)
  {
    Encode(NodeItem(H, t))
  }

  /** The root hash of a trie; the hash of the empty string's encoding when it is empty. */
  function Root(H: Hasher, t: Trie): Bytes
    requires IsTrie(t)
  {
    if t == Nil then H(Encode(Str([]))) else H(Enc(H, t))
  }

  // ---------------------------------------------------------------- what a reader finds

  /** A node as it is read back: its own fields, and its children as its encoding has them. */
  function Loaded(H: Hasher, hash: Option<Bytes>, gen: nat, t: Trie): Node
    requires Wf(t) && (t.Short? || t.Full?)
    decreases t, 0
  {
    match t
    case Short(key, val) => ShortNode(key, Referred(H, gen, val), Flags(hash, gen, false))
    case Full(ch) =>
      FullNode(seq(|ch|, i requires 0 <= i < |ch| => Referred(H, gen, ch[i])), Flags(hash, gen, false))
  }

  function Referred(H: Hasher, gen: nat, t: Trie): Node
    requires Wf(t)
    decreases t, 1
  {
    match t
    case Nil => NilNode
    case Value(v) => ValueNode(v)
    case _ =>
      if |Enc(H, t)| < HASH_LEN then Loaded(H, None, gen, t) else HashNode(H(Enc(H, t)))
  }

  // ---------------------------------------------------------------- decoding

  function SplitString(b: Bytes): Result<(Bytes, Bytes)> {
    var p := Split(b);
    if p.Err? then Err(p.error)
    else if p.value.kind == ListKind then Err(ExpectedString)
    else Ok((p.value.content, p.value.rest))
  }

  function SplitList(b: Bytes): Result<(Bytes, Bytes)> {
    var p := Split(b);
    if p.Err? then Err(p.error)
    else if p.value.kind != ListKind then Err(ExpectedList)
    else Ok((p.value.content, p.value.rest))
  }

  lemma SplitShrinks(b: Bytes)
    requires Split(b).Ok?
    ensures |Split(b).value.rest| < |b| && |Split(b).value.content| <= |b|
    ensures Split(b).value.kind == ListKind ==> |Split(b).value.content| < |b|
  {
    SplitIsCanonical(b);
  }

  /** `decodeNode`: a list of two or of seventeen values, and whatever follows it. No node is
      the answer to anything else. */
  function DecodeNode(hash: Option<Bytes>, buf: Bytes, gen: nat): Option<Node>
    decreases |buf|, 0
  {
    var l := SplitList(buf);
    if buf == [] || l.Err? then None
    else
      SplitShrinks(buf);
      var elems := l.value.0;
      var count := Values(elems);
      if count == Ok(2) then DecodeShort(hash, elems, gen)
      else if count == Ok(17) then DecodeFull(hash, elems, gen)
      else None
  }

  /** `decodeShort`. An empty key string, on which the original stops, is no node either. */
  function DecodeShort(hash: Option<Bytes>, elems: Bytes, gen: nat): Option<Node>
    decreases |elems|, 2
  {
    var k := SplitString(elems);
    if k.Err? || k.value.0 == [] then None
    else
      SplitShrinks(elems);
      var flag := Flags(hash, gen, false);
      var key := Expand(k.value.0);
      if HasTerm(key) then
        var v := SplitString(k.value.1);
        if v.Err? then None else Some(ShortNode(key, ValueNode(v.value.0), flag))
      else
        var r := DecodeRef(k.value.1, gen);
        if r.None? then None else Some(ShortNode(key, r.value.0, flag))
  }

  /** `decodeFull` */
  function DecodeFull(hash: Option<Bytes>, elems: Bytes, gen: nat): Option<Node>
    decreases |elems|, 3
  {
    var refs := DecodeRefs(elems, 16, gen);
    if refs.None? then None
    else
      var v := SplitString(refs.value.1);
      if v.Err? then None
      else
        var last := if |v.value.0| > 0 then ValueNode(v.value.0) else NilNode;
        Some(FullNode(refs.value.0 + [last], Flags(hash, gen, false)))
  }

  /** The first `n` references of a list, in order. */
  function DecodeRefs(elems: Bytes, n: nat, gen: nat): (r: Option<(seq<Node>, Bytes)>)
    ensures r.Some? ==> |r.value.0| == n
    decreases |elems|, 2, n
  {
    if n == 0 then Some(([], elems))
    else
      var first := DecodeRef(elems, gen);
      if first.None? then None
      else
        var rest := DecodeRefs(first.value.1, n - 1, gen);
        if rest.None? then None else Some(([first.value.0] + rest.value.0, rest.value.1))
  }

  /** `decodeRef` */
  function DecodeRef(buf: Bytes, gen: nat): (r: Option<(Node, Bytes)>)
    ensures r.Some? ==> |r.value.1| < |buf|
    decreases |buf|, 1
  {
    var p := Split(buf);
    if p.Err? then None
    else
      SplitShrinks(buf);
      var Piece(kind, val, rest) := p.value;
      if kind == ListKind then
        if |buf| - |rest| > HASH_LEN then None
        else
          var n := DecodeNode(None, buf, gen);
          if n.None? then None else Some((n.value, rest))
      else if kind == StringKind && |val| == 0 then Some((NilNode, rest))
      else if kind == StringKind && |val| == HASH_LEN then Some((HashNode(val), rest))
      else None
  }

  /** References already read, put before those still to come. */
  function After(done: seq<Node>, more: Option<(seq<Node>, Bytes)>): Option<(seq<Node>, Bytes)> {
    if more.None? then None else Some((done + more.value.0, more.value.1))
  }

  lemma AfterStep(done: seq<Node>, elems: Bytes, n: nat, gen: nat)
    requires n > 0
    ensures var c := DecodeRef(elems, gen);
            After(done, DecodeRefs(elems, n, gen)) ==
            if c.None? then None else After(done + [c.value.0], DecodeRefs(c.value.1, n - 1, gen))
  {
    var c := DecodeRef(elems, gen);
    if c.Some? && DecodeRefs(c.value.1, n - 1, gen).Some? {
      var rest := DecodeRefs(c.value.1, n - 1, gen).value.0;
      assert done + ([c.value.0] + rest) == (done + [c.value.0]) + rest;
    }
  }

  /** The loop of `decodeFull`. */
  method DecodeChildren(hash: Option<Bytes>, buf: Bytes, gen: nat) returns (r: Option<Node>)
    ensures r == DecodeFull(hash, buf, gen)
  {
    hide DecodeRefs, DecodeRef;
    var children: seq<Node>, elems, i := [], buf, 0;
    assert After([], DecodeRefs(buf, 16, gen)) == DecodeRefs(buf, 16, gen) by {
      if DecodeRefs(buf, 16, gen).Some? {
        assert [] + DecodeRefs(buf, 16, gen).value.0 == DecodeRefs(buf, 16, gen).value.0;
      }
    }
    while i < 16
      invariant 0 <= i <= 16 && |children| == i
      invariant After(children, DecodeRefs(elems, 16 - i, gen)) == DecodeRefs(buf, 16, gen)
    {
      AfterStep(children, elems, 16 - i, gen);
      var c := DecodeRef(elems, gen);
      if c.None? {
        return None;
      }
      children, elems, i := children + [c.value.0], c.value.1, i + 1;
    }
    NoRefs(elems, gen);
    assert DecodeRefs(buf, 16, gen) == Some((children, elems)) by { assert children + [] == children; }
    var v := SplitString(elems);
    if v.Err? {
      return None;
    }
    var last := NilNode;
    if |v.value.0| > 0 {
      last := ValueNode(v.value.0);
    }
    r := Some(FullNode(children + [last], Flags(hash, gen, false)));
  }

  lemma NoRefs(elems: Bytes, gen: nat)
    ensures DecodeRefs(elems, 0, gen) == Some(([], elems))
  {
  }

  // ---------------------------------------------------------------- reading back what was written

  lemma SplitStr(b: Bytes, rest: Bytes)
    requires |Encode(Str(b))| <= MAX_UINT64
    ensures Split(Encode(Str(b)) + rest) == Ok(Piece(KindOf(Str(b)), b, rest))
    ensures SplitString(Encode(Str(b)) + rest) == Ok((b, rest))
  {
    hide ReadKind, Split;
    assert Whole(KindOf(Str(b)), b) == Encode(Str(b));
    SplitWhole(KindOf(Str(b)), b, rest);
  }

  lemma SplitOfList(xs: seq<Item>, rest: Bytes)
    requires |Encode(List(xs))| <= MAX_UINT64
    ensures |EncodeAll(xs)| < |Encode(List(xs))|
    ensures Split(Encode(List(xs)) + rest) == Ok(Piece(ListKind, EncodeAll(xs), rest))
    ensures SplitList(Encode(List(xs)) + rest) == Ok((EncodeAll(xs), rest))
    ensures Values(EncodeAll(xs)) == Ok(|xs|)
  {
    hide ReadKind, Split, Values;
    assert Whole(ListKind, EncodeAll(xs)) == Encode(List(xs));
    SplitWhole(ListKind, EncodeAll(xs), rest);
    ValuesOfList(xs);
  }

  lemma EncodePair(a: Item, b: Item)
    ensures EncodeAll([a, b]) == Encode(a) + Encode(b)
  {
    assert [a, b][1..] == [b] && [b][1..] == [];
    assert EncodeAll([b]) == Encode(b) + EncodeAll([]);
  }

  /** What a parent mentions is read back as what it refers to. */
  lemma {:induction false} DecodeRefItem(H: Hasher, t: Trie, rest: Bytes, gen: nat)
    requires Digest(H) && IsTrie(t)
    ensures DecodeRef(Encode(RefItem(H, t)) + rest, gen) == Some((Referred(H, gen, t), rest))
    decreases t, 3
  {
    hide ReadKind, Split, Values;
    if t == Nil {
      SplitStr([], rest);
    } else {
      var x := NodeItem(H, t);
      if |Encode(x)| < HASH_LEN {
        SplitOfList(x.items, rest);
        DecodeEnc(H, None, t, rest, gen);
      } else {
        SplitStr(H(Encode(x)), rest);
      }
    }
  }

  /** The items of a full node from the `i`-th on. */
  function ItemsFrom(H: Hasher, ch: seq<Trie>, i: nat): seq<Item>
    requires Wf(Full(ch)) && i <= 17
  {
    seq(17 - i, j requires 0 <= j < 17 - i => RefItem(H, ch[i + j]))
  }

  /** What the first sixteen entries of a full node from the `i`-th on are read as. */
  function RefsFrom(H: Hasher, ch: seq<Trie>, i: nat, gen: nat): seq<Node>
    requires Wf(Full(ch)) && i <= 16
  {
    seq(16 - i, j requires 0 <= j < 16 - i => Referred(H, gen, ch[i + j]))
  }

  lemma ItemsStep(H: Hasher, ch: seq<Trie>, i: nat)
    requires Wf(Full(ch)) && i <= 16
    ensures EncodeAll(ItemsFrom(H, ch, i)) == Encode(RefItem(H, ch[i])) + EncodeAll(ItemsFrom(H, ch, i + 1))
    ensures EncodeAll(ItemsFrom(H, ch, 17)) == []
  {
    hide RefItem, Encode;
    var xs := ItemsFrom(H, ch, i);
    assert xs[0] == RefItem(H, ch[i]) && xs[1..] == ItemsFrom(H, ch, i + 1);
  }

  lemma RefsStep(H: Hasher, ch: seq<Trie>, i: nat, gen: nat)
    requires Wf(Full(ch)) && i < 16
    ensures RefsFrom(H, ch, i, gen) == [Referred(H, gen, ch[i])] + RefsFrom(H, ch, i + 1, gen)
  {
    hide Referred;
  }

  lemma {:induction false} DecodeRefItems(H: Hasher, ch: seq<Trie>, i: nat, gen: nat)
    requires Digest(H) && Wf(Full(ch)) && i <= 16
    ensures DecodeRefs(EncodeAll(ItemsFrom(H, ch, i)), 16 - i, gen) ==
            Some((RefsFrom(H, ch, i, gen), Encode(RefItem(H, ch[16]))))
    decreases Full(ch), 0, 16 - i
  {
    hide ReadKind, Split, Values, DecodeRef, RefItem, Referred, Encode, EncodeAll, ItemsFrom;
    ItemsStep(H, ch, i);
    assert Encode(RefItem(H, ch[16])) + [] == Encode(RefItem(H, ch[16]));
    if i < 16 {
      assert ch[i] < Full(ch) && IsTrie(ch[i]);
      DecodeRefItem(H, ch[i], EncodeAll(ItemsFrom(H, ch, i + 1)), gen);
      DecodeRefItems(H, ch, i + 1, gen);
      RefsStep(H, ch, i, gen);
    }
  }

  lemma {:induction false} DecodeShortEnc(H: Hasher, hash: Option<Bytes>, t: Trie, gen: nat)
    requires Digest(H) && Wf(t) && t.Short? && |Enc(H, t)| <= MAX_UINT64
    ensures DecodeShort(hash, EncodeAll(NodeItem(H, t).items), gen) == Some(Loaded(H, hash, gen, t))
    decreases t, 0
  {
    hide ReadKind, Split, Values, DecodeRef, Expand, Compact;
    var k, r := Str(Compact(t.key)), RefItem(H, t.val);
    EncodePair(k, r);
    SplitOfList([k, r], []);
    SplitStr(k.bytes, Encode(r));
    ExpandCompact(t.key);
    assert Encode(r) + [] == Encode(r);
    if HasTerm(t.key) {
      SplitStr(t.val.v, []);
    } else {
      DecodeRefItem(H, t.val, [], gen);
    }
  }

  lemma {:induction false} DecodeFullEnc(H: Hasher, hash: Option<Bytes>, t: Trie, gen: nat)
    requires Digest(H) && Wf(t) && t.Full? && |Enc(H, t)| <= MAX_UINT64
    ensures DecodeFull(hash, EncodeAll(NodeItem(H, t).items), gen) == Some(Loaded(H, hash, gen, t))
    decreases t, 1
  {
    hide ReadKind, Split, Values, DecodeRef, DecodeRefs;
    var ch := t.children;
    DecodeRefItems(H, ch, 0, gen);
    assert ItemsFrom(H, ch, 0) == NodeItem(H, t).items;
    var last := Encode(RefItem(H, ch[16]));
    assert last + [] == last;
    LastFits(H, t);
    SplitStr(if ch[16] == Nil then [] else ch[16].v, []);
    var kids := Loaded(H, hash, gen, t).children;
    assert RefsFrom(H, ch, 0, gen) + [Referred(H, gen, ch[16])] == kids;
  }

  /** No part of an encoding is longer than the whole. */
  lemma {:induction false} PartFits(xs: seq<Item>, i: nat)
    requires i < |xs|
    ensures |Encode(xs[i])| <= |EncodeAll(xs)|
  {
    if i > 0 {
      PartFits(xs[1..], i - 1);
    }
  }

  lemma LastFits(H: Hasher, t: Trie)
    requires Wf(t) && t.Full? && |Enc(H, t)| <= MAX_UINT64
    ensures |Encode(RefItem(H, t.children[16]))| <= MAX_UINT64
  {
    var xs := NodeItem(H, t).items;
    PartFits(xs, 16);
    SplitOfList(xs, []);
  }

  /** Decoding a node's encoding gives the node back, whatever follows it. */
  lemma {:induction false} DecodeEnc(H: Hasher, hash: Option<Bytes>, t: Trie, rest: Bytes, gen: nat)
    requires Digest(H) && Wf(t) && (t.Short? || t.Full?) && |Enc(H, t)| <= MAX_UINT64
    ensures DecodeNode(hash, Enc(H, t) + rest, gen) == Some(Loaded(H, hash, gen, t))
    decreases t, 2
  {
    hide ReadKind, Split, Values, DecodeShort, DecodeFull;
    var xs := NodeItem(H, t).items;
    EncodeNonEmpty(List(xs));
    SplitOfList(xs, rest);
    if t.Short? {
      DecodeShortEnc(H, hash, t, gen);
    } else {
      DecodeFullEnc(H, hash, t, gen);
    }
  }
}
