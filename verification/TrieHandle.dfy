/**
 The trie object: a root node, a store behind it and the cache generation. Whatever mix of
 lookups, updates, hashing, committing and reopening is made, it stands for the trie that the
 updates alone describe.
 */
module TrieHandle {
  import opened Common
  import opened Rlp
  import opened MerkleTrie
  import opened HexPrefix
  import opened TrieNode
  import opened LazyTrie
  import opened TrieHasher

  const EMPTY: Bytes := Encode(Str([]))

  function ZeroHash(): (z: Bytes)
    ensures |z| == HASH_LEN
  {
    seq(HASH_LEN, _ => 0)
  }

  /** What nodes stand for depends on the hash function only, not on cache generations. */
  lemma {:induction false} RepEnv(e: Env, e': Env, w: World, s: Store, p: Node, t: Trie, root: bool)
    requires e.H == e'.H && Wf(t) && Rep(e, w, s, p, t, root)
    ensures Rep(e', w, s, p, t, root)
  {
    match p
    case ShortNode(_, val, fl) => RepEnv(e, e', w, s, val, t.val, false);
    case FullNode(ch, fl) =>
      forall i | 0 <= i < 17 ensures Rep(e', w, s, ch[i], t.children[i], false) {
        RepEnv(e, e', w, s, ch[i], t.children[i], false);
      }
    case _ =>
  }

  lemma {:induction false} RepElsewhere(e: Env, w: World, s: Store, s': Store, p: Node, t: Trie, root: bool)
    requires Wf(t) && Rep(e, w, s, p, t, root) && (w.full ==> Grows(s, s'))
    ensures Rep(e, w, s', p, t, root)
  {
    if w.full {
      RepGrows(e, w, s, s', p, t, root);
    } else {
      match p
      case ShortNode(_, val, fl) => RepElsewhere(e, w, s, s', val, t.val, false);
      case FullNode(ch, fl) =>
        forall i | 0 <= i < 17 ensures Rep(e, w, s', ch[i], t.children[i], false) {
          RepElsewhere(e, w, s, s', ch[i], t.children[i], false);
        }
      case _ =>
    }
  }

  /** What a trie of this content asks of the hash: no collision among the encodings at hand,
      and neither the zero hash nor the empty root for anything but the empty trie. */
  ghost predicate Trusted(H: Hasher, w: World, t: Trie)
    requires IsTrie(t)
  {
    && Known(H, w.known, t) && EMPTY in w.known
    && (t != Nil ==> Root(H, t) != ZeroHash())
  }

  /** An opened trie that is not empty never has the empty root. */
  lemma NotEmptyRoot(e: Env, w: World, s: Store, t: Trie)
    requires Sound(e, w, s) && IsTrie(t) && t != Nil && Trusted(e.H, w, t)
    ensures Root(e.H, t) != e.H(EMPTY)
  {
    var x := NodeItem(e.H, t);
    SplitOfList(x.items, []);
    SplitStr([], []);
    assert Encode(x) + [] == Encode(x) && EMPTY + [] == EMPTY;
  }

  class TrieObject {
    const H: Hasher
    var root: Node
    var cachegen: nat
    var cachelimit: nat
    var store: Store
    ghost var trie: Trie

    function Here(): Env
      reads this
    {
      Env(H, cachegen, cachelimit)
    }

    /** The root stands for the contents. */
    ghost predicate Valid(w: World)
      reads this
    {
      IsTrie(trie) && Sound(Here(), w, store) && Rep(Here(), w, store, root, trie, true)
    }

    /** The empty trie, which asks nothing of the store. */
    constructor (H: Hasher, store: Store, ghost w: World)
      requires Sound(Env(H, 0, 0), w, store)
      ensures Valid(w) && trie == Nil && this.H == H && this.store == store
    {
      this.H, this.store, this.root, this.trie := H, store, NilNode, Nil;
      cachegen, cachelimit := 0, 0;
    }

    /** A trie with a root node that stands for it. */
    constructor At(H: Hasher, store: Store, root: Node, ghost w: World, ghost t: Trie)
      requires IsTrie(t) && Sound(Env(H, 0, 0), w, store) && Rep(Env(H, 0, 0), w, store, root, t, true)
      ensures Valid(w) && trie == t && this.H == H && this.store == store
    {
      this.H, this.store, this.root, this.trie := H, store, root, t;
      cachegen, cachelimit := 0, 0;
    }

    /** `New`: reopens a trie by its root hash. It is the trie with that root, or the root node
        is missing, which does not happen when the trie is stored. */
    static method Open(H: Hasher, root: Bytes, store: Store, ghost w: World, ghost t: Trie)
      returns (r: TrieObject?)
      requires IsTrie(t) && Sound(Env(H, 0, 0), w, store) && Trusted(H, w, t) && Root(H, t) == root
      requires w.full && t != Nil ==> AllStored(H, store, t)
      ensures w.full ==> r != null
      ensures r != null ==> fresh(r) && r.Valid(w) && r.H == H && r.store == store && r.trie == t
    {
      if root != ZeroHash() && root != H(EMPTY) {
        var n := Resolve(Env(H, 0, 0), store, root);
        ResolveRep(Env(H, 0, 0), w, store, root, t, true);
        if n.None? {
          return null;
        }
        r := new TrieObject.At(H, store, n.value, w, t);
      } else {
        if t != Nil { NotEmptyRoot(Env(H, 0, 0), w, store, t); }
        r := new TrieObject(H, store, w);
      }
    }

    method SetCacheLimit(l: nat, ghost w: World)
      requires Valid(w)
      modifies this`cachelimit
      ensures Valid(w) && cachelimit == l
    {
      ghost var before := Here();
      cachelimit := l;
      RepEnv(before, Here(), w, store, root, trie, true);
    }

    /** `TryGet` */
    method TryGet(key: Bytes, ghost w: World) returns (value: Option<Bytes>, ok: bool)
      requires Valid(w) && Trusted(H, w, trie)
      modifies this`root
      ensures Valid(w)
      ensures ok ==> value == Lookup(trie, KeyHex(key))
      ensures w.full ==> ok
      ensures !ok ==> value == None && root == old(root)
    {
      var k := KeyHex(key);
      var r := LazyTrie.TryGet(Here(), store, root, k, w, trie, true);
      TryGetAgrees(Here(), w, store, root, trie, k, true);
      if r.Missing? {
        return None, false;
      }
      if r.resolved {
        root := r.node;
      }
      return r.value, true;
    }

    /** `TryUpdate`: an empty value deletes. A missing node leaves the trie as it was. */
    method TryUpdate(key: Bytes, value: Bytes, ghost w: World) returns (ok: bool)
      requires Valid(w) && Trusted(H, w, trie)
      modifies this`root, this`trie
      ensures Valid(w)
      ensures ok ==> trie == Step(old(trie), Update(KeyHex(key), value))
      ensures w.full ==> ok
      ensures !ok ==> trie == old(trie) && root == old(root)
    {
      var k := KeyHex(key);
      var r := Lost;
      if |value| != 0 {
        r := InsertAt(Here(), store, root, k, value, w, trie, true);
        InsertAgrees(Here(), w, store, root, trie, k, value, true);
      } else {
        r := DeleteAt(Here(), store, root, k, w, trie, true);
        DeleteAgrees(Here(), w, store, root, trie, k, true);
      }
      if r.Lost? {
        return false;
      }
      StepLookup(trie, Update(k, value), k);
      root, trie := r.node, Step(trie, Update(k, value));
      return true;
    }

    /** `TryDelete` */
    method TryDelete(key: Bytes, ghost w: World) returns (ok: bool)
      requires Valid(w) && Trusted(H, w, trie)
      modifies this`root, this`trie
      ensures Valid(w)
      ensures ok ==> trie == Delete(old(trie), KeyHex(key))
      ensures w.full ==> ok
      ensures !ok ==> trie == old(trie) && root == old(root)
    {
      var k := KeyHex(key);
      var r := DeleteAt(Here(), store, root, k, w, trie, true);
      DeleteAgrees(Here(), w, store, root, trie, k, true);
      if r.Lost? {
        return false;
      }
      DeleteWf(trie, k);
      root, trie := r.node, Delete(trie, k);
      return true;
    }

    /** `Hash`: the root hash, which is that of the contents alone; nothing is written. */
    method Hash(ghost w: World) returns (h: Bytes)
      requires Valid(w) && Trusted(H, w, trie)
      modifies this`root
      ensures Valid(w) && h == Root(H, trie)
    {
      if root.NilNode? {
        return H(EMPTY);
      }
      NilRep(Here(), w, store, root, trie, true);
      HashAgrees(Here(), w, store, false, root, trie, true);
      var r := HashAt(Here(), store, false, root, true);
      root := r.cached;
      h := r.hashed.hash;
    }

    /** `Commit`: everything that is not in the store yet goes there, old parts may leave memory,
        and the trie can be reopened by the hash returned. */
    method Commit(ghost w: World) returns (h: Bytes)
      requires Valid(w) && Trusted(H, w, trie)
      modifies this`root, this`store, this`cachegen
      ensures Valid(w) && h == Root(H, trie)
      ensures Grows(old(store), store)
      ensures w.full && trie != Nil ==> AllStored(H, store, trie)
    {
      ghost var before := Here();
      if root.NilNode? {
        h := H(EMPTY);
      } else {
        NilRep(Here(), w, store, root, trie, true);
        HashAgrees(Here(), w, store, true, root, trie, true);
        var r := HashAt(Here(), store, true, root, true);
        root, store := r.cached, r.store;
        h := r.hashed.hash;
      }
      cachegen := (cachegen + 1) % GENERATIONS;
      RepEnv(before, Here(), w, store, root, trie, true);
    }

    /** Others change the shared store. It must keep what it has for a trie that counts on it;
        otherwise it may lose anything. */
    method Refresh(s: Store, ghost w: World)
      requires Valid(w) && Sound(Here(), w, s) && (w.full ==> Grows(store, s))
      modifies this`store
      ensures Valid(w) && store == s
    {
      RepElsewhere(Here(), w, store, s, root, trie, true);
      store := s;
    }
  }
}
