/**
 The bookkeeping of the download scheduler, apart from what is downloaded: which requests refer
 to which, how many references each waits for, and what follows when one is done.
 */
module SyncLedger {

  /** A request: whether its data is there, who refers to it (once for every reference), and how
      many references of its own are outstanding. */
  datatype Entry<K> = Entry(ready: bool, parents: seq<K>, deps: nat)

  /** The requests, with the outstanding references of each, and everything that each one waits
      for once its data is there. */
  datatype Book<!K> = Book(entries: map<K, Entry<K>>, out: map<K, multiset<K>>, awaits: map<K, set<K>>)

  // ---------------------------------------------------------------- invariants

  ghost predicate Keyed<K(!new)>(b: Book<K>) {
    b.out.Keys == b.entries.Keys == b.awaits.Keys
  }

  /** The outstanding references of `p` to `c` are those that `c` has recorded. */
  ghost predicate Mutual<K(!new)>(b: Book<K>, p: K, c: K)
    requires Keyed(b)
  {
    p in b.out && c in b.entries ==> b.out[p][c] == multiset(b.entries[c].parents)[p]
  }

  /** References run between requests. */
  ghost predicate Inside<K(!new)>(b: Book<K>, p: K, c: K)
    requires Keyed(b)
  {
    && (p in b.out && c in b.out[p] ==> c in b.entries)
    && (c in b.entries && p in b.entries[c].parents ==> p in b.entries)
  }

  ghost predicate Linked<K(!new)>(b: Book<K>)
    requires Keyed(b)
  {
    && (forall p, c {:trigger Mutual(b, p, c)} :: Mutual(b, p, c))
    && (forall p, c {:trigger Inside(b, p, c)} :: Inside(b, p, c))
  }

  /** `deps` is the number of outstanding references and of messages that are on their way; a
      request without data waits for nothing. */
  ghost predicate Tallied<K(!new)>(b: Book<K>, owed: multiset<K>, p: K)
    requires Keyed(b)
  {
    && (p in b.entries ==> b.entries[p].deps == |b.out[p]| + owed[p])
    && (p in b.entries && !b.entries[p].ready ==> b.entries[p].deps == 0)
    && (p in owed ==> p in b.entries)
  }

  ghost predicate Counted<K(!new)>(b: Book<K>, owed: multiset<K>)
    requires Keyed(b)
  {
    forall p {:trigger Tallied(b, owed, p)} :: Tallied(b, owed, p)
  }

  /** A request whose data is there waits for whatever it needs that is not known. */
  ghost predicate Waits<K(!new)>(b: Book<K>, known: set<K>, p: K, c: K)
    requires Keyed(b)
  {
    p in b.entries && b.entries[p].ready && c in b.awaits[p] && c !in known ==> c in b.out[p]
  }

  ghost predicate Waiting<K(!new)>(b: Book<K>, known: set<K>)
    requires Keyed(b)
  {
    forall p, c {:trigger Waits(b, known, p, c)} :: Waits(b, known, p, c)
  }

  ghost predicate Inv<K(!new)>(b: Book<K>, known: set<K>, owed: multiset<K>) {
    Keyed(b) && Linked(b) && Counted(b, owed) && Waiting(b, known)
  }

  // ---------------------------------------------------------------- new requests

  /** A new request that nobody refers to yet. */
  function WithEntry<K(==)>(b: Book<K>, c: K): Book<K> {
    Book(b.entries[c := Entry(false, [], 0)], b.out[c := multiset{}], b.awaits[c := {}])
  }

  lemma AddEntry<K(!new)>(b: Book<K>, known: set<K>, owed: multiset<K>, c: K)
    requires Inv(b, known, owed) && c !in b.entries
    ensures Inv(WithEntry(b, c), known, owed)
  {
    var b' := WithEntry(b, c);
    forall p, x ensures Mutual(b', p, x) {
      assert Mutual(b, p, x) && Inside(b, p, x);
    }
    forall p, x ensures Inside(b', p, x) { assert Inside(b, p, x); }
    forall p ensures Tallied(b', owed, p) { assert Tallied(b, owed, p); }
    forall p, x ensures Waits(b', known, p, x) { assert Waits(b, known, p, x); }
  }

  /** One more reference from a request to a pending one, announced before. */
  function WithLink<K(==)>(b: Book<K>, p: K, c: K): Book<K>
    requires c in b.entries && p in b.out
  {
    var r := b.entries[c];
    Book(b.entries[c := r.(parents := r.parents + [p])], b.out[p := b.out[p] + multiset{c}], b.awaits)
  }

  lemma AddLink<K(!new)>(b: Book<K>, known: set<K>, owed: multiset<K>, p: K, c: K)
    requires Inv(b, known, owed) && p in owed && c in b.entries
    ensures p in b.out && Inv(WithLink(b, p, c), known, owed - multiset{p})
  {
    assert Tallied(b, owed, p);
    var b', owed' := WithLink(b, p, c), owed - multiset{p};
    LinkMutual(b, p, c);
    forall q, x ensures Inside(b', q, x) { assert Inside(b, q, x); }
    forall q ensures Tallied(b', owed', q) { assert Tallied(b, owed, q); }
    forall q, x ensures Waits(b', known, q, x) { assert Waits(b, known, q, x); }
  }

  lemma LinkMutual<K(!new)>(b: Book<K>, p: K, c: K)
    requires Keyed(b) && Linked(b) && p in b.out && c in b.entries
    ensures forall q, x {:trigger Mutual(WithLink(b, p, c), q, x)} :: Mutual(WithLink(b, p, c), q, x)
  {
    forall q, x ensures Mutual(WithLink(b, p, c), q, x) { assert Mutual(b, q, x); }
  }

  /** References are announced: they are counted before they are made. */
  function WithDeps<K(==)>(b: Book<K>, p: K, k: nat): Book<K>
    requires p in b.entries
  {
    b.(entries := b.entries[p := b.entries[p].(deps := b.entries[p].deps + k)])
  }

  lemma Announce<K(!new)>(b: Book<K>, known: set<K>, owed: multiset<K>, p: K, k: nat)
    requires Inv(b, known, owed) && p in b.entries && b.entries[p].ready
    ensures Inv(WithDeps(b, p, k), known, owed[p := owed[p] + k])
  {
    var b', owed' := WithDeps(b, p, k), owed[p := owed[p] + k];
    forall q, x ensures Mutual(b', q, x) { assert Mutual(b, q, x); }
    forall q, x ensures Inside(b', q, x) { assert Inside(b, q, x); }
    forall q ensures Tallied(b', owed', q) { assert Tallied(b, owed, q); }
    forall q, x ensures Waits(b', known, q, x) { assert Waits(b, known, q, x); }
  }

  /** A message arrives: one reference less to wait for. */
  function WithNotice<K(==)>(b: Book<K>, p: K): Book<K>
    requires p in b.entries && b.entries[p].deps > 0
  {
    b.(entries := b.entries[p := b.entries[p].(deps := b.entries[p].deps - 1)])
  }

  lemma Notify<K(!new)>(b: Book<K>, known: set<K>, owed: multiset<K>, p: K)
    requires Inv(b, known, owed) && p in owed
    ensures p in b.entries && b.entries[p].deps > 0 && b.entries[p].ready
    ensures Inv(WithNotice(b, p), known, owed - multiset{p})
  {
    assert Tallied(b, owed, p);
    var b', owed' := WithNotice(b, p), owed - multiset{p};
    forall q, x ensures Mutual(b', q, x) { assert Mutual(b, q, x); }
    forall q, x ensures Inside(b', q, x) { assert Inside(b, q, x); }
    forall q ensures Tallied(b', owed', q) { assert Tallied(b, owed, q); }
    forall q, x ensures Waits(b', known, q, x) { assert Waits(b, known, q, x); }
  }

  /** The data of a request arrives. */
  function WithData<K(==)>(b: Book<K>, p: K): Book<K>
    requires p in b.entries
  {
    b.(entries := b.entries[p := b.entries[p].(ready := true)])
  }

  lemma Receive<K(!new)>(b: Book<K>, known: set<K>, owed: multiset<K>, p: K)
    requires Inv(b, known, owed) && p in b.entries && !b.entries[p].ready && b.awaits[p] == {}
    ensures Inv(WithData(b, p), known, owed)
  {
    var b' := WithData(b, p);
    forall q, x ensures Mutual(b', q, x) { assert Mutual(b, q, x); }
    forall q, x ensures Inside(b', q, x) { assert Inside(b, q, x); }
    forall q ensures Tallied(b', owed, q) { assert Tallied(b, owed, q); }
    forall q, x ensures Waits(b', known, q, x) { assert Waits(b, known, q, x); }
  }

  /** A request turns out to need something, which is known or which it refers to. */
  function WithNeed<K(==)>(b: Book<K>, p: K, c: K): Book<K>
    requires p in b.awaits
  {
    b.(awaits := b.awaits[p := b.awaits[p] + {c}])
  }

  lemma Need<K(!new)>(b: Book<K>, known: set<K>, owed: multiset<K>, p: K, c: K)
    requires Inv(b, known, owed) && p in b.entries && (c in known || c in b.out[p])
    ensures Inv(WithNeed(b, p, c), known, owed)
  {
    var b' := WithNeed(b, p, c);
    forall q, x ensures Mutual(b', q, x) { assert Mutual(b, q, x); }
    forall q, x ensures Inside(b', q, x) { assert Inside(b, q, x); }
    forall q ensures Tallied(b', owed, q) { assert Tallied(b, owed, q); }
    forall q, x ensures Waits(b', known, q, x) { assert Waits(b, known, q, x); }
  }

  lemma KeysAgree<K(!new)>(b: Book<K>, known: set<K>, owed: multiset<K>)
    requires Inv(b, known, owed)
    ensures b.out.Keys == b.entries.Keys == b.awaits.Keys
    ensures forall p :: p in owed ==> p in b.entries && b.entries[p].ready
    ensures forall p :: p in b.entries && !b.entries[p].ready ==> b.entries[p].deps == 0
  {
    forall p | p in owed || p in b.entries
      ensures p in owed ==> p in b.entries && b.entries[p].ready
      ensures p in b.entries && !b.entries[p].ready ==> b.entries[p].deps == 0
    {
      assert Tallied(b, owed, p);
    }
  }

  // ---------------------------------------------------------------- completion

  /** A request is done: it leaves, and every reference to it becomes a message. */
  function Without<K(==)>(b: Book<K>, r: K): Book<K> {
    Book(b.entries - {r}, map p | p in b.out && p != r :: b.out[p][r := 0], b.awaits - {r})
  }

  lemma {:induction false} Copies<K>(r: K, k: nat)
    ensures |multiset{}[r := k]| == k
  {
    if k > 0 {
      Copies(r, k - 1);
      assert multiset{}[r := k] == multiset{}[r := k - 1] + multiset{r};
    } else {
      assert multiset{}[r := 0] == multiset{};
    }
  }

  lemma Dropped<K>(m: multiset<K>, r: K)
    ensures |m[r := 0]| == |m| - m[r]
  {
    var k := m[r];
    assert m == m[r := 0] + multiset{}[r := k];
    Copies(r, k);
  }

  /** A request that waits for nothing has everything it needs. */
  lemma NothingMissing<K(!new)>(b: Book<K>, known: set<K>, owed: multiset<K>, r: K)
    requires Inv(b, known, owed) && r in b.entries && b.entries[r].deps == 0 && b.entries[r].ready
    ensures b.out[r] == multiset{} && owed[r] == 0 && b.awaits[r] <= known
  {
    assert Tallied(b, owed, r);
    forall c | c in b.awaits[r] ensures c in known {
      assert Waits(b, known, r, c);
    }
  }

  lemma Finish<K(!new)>(b: Book<K>, known: set<K>, owed: multiset<K>, r: K)
    requires Inv(b, known, owed) && r in b.entries && b.entries[r].deps == 0 && b.entries[r].ready
    ensures Inv(Without(b, r), known + {r}, owed + multiset(b.entries[r].parents))
  {
    var b', known', owed' := Without(b, r), known + {r}, owed + multiset(b.entries[r].parents);
    NothingMissing(b, known, owed, r);
    forall q, x ensures Mutual(b', q, x) { assert Mutual(b, q, x); }
    FinishInside(b, r);
    forall q ensures Tallied(b', owed', q) {
      assert Tallied(b, owed, q) && Mutual(b, q, r) && Inside(b, q, r) && Mutual(b, r, r);
      if q in b'.entries { Dropped(b.out[q], r); }
    }
    forall q, x ensures Waits(b', known', q, x) { assert Waits(b, known, q, x); }
  }

  lemma FinishInside<K(!new)>(b: Book<K>, r: K)
    requires Keyed(b) && Linked(b) && r in b.entries && b.out[r] == multiset{}
    ensures Keyed(Without(b, r))
    ensures forall q, x {:trigger Inside(Without(b, r), q, x)} :: Inside(Without(b, r), q, x)
  {
    forall q, x ensures Inside(Without(b, r), q, x) {
      assert Inside(b, q, x) && Mutual(b, r, x);
    }
  }

  // ---------------------------------------------------------------- progress

  /** While anything is pending, something is still to be delivered. */
  lemma {:induction false} Progress<K(!new)>(b: Book<K>, known: set<K>, rank: K -> nat, p: K) returns (c: K)
    requires Inv(b, known, multiset{}) && p in b.entries
    requires forall q :: q in b.entries && b.entries[q].ready ==> b.entries[q].deps > 0
    requires forall q, x :: q in b.entries && x in b.out[q] ==> rank(x) < rank(q)
    ensures c in b.entries && !b.entries[c].ready
    decreases rank(p)
  {
    c := p;
    if b.entries[p].ready {
      assert Tallied(b, multiset{}, p);
      assert b.out[p] != multiset{};
      var x :| x in b.out[p];
      assert Inside(b, p, x);
      c := Progress(b, known, rank, x);
    }
  }
}
