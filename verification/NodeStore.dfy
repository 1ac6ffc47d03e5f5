/**
 Reference counting, flush order and disk closure of the trie node cache, as invariants over
 values.  Module `TrieDatabase` proves that the operations on the real cache keep them.
 */
module NodeStore {
  import opened Common

  type Hash = nat

  /** The all-zero hash: key of the meta-root and end marker of the flush-list. */
  const ZERO: Hash := 0
  const MAX_UINT16 := 0xFFFF

  /** What reference counting sees of a cached node: the hashes embedded in it, its counter,
      and the external children attached to it by `Reference`. */
  datatype Core = Core(refs: multiset<Hash>, parents: nat, children: map<Hash, nat>)

  /** How many references a node holds to `c`. */
  ghost function Refs(e: Core, c: Hash): nat {
    (if c in e.children then e.children[c] else 0) + e.refs[c]
  }

  ghost predicate HasRef(e: Core, c: Hash) {
    c in e.children || c in e.refs
  }

  /**
   What the invariants speak about.  `cache` and `stored` abstract the real cache and disk;
   the rest is bookkeeping: the children of each node when it reached the disk, who
   references a node, when it was cached, and a rank that witnesses that content addressing
   admits no cycles.
   */
  datatype State = State(cache: map<Hash, Core>, stored: set<Hash>, links: map<Hash, set<Hash>>,
                         refBy: map<Hash, multiset<Hash>>, stamp: map<Hash, nat>, rank: Hash -> nat)

  // ---------------------------------------------------------------- invariants

  /** No node on disk has a child that is not on disk. */
  ghost predicate Closed(stored: set<Hash>, links: map<Hash, set<Hash>>) {
    forall h, c {:trigger c in links[h]} :: h in links && c in links[h] ==> c in stored
  }

  /** `x` is the set of nodes already unlinked whose removal is still in progress. */
  ghost predicate Shape(s: State, x: set<Hash>) {
    && ZERO in s.cache && ZERO !in s.stored && ZERO !in x && x <= s.cache.Keys
    && s.links.Keys == s.stored
    && (forall h, c {:trigger c in s.cache[h].children} ::
          h in s.cache && h != ZERO && c in s.cache[h].children ==> s.cache[h].children[c] == 1)
    && (forall c :: c in s.cache[ZERO].children ==> 0 < s.cache[ZERO].children[c] <= MAX_UINT16)
  }

  /** The cached node `p` references `c`. */
  ghost predicate Edge(cache: map<Hash, Core>, p: Hash, c: Hash) {
    p in cache && HasRef(cache[p], c)
  }

  ghost predicate Older(s: State, c: Hash, p: Hash) {
    c in s.stamp && p in s.stamp && s.stamp[c] < s.stamp[p]
  }

  /** Children have a smaller rank than their parents, and are never the meta-root. */
  ghost predicate Acyclic(s: State) {
    forall p, c {:trigger Edge(s.cache, p, c)} :: Edge(s.cache, p, c) ==>
      c != ZERO && (p != ZERO ==> s.rank(c) < s.rank(p))
  }

  /** Every reference of a live node leads to disk or to an older live node. */
  ghost predicate Ordered(s: State, x: set<Hash>) {
    forall p, c {:trigger Edge(s.cache, p, c)} :: Edge(s.cache, p, c) && p !in x && c !in s.stored ==>
      c in s.cache && c !in x && p !in s.stored && (p == ZERO || Older(s, c, p))
  }

  /** A live node whose reference count has to be exact: it is not on disk yet. */
  ghost predicate Tracked(s: State, x: set<Hash>, h: Hash) {
    h in s.cache && h != ZERO && h !in x && h !in s.stored
  }

  /** The references a live node holds; nodes under removal hold none. */
  ghost function Held(cache: map<Hash, Core>, x: set<Hash>, p: Hash, h: Hash): nat {
    if p in cache && p !in x then Refs(cache[p], h) else 0
  }

  /** `refBy[h]` is the multiset of the live nodes referencing `h`. */
  ghost predicate Indexed(s: State, x: set<Hash>) {
    && (forall h {:trigger Tracked(s, x, h)} :: Tracked(s, x, h) ==> h in s.refBy)
    && (forall h, p {:trigger Held(s.cache, x, p, h)} :: Tracked(s, x, h) ==> s.refBy[h][p] == Held(s.cache, x, p, h))
  }

  /** `parents` is the exact reference count of every tracked node, once the `debt` still to
      be paid by nodes under removal is added. */
  ghost predicate Counted(s: State, x: set<Hash>, debt: multiset<Hash>) {
    forall h {:trigger Tracked(s, x, h)} :: Tracked(s, x, h) ==>
      h in s.refBy && s.cache[h].parents == |s.refBy[h]| + debt[h]
  }

  ghost predicate Inv(s: State, x: set<Hash>, debt: multiset<Hash>) {
    match s
    case State(_, stored, links, _, _, _) =>
      && Shape(s, x) && Acyclic(s) && Ordered(s, x) && Indexed(s, x) && Counted(s, x, debt)
      && Closed(stored, links)
  }

  // ---------------------------------------------------------------- removing a node

  /** The children multiset that removing a node pays back. */
  ghost predicate Kids(e: Core, kids: multiset<Hash>) {
    forall c :: kids[c] == Refs(e, c)
  }

  ghost function Forget(refBy: map<Hash, multiset<Hash>>, v: Hash): map<Hash, multiset<Hash>> {
    map h | h in refBy :: refBy[h][v := 0]
  }

  /** A live node may be taken out of service: it is on disk, or nothing references it. */
  ghost predicate Removable(s: State, x: set<Hash>, v: Hash) {
    && v in s.cache && v != ZERO && v !in x
    && (v !in s.stored ==> v in s.refBy && |s.refBy[v]| == 0)
  }

  lemma UnreferencedIsUnheld(s: State, x: set<Hash>, v: Hash, p: Hash)
    requires Shape(s, x) && Indexed(s, x)
    requires Removable(s, x, v) && v !in s.stored && p in s.cache && p !in x
    ensures !HasRef(s.cache[p], v)
  {
    assert Tracked(s, x, v);
    assert s.refBy[v][p] == Held(s.cache, x, p, v) == Refs(s.cache[p], v);
    assert s.refBy[v] == multiset{};
  }

  lemma CondemnOrdered(s: State, x: set<Hash>, v: Hash)
    requires Shape(s, x) && Indexed(s, x) && Ordered(s, x) && Removable(s, x, v)
    ensures Ordered(s.(refBy := Forget(s.refBy, v)), x + {v})
  {
    forall p, c {:trigger Edge(s.cache, p, c)} | Edge(s.cache, p, c) && p !in x + {v} && c !in s.stored
      ensures c in s.cache && c !in x + {v} && p !in s.stored && (p == ZERO || Older(s, c, p))
    {
      if c == v { UnreferencedIsUnheld(s, x, v, p); }
    }
  }

  lemma CondemnCounted(s: State, x: set<Hash>, v: Hash, debt: multiset<Hash>, kids: multiset<Hash>)
    requires Shape(s, x) && Indexed(s, x) && Counted(s, x, debt)
    requires Removable(s, x, v) && Kids(s.cache[v], kids)
    ensures Indexed(s.(refBy := Forget(s.refBy, v)), x + {v})
    ensures Counted(s.(refBy := Forget(s.refBy, v)), x + {v}, debt + kids)
  {
    var t := s.(refBy := Forget(s.refBy, v));
    forall h | Tracked(t, x + {v}, h)
      ensures h in t.refBy && t.cache[h].parents == |t.refBy[h]| + (debt + kids)[h]
    {
      assert Tracked(s, x, h);
      assert s.refBy[h][v] == Held(s.cache, x, v, h) == kids[h];
    }
    forall h, p {:trigger Held(t.cache, x + {v}, p, h)} | Tracked(t, x + {v}, h)
      ensures t.refBy[h][p] == Held(t.cache, x + {v}, p, h)
    {
      assert Tracked(s, x, h);
      assert s.refBy[h][p] == Held(s.cache, x, p, h);
    }
  }

  /** Taking a node out of service turns its references into debt. */
  lemma Condemn(s: State, x: set<Hash>, v: Hash, debt: multiset<Hash>, kids: multiset<Hash>)
    requires Inv(s, x, debt) && Removable(s, x, v) && Kids(s.cache[v], kids)
    ensures Inv(s.(refBy := Forget(s.refBy, v)), x + {v}, debt + kids)
  {
    CondemnOrdered(s, x, v);
    CondemnCounted(s, x, v, debt, kids);
  }

  lemma DeleteOrdered(s: State, x: set<Hash>, v: Hash)
    requires Acyclic(s) && Ordered(s, x) && v in x
    ensures var t := s.(cache := s.cache - {v}); Acyclic(t) && Ordered(t, x - {v})
  {
    var t := s.(cache := s.cache - {v});
    forall p, c {:trigger Edge(t.cache, p, c)} | Edge(t.cache, p, c) && p !in x - {v} && c !in t.stored
      ensures c in t.cache && c !in x - {v} && p !in t.stored && (p == ZERO || Older(t, c, p))
    {
      assert Edge(s.cache, p, c);
      assert p == ZERO || Older(s, c, p);
    }
    forall p, c {:trigger Edge(t.cache, p, c)} | Edge(t.cache, p, c)
      ensures c != ZERO && (p != ZERO ==> t.rank(c) < t.rank(p))
    {
      assert Edge(s.cache, p, c);
    }
  }

  lemma DeleteCounted(s: State, x: set<Hash>, v: Hash, debt: multiset<Hash>)
    requires Indexed(s, x) && Counted(s, x, debt) && v in x
    ensures var t := s.(cache := s.cache - {v}); Indexed(t, x - {v}) && Counted(t, x - {v}, debt)
  {
    var t := s.(cache := s.cache - {v});
    forall h | Tracked(t, x - {v}, h)
      ensures h in t.refBy && t.cache[h].parents == |t.refBy[h]| + debt[h]
    {
      assert Tracked(s, x, h);
    }
    forall h, p {:trigger Held(t.cache, x - {v}, p, h)} | Tracked(t, x - {v}, h)
      ensures t.refBy[h][p] == Held(t.cache, x - {v}, p, h)
    {
      assert Tracked(s, x, h);
      assert s.refBy[h][p] == Held(s.cache, x, p, h);
    }
  }

  /** A node on disk can be taken out of service without any debt: what it references is on disk. */
  lemma CondemnStored(s: State, x: set<Hash>, v: Hash, debt: multiset<Hash>)
    requires Inv(s, x, debt) && v in s.cache && v != ZERO && v !in x && v in s.stored
    ensures Inv(s, x + {v}, debt)
  {
    forall h {:trigger Tracked(s, x + {v}, h)} | Tracked(s, x + {v}, h)
      ensures h in s.refBy && s.cache[h].parents == |s.refBy[h]| + debt[h]
    {
      assert Tracked(s, x, h);
    }
    forall h, p {:trigger Held(s.cache, x + {v}, p, h)} | Tracked(s, x + {v}, h)
      ensures s.refBy[h][p] == Held(s.cache, x + {v}, p, h)
    {
      assert Tracked(s, x, h);
      assert s.refBy[h][p] == Held(s.cache, x, p, h);
      if p == v { assert !Edge(s.cache, v, h); }
    }
  }

  /** Once its debt is paid a node under removal can be deleted. */
  lemma Delete(s: State, x: set<Hash>, v: Hash, debt: multiset<Hash>)
    requires Inv(s, x, debt) && v in x
    ensures Inv(s.(cache := s.cache - {v}), x - {v}, debt)
  {
    DeleteOrdered(s, x, v);
    DeleteCounted(s, x, v, debt);
  }

  ghost function WithParents(s: State, c: Hash, parents: nat): State
    requires c in s.cache
  {
    s.(cache := s.cache[c := s.cache[c].(parents := parents)])
  }

  lemma ParentsOrdered(s: State, x: set<Hash>, c: Hash, parents: nat)
    requires c in s.cache && Acyclic(s) && Ordered(s, x)
    ensures var t := WithParents(s, c, parents); Acyclic(t) && Ordered(t, x)
  {
    var t := WithParents(s, c, parents);
    forall p, k {:trigger Edge(t.cache, p, k)} | Edge(t.cache, p, k) && p !in x && k !in t.stored
      ensures k in t.cache && k !in x && p !in t.stored && (p == ZERO || Older(t, k, p))
    {
      assert Edge(s.cache, p, k);
      assert p == ZERO || Older(s, k, p);
    }
    forall p, k {:trigger Edge(t.cache, p, k)} | Edge(t.cache, p, k)
      ensures k != ZERO && (p != ZERO ==> t.rank(k) < t.rank(p))
    {
      assert Edge(s.cache, p, k);
    }
  }

  lemma ParentsIndexed(s: State, x: set<Hash>, c: Hash, parents: nat)
    requires c in s.cache && Indexed(s, x)
    ensures Indexed(WithParents(s, c, parents), x)
  {
    var t := WithParents(s, c, parents);
    forall h | Tracked(t, x, h)
      ensures h in t.refBy
    {
      assert Tracked(s, x, h);
    }
    forall h, p {:trigger Held(t.cache, x, p, h)} | Tracked(t, x, h)
      ensures h in t.refBy && t.refBy[h][p] == Held(t.cache, x, p, h)
    {
      assert Tracked(s, x, h);
      assert s.refBy[h][p] == Held(s.cache, x, p, h);
    }
  }

  /** Paying one unit of debt: the child's counter goes down by one. */
  lemma Pay(s: State, x: set<Hash>, c: Hash, debt: multiset<Hash>, parents: nat)
    requires Inv(s, x, debt) && c in debt
    requires c in s.cache && c != ZERO && c !in x
    requires c !in s.stored ==> parents == s.cache[c].parents - 1
    ensures Inv(WithParents(s, c, parents), x, debt - multiset{c})
    ensures c !in s.stored ==> c in s.refBy && (parents == 0 ==> |s.refBy[c]| == 0)
  {
    ParentsOrdered(s, x, c, parents);
    ParentsIndexed(s, x, c, parents);
    var t := WithParents(s, c, parents);
    forall h | Tracked(t, x, h)
      ensures h in t.refBy && t.cache[h].parents == |t.refBy[h]| + (debt - multiset{c})[h]
    {
      assert Tracked(s, x, h);
    }
    if c !in s.stored { assert Tracked(s, x, c); }
  }

  /** A node under removal may drop an explicit reference; it has been turned into debt before. */
  lemma Strip(s: State, x: set<Hash>, p: Hash, c: Hash, debt: multiset<Hash>)
    requires Inv(s, x, debt) && p in x && p in s.cache
    ensures Inv(s.(cache := s.cache[p := s.cache[p].(children := s.cache[p].children - {c})]), x, debt)
  {
    var t := s.(cache := s.cache[p := s.cache[p].(children := s.cache[p].children - {c})]);
    forall q, h {:trigger Edge(t.cache, q, h)} | Edge(t.cache, q, h)
      ensures Edge(s.cache, q, h)
    {
    }
    forall h {:trigger Tracked(t, x, h)} | Tracked(t, x, h)
      ensures Tracked(s, x, h)
    {
    }
    forall q, h {:trigger Held(t.cache, x, q, h)}
      ensures Held(t.cache, x, q, h) == Held(s.cache, x, q, h)
    {
    }
  }

  /** Debt may be noted towards a node whose count does not matter. */
  lemma Incur(s: State, c: Hash)
    requires Inv(s, {}, multiset{}) && !Tracked(s, {}, c)
    ensures Inv(s, {}, multiset{c})
  {
  }

  /** Debt owed to a node that is no longer cached, or is on disk, is void. */
  lemma Waive(s: State, x: set<Hash>, c: Hash, debt: multiset<Hash>)
    requires Inv(s, x, debt) && !Tracked(s, x, c)
    ensures Inv(s, x, debt - multiset{c})
  {
  }

  // ---------------------------------------------------------------- adding references

  /** Adding `n` to the counters of cached children, as a new reference does. */
  ghost function Raise(cache: map<Hash, Core>, kids: multiset<Hash>): map<Hash, Core> {
    map h | h in cache :: cache[h].(parents := cache[h].parents + kids[h])
  }

  ghost function Credit(refBy: map<Hash, multiset<Hash>>, v: Hash, kids: multiset<Hash>): map<Hash, multiset<Hash>> {
    map h | h in refBy :: refBy[h][v := kids[h]]
  }

  /** The state after caching node `v` with embedded children `kids`. */
  ghost function Inserted(s: State, v: Hash, kids: multiset<Hash>, now: nat): State {
    s.(cache := Raise(s.cache, kids)[v := Core(kids, 0, map[])],
       refBy := Credit(s.refBy, v, kids)[v := multiset{}],
       stamp := s.stamp[v := now])
  }

  /** Children are available before their parent, and content addressing is acyclic. */
  ghost predicate Insertable(s: State, v: Hash, kids: multiset<Hash>, now: nat) {
    && v != ZERO && v !in s.cache
    && (forall c :: c in kids ==> c != ZERO && s.rank(c) < s.rank(v))
    && (forall c :: c in kids && c !in s.stored ==> v !in s.stored && c in s.cache && c in s.stamp)
    && (forall h :: h in s.stamp ==> s.stamp[h] < now)
  }

  lemma InsertedEntry(s: State, v: Hash, kids: multiset<Hash>, now: nat, p: Hash)
    requires v !in s.cache
    ensures var t := Inserted(s, v, kids, now);
            && (p in t.cache <==> p == v || p in s.cache)
            && (p in s.cache ==> t.cache[p] == s.cache[p].(parents := s.cache[p].parents + kids[p]))
            && (p == v ==> t.cache[p] == Core(kids, 0, map[]))
  {
  }

  lemma InsertShape(s: State, v: Hash, kids: multiset<Hash>, now: nat)
    requires Shape(s, {}) && v !in s.cache
    ensures Shape(Inserted(s, v, kids, now), {})
  {
    var t := Inserted(s, v, kids, now);
    InsertedEntry(s, v, kids, now, ZERO);
    forall h, c | h in t.cache && h != ZERO && c in t.cache[h].children
      ensures t.cache[h].children[c] == 1
    {
      InsertedEntry(s, v, kids, now, h);
    }
  }

  lemma InsertRef(s: State, v: Hash, kids: multiset<Hash>, now: nat, p: Hash, c: Hash)
    requires Acyclic(s) && Ordered(s, {}) && Insertable(s, v, kids, now)
    requires var t := Inserted(s, v, kids, now); p in t.cache && HasRef(t.cache[p], c)
    ensures c != ZERO && (p != ZERO ==> s.rank(c) < s.rank(p))
    ensures c !in s.stored ==> c in s.cache && p !in s.stored
    ensures c !in s.stored ==> p == ZERO || Older(Inserted(s, v, kids, now), c, p)
  {
    InsertedEntry(s, v, kids, now, p);
    if p != v {
      assert Edge(s.cache, p, c);
      if c !in s.stored { assert p == ZERO || Older(s, c, p); }
    } else {
      assert c in kids;
    }
  }

  lemma InsertOrdered(s: State, v: Hash, kids: multiset<Hash>, now: nat)
    requires Acyclic(s) && Ordered(s, {}) && Insertable(s, v, kids, now)
    ensures var t := Inserted(s, v, kids, now); Acyclic(t) && Ordered(t, {})
  {
    var t := Inserted(s, v, kids, now);
    forall p, c {:trigger Edge(t.cache, p, c)} | Edge(t.cache, p, c)
      ensures c != ZERO && (p != ZERO ==> t.rank(c) < t.rank(p))
      ensures c !in t.stored ==> c in t.cache && p !in t.stored && (p == ZERO || Older(t, c, p))
    {
      InsertRef(s, v, kids, now, p, c);
      InsertedEntry(s, v, kids, now, c);
    }
  }

  lemma InsertHeld(s: State, v: Hash, kids: multiset<Hash>, now: nat, p: Hash, h: Hash)
    requires Ordered(s, {}) && Insertable(s, v, kids, now)
    ensures var t := Inserted(s, v, kids, now);
            Held(t.cache, {}, p, h) == (if p == v then kids[h] else Held(s.cache, {}, p, h))
    ensures v !in s.stored ==> Held(s.cache, {}, p, v) == 0
    ensures kids[v] == 0
  {
    InsertedEntry(s, v, kids, now, p);
    if v !in s.stored && p in s.cache { assert !Edge(s.cache, p, v); }
  }

  lemma InsertCounted(s: State, v: Hash, kids: multiset<Hash>, now: nat)
    requires Ordered(s, {}) && Indexed(s, {}) && Counted(s, {}, multiset{}) && Insertable(s, v, kids, now)
    ensures var t := Inserted(s, v, kids, now); Indexed(t, {}) && Counted(t, {}, multiset{})
  {
    var t := Inserted(s, v, kids, now);
    forall h | Tracked(t, {}, h)
      ensures h in t.refBy && t.cache[h].parents == |t.refBy[h]|
    {
      InsertedEntry(s, v, kids, now, h);
      if h != v {
        assert Tracked(s, {}, h);
        assert s.refBy[h][v] == Held(s.cache, {}, v, h) == 0;
      }
    }
    forall h, p {:trigger Held(t.cache, {}, p, h)} | Tracked(t, {}, h)
      ensures t.refBy[h][p] == Held(t.cache, {}, p, h)
    {
      InsertedEntry(s, v, kids, now, h);
      InsertHeld(s, v, kids, now, p, h);
      if h != v {
        assert Tracked(s, {}, h);
        assert s.refBy[h][p] == Held(s.cache, {}, p, h);
      }
    }
  }

  /** Caching a new node whose children are available. */
  lemma Insert(s: State, v: Hash, kids: multiset<Hash>, now: nat)
    requires Inv(s, {}, multiset{}) && Insertable(s, v, kids, now)
    ensures Inv(Inserted(s, v, kids, now), {}, multiset{})
  {
    InsertShape(s, v, kids, now);
    InsertOrdered(s, v, kids, now);
    InsertCounted(s, v, kids, now);
  }

  /** The state after `Reference(c, p)` records one more reference from `p` to `c`. */
  ghost function Linking(s: State, c: Hash, p: Hash, count: nat): State
    requires c in s.cache && p in s.cache && c != p
  {
    var raised := s.cache[c := s.cache[c].(parents := s.cache[c].parents + 1)];
    s.(cache := raised[p := s.cache[p].(children := s.cache[p].children[c := count])],
       refBy := if c in s.refBy then s.refBy[c := s.refBy[c] + multiset{p}] else s.refBy)
  }

  /** A new reference may be recorded: the meta-root may repeat one, any other node holds it
      once, and the child was available before the parent. */
  ghost predicate Linkable(s: State, c: Hash, p: Hash, count: nat) {
    && c in s.cache && p in s.cache && c != ZERO && c != p
    && count == (if c in s.cache[p].children then s.cache[p].children[c] else 0) + 1
    && (p == ZERO ==> count <= MAX_UINT16)
    && (p != ZERO ==> count == 1 && s.rank(c) < s.rank(p))
    && (p != ZERO && c !in s.stored ==> p !in s.stored && Older(s, c, p))
  }

  lemma LinkRefs(s: State, c: Hash, p: Hash, count: nat, q: Hash, h: Hash)
    requires Linkable(s, c, p, count) && q in s.cache
    ensures q in Linking(s, c, p, count).cache
    ensures Refs(Linking(s, c, p, count).cache[q], h)
            == Refs(s.cache[q], h) + (if q == p && h == c then 1 else 0)
    ensures HasRef(Linking(s, c, p, count).cache[q], h)
            <==> HasRef(s.cache[q], h) || (q == p && h == c)
  {
  }

  lemma LinkShape(s: State, c: Hash, p: Hash, count: nat)
    requires Shape(s, {}) && Linkable(s, c, p, count)
    ensures Shape(Linking(s, c, p, count), {})
  {
  }

  lemma LinkOrdered(s: State, c: Hash, p: Hash, count: nat)
    requires ZERO !in s.stored && Acyclic(s) && Ordered(s, {}) && Linkable(s, c, p, count)
    ensures var t := Linking(s, c, p, count); Acyclic(t) && Ordered(t, {})
  {
    var t := Linking(s, c, p, count);
    forall q, h {:trigger Edge(t.cache, q, h)} | Edge(t.cache, q, h)
      ensures h != ZERO && (q != ZERO ==> t.rank(h) < t.rank(q))
      ensures h !in t.stored ==> h in t.cache && q !in t.stored && (q == ZERO || Older(t, h, q))
    {
      LinkRefs(s, c, p, count, q, h);
      if q != p || h != c {
        assert Edge(s.cache, q, h);
        if h !in s.stored { assert q == ZERO || Older(s, h, q); }
      }
    }
  }

  lemma LinkCounted(s: State, c: Hash, p: Hash, count: nat)
    requires Indexed(s, {}) && Counted(s, {}, multiset{}) && Linkable(s, c, p, count)
    ensures var t := Linking(s, c, p, count); Indexed(t, {}) && Counted(t, {}, multiset{})
  {
    var t := Linking(s, c, p, count);
    forall h | Tracked(t, {}, h)
      ensures h in t.refBy && t.cache[h].parents == |t.refBy[h]|
    {
      assert Tracked(s, {}, h);
    }
    forall h, q {:trigger Held(t.cache, {}, q, h)} | Tracked(t, {}, h)
      ensures t.refBy[h][q] == Held(t.cache, {}, q, h)
    {
      assert Tracked(s, {}, h);
      assert s.refBy[h][q] == Held(s.cache, {}, q, h);
      if q in s.cache { LinkRefs(s, c, p, count, q, h); }
    }
  }

  /** Recording a reference. */
  lemma Link(s: State, c: Hash, p: Hash, count: nat)
    requires Inv(s, {}, multiset{}) && Linkable(s, c, p, count)
    ensures Inv(Linking(s, c, p, count), {}, multiset{})
  {
    LinkShape(s, c, p, count);
    LinkOrdered(s, c, p, count);
    LinkCounted(s, c, p, count);
  }

  // ---------------------------------------------------------------- releasing a root

  /** The state after the meta-root gives up one reference to `c`; the child is not told yet. */
  ghost function Released(s: State, c: Hash, children: map<Hash, nat>): State
    requires ZERO in s.cache
  {
    s.(cache := s.cache[ZERO := s.cache[ZERO].(children := children)],
       refBy := if c in s.refBy then s.refBy[c := s.refBy[c] - multiset{ZERO}] else s.refBy)
  }

  /** `after` is `before` with one reference to `c` fewer. */
  ghost predicate OneLess(before: map<Hash, nat>, after: map<Hash, nat>, c: Hash) {
    && c in before && before[c] > 0
    && after == (if before[c] == 1 then before - {c} else before[c := before[c] - 1])
  }

  lemma ReleaseRefs(s: State, c: Hash, children: map<Hash, nat>, q: Hash, h: Hash)
    requires ZERO in s.cache && OneLess(s.cache[ZERO].children, children, c) && q in s.cache
    ensures Refs(Released(s, c, children).cache[q], h)
            == Refs(s.cache[q], h) - (if q == ZERO && h == c then 1 else 0)
    ensures HasRef(Released(s, c, children).cache[q], h) ==> HasRef(s.cache[q], h)
  {
  }

  lemma ReleaseShape(s: State, c: Hash, children: map<Hash, nat>)
    requires Shape(s, {}) && OneLess(s.cache[ZERO].children, children, c)
    ensures Shape(Released(s, c, children), {})
  {
  }

  lemma ReleaseOrdered(s: State, c: Hash, children: map<Hash, nat>)
    requires ZERO in s.cache && OneLess(s.cache[ZERO].children, children, c)
    requires Acyclic(s) && Ordered(s, {})
    ensures var t := Released(s, c, children); Acyclic(t) && Ordered(t, {})
  {
    var t := Released(s, c, children);
    forall q, h {:trigger Edge(t.cache, q, h)} | Edge(t.cache, q, h)
      ensures h != ZERO && (q != ZERO ==> t.rank(h) < t.rank(q))
      ensures h !in t.stored ==> h in t.cache && q !in t.stored && (q == ZERO || Older(t, h, q))
    {
      ReleaseRefs(s, c, children, q, h);
      assert Edge(s.cache, q, h);
      if h !in s.stored { assert q == ZERO || Older(s, h, q); }
    }
  }

  lemma ReleaseCounted(s: State, c: Hash, children: map<Hash, nat>)
    requires ZERO in s.cache && Indexed(s, {}) && Counted(s, {}, multiset{})
    requires OneLess(s.cache[ZERO].children, children, c)
    ensures var t := Released(s, c, children); Indexed(t, {}) && Counted(t, {}, multiset{c})
  {
    var t := Released(s, c, children);
    forall h | Tracked(t, {}, h)
      ensures h in t.refBy && t.cache[h].parents == |t.refBy[h]| + multiset{c}[h]
    {
      assert Tracked(s, {}, h);
      assert s.refBy[h][ZERO] == Held(s.cache, {}, ZERO, h);
    }
    forall h, q {:trigger Held(t.cache, {}, q, h)} | Tracked(t, {}, h)
      ensures t.refBy[h][q] == Held(t.cache, {}, q, h)
    {
      assert Tracked(s, {}, h);
      assert s.refBy[h][q] == Held(s.cache, {}, q, h);
      if q in s.cache { ReleaseRefs(s, c, children, q, h); }
    }
  }

  /** Giving up a root leaves one unit of debt to it. */
  lemma Release(s: State, c: Hash, children: map<Hash, nat>)
    requires Inv(s, {}, multiset{}) && OneLess(s.cache[ZERO].children, children, c)
    ensures Inv(Released(s, c, children), {}, multiset{c})
  {
    ReleaseShape(s, c, children);
    ReleaseOrdered(s, c, children);
    ReleaseCounted(s, c, children);
  }

  // ---------------------------------------------------------------- reaching the disk

  ghost function ChildSet(e: Core): set<Hash> {
    e.children.Keys + set c | c in e.refs
  }

  /** The state after writing a batch of cached nodes to disk. */
  ghost function Written(s: State, batch: set<Hash>): State
    requires batch <= s.cache.Keys
  {
    s.(stored := s.stored + batch,
       links := map h | h in s.links.Keys + batch ::
                  (if h in s.links then s.links[h] else {}) + (if h in batch then ChildSet(s.cache[h]) else {}))
  }

  /** A batch that may be written at any point: with it the disk still holds every child of
      every node it stores. */
  ghost predicate Writable(s: State, batch: set<Hash>) {
    && batch <= s.cache.Keys && ZERO !in batch
    && forall h, c {:trigger Edge(s.cache, h, c)} :: h in batch && Edge(s.cache, h, c) ==> c in s.stored || c in batch
  }

  lemma WrittenClosed(s: State, batch: set<Hash>)
    requires Closed(s.stored, s.links) && Writable(s, batch)
    ensures var t := Written(s, batch); Closed(t.stored, t.links)
  {
    var t := Written(s, batch);
    forall h, c | h in t.links && c in t.links[h]
      ensures c in t.stored
    {
      if h in batch && c in ChildSet(s.cache[h]) { assert Edge(s.cache, h, c); }
    }
  }

  lemma WrittenOrdered(s: State, batch: set<Hash>)
    requires Acyclic(s) && Ordered(s, {}) && Writable(s, batch)
    ensures var t := Written(s, batch); Acyclic(t) && Ordered(t, {})
  {
    var t := Written(s, batch);
    forall p, c {:trigger Edge(t.cache, p, c)} | Edge(t.cache, p, c) && c !in t.stored
      ensures c in t.cache && p !in t.stored && (p == ZERO || Older(t, c, p))
    {
      assert Edge(s.cache, p, c);
      assert p == ZERO || Older(s, c, p);
    }
  }

  lemma WrittenCounted(s: State, batch: set<Hash>)
    requires batch <= s.cache.Keys
    requires Indexed(s, {}) && Counted(s, {}, multiset{})
    ensures var t := Written(s, batch); Indexed(t, {}) && Counted(t, {}, multiset{})
  {
    var t := Written(s, batch);
    forall h | Tracked(t, {}, h)
      ensures h in t.refBy && t.cache[h].parents == |t.refBy[h]|
    {
      assert Tracked(s, {}, h);
    }
    forall h, q {:trigger Held(t.cache, {}, q, h)} | Tracked(t, {}, h)
      ensures t.refBy[h][q] == Held(t.cache, {}, q, h)
    {
      assert Tracked(s, {}, h);
      assert s.refBy[h][q] == Held(s.cache, {}, q, h);
    }
  }

  /** Writing a batch keeps every invariant, the closure of the disk among them. */
  lemma Write(s: State, batch: set<Hash>)
    requires Inv(s, {}, multiset{}) && Writable(s, batch)
    ensures Inv(Written(s, batch), {}, multiset{})
  {
    WrittenClosed(s, batch);
    WrittenOrdered(s, batch);
    WrittenCounted(s, batch);
  }

  // ---------------------------------------------------------------- what the invariants buy

  /** `p` references `c`, in the cache or on disk. */
  ghost predicate Leads(s: State, p: Hash, c: Hash) {
    Edge(s.cache, p, c) || (p in s.links && c in s.links[p])
  }

  /** A chain of references that starts at a root the meta-root holds. */
  ghost predicate Chain(s: State, path: seq<Hash>) {
    && |path| > 0 && Edge(s.cache, ZERO, path[0])
    && forall i :: 0 < i < |path| ==> Leads(s, path[i - 1], path[i])
  }

  /** Garbage collection is safe: nothing reachable from a held root is ever lost. */
  lemma {:induction false} NothingLost(s: State, path: seq<Hash>)
    requires Inv(s, {}, multiset{}) && Chain(s, path)
    ensures forall i :: 0 <= i < |path| ==> path[i] in s.cache || path[i] in s.stored
  {
    if |path| > 1 {
      var n := |path| - 1;
      assert Chain(s, path[..n]);
      NothingLost(s, path[..n]);
      assert path[n - 1] == path[..n][n - 1];
      assert Leads(s, path[n - 1], path[n]);
    }
  }

  /** Garbage collection is complete: if no cached node has lost its last reference, every
      cached node that is not on disk yet is reachable from a held root. */
  lemma {:induction false} NothingLeaked(s: State, h: Hash) returns (path: seq<Hash>)
    requires Inv(s, {}, multiset{}) && Tracked(s, {}, h)
    requires forall v {:trigger Tracked(s, {}, v)} :: Tracked(s, {}, v) ==> s.cache[v].parents > 0
    ensures Chain(s, path) && path[|path| - 1] == h
    decreases |set q | q in s.cache.Keys && s.rank(q) > s.rank(h)|
  {
    var p :| p in s.refBy[h];
    assert Held(s.cache, {}, p, h) > 0;
    assert Edge(s.cache, p, h);
    if p == ZERO {
      path := [h];
    } else {
      assert Tracked(s, {}, p);
      RankShrinks(s, h, p);
      var front := NothingLeaked(s, p);
      path := front + [h];
      assert Leads(s, path[|path| - 2], path[|path| - 1]);
    }
  }

  lemma RankShrinks(s: State, h: Hash, p: Hash)
    requires p in s.cache && s.rank(h) < s.rank(p)
    ensures |set q | q in s.cache.Keys && s.rank(q) > s.rank(p)| < |set q | q in s.cache.Keys && s.rank(q) > s.rank(h)|
  {
    var small := set q | q in s.cache.Keys && s.rank(q) > s.rank(p);
    var large := set q | q in s.cache.Keys && s.rank(q) > s.rank(h);
    assert small <= large - {p};
    SubsetSize(small, large - {p});
  }

  // ---------------------------------------------------------------- whole runs

  /** What happens to the store: a node is inserted, a reference is made or given up, or nodes are
      written to disk and some of those on disk leave the cache. */
  datatype Op = Inserts(hash: Hash) | Refers(child: Hash, parent: Hash) | Releases(root: Hash) | Stores

  /** Nodes that stay cached refer to what they referred to. */
  ghost predicate SameRefs(a: map<Hash, Core>, b: map<Hash, Core>, but: set<Hash>) {
    forall h {:trigger b[h]} :: h in a && h in b && h !in but ==>
      b[h].refs == a[h].refs && b[h].children == a[h].children
  }

  /** One reference fewer, if there is one. */
  function Decremented(children: map<Hash, nat>, c: Hash): map<Hash, nat> {
    if c in children && children[c] > 0 then
      if children[c] == 1 then children - {c} else children[c := children[c] - 1]
    else
      children
  }

  /** One more reference, where one is recorded: only cached children are, and only the meta-root
      holds one more than once. */
  ghost function Incremented(s: State, c: Hash, p: Hash): map<Hash, nat>
    requires p in s.cache
  {
    var children := s.cache[p].children;
    if c !in s.cache || (p != ZERO && c in children) then children
    else children[c := (if c in children then children[c] else 0) + 1]
  }

  /** What every operation promises: the invariant, and which references there are afterwards. */
  ghost predicate Step(s: State, op: Op, t: State) {
    && Inv(s, {}, multiset{}) && Inv(t, {}, multiset{})
    && match op
       case Inserts(h) => t.stored == s.stored && t.cache.Keys == s.cache.Keys + {h} && SameRefs(s.cache, t.cache, {})
       case Refers(c, p) =>
         && t.stored == s.stored && t.cache.Keys == s.cache.Keys && p in s.cache && SameRefs(s.cache, t.cache, {p})
         && t.cache[p].refs == s.cache[p].refs && t.cache[p].children == Incremented(s, c, p)
       case Releases(r) =>
         && t.stored == s.stored && t.cache.Keys <= s.cache.Keys && SameRefs(s.cache, t.cache, {ZERO})
         && ZERO in s.cache && ZERO in t.cache && t.cache[ZERO].refs == s.cache[ZERO].refs
         && t.cache[ZERO].children == Decremented(s.cache[ZERO].children, r)
       case Stores =>
         && s.stored <= t.stored && t.cache.Keys <= s.cache.Keys && SameRefs(s.cache, t.cache, {})
         && (forall h :: h in s.cache && h !in t.cache ==> h in t.stored)
         && (forall h, c {:trigger Edge(s.cache, h, c)} ::
               Edge(s.cache, h, c) && h in t.stored && h !in s.stored ==> c in t.stored)
  }

  ghost predicate Run(states: seq<State>, ops: seq<Op>) {
    |states| == |ops| + 1 && forall i :: 0 <= i < |ops| ==> Step(states[i], ops[i], states[i + 1])
  }

  /** How often the meta-root holds a root. */
  ghost function Holds(s: State, r: Hash): nat {
    if ZERO in s.cache && r in s.cache[ZERO].children then s.cache[ZERO].children[r] else 0
  }

  /** How much more often a root is referenced than dereferenced. */
  ghost function Net(ops: seq<Op>, r: Hash): int {
    if ops == [] then 0
    else
      Net(ops[..|ops| - 1], r) +
      match ops[|ops| - 1]
      case Refers(c, p) => if c == r && p == ZERO then 1 else 0
      case Releases(c) => if c == r then -1 else 0
      case _ => 0
  }

  lemma StepHolds(s: State, op: Op, t: State, r: Hash)
    requires Step(s, op, t) && (op == Refers(r, ZERO) ==> r in s.cache || r in s.stored)
    ensures s.stored <= t.stored
    ensures r in t.stored || Holds(t, r) >= Holds(s, r) + Net([op], r)
  {
    assert [op][..0] == [];
    assert ZERO in s.cache && ZERO in t.cache;
    if op.Inserts? || op.Stores? { assert t.cache[ZERO].children == s.cache[ZERO].children; }
    if op.Refers? && op.parent != ZERO { assert t.cache[ZERO].children == s.cache[ZERO].children; }
  }

  /** Over any run, a root that is available whenever it is referenced is held at least as often as
      it is referenced more than dereferenced, or is on disk. */
  lemma {:induction false} RunHolds(states: seq<State>, ops: seq<Op>, r: Hash)
    requires Run(states, ops)
    requires forall i :: 0 <= i < |ops| && ops[i] == Refers(r, ZERO) ==> r in states[i].cache || r in states[i].stored
    ensures r in states[|ops|].stored || Holds(states[|ops|], r) >= Holds(states[0], r) + Net(ops, r)
    decreases |ops|
  {
    if ops != [] {
      var n := |ops| - 1;
      assert Run(states[..n + 1], ops[..n]);
      RunHolds(states[..n + 1], ops[..n], r);
      StepHolds(states[n], ops[n], states[n + 1], r);
      assert [ops[n]][..0] == [];
    }
  }

  ghost function Previous(path: seq<Hash>, i: nat): Hash
    requires i < |path|
  {
    if i == 0 then ZERO else path[i - 1]
  }

  /** Every node of a path is on disk, or held by the one before it, the first by the meta-root. */
  ghost predicate Anchored(s: State, path: seq<Hash>) {
    forall i {:trigger path[i]} :: 0 <= i < |path| ==> path[i] in s.stored || Edge(s.cache, Previous(path, i), path[i])
  }

  lemma AnchoredFound(s: State, path: seq<Hash>, i: nat)
    requires Inv(s, {}, multiset{}) && Anchored(s, path) && i < |path|
    ensures path[i] in s.cache || path[i] in s.stored
  {
  }

  /** A step keeps a path anchored whose first node is still held. */
  lemma AnchoredStep(s: State, op: Op, t: State, path: seq<Hash>)
    requires Step(s, op, t) && Anchored(s, path) && path != []
    requires path[0] in t.stored || Edge(t.cache, ZERO, path[0])
    ensures Anchored(t, path)
  {
    forall i | 0 <= i < |path| ensures path[i] in t.stored || Edge(t.cache, Previous(path, i), path[i]) {
      AnchoredAt(s, op, t, path, i);
    }
  }

  lemma {:induction false} AnchoredAt(s: State, op: Op, t: State, path: seq<Hash>, i: nat)
    requires Step(s, op, t) && Anchored(s, path) && i < |path|
    requires path[0] in t.stored || Edge(t.cache, ZERO, path[0])
    ensures path[i] in t.stored || Edge(t.cache, Previous(path, i), path[i])
  {
    hide Step, Edge;
    StepGrows(s, op, t);
    if i > 0 && path[i] !in t.stored {
      var p, c := path[i - 1], path[i];
      assert Edge(s.cache, p, c);
      AnchoredAt(s, op, t, path, i - 1);
      ParentUnstored(s, op, t, p, c);
      KeepsEdge(s, op, t, Previous(path, i - 1), p, c);
    }
  }

  lemma StepGrows(s: State, op: Op, t: State)
    requires Step(s, op, t)
    ensures s.stored <= t.stored
  {
    hide Inv;
  }

  lemma ParentUnstored(s: State, op: Op, t: State, p: Hash, c: Hash)
    requires Step(s, op, t) && Edge(s.cache, p, c) && c !in t.stored
    ensures p !in t.stored
  {
    hide Indexed, Counted, SameRefs, Closed;
    assert Edge(s.cache, p, c) && c !in s.stored;
  }

  /** A node that is held and not on disk keeps its references. */
  lemma KeepsEdge(s: State, op: Op, t: State, q: Hash, p: Hash, c: Hash)
    requires Step(s, op, t) && Edge(s.cache, p, c) && Edge(t.cache, q, p) && p !in t.stored
    ensures Edge(t.cache, p, c)
  {
    hide Indexed, Counted, Closed;
    assert p in t.cache && p != ZERO;
  }

  /** Over any run in which its first node stays held, a path that was anchored is found. */
  lemma {:induction false} RunAnchors(states: seq<State>, ops: seq<Op>, path: seq<Hash>)
    requires Run(states, ops) && path != [] && Inv(states[0], {}, multiset{}) && Anchored(states[0], path)
    requires forall i :: 0 <= i < |states| ==> path[0] in states[i].stored || Holds(states[i], path[0]) > 0
    ensures Anchored(states[|ops|], path)
    ensures forall i :: 0 <= i < |path| ==> path[i] in states[|ops|].cache || path[i] in states[|ops|].stored
    decreases |ops|
  {
    if ops != [] {
      var n := |ops| - 1;
      assert Run(states[..n + 1], ops[..n]);
      RunAnchors(states[..n + 1], ops[..n], path);
      AnchoredStep(states[n], ops[n], states[n + 1], path);
    }
    forall i | 0 <= i < |path| ensures path[i] in states[|ops|].cache || path[i] in states[|ops|].stored {
      AnchoredFound(states[|ops|], path, i);
    }
  }
}
