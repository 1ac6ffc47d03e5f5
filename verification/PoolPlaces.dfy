/**
 Where the transactions of the pool are: in an account's pending list, in its queue, or in hand
 while they are being moved. Every known transaction is in exactly one place, and no account has
 two transactions with one nonce.
 */
module PoolPlaces {
  import opened TxSortedMap

  type Lists = map<Addr, Slots>

  predicate Has(l: Lists, a: Addr, n: nat) {
    a in l && n in l[a]
  }

  predicate In(l: Lists, tx: Tx) {
    Has(l, tx.sender, tx.nonce) && l[tx.sender][tx.nonce] == tx
  }

  /** The list of an account, empty when there is none. */
  function Of(l: Lists, a: Addr): Slots {
    if a in l then l[a] else map[]
  }

  /** Replaces the list of an account; empty lists are not kept. */
  function Set(l: Lists, a: Addr, m: Slots): Lists {
    if m == map[] then l - {a} else l[a := m]
  }

  ghost predicate NoEmpty(l: Lists) {
    forall a :: a in l ==> l[a] != map[]
  }

  /** The lists of all other accounts are the same. */
  ghost predicate Elsewhere(l: Lists, l': Lists, a: Addr) {
    forall x {:trigger Of(l', x)} :: x != a ==> Of(l', x) == Of(l, x)
  }

  lemma ElsewhereSet(l: Lists, a: Addr, m: Slots)
    ensures Elsewhere(l, Set(l, a, m), a) && Of(Set(l, a, m), a) == m
  {
  }

  lemma ElsewherePut(l: Lists, l': Lists, tx: Tx)
    requires Elsewhere(l, l', tx.sender)
    ensures Elsewhere(l, Put(l', tx), tx.sender)
    ensures Of(Put(l', tx), tx.sender) == Of(l', tx.sender)[tx.nonce := tx]
  {
    forall x | x != tx.sender ensures Of(Put(l', tx), x) == Of(l, x) { assert Of(l', x) == Of(l, x); }
  }

  /** A known transaction is in some place, and what is in a place is known. */
  ghost predicate Housed(pending: Lists, queue: Lists, all: set<Tx>, hand: set<Tx>, tx: Tx) {
    tx in all <==> In(pending, tx) || In(queue, tx) || tx in hand
  }

  ghost predicate Proper(l: Lists, a: Addr, n: nat) {
    Has(l, a, n) ==> l[a][n].sender == a && l[a][n].nonce == n
  }

  /** A nonce of an account is in one place at most. */
  ghost predicate Sole(pending: Lists, queue: Lists, a: Addr, n: nat) {
    && Proper(pending, a, n) && Proper(queue, a, n)
    && !(Has(pending, a, n) && Has(queue, a, n))
  }

  /** What is in hand takes a nonce that is free in the lists and among what is in hand. */
  ghost predicate Loose(pending: Lists, queue: Lists, hand: set<Tx>, tx: Tx) {
    tx in hand ==>
      && !Has(pending, tx.sender, tx.nonce) && !Has(queue, tx.sender, tx.nonce)
      && forall x :: x in hand && x.sender == tx.sender && x.nonce == tx.nonce ==> x == tx
  }

  ghost predicate Places(pending: Lists, queue: Lists, all: set<Tx>, hand: set<Tx>) {
    && (forall tx {:trigger Housed(pending, queue, all, hand, tx)} :: Housed(pending, queue, all, hand, tx))
    && (forall a, n {:trigger Sole(pending, queue, a, n)} :: Sole(pending, queue, a, n))
    && (forall tx {:trigger Loose(pending, queue, hand, tx)} :: Loose(pending, queue, hand, tx))
  }

  ghost function Values(m: Slots): set<Tx> {
    set n | n in m :: m[n]
  }

  /** One list is part of another. */
  ghost predicate Part(g: Slots, m: Slots) {
    forall n :: n in g ==> n in m && g[n] == m[n]
  }

  ghost predicate Without(m: Slots, g: Slots, m': Slots) {
    forall n :: (n in m' <==> n in m && n !in g) && (n in m' ==> m'[n] == m[n])
  }

  /** Part of a pending list is taken in hand. */
  lemma TakePending(pending: Lists, queue: Lists, all: set<Tx>, hand: set<Tx>, a: Addr, g: Slots, m: Slots)
    requires Places(pending, queue, all, hand) && Part(g, Of(pending, a)) && Without(Of(pending, a), g, m)
    ensures Places(Set(pending, a, m), queue, all, hand + Values(g))
    ensures Values(g) !! hand && Values(g) <= all
  {
    var pending', hand' := Set(pending, a, m), hand + Values(g);
    Taken(pending, queue, a, g, m);
    forall tx ensures Housed(pending', queue, all, hand', tx) {
      assert Housed(pending, queue, all, hand, tx) && Sole(pending, queue, tx.sender, tx.nonce);
    }
    forall x, n ensures Sole(pending', queue, x, n) { assert Sole(pending, queue, x, n); }
    forall tx ensures Loose(pending', queue, hand', tx) {
      assert Loose(pending, queue, hand, tx) && Sole(pending, queue, tx.sender, tx.nonce);
      forall x | x in hand' && tx in hand' && x.sender == tx.sender && x.nonce == tx.nonce ensures x == tx {
        assert Loose(pending, queue, hand, x) && Sole(pending, queue, x.sender, x.nonce);
      }
    }
    forall tx | tx in Values(g) ensures tx !in hand && tx in all {
      assert Loose(pending, queue, hand, tx) && Housed(pending, queue, all, hand, tx);
    }
  }

  /** What is taken from a list is what was in it, and no more. */
  lemma Taken(l: Lists, other: Lists, a: Addr, g: Slots, m: Slots)
    requires (forall x, n {:trigger Sole(l, other, x, n)} :: Sole(l, other, x, n))
    requires Part(g, Of(l, a)) && Without(Of(l, a), g, m)
    ensures forall x, n :: Has(Set(l, a, m), x, n) <==> Has(l, x, n) && !(x == a && n in g)
    ensures forall x, n :: Has(Set(l, a, m), x, n) ==> Set(l, a, m)[x][n] == l[x][n]
    ensures forall tx :: tx in Values(g) <==> tx.sender == a && tx.nonce in g && g[tx.nonce] == tx
    ensures forall tx :: tx in Values(g) ==> In(l, tx)
  {
    forall tx ensures tx in Values(g) <==> tx.sender == a && tx.nonce in g && g[tx.nonce] == tx
      ensures tx in Values(g) ==> In(l, tx)
    {
      if tx in Values(g) {
        var n :| n in g && g[n] == tx;
        assert Sole(l, other, a, n);
      }
    }
  }

  /** Pending lists and queues play the same part. */
  lemma Symmetric(pending: Lists, queue: Lists, all: set<Tx>, hand: set<Tx>)
    requires Places(pending, queue, all, hand)
    ensures Places(queue, pending, all, hand)
  {
    forall tx ensures Housed(queue, pending, all, hand, tx) && Loose(queue, pending, hand, tx) {
      assert Housed(pending, queue, all, hand, tx) && Loose(pending, queue, hand, tx);
    }
    forall a, n ensures Sole(queue, pending, a, n) { assert Sole(pending, queue, a, n); }
  }

  lemma TakeQueue(pending: Lists, queue: Lists, all: set<Tx>, hand: set<Tx>, a: Addr, g: Slots, m: Slots)
    requires Places(pending, queue, all, hand) && Part(g, Of(queue, a)) && Without(Of(queue, a), g, m)
    ensures Places(pending, Set(queue, a, m), all, hand + Values(g))
    ensures Values(g) !! hand && Values(g) <= all
  {
    hide Places;
    Symmetric(pending, queue, all, hand);
    TakePending(queue, pending, all, hand, a, g, m);
    Symmetric(Set(queue, a, m), pending, all, hand + Values(g));
  }

  function Put(l: Lists, tx: Tx): Lists {
    l[tx.sender := Of(l, tx.sender)[tx.nonce := tx]]
  }

  /** A transaction in hand is put into a pending list. */
  lemma PutPending(pending: Lists, queue: Lists, all: set<Tx>, hand: set<Tx>, tx: Tx)
    requires Places(pending, queue, all, hand) && tx in hand
    ensures !Has(pending, tx.sender, tx.nonce) && !Has(queue, tx.sender, tx.nonce)
    ensures Places(Put(pending, tx), queue, all, hand - {tx})
  {
    var pending', hand' := Put(pending, tx), hand - {tx};
    assert Loose(pending, queue, hand, tx);
    forall x ensures Housed(pending', queue, all, hand', x) && Loose(pending', queue, hand', x) {
      assert Housed(pending, queue, all, hand, x) && Loose(pending, queue, hand, x);
    }
    forall a, n ensures Sole(pending', queue, a, n) { assert Sole(pending, queue, a, n); }
  }

  lemma PutQueue(pending: Lists, queue: Lists, all: set<Tx>, hand: set<Tx>, tx: Tx)
    requires Places(pending, queue, all, hand) && tx in hand
    ensures !Has(pending, tx.sender, tx.nonce) && !Has(queue, tx.sender, tx.nonce)
    ensures Places(pending, Put(queue, tx), all, hand - {tx})
  {
    hide Places;
    Symmetric(pending, queue, all, hand);
    PutPending(queue, pending, all, hand, tx);
    Symmetric(Put(queue, tx), pending, all, hand - {tx});
  }

  /** What is in hand is given up. */
  lemma Forget(pending: Lists, queue: Lists, all: set<Tx>, hand: set<Tx>, gone: set<Tx>)
    requires Places(pending, queue, all, hand) && gone <= hand
    ensures Places(pending, queue, all - gone, hand - gone) && gone <= all
  {
    var all', hand' := all - gone, hand - gone;
    forall tx ensures Housed(pending, queue, all', hand', tx) && Loose(pending, queue, hand', tx) {
      assert Housed(pending, queue, all, hand, tx) && Loose(pending, queue, hand, tx);
    }
    forall tx | tx in gone ensures tx in all { assert Housed(pending, queue, all, hand, tx); }
  }

  /** A new transaction comes in, with a nonce that nothing else has. */
  lemma Admit(pending: Lists, queue: Lists, all: set<Tx>, hand: set<Tx>, tx: Tx)
    requires Places(pending, queue, all, hand) && hand == {}
    requires !Has(pending, tx.sender, tx.nonce) && !Has(queue, tx.sender, tx.nonce)
    ensures Places(pending, queue, all + {tx}, {tx}) && tx !in all
  {
    forall x ensures Housed(pending, queue, all + {tx}, {tx}, x) && Loose(pending, queue, {tx}, x) {
      assert Housed(pending, queue, all, hand, x);
    }
    assert Housed(pending, queue, all, hand, tx);
  }

  /** A new transaction takes the place of a pending one with its nonce. */
  lemma ReplacePending(pending: Lists, queue: Lists, all: set<Tx>, tx: Tx)
    requires Places(pending, queue, all, {}) && tx !in all && Has(pending, tx.sender, tx.nonce)
    ensures var prior := pending[tx.sender][tx.nonce];
            prior in all && Places(Put(pending, tx), queue, all - {prior} + {tx}, {})
  {
    var prior, pending' := pending[tx.sender][tx.nonce], Put(pending, tx);
    var all' := all - {prior} + {tx};
    assert Sole(pending, queue, tx.sender, tx.nonce) && Housed(pending, queue, all, {}, prior);
    forall x ensures Housed(pending', queue, all', {}, x) && Loose(pending', queue, {}, x) {
      assert Housed(pending, queue, all, {}, x);
    }
    forall a, n ensures Sole(pending', queue, a, n) { assert Sole(pending, queue, a, n); }
  }

  lemma ReplaceQueued(pending: Lists, queue: Lists, all: set<Tx>, tx: Tx)
    requires Places(pending, queue, all, {}) && tx !in all && Has(queue, tx.sender, tx.nonce)
    ensures var prior := queue[tx.sender][tx.nonce];
            prior in all && Places(pending, Put(queue, tx), all - {prior} + {tx}, {})
  {
    hide Places;
    Symmetric(pending, queue, all, {});
    ReplacePending(queue, pending, all, tx);
    Symmetric(Put(queue, tx), pending, all - {queue[tx.sender][tx.nonce]} + {tx}, {});
  }

  /** A new transaction with a new nonce is queued. */
  lemma AddQueued(pending: Lists, queue: Lists, all: set<Tx>, tx: Tx)
    requires Places(pending, queue, all, {}) && tx !in all
    requires !Has(pending, tx.sender, tx.nonce) && !Has(queue, tx.sender, tx.nonce)
    ensures Places(pending, Put(queue, tx), all + {tx}, {})
  {
    hide Places;
    Admit(pending, queue, all, {}, tx);
    PutQueue(pending, queue, all + {tx}, {tx}, tx);
    assert {tx} - {tx} == {};
  }

  lemma PutNoEmpty(l: Lists, tx: Tx)
    requires NoEmpty(l)
    ensures NoEmpty(Put(l, tx))
  {
    assert tx.nonce in Put(l, tx)[tx.sender];
  }

  lemma SetNoEmpty(l: Lists, a: Addr, m: Slots)
    requires NoEmpty(l)
    ensures NoEmpty(Set(l, a, m))
  {
  }

  /** Everything from a nonce on is taken from a pending list. */
  lemma TakeFrom(pending: Lists, queue: Lists, all: set<Tx>, a: Addr, n: nat)
    requires Places(pending, queue, all, {}) && a in pending
    ensures Places(Set(pending, a, Below(pending[a], n)), queue, all, Values(From(pending[a], n)))
  {
    TakePending(pending, queue, all, {}, a, From(pending[a], n), Below(pending[a], n));
    assert {} + Values(From(pending[a], n)) == Values(From(pending[a], n));
  }

  /** One transaction is taken from a queue. */
  lemma TakeOne(pending: Lists, queue: Lists, all: set<Tx>, tx: Tx)
    requires Places(pending, queue, all, {}) && In(queue, tx)
    ensures Places(pending, Set(queue, tx.sender, queue[tx.sender] - {tx.nonce}), all, {tx})
  {
    var g: Slots := map[tx.nonce := tx];
    TakeQueue(pending, queue, all, {}, tx.sender, g, queue[tx.sender] - {tx.nonce});
    assert tx.nonce in g;
    assert {} + Values(g) == {tx};
  }

  lemma ValuesFrom(m: Slots, tx: Tx)
    requires Keyed(m) && tx.nonce in m && m[tx.nonce] == tx
    ensures tx in Values(From(m, tx.nonce)) && Values(From(m, tx.nonce)) - {tx} == Values(From(m, tx.nonce + 1))
  {
    var a, b := From(m, tx.nonce), From(m, tx.nonce + 1);
    assert tx.nonce in a && a[tx.nonce] == tx;
    forall x ensures x in Values(a) && x != tx <==> x in Values(b) {
      if x in Values(a) && x != tx {
        var n :| n in a && a[n] == x;
        assert n in b && b[n] == x;
      }
      if x in Values(b) {
        var n :| n in b && b[n] == x;
        assert n in a && a[n] == x;
      }
    }
  }

  /** Where a known transaction is. */
  lemma Found(pending: Lists, queue: Lists, all: set<Tx>, tx: Tx)
    requires Places(pending, queue, all, {})
    ensures tx in all <==> In(pending, tx) || In(queue, tx)
    ensures !(Has(pending, tx.sender, tx.nonce) && Has(queue, tx.sender, tx.nonce))
  {
    assert Housed(pending, queue, all, {}, tx) && Sole(pending, queue, tx.sender, tx.nonce);
  }

  /** Every list is under its own account and nonces. */
  lemma ProperLists(pending: Lists, queue: Lists, all: set<Tx>, hand: set<Tx>)
    requires Places(pending, queue, all, hand)
    ensures forall a :: a in pending ==> Keyed(pending[a]) && forall n :: n in pending[a] ==> pending[a][n].sender == a
    ensures forall a :: a in queue ==> Keyed(queue[a]) && forall n :: n in queue[a] ==> queue[a][n].sender == a
  {
    forall a, n | Has(pending, a, n) ensures pending[a][n].nonce == n && pending[a][n].sender == a {
      assert Sole(pending, queue, a, n);
    }
    forall a, n | Has(queue, a, n) ensures queue[a][n].nonce == n && queue[a][n].sender == a {
      assert Sole(pending, queue, a, n);
    }
    forall a | a in pending ensures Keyed(pending[a]) && forall n :: n in pending[a] ==> pending[a][n].sender == a {
      forall n | n in pending[a] ensures pending[a][n].nonce == n
      && pending[a][n].sender == a { assert Has(pending, a, n); }
    }
    forall a | a in queue ensures Keyed(queue[a]) && forall n :: n in queue[a] ==> queue[a][n].sender == a {
      forall n | n in queue[a] ensures queue[a][n].nonce == n && queue[a][n].sender == a { assert Has(queue, a, n); }
    }
  }

  /** What leaves a queue while the same transactions stay known has become pending. */
  lemma Moved(pending: Lists, queue: Lists, pending': Lists, queue': Lists, all: set<Tx>, a: Addr, g: Slots)
    requires Places(pending, queue, all, {}) && Places(pending', queue', all, {})
    requires Part(g, Of(queue, a)) && Without(Of(queue, a), g, Of(queue', a))
    ensures Of(pending', a) == Of(pending, a) + g
  {
    var p, p', q, q' := Of(pending, a), Of(pending', a), Of(queue, a), Of(queue', a);
    forall n: nat ensures n in p' ==> n in p + g && p'[n] == (p + g)[n] {
      if n in p' {
        assert Has(pending', a, n) && Sole(pending', queue', a, n);
        assert Housed(pending', queue', all, {}, p'[n]) && Housed(pending, queue, all, {}, p'[n]);
        assert Sole(pending, queue, a, n);
      }
    }
    forall n: nat ensures n in p + g ==> n in p' {
      if n in p + g {
        var tx := (p + g)[n];
        assert Sole(pending, queue, a, n) && Sole(pending', queue', a, n);
        assert Has(pending, a, n) || Has(queue, a, n);
        assert Housed(pending', queue', all, {}, tx) && Housed(pending, queue, all, {}, tx);
      }
    }
  }

  /** A pending list is cut at a transaction, which is given up: what followed it has been queued. */
  lemma CutQueued(pending: Lists, queue: Lists, all: set<Tx>, pending': Lists, queue': Lists, tx: Tx, x: Addr)
    requires Places(pending, queue, all, {}) && Places(pending', queue', all - {tx}, {}) && In(pending, tx)
    requires pending' == Set(pending, tx.sender, Below(pending[tx.sender], tx.nonce))
    ensures Of(queue', x) == Of(queue, x) + (if x == tx.sender then From(pending[x], tx.nonce + 1) else map[])
  {
    var q, q', g := Of(queue, x), Of(queue', x), if x == tx.sender then From(pending[x], tx.nonce + 1) else map[];
    CutHas(pending, pending', tx);
    forall n: nat ensures n in q' ==> n in q + g && q'[n] == (q + g)[n] {
      if n in q' {
        assert Has(queue', x, n) && Sole(pending', queue', x, n);
        assert Housed(pending', queue', all - {tx}, {}, q'[n]) && Housed(pending, queue, all, {}, q'[n]);
        assert Sole(pending, queue, x, n);
      }
    }
    forall n: nat ensures n in q + g ==> n in q' {
      if n in q + g {
        var y := (q + g)[n];
        assert Sole(pending, queue, x, n) && Sole(pending', queue', x, n);
        assert Has(pending, x, n) || Has(queue, x, n);
        assert Housed(pending', queue', all - {tx}, {}, y) && Housed(pending, queue, all, {}, y);
      }
    }
  }

  lemma CutHas(pending: Lists, pending': Lists, tx: Tx)
    requires In(pending, tx) && pending' == Set(pending, tx.sender, Below(pending[tx.sender], tx.nonce))
    ensures forall a, n: nat :: Has(pending', a, n) <==> Has(pending, a, n) && !(a == tx.sender && n >= tx.nonce)
    ensures forall a, n :: Has(pending', a, n) ==> pending'[a][n] == pending[a][n]
  {
    var m := pending[tx.sender];
    forall n: nat ensures n in Below(m, tx.nonce) <==> n in m && n < tx.nonce {
    }
  }

  // ---------------------------------------------------------------- contiguous nonces

  /** The nonce that the pool expects next: the state's, unless pending transactions go beyond. */
  function Expected(nonces: Addr -> nat, virtual: map<Addr, nat>, a: Addr): nat {
    if a in virtual then virtual[a] else nonces(a)
  }

  /** The pending nonces of an account are exactly those from the state's nonce up to the expected one. */
  ghost predicate Unbroken(pending: Lists, nonces: Addr -> nat, virtual: map<Addr, nat>, a: Addr) {
    && nonces(a) <= Expected(nonces, virtual, a)
    && forall n: nat :: Has(pending, a, n) <==> nonces(a) <= n < Expected(nonces, virtual, a)
  }

  ghost predicate Contiguous(pending: Lists, nonces: Addr -> nat, virtual: map<Addr, nat>) {
    forall a {:trigger Unbroken(pending, nonces, virtual, a)} :: Unbroken(pending, nonces, virtual, a)
  }

  /** Nothing in the queue is older than the state. */
  ghost predicate NoneStale(queue: Lists, nonces: Addr -> nat) {
    forall a, n :: Has(queue, a, n) ==> nonces(a) <= n
  }

  /** What an account has queued does not include the nonce that is expected next. */
  ghost predicate Waits(queue: Lists, nonces: Addr -> nat, virtual: map<Addr, nat>, a: Addr) {
    Expected(nonces, virtual, a) !in Of(queue, a)
  }

  /** Nothing that could be executed is left in the queue, but for some accounts. */
  ghost predicate Settled(queue: Lists, nonces: Addr -> nat, virtual: map<Addr, nat>, but: set<Addr>) {
    forall a {:trigger Waits(queue, nonces, virtual, a)} :: a !in but ==> Waits(queue, nonces, virtual, a)
  }

  /** Accounts that wait keep waiting. */
  ghost predicate KeepWaiting(q: Lists, v: map<Addr, nat>, q': Lists, v': map<Addr, nat>, nonces: Addr -> nat) {
    forall a {:trigger Waits(q', nonces, v', a)} :: Waits(q, nonces, v, a) ==> Waits(q', nonces, v', a)
  }

  /** A cut leaves the queues as fresh as they were, and nothing executable in them. */
  lemma CutWaits(pending: Lists, queue: Lists, all: set<Tx>, pending': Lists, queue': Lists, tx: Tx,
                 nonces: Addr -> nat, virtual: map<Addr, nat>)
    requires Places(pending, queue, all, {}) && Places(pending', queue', all - {tx}, {}) && In(pending, tx)
    requires pending' == Set(pending, tx.sender, Below(pending[tx.sender], tx.nonce))
    ensures KeepWaiting(queue, virtual, queue', virtual[tx.sender := tx.nonce], nonces)
    ensures NoneStale(queue, nonces) && nonces(tx.sender) <= tx.nonce ==> NoneStale(queue', nonces)
    ensures Elsewhere(queue, queue', tx.sender)
  {
    hide Places;
    var virtual' := virtual[tx.sender := tx.nonce];
    Found(pending, queue, all, tx);
    forall a ensures Waits(queue, nonces, virtual, a) ==> Waits(queue', nonces, virtual', a) {
      CutQueued(pending, queue, all, pending', queue', tx, a);
    }
    if NoneStale(queue, nonces) && nonces(tx.sender) <= tx.nonce {
      forall a, n | Has(queue', a, n) ensures nonces(a) <= n {
        CutQueued(pending, queue, all, pending', queue', tx, a);
        if !Has(queue, a, n) { assert n in From(pending[a], tx.nonce + 1); }
      }
    }
    forall a | a != tx.sender ensures Of(queue', a) == Of(queue, a) {
      CutQueued(pending, queue, all, pending', queue', tx, a);
    }
  }

  /** A shorter pending list: the nonces that are expected again have never been queued. */
  lemma StillWaits(pending: Lists, queue: Lists, all: set<Tx>, nonces: Addr -> nat, virtual: map<Addr, nat>,
                   pending': Lists, queue': Lists, virtual': map<Addr, nat>, a: Addr)
    requires Places(pending, queue, all, {}) && Waits(queue, nonces, virtual, a)
    requires Contiguous(pending, nonces, virtual) && Contiguous(pending', nonces, virtual')
    requires (forall n :: n in Of(pending', a) ==> n in Of(pending, a))
             && (forall n :: n in Of(queue', a) ==> n in Of(queue, a))
    ensures Waits(queue', nonces, virtual', a)
  {
    var e, e' := Expected(nonces, virtual, a), Expected(nonces, virtual', a);
    assert Unbroken(pending, nonces, virtual, a) && Unbroken(pending', nonces, virtual', a);
    if e' > e {
      assert Has(pending', a, e);
      assert e in Of(pending', a) && e in Of(pending, a);
      assert Has(pending, a, e);
    } else if e' < e {
      assert Has(pending, a, e') && Sole(pending, queue, a, e');
    }
  }

  // ---------------------------------------------------------------- sizes

  /** The number of transactions in all lists. */
  ghost function Total(l: Lists): nat
    decreases |l|
  {
    if l == map[] then 0
    else
      var a :| a in l;
      assert l.Keys == (l - {a}).Keys + {a};
      |l[a]| + Total(l - {a})
  }

  lemma TotalPick(l: Lists) returns (a: Addr)
    requires l != map[]
    ensures a in l && Total(l) == |l[a]| + Total(l - {a}) && |l - {a}| == |l| - 1
  {
    a :| a in l && Total(l) == |l[a]| + Total(l - {a});
    assert l.Keys == (l - {a}).Keys + {a};
  }

  lemma {:induction false} TotalSplit(l: Lists, a: Addr)
    requires a in l
    ensures Total(l) == |l[a]| + Total(l - {a})
    decreases |l|
  {
    hide Total;
    var b := TotalPick(l);
    if b != a {
      TotalSplit(l - {b}, a);
      assert l.Keys == (l - {a}).Keys + {a};
      TotalSplit(l - {a}, b);
      SwapOut(l, a, b);
    }
  }

  lemma SwapOut(l: Lists, a: Addr, b: Addr)
    ensures l - {b} - {a} == l - {a} - {b}
  {
  }

  lemma TotalSet(l: Lists, a: Addr, m: Slots)
    ensures Total(Set(l, a, m)) == Total(l) - |Of(l, a)| + |m|
  {
    hide Total;
    if a in l {
      TotalSplit(l, a);
    } else {
      NotThere(l, a);
    }
    if m != map[] {
      TotalSplit(l[a := m], a);
      SetOut(l, a, m);
    }
  }

  lemma NotThere(l: Lists, a: Addr)
    requires a !in l
    ensures l - {a} == l
  {
  }

  lemma SetOut(l: Lists, a: Addr, m: Slots)
    ensures l[a := m] - {a} == l - {a}
  {
  }

  /** The lowest nonces of a list are kept. */
  ghost predicate Lowest(m: Slots, m': Slots) {
    Part(m', m) && forall n, k :: n in m' && k in m && k !in m' ==> n < k
  }

  lemma LowestTwice(m0: Slots, m1: Slots, m2: Slots)
    requires Lowest(m0, m1) && Lowest(m1, m2)
    ensures Lowest(m0, m2)
  {
    forall n, k | n in m2 && k in m0 && k !in m2 ensures n < k {
      assert n in m1;
    }
  }

  /** Some accounts have lost their highest nonces; the others have lost nothing. */
  ghost predicate Trimmed(l: Lists, l': Lists, accounts: set<Addr>) {
    forall a {:trigger Of(l', a)} :: if a in accounts then Lowest(Of(l, a), Of(l', a)) else Of(l', a) == Of(l, a)
  }

  lemma TrimmedOne(l: Lists, l1: Lists, l2: Lists, accounts: set<Addr>, a: Addr)
    requires Trimmed(l, l1, accounts) && Elsewhere(l1, l2, a) && Lowest(Of(l1, a), Of(l2, a)) && a in accounts
    ensures Trimmed(l, l2, accounts)
  {
    forall x ensures if x in accounts then Lowest(Of(l, x), Of(l2, x)) else Of(l2, x) == Of(l, x) {
      assert Of(l1, x) == Of(l1, x);
      if x == a { LowestTwice(Of(l, a), Of(l1, a), Of(l2, a)); } else { assert Of(l2, x) == Of(l1, x); }
    }
  }

  lemma TrimmedMore(l: Lists, l1: Lists, accounts: set<Addr>, more: set<Addr>)
    requires Trimmed(l, l1, accounts) && accounts <= more
    ensures Trimmed(l, l1, more)
  {
    forall x ensures if x in more then Lowest(Of(l, x), Of(l1, x)) else Of(l1, x) == Of(l, x) {
      assert Of(l1, x) == Of(l1, x);
    }
  }
}
