/**
 Two resets after which the pool is not in order: one leaves a gap between pending nonces, the
 other expects a nonce that the state has passed.
 */
module PoolGaps {
  import opened Common
  import opened TxSortedMap
  import opened TxList
  import opened PoolPlaces
  import opened PoolNonces
  import opened PoolSteps
  import opened PoolRuns
  import opened PoolReturns
  import Pool = TxPool

  /** A single queued transaction that is ready is promoted. */
  lemma OneReady(p: Slots, tx: Tx, start: nat, p': Slots, q': Slots, n: nat, cost: nat, gas: nat, local: bool,
                 limit: nat)
    requires Advanced(p, map[tx.nonce := tx], start, p', q', n, cost, gas, local, limit)
    requires n <= tx.nonce <= start && Affordable(tx, cost, gas)
    ensures p' == p + map[tx.nonce := tx] && q' == map[]
  {
    hide Affordable, RunEnd, ReadyEnd, Clean, Below, From, Lowest;
    var m: Slots := map[tx.nonce := tx];
    OneClean(tx, n, cost, gas);
    OneReadyEnd(tx, start);
    var e := ReadyEnd(m, start);
    OneSplit(tx, e);
    PartSize(From(m, e), q') by { LowestIsPart(From(m, e), q'); }
  }

  lemma LowestIsPart(m: Slots, m': Slots)
    requires Lowest(m, m')
    ensures Part(m', m)
  {
  }

  lemma OneClean(tx: Tx, n: nat, cost: nat, gas: nat)
    requires n <= tx.nonce && Affordable(tx, cost, gas)
    ensures Clean(map[tx.nonce := tx], n, cost, gas) == map[tx.nonce := tx]
  {
    hide Affordable;
  }

  lemma OneReadyEnd(tx: Tx, start: nat)
    requires tx.nonce <= start
    ensures tx.nonce < ReadyEnd(map[tx.nonce := tx], start)
  {
    hide RunEnd;
    var m: Slots := map[tx.nonce := tx];
    assert tx.nonce in m;
    assert LowestKey(m) == tx.nonce;
  }

  lemma OneSplit(tx: Tx, e: nat)
    requires tx.nonce < e
    ensures Below(map[tx.nonce := tx], e) == map[tx.nonce := tx] && From(map[tx.nonce := tx], e) == map[]
  {
  }

  lemma NoneReady(p: Slots, start: nat, p': Slots, q': Slots, n: nat, cost: nat, gas: nat, local: bool, limit: nat)
    requires Advanced(p, map[], start, p', q', n, cost, gas, local, limit)
    ensures p' == p
  {
    hide Advanced, Clean;
    AdvancedIs(p, map[], start, p', q', n, cost, gas, local, limit);
    NoneClean(n, cost, gas);
    assert p + Below(map[], 0) == p;
  }

  lemma NoneClean(n: nat, cost: nat, gas: nat)
    ensures Clean(map[], n, cost, gas) == map[]
  {
  }

  /** In a pool with room a new transaction with a new nonce is queued, and its account is dirty. */
  lemma JoinsQueue(t: Terms, h: Held, tx: Tx, r: PoolError, replaced: bool, h': Held)
    requires Admitted(t, h, tx, false, r, replaced, h') && tx !in h.all && Passes(t, h.locals, tx, false)
             && |h.all| < t.Capacity()
    requires !Has(h.pending, tx.sender, tx.nonce) && !Has(h.queue, tx.sender, tx.nonce)
    ensures r == Accepted && !replaced && h' == h.(queue := Put(h.queue, tx), all := h.all + {tx})
  {
    hide Steps, Spares, Fits, Put, Passes;
  }

  /** The first transaction of an empty pool, if it is the next of its account, is pending. */
  lemma FirstPending(t: Terms, h: Held, tx: Tx, b: Batch, h': Held)
    requires h == Held(map[], map[], {}, map[], {}) && Batched(t, h, [tx], false, b, h')
             && Places(h'.pending, h'.queue, h'.all, {})
    requires Passes(t, {}, tx, false) && t.nonces(tx.sender) == tx.nonce && t.globalSlots >= 1
    ensures Of(h'.pending, tx.sender) == map[tx.nonce := tx] && h'.all == {tx}
  {
    hide Admitted, Promoted, Advanced, Places, Passes, Reached, Clean;
    assert b.seen[0] == h;
    JoinsQueue(t, h, tx, b.rs[0], b.replaced[0], b.seen[1]);
    assert Dirty([tx], b.rs, b.replaced) == {tx.sender} by {
      assert b.rs[0] == Accepted && !b.replaced[0];
    }
    assert |{tx}| == 1;
    Affords(t, {}, tx);
    PromotedAt(t, b.seen[1], b.mid, h', {tx.sender}, tx.sender);
    assert Of(b.seen[1].queue, tx.sender) == map[tx.nonce := tx];
    OneReady(map[], tx, tx.nonce, Of(h'.pending, tx.sender), Of(b.mid.queue, tx.sender), tx.nonce,
             t.balances(tx.sender), t.gas, false, t.accountQueue);
    assert map[] + map[tx.nonce := tx] == map[tx.nonce := tx];
    assert tx.nonce in Of(h'.pending, tx.sender);
    Found(h'.pending, h'.queue, h'.all, tx);
  }

  lemma Affords(t: Terms, locals: set<Addr>, tx: Tx)
    requires Passes(t, locals, tx, false)
    ensures Affordable(tx, t.balances(tx.sender), t.gas) && t.nonces(tx.sender) <= tx.nonce
  {
  }

  // ---------------------------------------------------------------- a gap

  /** Nonce 7 is pending; the head goes back to nonce 5, and of the two transactions that come back
      the one with nonce 6 is refused, being too cheap. Nonce 7 stays pending without it. */
  method ReorgLeavesGap(five: Tx, six: Tx, seven: Tx) returns (pool: Pool.TxPool)
    requires five.sender == six.sender == seven.sender && five.nonce == 5 && six.nonce == 6 && seven.nonce == 7
    requires six.price == 0 && five.price > 0 && seven.price > 0
    ensures fresh(pool) && pool.Valid() && pool.nonces(five.sender) == 5
    ensures Of(pool.pending, five.sender) == map[5 := five, 7 := seven]
            && !Unbroken(pool.pending, pool.nonces, pool.virtual, five.sender)
  {
    hide Places, NoEmpty, Batched, Promoted, Demotes, Passes, Unbroken, Settled, Contiguous, NoneStale, Overbid;
    var a, funds, gas := five.sender, five.Cost() + seven.Cost(), five.gas + seven.gas;
    pool := new Pool.TxPool(4, 4, 4, 4, 10, x => 0, x => true, x => Some(0), 1, gas, x => 7, x => funds);
    ghost var h := pool.Now();
    ghost var b;
    var rs;
    rs, b := pool.AddTxs([seven], false);
    pool.SoundPlaces();
    GoodTerms(pool.Given(), seven);
    FirstPending(pool.Given(), h, seven, b, pool.Now());
    h := pool.Now().(virtual := map[]);
    ghost var back, low, mid;
    b, back, low, mid := pool.Reset(x => 5, x => funds, gas, [five, six]);
    GoodTerms(pool.Given(), five);
    GapBack(pool.Given(), h, five, six, seven, b, back);
    GapLow(pool.Given(), five, seven, back, low);
    GapEnd(pool.Given(), five, seven, low, mid, pool.Now());
  }

  lemma GoodTerms(t: Terms, tx: Tx)
    requires t.size(tx) == 0 && t.signed(tx) && t.intrinsic(tx) == Some(0) && t.price <= tx.price && tx.gas <= t.gas
             && tx.Cost() <= t.balances(tx.sender)
    requires t.nonces(tx.sender) <= tx.nonce
    ensures Passes(t, {}, tx, false)
  {
  }

  lemma GapBack(t: Terms, h: Held, five: Tx, six: Tx, seven: Tx, b: Batch, back: Held)
    requires five.sender == six.sender == seven.sender && five.nonce == 5 && six.nonce == 6 && seven.nonce == 7
    requires Batched(t, h, [five, six], false, b, back) && t.globalSlots >= 2 && t.nonces(five.sender) == 5
    requires h.virtual == map[] && h.locals == {} && h.all == {seven} && Of(h.pending, five.sender) == map[7 := seven]
    requires Places(h.pending, h.queue, h.all, {}) && Passes(t, {}, five, false) && six.price < t.price
    ensures Of(back.pending, five.sender) == map[5 := five, 7 := seven] && back.all <= {five, seven}
  {
    hide Admitted, Promoted, Advanced, Places, Passes, Reached, Clean;
    var a := five.sender;
    assert b.seen[0] == h;
    FreeNonce(h, seven, five);
    JoinsQueue(t, h, five, b.rs[0], b.replaced[0], b.seen[1]);
    TooLowPrice(t, b.seen[1], six, b.rs[1], b.replaced[1], b.seen[2]);
    assert Dirty([five, six], b.rs, b.replaced) == {a} by {
      assert b.rs[0] == Accepted && !b.replaced[0];
    }
    Affords(t, {}, five);
    assert |{seven} + {five}| == 2;
    PromotedAt(t, b.seen[2], b.mid, back, {a}, a);
    assert Of(b.seen[2].queue, a) == map[5 := five];
    OneReady(map[7 := seven], five, 5, Of(back.pending, a), Of(b.mid.queue, a), 5, t.balances(a), t.gas, false,
             t.accountQueue);
    assert map[7 := seven] + map[5 := five] == map[5 := five, 7 := seven];
  }

  /** A pool with one transaction has no other nonce. */
  lemma FreeNonce(h: Held, tx: Tx, other: Tx)
    requires Places(h.pending, h.queue, h.all, {}) && h.all == {tx} && Of(h.pending, tx.sender) == map[tx.nonce := tx]
    requires other.sender == tx.sender && other.nonce != tx.nonce
    ensures !Has(h.pending, other.sender, other.nonce) && Of(h.queue, other.sender) == map[]
            && !Has(h.queue, other.sender, other.nonce)
  {
    hide Places;
    assert tx.nonce in Of(h.pending, tx.sender);
    NothingQueued(h.pending, h.queue, h.all, tx.sender);
  }

  /** An account whose known transactions are all pending has nothing queued. */
  lemma NothingQueued(p: Lists, q: Lists, all: set<Tx>, a: Addr)
    requires Places(p, q, all, {}) && forall x :: x in all && x.sender == a ==> x.nonce in Of(p, a)
    ensures Of(q, a) == map[]
  {
    hide Places;
    ProperLists(p, q, all, {});
    forall n ensures n !in Of(q, a) {
      if n in Of(q, a) { Found(p, q, all, q[a][n]); }
    }
  }

  lemma TooLowPrice(t: Terms, h: Held, tx: Tx, r: PoolError, replaced: bool, h': Held)
    requires Admitted(t, h, tx, false, r, replaced, h') && tx !in h.all && h.locals == {} && tx.price < t.price
    ensures r.Invalid? && h' == h
  {
    hide Steps, Spares, Fits;
  }

  lemma GapLow(t: Terms, five: Tx, seven: Tx, back: Held, low: Held)
    requires five.sender == seven.sender && five.nonce == 5 && seven.nonce == 7 && t.nonces(five.sender) == 5
    requires Affordable(five, t.balances(five.sender), t.gas) && Affordable(seven, t.balances(five.sender), t.gas)
    requires Of(back.pending, five.sender) == map[5 := five, 7 := seven] && back.all <= {five, seven}
             && Demotes(t, back, low)
    ensures Of(low.pending, five.sender) == map[5 := five, 7 := seven] && low.all <= {five, seven}
            && Of(low.queue, five.sender) == map[]
  {
    hide Demoted, Places, Affordable, Above, NoEmpty;
    var a := five.sender;
    GapStays(five, seven, t.balances(a), t.gas);
    assert a in back.pending by { assert 5 in Of(back.pending, a); }
    assert Of(low.pending, a) == map[5 := five, 7 := seven];
    NothingQueued(low.pending, low.queue, low.all, a);
  }

  lemma GapEnd(t: Terms, five: Tx, seven: Tx, low: Held, mid: Held, h: Held)
    requires five.sender == seven.sender && five.nonce == 5 && seven.nonce == 7 && t.nonces(five.sender) == 5
             && t.globalSlots >= 2
    requires Of(low.pending, five.sender) == map[5 := five, 7 := seven] && low.all <= {five, seven}
             && Of(low.queue, five.sender) == map[]
    requires Promoted(t, low, mid, h, low.queue.Keys)
    ensures Of(h.pending, five.sender) == map[5 := five, 7 := seven]
            && !Unbroken(h.pending, t.nonces, h.virtual, five.sender)
  {
    hide Advanced, Promoted;
    var a := five.sender;
    SubsetSize(low.all, {five, seven});
    PromotedAt(t, low, mid, h, low.queue.Keys, a);
    if a in low.queue.Keys {
      NoneReady(Of(low.pending, a), Expected(t.nonces, low.virtual, a), Of(h.pending, a), Of(mid.queue, a), 5,
                t.balances(a), t.gas, a in low.locals, t.accountQueue);
    }
    assert 7 in Of(h.pending, a) && 6 !in Of(h.pending, a);
    assert Has(h.pending, a, 7) && !Has(h.pending, a, 6);
  }

  // ---------------------------------------------------------------- a nonce of the past

  /** The pool is full with nonce 7 of an account; the head moves on to nonce 8, and a dearer
      transaction of another account comes back. It takes the place of nonce 7, which the pool
      expects from then on, although the state has passed it. */
  method ReinjectionSinksNonce(seven: Tx, other: Tx) returns (pool: Pool.TxPool)
    requires seven.sender != other.sender && seven.nonce == 7 && other.nonce == 0 && 0 < seven.price < other.price
    ensures fresh(pool) && pool.Valid() && pool.nonces(seven.sender) == 8
    ensures Of(pool.pending, seven.sender) == map[] && Expected(pool.nonces, pool.virtual, seven.sender) < 8
  {
    hide Places, NoEmpty, Batched, Promoted, Demotes, Passes, Settled, Contiguous, NoneStale, Overbid, Below, Of, Steps,
         Waits, Unbroken, Settles;
    var a, funds, gas := seven.sender, seven.Cost() + other.Cost(), seven.gas + other.gas;
    pool := new Pool.TxPool(1, 0, 1, 1, 10, x => 0, x => true, x => Some(0), 1, gas, x => 7, x => funds);
    ghost var h := pool.Now();
    ghost var b;
    var rs;
    rs, b := pool.AddTxs([seven], false);
    pool.SoundPlaces();
    GoodTerms(pool.Given(), seven);
    FirstPending(pool.Given(), h, seven, b, pool.Now());
    InOrder(pool.pending, pool.nonces, pool.virtual, a);
    h := pool.Now().(virtual := map[]);
    ghost var back, low, mid;
    b, back, low, mid := pool.Reset(x => if x == a then 8 else 0, x => funds, gas, [other]);
    GoodTerms(pool.Given(), other);
    TakesPlace(pool.Given(), h, seven, other, b, back);
    PastLost(h.pending, back.pending, seven, 8);
    SettlesBadly(pool.pending, pool.virtual, pool.nonces, a);
  }

  lemma InOrder(p: Lists, nonces: Addr -> nat, v: map<Addr, nat>, a: Addr)
    requires Contiguous(p, nonces, v)
    ensures Unbroken(p, nonces, v, a)
  {
  }

  lemma SettlesBadly(p: Lists, v: map<Addr, nat>, nonces: Addr -> nat, a: Addr)
    requires Settles(p, v, nonces, a, false)
    ensures Of(p, a) == map[] && Expected(nonces, v, a) < nonces(a)
  {
  }

  lemma PastLost(p: Lists, p': Lists, tx: Tx, n: nat)
    requires Of(p, tx.sender) == map[tx.nonce := tx] && tx.nonce < n && tx.nonce !in Of(p', tx.sender)
    ensures Below(Of(p', tx.sender), n) != Below(Of(p, tx.sender), n)
  {
    assert tx.nonce in Of(p, tx.sender);
    assert tx.nonce in Below(Of(p, tx.sender), n) && tx.nonce !in Below(Of(p', tx.sender), n);
  }

  lemma Evicts(t: Terms, h: Held, seven: Tx, other: Tx, r: PoolError, replaced: bool, h': Held)
    requires Admitted(t, h, other, false, r, replaced, h') && t.Capacity() == 1 && h.locals == {} && h.all == {seven}
    requires Passes(t, {}, other, false) && seven.sender != other.sender && seven.price < other.price
    ensures h'.all <= {other}
  {
    hide Passes, Steps, Joins;
    assert |{seven}| == 1;
    assert other in h'.all;
    if seven in h'.all { SubsetSize({seven, other}, h'.all); }
  }

  lemma TakesPlace(t: Terms, h: Held, seven: Tx, other: Tx, b: Batch, back: Held)
    requires seven.sender != other.sender && seven.price < other.price
    requires Batched(t, h, [other], false, b, back) && Places(back.pending, back.queue, back.all, {})
             && t.Capacity() == 1
    requires h.locals == {} && h.all == {seven} && Of(h.pending, seven.sender) == map[seven.nonce := seven]
             && Passes(t, {}, other, false)
    ensures seven.nonce !in Of(back.pending, seven.sender)
  {
    hide Places, Passes, Admitted;
    assert b.seen[0] == h;
    var h' := b.seen[1];
    Evicts(t, h, seven, other, b.rs[0], b.replaced[0], h');
    assert back.all <= h'.all;
    if seven.nonce in Of(back.pending, seven.sender) {
      ProperLists(back.pending, back.queue, back.all, {});
      Found(back.pending, back.queue, back.all, back.pending[seven.sender][seven.nonce]);
    }
  }
}
